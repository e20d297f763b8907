/** How a cluster rewrites the JSON body of a request: the model name, default parameters, overriding
    parameters and removals, as JSON patches (RFC 6902) on a text buffer that a parsed copy follows. */
module RequestRewrite {
  import opened Options
  import Fallback

  datatype Value = Text(s: string) | Other(json: string)

  type Body = map<string, Value>

  datatype Patch = Add(key: string, value: Value) | Replace(key: string, value: Value) | Remove(key: string)

  /** The patch and JSON libraries: patching a text at path "/" + key, and parsing a text. */
  datatype Library = Library(patch: (string, Patch) -> Option<string>, parse: string -> Option<Body>)

  /** Keys that are one pointer segment without escapes. */
  predicate Simple(key: string) { '/' !in key && '~' !in key }

  /** Sections 4.1 to 4.3 of RFC 6902 for a member of the top object.  An addition replaces, a
      replacement needs the member; removal is asked to accept a missing one. */
  function Apply(p: Patch, b: Body): Option<Body> {
    match p
    case Add(k, v) => Some(b[k := v])
    case Replace(k, v) => if k in b then Some(b[k := v]) else None
    case Remove(k) => Some(b - {k})
  }

  /** The library follows the standard for simple keys; other paths may do anything. */
  ghost predicate Standard(lib: Library) {
    forall t: string, p: Patch {:trigger lib.patch(t, p)} | lib.parse(t).Some? && Simple(p.key) ::
      match Apply(p, lib.parse(t).value)
      case None => lib.patch(t, p) == None
      case Some(b) => lib.patch(t, p).Some? && lib.parse(lib.patch(t, p).value) == Some(b)
  }

  /** One patch step: the new buffer and the body parsed from it, or an error. */
  function ModifyBufferBodyAndParsed(buffer: string, p: Patch, lib: Library): (r: Option<(string, Body)>)
    ensures r.Some? ==> lib.parse(r.value.0) == Some(r.value.1)
    ensures Standard(lib) && Simple(p.key) && lib.parse(buffer).Some? ==>
              var want := Apply(p, lib.parse(buffer).value);
              (r.Some? <==> want.Some?) && (r.Some? ==> r.value.1 == want.value)
  {
    match lib.patch(buffer, p)
    case None => None
    case Some(t) => match lib.parse(t) { case None => None case Some(b) => Some((t, b)) }
  }

  const MODEL := "model"

  datatype Cluster = Cluster(name: string, defaults: Body, overrides: Body, removed: seq<string>)

  predicate SimpleKeys(m: Body) { forall k | k in m :: Simple(k) }

  predicate SimpleList(ks: seq<string>) { forall k | k in ks :: Simple(k) }

  predicate AllSimple(c: Cluster) { SimpleKeys(c.defaults) && SimpleKeys(c.overrides) && SimpleList(c.removed) }

  function Elements(ks: seq<string>): set<string> { set k | k in ks }

  /** The body a cluster sends for a body that names a model. */
  function Rewrite(c: Cluster, b: Body): Body {
    var named := b[MODEL := Text(c.name)];
    (c.defaults + named + c.overrides) - Elements(c.removed)
  }

  /** How a rewrite ends: it works, a patch is refused with an error, or a missing buffer is read. */
  datatype Outcome = Done | Refused | Panicked

  /** What a request carries from attempt to attempt: a body, nothing after a refused patch, or it has
      brought its handler down. */
  datatype Carried = Has(body: Body) | Gone | Crashed

  /** The rewrite of one attempt. */
  function Attempt(c: Cluster, x: Carried): Carried {
    match x
    case Has(b) => if MODEL in b then Has(Rewrite(c, b)) else Gone
    case _ => Crashed
  }

  /** The rewrites of the attempts at `cs`, one after the other. */
  function Through(cs: seq<Cluster>, x: Carried): Carried {
    if cs == [] then x else Attempt(cs[|cs| - 1], Through(cs[..|cs| - 1], x))
  }

  lemma ThroughNext(cs: seq<Cluster>, n: nat, x: Carried)
    requires n < |cs|
    ensures Through(cs[..n + 1], x) == Attempt(cs[n], Through(cs[..n], x))
  {
    assert cs[..n + 1][..n] == cs[..n] && cs[..n + 1][n] == cs[n];
  }

  lemma {:induction false} CrashedStays(cs: seq<Cluster>, n: nat, x: Carried)
    requires n <= |cs| && Through(cs[..n], x) == Crashed
    ensures Through(cs, x) == Crashed
  {
    if n < |cs| {
      assert cs[..|cs| - 1][..n] == cs[..n];
      CrashedStays(cs[..|cs| - 1], n, x);
    } else {
      assert cs[..n] == cs;
    }
  }

  class ChatCompletionsRequest {
    const lib: Library
    var model: string
    var bodyBuffer: Option<string>
    var bodyParsed: Option<Body>

    /** The buffer holds the JSON text of the parsed body. */
    ghost predicate Agree()
      reads this
    {
      bodyBuffer.Some? && bodyParsed.Some? && lib.parse(bodyBuffer.value) == bodyParsed
    }

    /** After a failed patch neither is left; another patch would read a buffer that is gone. */
    ghost predicate Lost()
      reads this
    {
      bodyBuffer.None? && bodyParsed.None?
    }

    /** A rewrite that works keeps buffer and body together, and one that does not leaves neither; one
        that starts without them cannot work. */
    twostate predicate Ends(o: Outcome)
      reads this
    {
      match o
      case Done => Agree() || (old(Lost()) && Lost())
      case Refused => old(Agree()) && Lost()
      case Panicked => old(Lost()) && Lost()
    }

    constructor (lib: Library, buffer: string, parsed: Body, model: string)
      requires lib.parse(buffer) == Some(parsed)
      ensures Agree() && bodyParsed == Some(parsed) && this.lib == lib && this.model == model
    {
      this.lib, this.model := lib, model;
      this.bodyBuffer, this.bodyParsed := Some(buffer), Some(parsed);
    }

    /** One patch.  Without a buffer the program dereferences nil. */
    method Modify(p: Patch) returns (o: Outcome)
      requires Agree() || Lost()
      modifies this`bodyBuffer, this`bodyParsed
      ensures Ends(o) && (o == Panicked <==> old(Lost()))
      ensures o == Done ==> Agree()
      ensures Standard(lib) && Simple(p.key) && old(Agree()) ==>
                var want := Apply(p, old(bodyParsed).value);
                (o == Done <==> want.Some?) && (o == Done ==> bodyParsed == want)
    {
      if bodyBuffer.None? {
        return Panicked;
      }
      var r := ModifyBufferBodyAndParsed(bodyBuffer.value, p, lib);
      if r.None? {
        bodyBuffer, bodyParsed := None, None;
        return Refused;
      }
      bodyBuffer, bodyParsed := Some(r.value.0), Some(r.value.1);
      return Done;
    }

    method SetModel(name: string) returns (o: Outcome)
      requires Agree() || Lost()
      modifies this
      ensures Ends(o) && (o == Panicked <==> old(Lost()))
      ensures o == Done ==> Agree()
      ensures model == if o == Done then name else old(model)
      ensures Standard(lib) && old(Agree()) ==> (o == Done <==> MODEL in old(bodyParsed).value)
      ensures Standard(lib) && o == Done ==> bodyParsed == Some(old(bodyParsed).value[MODEL := Text(name)])
    {
      o := Modify(Replace(MODEL, Text(name)));
      if o == Done {
        model := name;
      }
    }

    /** A model in the body, if it is a string, becomes the request's model. */
    method FollowModel()
      modifies this`model
      ensures model == if bodyParsed.Some? then ModelOf(bodyParsed.value, old(model)) else old(model)
    {
      if bodyParsed.Some? {
        var body := bodyParsed.value;
        if MODEL in body && body[MODEL].Text? && model != body[MODEL].s {
          model := body[MODEL].s;
        }
      }
    }

    /** Defaults, in any order, fill in what the body does not have. */
    method SetDefaultParams(params: Body) returns (o: Outcome)
      requires Agree() || Lost()
      modifies this
      ensures Ends(o) && (o == Panicked <==> old(Lost()) && params != map[])
      ensures Standard(lib) && SimpleKeys(params) && old(Agree()) ==>
                o == Done && bodyParsed == Some(params + old(bodyParsed).value) && model == ModelOf(bodyParsed.value, old(model))
    {
      var rest := params.Keys;
      ghost var start := if bodyParsed.Some? then bodyParsed.value else map[];
      while rest != {}
        invariant rest <= params.Keys && model == old(model)
        invariant if old(Agree()) then Agree() else Lost() && rest == params.Keys
        invariant Standard(lib) && SimpleKeys(params) && Agree() ==> bodyParsed.value == (params - rest) + start
      {
        var k :| k in rest;
        if bodyParsed.None? || k !in bodyParsed.value {
          o := Modify(Add(k, params[k]));
          if o != Done {
            return;
          }
          if Standard(lib) && SimpleKeys(params) {
            AddDefault(params, rest, start, k);
          }
        } else if Standard(lib) && SimpleKeys(params) {
          SkipDefault(params, rest, start, k);
        }
        rest := rest - {k};
      }
      assert params - {} == params;
      FollowModel();
      o := Done;
    }

    method SetOverrideParams(params: Body) returns (o: Outcome)
      requires Agree() || Lost()
      modifies this
      ensures Ends(o) && (o == Panicked <==> old(Lost()) && params != map[])
      ensures Standard(lib) && SimpleKeys(params) && old(Agree()) ==>
                o == Done && bodyParsed == Some(old(bodyParsed).value + params) && model == ModelOf(bodyParsed.value, old(model))
    {
      var rest := params.Keys;
      ghost var start := if bodyParsed.Some? then bodyParsed.value else map[];
      assert start + (params - params.Keys) == start;
      while rest != {}
        invariant rest <= params.Keys && model == old(model)
        invariant if old(Agree()) then Agree() else Lost() && rest == params.Keys
        invariant Standard(lib) && SimpleKeys(params) && Agree() ==> bodyParsed.value == start + (params - rest)
      {
        var k :| k in rest;
        o := Modify(Add(k, params[k]));
        if o != Done {
          return;
        }
        assert (start + (params - rest))[k := params[k]] == start + (params - (rest - {k}));
        rest := rest - {k};
      }
      assert params - {} == params;
      FollowModel();
      o := Done;
    }

    method RemoveParamKeys(keys: seq<string>) returns (o: Outcome)
      requires Agree() || Lost()
      modifies this`bodyBuffer, this`bodyParsed
      ensures Ends(o) && (o == Panicked <==> old(Lost()) && keys != [])
      ensures Standard(lib) && SimpleList(keys) && old(Agree()) ==>
                o == Done && bodyParsed == Some(old(bodyParsed).value - Elements(keys))
    {
      ghost var start := if bodyParsed.Some? then bodyParsed.value else map[];
      assert start - Elements([]) == start;
      for i := 0 to |keys|
        invariant if old(Agree()) then Agree() else Lost() && i == 0
        invariant Standard(lib) && SimpleList(keys) && Agree() ==> bodyParsed.value == start - Elements(keys[..i])
      {
        o := Modify(Remove(keys[i]));
        if o != Done {
          return;
        }
        assert keys[i] in keys;
        assert Elements(keys[..i + 1]) == Elements(keys[..i]) + {keys[i]};
        assert start - Elements(keys[..i]) - {keys[i]} == start - Elements(keys[..i + 1]);
      }
      assert keys[..|keys|] == keys;
      o := Done;
    }

    /** The four rewrites in their order.  A body without a model is refused, and is then gone. */
    method RequestModifier(c: Cluster) returns (o: Outcome)
      requires Agree() || Lost()
      modifies this
      ensures Ends(o) && (o == Panicked <==> old(Lost()))
      ensures o == Done ==> Agree()
      ensures Standard(lib) && AllSimple(c) && old(Agree()) ==> (o == Done <==> MODEL in old(bodyParsed).value)
      ensures Standard(lib) && AllSimple(c) && o == Done ==>
                && bodyParsed == Some(Rewrite(c, old(bodyParsed).value))
                && model == (if MODEL in c.overrides && c.overrides[MODEL].Text? then c.overrides[MODEL].s else c.name)
    {
      o := SetModel(c.name);
      if o != Done {
        return;
      }
      o := SetDefaultParams(c.defaults);
      if o != Done {
        return;
      }
      o := SetOverrideParams(c.overrides);
      if o != Done {
        return;
      }
      o := RemoveParamKeys(c.removed);
    }

    /** What the request carries, once its body was read. */
    ghost function Carries(): (x: Carried)
      reads this
    {
      if bodyParsed.Some? then Has(bodyParsed.value) else Gone
    }

    /** The rewrites of the attempts that the fallback loop makes at `cs`.  A refused rewrite fails its
        attempt and the loop goes on to the next one; only a panic ends it. */
    method RewriteForAttempts(cs: seq<Cluster>) returns (o: Outcome)
      requires Agree()
      modifies this
      ensures Agree() || Lost()
      ensures Standard(lib) && (forall c | c in cs :: AllSimple(c)) ==>
                match Through(cs, Has(old(bodyParsed).value))
                case Has(b) => o == Done && bodyParsed == Some(b)
                case Gone => o == Refused && Lost()
                case Crashed => o == Panicked
    {
      ghost var x := Has(bodyParsed.value);
      ghost var fine := Standard(lib) && forall c | c in cs :: AllSimple(c);
      o := Done;
      assert cs[..0] == [];
      for i := 0 to |cs|
        invariant Agree() || Lost()
        invariant o == if Agree() then Done else Refused
        invariant fine ==> Through(cs[..i], x) == Carries()
      {
        ghost var fit := fine ==> AllSimple(cs[i]);
        assert fit by { assert cs[i] in cs; }
        ThroughNext(cs, i, x);
        o := RequestModifier(cs[i]);
        if o == Panicked {
          if fine { CrashedStays(cs, i + 1, x); }
          return;
        }
      }
      assert cs[..|cs|] == cs;
    }
  }

  function ModelOf(b: Body, otherwise: string): string {
    if MODEL in b && b[MODEL].Text? then b[MODEL].s else otherwise
  }

  lemma AddDefault(params: Body, rest: set<string>, start: Body, k: string)
    requires k in rest && rest <= params.Keys && k !in (params - rest) + start
    ensures ((params - rest) + start)[k := params[k]] == (params - (rest - {k})) + start
  {
  }

  lemma SkipDefault(params: Body, rest: set<string>, start: Body, k: string)
    requires k in rest && rest <= params.Keys && k in (params - rest) + start
    ensures (params - rest) + start == (params - (rest - {k})) + start
  {
  }

  // ----- The closed form

  /** What the rewritten body holds under each key: removed keys nothing, then the overrides, the
      cluster's name as the model, what the client sent, and the defaults. */
  lemma Precedence(c: Cluster, b: Body, k: string)
    ensures var r := Rewrite(c, b);
            if k in c.removed then k !in r
            else if k in c.overrides then k in r && r[k] == c.overrides[k]
            else if k == MODEL then k in r && r[k] == Text(c.name)
            else if k in b then k in r && r[k] == b[k]
            else if k in c.defaults then k in r && r[k] == c.defaults[k]
            else k !in r
  {
  }

  lemma SameBody(a: Body, b: Body)
    requires forall k :: (k in a <==> k in b) && (k in a ==> a[k] == b[k])
    ensures a == b
  {
  }

  /** A retry at the same cluster sends the same body, exactly when "model" is not removed; otherwise
      the rewritten body has no model and the next rewrite refuses it. */
  lemma RetryAtSameCluster(c: Cluster, b: Body)
    ensures var r := Rewrite(c, b);
            (MODEL in r && Rewrite(c, r) == r) <==> MODEL !in c.removed
  {
    var r := Rewrite(c, b);
    Precedence(c, b, MODEL);
    if MODEL !in c.removed {
      forall k ensures (k in Rewrite(c, r) <==> k in r) && (k in r ==> Rewrite(c, r)[k] == r[k]) {
        Precedence(c, b, k);
        Precedence(c, r, k);
      }
      SameBody(Rewrite(c, r), r);
    }
  }

  /** A cluster that removes "model" leaves a body that the rewrite of the next attempt refuses. */
  lemma NextAttemptRefused(first: Cluster, b: Body)
    ensures MODEL !in Rewrite(first, b) <==> MODEL in first.removed
  {
    Precedence(first, b, MODEL);
  }

  /** The keys that a rewrite by `c` decides, whatever body it gets. */
  predicate Decides(c: Cluster, k: string) { k in c.removed || k in c.overrides || k == MODEL }

  /** Nothing that `first` does to a body is left after a rewrite by `second`. */
  ghost predicate Covers(first: Cluster, second: Cluster) {
    forall k | !Decides(second, k) ::
      k !in first.removed && k !in first.overrides &&
      (k in first.defaults ==> k in second.defaults && second.defaults[k] == first.defaults[k])
  }

  /** A retry at `second` is possible, and sends what it would have sent without the attempt at
      `first`. */
  ghost predicate LeavesNoTrace(first: Cluster, second: Cluster, b: Body) {
    MODEL in Rewrite(first, b) && Rewrite(second, Rewrite(first, b)) == Rewrite(second, b)
  }

  lemma CoveredLeavesNoTrace(first: Cluster, second: Cluster, b: Body)
    requires Covers(first, second) && MODEL !in first.removed
    ensures LeavesNoTrace(first, second, b)
  {
    var r := Rewrite(first, b);
    NextAttemptRefused(first, b);
    forall k
      ensures k in Rewrite(second, r) <==> k in Rewrite(second, b)
      ensures k in Rewrite(second, r) ==> Rewrite(second, r)[k] == Rewrite(second, b)[k]
    {
      Precedence(first, b, k);
      Precedence(second, r, k);
      Precedence(second, b, k);
    }
    SameBody(Rewrite(second, r), Rewrite(second, b));
  }

  /** A value different from the given one. */
  function Unlike(v: Value): (r: Value)
    ensures r != v
  {
    if v == Text("") then Text("x") else Text("")
  }

  /** A body that shows what `first` left behind under `k`. */
  lemma TraceShows(first: Cluster, second: Cluster, k: string) returns (b: Body)
    requires !Decides(second, k)
    requires k in first.removed || k in first.overrides ||
             (k in first.defaults && !(k in second.defaults && second.defaults[k] == first.defaults[k]))
    ensures MODEL in b && !LeavesNoTrace(first, second, b)
  {
    b := map[MODEL := Text("m")];
    if k in first.removed {
      b := b[k := Unlike(if k in second.defaults then second.defaults[k] else Text(""))];
    } else if k in first.overrides {
      b := b[k := Unlike(first.overrides[k])];
    }
    var r := Rewrite(first, b);
    Precedence(first, b, k);
    Precedence(second, r, k);
    Precedence(second, b, k);
  }

  /** A fallback from one cluster to another is possible and clean for every body, exactly when the
      first does not remove "model" and the second decides or repeats everything else that the first
      one may have put into the body or taken out of it. */
  lemma RetryAtOtherCluster(first: Cluster, second: Cluster)
    ensures (forall b: Body | MODEL in b :: LeavesNoTrace(first, second, b))
       <==> MODEL !in first.removed && Covers(first, second)
  {
    if MODEL in first.removed {
      var b: Body := map[MODEL := Text("m")];
      NextAttemptRefused(first, b);
      assert MODEL in b && !LeavesNoTrace(first, second, b);
    } else if Covers(first, second) {
      forall b: Body | MODEL in b ensures LeavesNoTrace(first, second, b) { CoveredLeavesNoTrace(first, second, b); }
    } else {
      var k :| !Decides(second, k) && (k in first.removed || k in first.overrides ||
               (k in first.defaults && !(k in second.defaults && second.defaults[k] == first.defaults[k])));
      var b := TraceShows(first, second, k);
    }
  }

  // ----- Any number of attempts

  /** What becomes of a request with a model after attempts at `cs`: it has a body exactly when no
      cluster but the last removes "model"; the handler panics exactly when a cluster removes "model"
      and at least two attempts follow, the first to be refused and the second to find no buffer. */
  lemma {:induction false} AttemptsEnd(cs: seq<Cluster>, b: Body)
    requires MODEL in b
    ensures var x := Through(cs, Has(b));
            && (x.Has? <==> forall n | 0 <= n < |cs| - 1 :: MODEL !in cs[n].removed)
            && (x.Crashed? <==> exists n :: 0 <= n < |cs| - 2 && MODEL in cs[n].removed)
            && (x.Has? && cs != [] ==> (MODEL in x.body <==> MODEL !in cs[|cs| - 1].removed))
  {
    if cs != [] {
      var pre, c := cs[..|cs| - 1], cs[|cs| - 1];
      AttemptsEnd(pre, b);
      assert forall n | 0 <= n < |pre| :: pre[n] == cs[n];
      if Through(pre, Has(b)).Has? { NextAttemptRefused(c, Through(pre, Has(b)).body); }
    }
  }

  /** The attempts that a fallback with this `MaxRetries` makes at one cluster if all of them fail. */
  function AllRetries(c: Cluster, maxRetries: nat): (cs: seq<Cluster>)
    ensures |cs| == Fallback.Retries(maxRetries) + 1 && forall n | 0 <= n < |cs| :: cs[n] == c
  {
    seq(Fallback.Retries(maxRetries) + 1, _ => c)
  }

  /** A route with a fallback to one cluster whose upstream keeps failing: its handler panics if and
      only if the cluster removes "model" and more than one retry is allowed (zero means three). */
  lemma FallbackPanics(c: Cluster, b: Body, maxRetries: nat)
    requires MODEL in b
    ensures Through(AllRetries(c, maxRetries), Has(b)) == Crashed <==> MODEL in c.removed && maxRetries != 1
  {
    var cs := AllRetries(c, maxRetries);
    AttemptsEnd(cs, b);
    if MODEL in c.removed && maxRetries != 1 { assert MODEL in cs[0].removed; }
  }

  function Get(b: Body, k: string): Option<Value> { if k in b then Some(b[k]) else None }

  /** The number of attempts up to the last one that decides `k`. */
  function Decided(cs: seq<Cluster>, k: string): (n: nat)
    ensures n <= |cs| && (n > 0 ==> Decides(cs[n - 1], k))
    ensures forall i | n <= i < |cs| :: !Decides(cs[i], k)
  {
    if cs == [] || Decides(cs[|cs| - 1], k) then |cs| else Decided(cs[..|cs| - 1], k)
  }

  /** What a cluster that decides `k` leaves there. */
  function Decision(c: Cluster, k: string): Option<Value>
    requires Decides(c, k)
  {
    if k in c.removed then None else if k in c.overrides then Some(c.overrides[k]) else Some(Text(c.name))
  }

  /** The first default for `k` among the clusters. */
  function FirstDefault(cs: seq<Cluster>, k: string): Option<Value> {
    if cs == [] then None
    else match FirstDefault(cs[..|cs| - 1], k)
      case Some(v) => Some(v)
      case None => Get(cs[|cs| - 1].defaults, k)
  }

  function Or(a: Option<Value>, b: Option<Value>): Option<Value> { if a.Some? then a else b }

  lemma DecidedIs(c: Cluster, b: Body, k: string)
    requires Decides(c, k)
    ensures Get(Rewrite(c, b), k) == Decision(c, k)
  {
    Precedence(c, b, k);
  }

  lemma Undecided(c: Cluster, b: Body, k: string)
    requires !Decides(c, k)
    ensures Get(Rewrite(c, b), k) == Or(Get(b, k), Get(c.defaults, k))
  {
    Precedence(c, b, k);
  }

  /** What the last of any number of attempts sends under each key, if it gets to send anything: the
      last attempt that removes or overrides the key (or names the model) decides; before any such
      the client's value counts; and where that leaves nothing, the first default of the attempts
      since then. */
  lemma {:induction false} LastSends(cs: seq<Cluster>, b: Body, k: string)
    requires Through(cs, Has(b)).Has?
    ensures var n, sent := Decided(cs, k), Through(cs, Has(b)).body;
            Get(sent, k) == Or(if n == 0 then Get(b, k) else Decision(cs[n - 1], k), FirstDefault(cs[n..], k))
  {
    var n := Decided(cs, k);
    if cs == [] {
      assert cs[n..] == [];
    } else {
      var c, pre := cs[|cs| - 1], cs[..|cs| - 1];
      var before := Through(pre, Has(b));
      assert before.Has? && Through(cs, Has(b)) == Has(Rewrite(c, before.body));
      hide Rewrite, Decision, Through, Decides;
      if n == |cs| {
        DecidedIs(c, before.body, k);
        assert cs[n..] == [];
      } else {
        LastSends(pre, b, k);
        Undecided(c, before.body, k);
        DefaultsOn(cs, n, k);
      }
    }
  }

  lemma DefaultsOn(cs: seq<Cluster>, n: nat, k: string)
    requires n < |cs|
    ensures FirstDefault(cs[n..], k) == Or(FirstDefault(cs[..|cs| - 1][n..], k), Get(cs[|cs| - 1].defaults, k))
  {
    var since := cs[n..];
    assert since[..|since| - 1] == cs[..|cs| - 1][n..] && since[|since| - 1] == cs[|cs| - 1];
  }
}
