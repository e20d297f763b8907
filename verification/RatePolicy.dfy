/** From a request to a bucket: which policy applies, which key names the bucket, and when all the
    calls that reach one bucket carry the same limit and window. */
module RatePolicy {
  import opened Options
  import TokenBucket
  import LimiterRuns
  import LocalLimiter

  datatype BasedOn = Unspecified | UserId | ApiKey | Unrecognized

  /** A match message whose oneof may be unset; its exact getter then reads as empty. */
  datatype StringMatch = Unset | Exact(s: string) | Prefix(p: string)

  datatype Policy = Policy(basedOn: BasedOn, matcher: Option<StringMatch>, limit: int, duration: int)

  datatype Request = Request(apiKey: string, userName: string, model: string)

  /** The arguments of `checkBucket` in a call that consults a bucket. */
  datatype Call = Call(key: string, window: int, limit: int)

  predicate Keyed(b: BasedOn) { b == ApiKey || b == UserId }

  function Identity(b: BasedOn, r: Request): string
    requires Keyed(b)
  {
    if b == ApiKey then r.apiKey else r.userName
  }

  function ExactOf(m: StringMatch): string { if m.Exact? then m.s else "" }

  function PrefixOf(m: StringMatch): string { if m.Prefix? then m.p else "" }

  predicate Accepts(m: Option<StringMatch>, value: string) {
    m.None? || ExactOf(m.value) == value || (PrefixOf(m.value) != "" && PrefixOf(m.value) <= value)
  }

  predicate Applies(p: Policy, r: Request) {
    Keyed(p.basedOn) && Accepts(p.matcher, Identity(p.basedOn, r))
  }

  /** The position of the first policy that applies. */
  function FirstMatch(r: Request, policies: seq<Policy>): (i: Option<nat>)
    ensures i.Some? ==> i.value < |policies| && Applies(policies[i.value], r)
    ensures i.Some? ==> forall j | 0 <= j < i.value :: !Applies(policies[j], r)
    ensures i.None? ==> forall p | p in policies :: !Applies(p, r)
  {
    if policies == [] then None
    else if Applies(policies[0], r) then Some(0)
    else match FirstMatch(r, policies[1..])
      case None => None
      case Some(j) => Some(j + 1)
  }

  method FindMatchingPolicy(apiKey: string, userName: string, policies: seq<Policy>) returns (found: Option<Policy>)
    ensures var i := FirstMatch(Request(apiKey, userName, ""), policies);
            found == if i.Some? then Some(policies[i.value]) else None
  {
    ghost var r := Request(apiKey, userName, "");
    for i := 0 to |policies|
      invariant forall j | 0 <= j < i :: !Applies(policies[j], r)
    {
      var policy := policies[i];
      var value: string;
      match policy.basedOn {
        case ApiKey => value := apiKey;
        case UserId => value := userName;
        case Unspecified => continue;
        case Unrecognized => continue;
      }
      var matched := false;
      if policy.matcher.None? {
        matched := true;
      } else if ExactOf(policy.matcher.value) == value {
        matched := true;
      } else if PrefixOf(policy.matcher.value) != "" && PrefixOf(policy.matcher.value) <= value {
        matched := true;
      }
      if matched {
        assert Applies(policies[i], r);
        assert FirstMatch(r, policies) == Some(i);
        return Some(policy);
      }
    }
    return None;
  }

  function Name(b: BasedOn): (s: string)
    requires Keyed(b)
    ensures |s| == 7
  {
    if b == ApiKey then "API_KEY" else "USER_ID"
  }

  function BuildKey(serverPrefix: string, b: BasedOn, value: string, routeName: string): string
    requires Keyed(b)
  {
    serverPrefix + ":" + Name(b) + ":" + value + ":" + routeName
  }

  /** `allowRequest`: it matches the policy again before it consults a bucket. */
  function AllowRequest(serverPrefix: string, r: Request, p: Policy): Option<Call> {
    if !Keyed(p.basedOn) then None
    else if !Accepts(p.matcher, Identity(p.basedOn, r)) then None
    else if p.limit == 0 then None
    else Some(Call(BuildKey(serverPrefix, p.basedOn, Identity(p.basedOn, r), r.model),
                   LocalLimiter.EffectiveWindow(p.duration), p.limit))
  }

  /** The bucket that a request is charged to; `None` lets it pass unlimited. */
  function OnRequest(serverPrefix: string, r: Request, policies: seq<Policy>): Option<Call> {
    if r.apiKey == "" && r.userName == "" then None
    else match FirstMatch(r, policies)
      case None => None
      case Some(i) => AllowRequest(serverPrefix, r, policies[i])
  }

  /** The second match never disagrees with the first: a request that carries an identity is charged
      exactly when its first applicable policy has a limit, and to that policy's limit. */
  lemma RematchAgrees(serverPrefix: string, r: Request, policies: seq<Policy>)
    ensures var i, call := FirstMatch(r, policies), OnRequest(serverPrefix, r, policies);
            && (call.Some? <==> (r.apiKey != "" || r.userName != "") && i.Some? && policies[i.value].limit != 0)
            && (call.Some? ==>
                  && call.value.limit == policies[i.value].limit
                  && call.value.window == (if policies[i.value].duration != 0 then policies[i.value].duration else 60)
                  && call.value.key == (if policies[i.value].basedOn == ApiKey
                                        then serverPrefix + ":" + "API_KEY" + ":" + r.apiKey + ":" + r.model
                                        else serverPrefix + ":" + "USER_ID" + ":" + r.userName + ":" + r.model))
  {
  }

  /** Which identities a policy applies to, by its kind and its matcher. */
  lemma PolicyApplies(p: Policy, r: Request)
    ensures p.basedOn == Unspecified || p.basedOn == Unrecognized ==> !Applies(p, r)
    ensures p.basedOn == ApiKey ==> (Applies(p, r) <==> Accepts(p.matcher, r.apiKey))
    ensures p.basedOn == UserId ==> (Applies(p, r) <==> Accepts(p.matcher, r.userName))
  {
  }

  /** Without a matcher a policy accepts every identity, with an exact one that identity only, with an
      unset one, or an empty prefix, the empty identity only. */
  lemma MatcherAccepts(s: string, v: string)
    ensures Accepts(None, v)
    ensures Accepts(Some(Exact(s)), v) <==> v == s
    ensures Accepts(Some(Unset), v) <==> v == ""
    ensures Accepts(Some(Prefix("")), v) <==> v == ""
  {
  }

  // ----- Keys

  /** `v` extends `u` by a colon and more: the one way two identities can share a key. */
  predicate ColonExtends(u: string, v: string) {
    |u| < |v| && u <= v && v[|u|] == ':'
  }

  /** Two keys are equal exactly when kind and "identity:model" are. */
  lemma KeysEqual(pre: string, b1: BasedOn, v1: string, m1: string, b2: BasedOn, v2: string, m2: string)
    requires Keyed(b1) && Keyed(b2)
    ensures BuildKey(pre, b1, v1, m1) == BuildKey(pre, b2, v2, m2) <==> b1 == b2 && v1 + ":" + m1 == v2 + ":" + m2
  {
    KeyParts(pre, b1, v1, m1);
    KeyParts(pre, b2, v2, m2);
    if b1 == b2 && v1 + ":" + m1 == v2 + ":" + m2 {
      assert BuildKey(pre, b1, v1, m1) == BuildKey(pre, b2, v2, m2);
    } else {
      hide BuildKey;
      assert Name(ApiKey)[0] != Name(UserId)[0];
    }
  }

  lemma KeyParts(pre: string, b: BasedOn, v: string, m: string)
    requires Keyed(b)
    ensures var k, n := BuildKey(pre, b, v, m), |pre|;
            && |k| >= n + 9 && k[n + 1..n + 8] == Name(b) && k[n + 9..] == v + ":" + m
            && k == pre + ":" + Name(b) + ":" + (v + ":" + m)
  {
  }

  lemma SplitIdentity(v1: string, m1: string, v2: string, m2: string)
    requires v1 + ":" + m1 == v2 + ":" + m2 && |v1| <= |v2|
    ensures v1 == v2 || ColonExtends(v1, v2)
  {
    var s := v1 + ":" + m1;
    assert s[..|v1|] == v1 && s[..|v2|] == v2 && s[|v1|] == ':';
    assert v2[..|v1|] == s[..|v1|];
    if |v1| < |v2| { assert v2[|v1|] == s[|v1|]; } else { assert v1 == v2; }
  }

  ghost predicate From(r: Request, ids: iset<string>) { r.apiKey in ids && r.userName in ids }

  /** With one server prefix and one policy list, calls for the same bucket carry the same limit and
      window, for all requests whose identities come from `ids`. */
  ghost predicate OneLimit(pre: string, policies: seq<Policy>, ids: iset<string>) {
    forall r1, r2 | From(r1, ids) && From(r2, ids) :: SameQuota(OnRequest(pre, r1, policies), OnRequest(pre, r2, policies))
  }

  predicate SameQuota(a: Option<Call>, b: Option<Call>) {
    a.Some? && b.Some? && a.value.key == b.value.key ==> a == b
  }

  ghost predicate Separated(ids: iset<string>) {
    forall u, v | u in ids && v in ids :: !ColonExtends(u, v)
  }

  /** The same kind and the same identity select the same policy: a policy of that kind earlier in
      the list would have applied to both requests. */
  lemma SamePolicy(r1: Request, r2: Request, policies: seq<Policy>)
    requires FirstMatch(r1, policies).Some? && FirstMatch(r2, policies).Some?
    requires var p1, p2 := policies[FirstMatch(r1, policies).value], policies[FirstMatch(r2, policies).value];
             p1.basedOn == p2.basedOn && Identity(p1.basedOn, r1) == Identity(p2.basedOn, r2)
    ensures FirstMatch(r1, policies) == FirstMatch(r2, policies)
  {
  }

  lemma SeparatedHasOneLimit(pre: string, policies: seq<Policy>, ids: iset<string>)
    requires Separated(ids)
    ensures OneLimit(pre, policies, ids)
  {
    forall r1, r2 | From(r1, ids) && From(r2, ids)
      ensures SameQuota(OnRequest(pre, r1, policies), OnRequest(pre, r2, policies))
    {
      var c1, c2 := OnRequest(pre, r1, policies), OnRequest(pre, r2, policies);
      if c1.Some? && c2.Some? && c1.value.key == c2.value.key {
        var p1, p2 := policies[FirstMatch(r1, policies).value], policies[FirstMatch(r2, policies).value];
        var v1, v2 := Identity(p1.basedOn, r1), Identity(p2.basedOn, r2);
        KeysEqual(pre, p1.basedOn, v1, r1.model, p2.basedOn, v2, r2.model);
        if |v1| <= |v2| { SplitIdentity(v1, r1.model, v2, r2.model); } else { SplitIdentity(v2, r2.model, v1, r1.model); }
        SamePolicy(r1, r2, policies);
      }
    }
  }

  /** Two identities that are not separated share a bucket with two limits. */
  lemma CollisionHasTwoLimits(pre: string, u: string, v: string, ids: iset<string>)
    requires ColonExtends(u, v) && u in ids && v in ids
    ensures !OneLimit(pre, [Policy(ApiKey, Some(Exact(u)), 1, 60), Policy(ApiKey, None, 2, 60)], ids)
  {
    var policies := [Policy(ApiKey, Some(Exact(u)), 1, 60), Policy(ApiKey, None, 2, 60)];
    var r1 := Request(u, v, v[|u| + 1..] + ":" + "m");
    var r2 := Request(v, v, "m");
    assert FirstMatch(r1, policies) == Some(0);
    assert policies[1..] == [policies[1]];
    assert FirstMatch(r2, policies) == Some(1);
    assert u + ":" + r1.model == v + ":" + r2.model;
    KeysEqual(pre, ApiKey, u, r1.model, ApiKey, v, r2.model);
    assert From(r1, ids) && From(r2, ids);
    assert !SameQuota(OnRequest(pre, r1, policies), OnRequest(pre, r2, policies));
  }

  /** One limit per bucket, exactly: for every policy list all calls that reach one bucket agree, if
      and only if no identity in use extends another by a colon and more. */
  lemma OneLimitPerKey(pre: string, ids: iset<string>)
    ensures (forall policies :: OneLimit(pre, policies, ids)) <==> Separated(ids)
  {
    if Separated(ids) {
      forall policies ensures OneLimit(pre, policies, ids) { SeparatedHasOneLimit(pre, policies, ids); }
    } else {
      var u, v :| u in ids && v in ids && ColonExtends(u, v);
      CollisionHasTwoLimits(pre, u, v, ids);
    }
  }

  /** Identities free of colons are separated. */
  lemma ColonFreeSeparated(ids: iset<string>)
    requires forall v | v in ids :: ':' !in v
    ensures Separated(ids)
  {
  }

  /** What the runs of a shard assume: one quota for each key, that every charged request uses. */
  lemma QuotaOfEachKey(pre: string, policies: seq<Policy>, ids: iset<string>) returns (q: LimiterRuns.Quotas)
    requires Separated(ids)
    ensures forall r | From(r, ids) && OnRequest(pre, r, policies).Some? ::
              var c := OnRequest(pre, r, policies).value;
              q(c.key) == TokenBucket.Quota(c.limit, c.window)
  {
    SeparatedHasOneLimit(pre, policies, ids);
    ghost var f := (k: string) =>
      if exists r :: Charged(pre, policies, ids, r, k)
      then var r :| Charged(pre, policies, ids, r, k);
           var c := OnRequest(pre, r, policies).value;
           TokenBucket.Quota(c.limit, c.window)
      else TokenBucket.Quota(1, 1);
    q := f;
    forall r | From(r, ids) && OnRequest(pre, r, policies).Some?
      ensures var c := OnRequest(pre, r, policies).value;
              q(c.key) == TokenBucket.Quota(c.limit, c.window)
    {
      var c := OnRequest(pre, r, policies).value;
      assert Charged(pre, policies, ids, r, c.key);
      var r' :| Charged(pre, policies, ids, r', c.key) && var c' := OnRequest(pre, r', policies).value;
                q(c.key) == TokenBucket.Quota(c'.limit, c'.window);
      assert SameQuota(OnRequest(pre, r, policies), OnRequest(pre, r', policies));
    }
  }

  ghost predicate Charged(pre: string, policies: seq<Policy>, ids: iset<string>, r: Request, key: string) {
    From(r, ids) && OnRequest(pre, r, policies).Some? && OnRequest(pre, r, policies).value.key == key
  }

  // ----- Requests without an identity of some kind

  /** As intended a prefix matches what begins with it; as written it also matches the empty value,
      because the exact getter of a prefix reads as empty. */
  lemma PrefixAccepts(p: string, v: string)
    requires p != ""
    ensures Accepts(Some(Prefix(p)), v) <==> p <= v || v == ""
  {
  }

  /** The matchers that accept the empty identity: all but those with a non-empty exact value. */
  predicate TakesEmpty(m: Option<StringMatch>) { m.None? || !m.value.Exact? || m.value.s == "" }

  function Other(b: BasedOn): (o: BasedOn)
    requires Keyed(b)
    ensures Keyed(o) && o != b
  {
    if b == ApiKey then UserId else ApiKey
  }

  /** The policy at `i` is of kind `b` with a limit and takes the empty identity, and no earlier policy
      takes the request: none of kind `b` takes the empty identity, none of the other kind the
      identity that the request has. */
  predicate ChargesEmpty(policies: seq<Policy>, i: nat, b: BasedOn, other: string)
    requires Keyed(b) && i < |policies|
  {
    && policies[i].basedOn == b && policies[i].limit != 0 && TakesEmpty(policies[i].matcher)
    && forall j | 0 <= j < i ::
         && !(policies[j].basedOn == b && TakesEmpty(policies[j].matcher))
         && !(policies[j].basedOn == Other(b) && Accepts(policies[j].matcher, other))
  }

  /** A request that lacks the identity of kind `b` but has the other one is charged to the bucket of
      the empty identity of that kind, which all such requests for a model share, if and only if the
      policy list has such a policy; and then to that policy's limit. */
  lemma EmptyIdentityCharged(pre: string, r: Request, policies: seq<Policy>, b: BasedOn)
    requires Keyed(b) && Identity(b, r) == "" && Identity(Other(b), r) != ""
    ensures (exists c :: OnRequest(pre, r, policies) == Some(c) && c.key == BuildKey(pre, b, "", r.model))
       <==> exists i :: 0 <= i < |policies| && ChargesEmpty(policies, i, b, Identity(Other(b), r))
    ensures forall i | 0 <= i < |policies| && ChargesEmpty(policies, i, b, Identity(Other(b), r)) ::
              OnRequest(pre, r, policies) ==
              Some(Call(BuildKey(pre, b, "", r.model), LocalLimiter.EffectiveWindow(policies[i].duration), policies[i].limit))
  {
    var other := Identity(Other(b), r);
    forall p: Policy
      ensures Applies(p, r) <==>
              (p.basedOn == b && TakesEmpty(p.matcher)) || (p.basedOn == Other(b) && Accepts(p.matcher, other))
    {
    }
    forall i | 0 <= i < |policies| && ChargesEmpty(policies, i, b, other) ensures FirstMatch(r, policies) == Some(i) {
      assert Applies(policies[i], r) && policies[i] in policies;
    }
    var call := OnRequest(pre, r, policies);
    if call.Some? && call.value.key == BuildKey(pre, b, "", r.model) {
      var i := FirstMatch(r, policies).value;
      var kind := policies[i].basedOn;
      KeysEqual(pre, kind, Identity(kind, r), r.model, b, "", r.model);
      assert ChargesEmpty(policies, i, b, other);
    }
  }
}
