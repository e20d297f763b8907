/** Exactly which calls the Redis script denies, from the times of a key's calls and the answers
    before: no token, refill or expiry is mentioned. */
module RedisAnswers {
  import opened Options
  import opened RedisBucket

  function Count(answers: seq<bool>): nat {
    if answers == [] then 0 else Count(answers[..|answers| - 1]) + if answers[|answers| - 1] then 1 else 0
  }

  /** A full bucket and what some milliseconds bring, less what some requests took. */
  function Lot(limit: int, w: int, elapsed: int, admitted: int): real
    requires w > 0
  {
    (limit * 1000) as real + (elapsed as real) * ((limit * 1000) as real / (w as real)) - (1000 * admitted) as real
  }

  /** What a stretch of calls leaves for one more, if its first call found a full bucket. */
  function Left(limit: int, w: int, times: seq<int>, answers: seq<bool>, i: nat, n: nat): real
    requires w > 0 && i <= n < |times| && n <= |answers|
  {
    Lot(limit, w, times[n] - times[i], Count(answers[i..n]))
  }

  /** The calls at `times` with one limit, and their answers. */
  function Serve(h: Option<Stored>, times: seq<int>, q: Quota): (Option<Stored>, seq<bool>)
    requires q.windowMs != 0
  {
    if times == [] then (h, [])
    else
      var (h1, answers) := Serve(h, times[..|times| - 1], q);
      var (b, ok) := Script(h1, q, times[|times| - 1]);
      (Some(b), answers + [ok])
  }

  ghost predicate Ordered(times: seq<int>) { forall i, j | 0 <= i < j < |times| :: times[i] <= times[j] }

  predicate AtMost(tokens: real, q: Quota, times: seq<int>, answers: seq<bool>, i: nat, n: nat)
    requires q.windowMs > 0 && i <= n < |times| && n <= |answers|
  {
    tokens <= Left(q.limit, q.windowMs, times, answers, i, n)
  }

  /** `tokens` is what the scarcest stretch up to the call at `n` leaves. */
  ghost predicate Scarcest(tokens: real, q: Quota, times: seq<int>, answers: seq<bool>, n: nat)
    requires q.windowMs > 0 && n < |times| && n <= |answers|
  {
    && (forall i | 0 <= i <= n :: AtMost(tokens, q, times, answers, i, n))
    && exists i :: 0 <= i <= n && tokens == Left(q.limit, q.windowMs, times, answers, i, n)
  }

  function Least(a: real, b: real): real { if a <= b then a else b }

  /** One call: what it finds, in terms of what the call before left. */
  lemma OneCall(b: Stored, q: Quota, now: int) returns (found: real)
    requires q.windowMs > 0 && q.limit >= 1 && b.limit == q.limit * 1000
    ensures found == Least((q.limit * 1000) as real, b.tokens + ((now - b.lastUpdate) as real) * ((q.limit * 1000) as real / (q.windowMs as real)))
    ensures var (b1, ok) := Script(Some(b), q, now);
            && (ok <==> found >= 1000.0)
            && b1.tokens == found - (if ok then 1000.0 else 0.0)
            && b1.lastUpdate == now && b1.limit == q.limit * 1000
  {
    found := Refilled(b, q, now);
  }

  lemma FirstCall(q: Quota, now: int)
    requires q.windowMs > 0 && q.limit >= 1
    ensures var (b, ok) := Script(None, q, now);
            ok && b.tokens == (q.limit * 1000) as real - 1000.0 && b.lastUpdate == now && b.limit == q.limit * 1000
  {
    assert ((now - now) as real) * FillRate(q) == 0.0;
  }

  lemma LotNext(limit: int, w: int, elapsed: int, admitted: int, more: int, ok: bool)
    requires w > 0
    ensures Lot(limit, w, elapsed + more, admitted + if ok then 1 else 0) ==
            Lot(limit, w, elapsed, admitted) + (more as real) * ((limit * 1000) as real / (w as real)) - (if ok then 1000.0 else 0.0)
  {
    Products(elapsed as real, more as real, (limit * 1000) as real / (w as real));
    assert (elapsed + more) as real == (elapsed as real) + (more as real);
  }

  lemma CountNext(answers: seq<bool>, ok: bool, i: nat, n: nat)
    requires i <= n == |answers|
    ensures Count((answers + [ok])[i..n + 1]) == Count(answers[i..n]) + if ok then 1 else 0
  {
    var stretch := (answers + [ok])[i..n + 1];
    assert stretch[..|stretch| - 1] == answers[i..n] && stretch[|stretch| - 1] == ok;
  }

  /** One more call: every stretch that reaches back before it has its time and its answer added. */
  lemma LeftNext(limit: int, w: int, times: seq<int>, answers: seq<bool>, t: int, ok: bool, i: nat, n: nat)
    requires w > 0 && i <= n == |answers| && |times| == n + 1
    ensures Left(limit, w, times + [t], answers + [ok], i, n + 1) ==
            Left(limit, w, times, answers, i, n)
            + ((t - times[n]) as real) * ((limit * 1000) as real / (w as real)) - (if ok then 1000.0 else 0.0)
  {
    CountNext(answers, ok, i, n);
    hide Count, Lot;
    LotNext(limit, w, times[n] - times[i], Count(answers[i..n]), t - times[n], ok);
  }

  lemma NoneLeftOut(limit: int, w: int, times: seq<int>, answers: seq<bool>, n: nat)
    requires w > 0 && n < |times| && n <= |answers|
    ensures Left(limit, w, times, answers, n, n) == (limit * 1000) as real
  {
    assert answers[n..n] == [];
    assert ((times[n] - times[n]) as real) * ((limit * 1000) as real / (w as real)) == 0.0;
  }

  lemma ScarcestNext(q: Quota, times: seq<int>, answers: seq<bool>, t: int, ok: bool, found: real, next: real, n: nat)
    requires q.windowMs > 0 && |times| == n + 1 && |answers| == n
    requires Scarcest(found, q, times, answers, n)
    requires next == Least((q.limit * 1000) as real, found - (if ok then 1000.0 else 0.0)
                           + ((t - times[n]) as real) * ((q.limit * 1000) as real / (q.windowMs as real)))
    ensures Scarcest(next, q, times + [t], answers + [ok], n + 1)
  {
    var all, given := times + [t], answers + [ok];
    hide Left;
    NoneLeftOut(q.limit, q.windowMs, all, given, n + 1);
    var more := ((t - times[n]) as real) * ((q.limit * 1000) as real / (q.windowMs as real)) - (if ok then 1000.0 else 0.0);
    forall i | 0 <= i <= n
      ensures Left(q.limit, q.windowMs, all, given, i, n + 1) == Left(q.limit, q.windowMs, times, answers, i, n) + more
    {
      LeftNext(q.limit, q.windowMs, times, answers, t, ok, i, n);
    }
    var m := n + 1;
    forall i | 0 <= i <= m ensures AtMost(next, q, all, given, i, m) {
      if i <= n {
        assert AtMost(found, q, times, answers, i, n);
        assert Left(q.limit, q.windowMs, all, given, i, n + 1) == Left(q.limit, q.windowMs, times, answers, i, n) + more;
      }
    }
    var i :| 0 <= i <= n && found == Left(q.limit, q.windowMs, times, answers, i, n);
    if next == (q.limit * 1000) as real {
      assert next == Left(q.limit, q.windowMs, all, given, n + 1, n + 1);
    } else {
      assert next == Left(q.limit, q.windowMs, all, given, i, n + 1);
    }
  }

  lemma FirstScarcest(q: Quota, times: seq<int>)
    requires q.windowMs > 0 && |times| == 1
    ensures Scarcest((q.limit * 1000) as real, q, times, [], 0)
  {
    NoneLeftOut(q.limit, q.windowMs, times, [], 0);
  }

  /** What the hash is after the calls at `times`, what the last of them found, and its answer. */
  lemma {:induction false} ServedBy(times: seq<int>, q: Quota) returns (b: Stored, found: real)
    requires q.windowMs > 0 && q.limit >= 1 && times != []
    ensures var n, answers := |times| - 1, Serve(None, times, q).1;
            && Serve(None, times, q).0 == Some(b) && |answers| == n + 1
            && b.lastUpdate == times[n] && b.limit == q.limit * 1000
            && Scarcest(found, q, times, answers[..n], n)
            && (answers[n] <==> found >= 1000.0)
            && b.tokens == found - (if answers[n] then 1000.0 else 0.0)
  {
    hide Script, Scarcest;
    var n := |times| - 1;
    var pre, t := times[..n], times[n];
    if n == 0 {
      assert pre == [] && Serve(None, [], q) == (None, []);
      FirstCall(q, t);
      b, found := Script(None, q, t).0, (q.limit * 1000) as real;
      FirstScarcest(q, times);
      assert Serve(None, times, q).1 == [] + [true] && Serve(None, times, q).1[..0] == [];
    } else {
      var b0, found0 := ServedBy(pre, q);
      var given := Serve(None, pre, q).1;
      var answers := Serve(None, times, q).1;
      assert answers == given + [Script(Some(b0), q, t).1];
      hide Serve;
      found := OneCall(b0, q, t);
      b := Script(Some(b0), q, t).0;
      assert given == given[..n - 1] + [given[n - 1]] && answers[..n] == given;
      assert times == pre + [t];
      ScarcestNext(q, pre, given[..n - 1], t, given[n - 1], found0, found, n - 1);
    }
  }

  lemma {:induction false} ServePrefix(h: Option<Stored>, times: seq<int>, q: Quota, n: nat)
    requires q.windowMs != 0 && n <= |times|
    ensures |Serve(h, times, q).1| == |times|
    ensures Serve(h, times, q).1[..n] == Serve(h, times[..n], q).1
    decreases |times|
  {
    if times == [] {
      assert times[..n] == times;
    } else {
      hide Script;
      var pre, all := times[..|times| - 1], Serve(h, times, q).1;
      if n == |times| {
        ServePrefix(h, pre, q, |pre|);
        assert times[..n] == times && all[..n] == all;
      } else {
        ServePrefix(h, pre, q, n);
        assert pre[..n] == times[..n];
      }
    }
  }

  // ----- Runs of the server

  /** The times of the calls. */
  function Times(ops: seq<Op>): seq<int> {
    if ops == [] then [] else (if ops[0].EvalOp? then [ops[0].now] else []) + Times(ops[1..])
  }

  /** The answers that the calls get. */
  function AnswersOf(ops: seq<Op>, answers: seq<bool>): seq<bool>
    requires |ops| == |answers|
  {
    if ops == [] then [] else (if ops[0].EvalOp? then [answers[0]] else []) + AnswersOf(ops[1..], answers[1..])
  }

  lemma {:induction false} ServeCons(h: Option<Stored>, t: int, rest: seq<int>, q: Quota)
    requires q.windowMs != 0
    ensures var (b, ok) := Script(h, q, t);
            Serve(h, [t] + rest, q) == (Serve(Some(b), rest, q).0, [ok] + Serve(Some(b), rest, q).1)
    decreases |rest|
  {
    hide Script;
    var all := [t] + rest;
    if rest == [] {
      assert all == [t] && all[..0] == [];
      assert Serve(h, [], q) == (h, []);
      var ok := Script(h, q, t).1;
      assert [] + [ok] == [ok] + [];
      var b := Script(h, q, t).0;
      assert Serve(Some(b), [], q) == (Some(b), []);
    } else {
      var pre := rest[..|rest| - 1];
      assert all[..|all| - 1] == [t] + pre && all[|all| - 1] == rest[|rest| - 1];
      ServeCons(h, t, pre, q);
      var (b, ok) := Script(h, q, t);
      var (h1, answers) := Serve(Some(b), pre, q);
      var last := Script(h1, q, rest[|rest| - 1]).1;
      assert ([ok] + answers) + [last] == [ok] + (answers + [last]);
    }
  }

  lemma {:induction false} KeepingServes(h: Option<Stored>, ops: seq<Op>, q: Quota)
    requires q.windowMs != 0 && forall op | op in ops && op.EvalOp? :: op.limit == q.limit
    ensures AnswersOf(ops, KeepingAnswers(h, ops, q.windowMs)) == Serve(h, Times(ops), q).1
    decreases |ops|
  {
    if ops != [] {
      hide Script, Serve;
      assert ops[0] in ops && forall op | op in ops[1..] :: op in ops;
      assert q == Quota(q.limit, q.windowMs);
      var h1 := if ops[0].ExpireOp? then h else Step(h, ops[0], q.windowMs).0;
      assert KeepingAnswers(h, ops, q.windowMs)[1..] == KeepingAnswers(h1, ops[1..], q.windowMs);
      KeepingServes(h1, ops[1..], q);
      if ops[0].EvalOp? { ServeCons(h, ops[0].now, Times(ops[1..]), q); } else { assert [] + Times(ops[1..]) == Times(ops[1..]); }
    } else {
      assert Serve(h, [], q).1 == [];
    }
  }

  /** The calls from the one at `i` to the one at `n` ask for more than a full bucket and the time
      between them can give: (admitted + 1) * window > limit * (window + elapsed). */
  predicate TooMuch(limit: int, w: int, times: seq<int>, answers: seq<bool>, i: nat, n: nat)
    requires i <= n < |times| && n <= |answers|
  {
    (Count(answers[i..n]) + 1) * w > limit * (w + times[n] - times[i])
  }

  ghost predicate Overdrawn(limit: int, w: int, times: seq<int>, answers: seq<bool>, n: nat)
    requires n < |times| && n <= |answers|
  {
    exists i :: 0 <= i <= n && TooMuch(limit, w, times, answers, i, n)
  }

  lemma CastMul(a: int, b: int)
    ensures (a * b) as real == (a as real) * (b as real)
  {
  }

  lemma Scaled(full: real, elapsed: real, taken: real, rate: real, w: real)
    requires w > 0.0 && rate * w == full
    ensures full + elapsed * rate - taken < 1000.0 <==> full * w + elapsed * full - taken * w < 1000.0 * w
  {
    var x := full + elapsed * rate - taken;
    assert elapsed * rate * w == elapsed * full;
    assert x * w == full * w + elapsed * full - taken * w;
    if x < 1000.0 { Below(x, 1000.0, w); } else { Below(1000.0, x, w); }
  }

  lemma Below(x: real, y: real, w: real)
    requires w > 0.0
    ensures x < y ==> x * w < y * w
    ensures x <= y ==> x * w <= y * w
  {
  }

  lemma LotMeans(limit: int, w: int, elapsed: int, admitted: int)
    requires w > 0
    ensures Lot(limit, w, elapsed, admitted) < 1000.0 <==> (admitted + 1) * w > limit * (w + elapsed)
  {
    var full, taken := limit * 1000, 1000 * admitted;
    Scaled(full as real, elapsed as real, taken as real, (full as real) / (w as real), w as real);
    CastMul(full, w);
    CastMul(elapsed, full);
    CastMul(taken, w);
    assert full * w + elapsed * full - taken * w < 1000 * w <==> (admitted + 1) * w > limit * (w + elapsed) by {
      assert full * w + elapsed * full == 1000 * (limit * (w + elapsed));
      assert taken * w + 1000 * w == 1000 * ((admitted + 1) * w);
    }
  }

  lemma LeftMeans(limit: int, w: int, times: seq<int>, answers: seq<bool>, i: nat, n: nat)
    requires w > 0 && i <= n < |times| && n <= |answers|
    ensures TooMuch(limit, w, times, answers, i, n) <==> Left(limit, w, times, answers, i, n) < 1000.0
  {
    LotMeans(limit, w, times[n] - times[i], Count(answers[i..n]));
  }

  /** Which calls are denied, exactly: over every run of script calls with one positive limit and a
      positive window, with the server expiring the hash as it likes once its deadline has come, a call
      is denied if and only if some stretch of the calls that ends with it has
      (admitted in it + 1) * window > limit * (window + its length). */
  lemma DeniedIff(ops: seq<Op>, limit: int, w: int, from: int, n: nat)
    requires w > 0 && limit >= 1 && Timely(ops, from) && n < |Times(ops)|
    requires forall op | op in ops && op.EvalOp? :: op.limit == limit
    ensures var times, answers := Times(ops), AnswersOf(ops, Answers(None, ops, w));
            |answers| == |times| && (!answers[n] <==> Overdrawn(limit, w, times, answers, n))
  {
    ExpiryInvisible(None, None, ops, w, from);
    KeepingServes(None, ops, Quota(limit, w));
    hide Times, Answers, KeepingAnswers, Serve, Timely, AnswersOf;
    DeniedAt(Times(ops), Quota(limit, w), n);
  }

  lemma DeniedAt(times: seq<int>, q: Quota, n: nat)
    requires q.windowMs > 0 && q.limit >= 1 && n < |times|
    ensures var answers := Serve(None, times, q).1;
            |answers| == |times| && (!answers[n] <==> Overdrawn(q.limit, q.windowMs, times, answers, n))
  {
    var answers, upTo := Serve(None, times, q).1, times[..n + 1];
    ServePrefix(None, times, q, n + 1);
    var b, found := ServedBy(upTo, q);
    hide Serve, Left, Scarcest, TooMuch;
    assert answers[..n + 1][n] == answers[n] && answers[..n + 1][..n] == answers[..n];
    ScarcestMeans(found, q, times, answers, n);
  }

  lemma ScarcestMeans(found: real, q: Quota, times: seq<int>, answers: seq<bool>, n: nat)
    requires q.windowMs > 0 && n < |times| && n <= |answers| && Scarcest(found, q, times[..n + 1], answers[..n], n)
    ensures found < 1000.0 <==> Overdrawn(q.limit, q.windowMs, times, answers, n)
  {
    var upTo, given := times[..n + 1], answers[..n];
    hide Left, TooMuch;
    forall i | 0 <= i <= n
      ensures TooMuch(q.limit, q.windowMs, times, answers, i, n) <==> Left(q.limit, q.windowMs, upTo, given, i, n) < 1000.0
    {
      LeftMeans(q.limit, q.windowMs, times, answers, i, n);
      LeftSame(q.limit, q.windowMs, times, answers, i, n);
    }
    if found < 1000.0 {
      var i :| 0 <= i <= n && found == Left(q.limit, q.windowMs, upTo, given, i, n);
      assert TooMuch(q.limit, q.windowMs, times, answers, i, n);
    }
    if i :| 0 <= i <= n && TooMuch(q.limit, q.windowMs, times, answers, i, n) {
      assert AtMost(found, q, upTo, given, i, n);
    }
  }

  lemma LeftSame(limit: int, w: int, times: seq<int>, answers: seq<bool>, i: nat, n: nat)
    requires w > 0 && i <= n < |times| && n <= |answers|
    ensures Left(limit, w, times[..n + 1], answers[..n], i, n) == Left(limit, w, times, answers, i, n)
  {
    assert answers[..n][i..n] == answers[i..n];
  }
}
