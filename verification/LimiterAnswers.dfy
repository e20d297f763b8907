/** Exactly which checks the local limiter denies, from the clock readings of a key's checks and the
    answers before: no token, refill or expiry is mentioned. */
module LimiterAnswers {
  import opened Options
  import opened TokenBucket
  import opened LimiterRuns
  import opened LimiterKeys
  import LimiterExpiry

  /** The last of the clock readings from which whole seconds are counted: counting starts anew at the
      first reading that is a second or more after the last start. */
  function LastMark(times: seq<int>): int
    requires times != []
  {
    if |times| == 1 then times[0]
    else
      var mark, t := LastMark(times[..|times| - 1]), times[|times| - 1];
      if t - mark >= SECOND then t else mark
  }

  /** The whole seconds counted at the readings after the one at `i`, up to the one at `n`. */
  function Seconds(times: seq<int>, i: nat, n: nat): int
    requires i <= n < |times|
  {
    if n == i then 0 else Seconds(times, i, n - 1) + (times[n] - LastMark(times[..n])) / SECOND
  }

  function Count(answers: seq<bool>): nat {
    if answers == [] then 0 else Count(answers[..|answers| - 1]) + if answers[|answers| - 1] then 1 else 0
  }

  /** What a stretch of checks leaves for one more, if its first check found a full bucket. */
  function Left(limit: int, w: int, times: seq<int>, answers: seq<bool>, i: nat, n: nat): int
    requires w > 0 && i <= n < |times| && n <= |answers|
  {
    Lot(limit, w, Seconds(times, i, n), Count(answers[i..n]))
  }

  /** A full bucket and what some seconds bring, less what some requests took. */
  function Lot(limit: int, w: int, seconds: int, admitted: int): int
    requires w > 0
  {
    limit * 1000 + limit * 1000 / w * seconds - 1000 * admitted
  }

  lemma LotNext(limit: int, w: int, seconds: int, admitted: int, more: int, ok: bool)
    requires w > 0
    ensures Lot(limit, w, seconds + more, admitted + if ok then 1 else 0) ==
            Lot(limit, w, seconds, admitted) + limit * 1000 / w * more - (if ok then 1000 else 0)
  {
    var r := limit * 1000 / w;
    assert r * (seconds + more) == r * seconds + r * more;
  }

  function AsksAt(times: seq<int>): seq<Event> {
    if times == [] then [] else AsksAt(times[..|times| - 1]) + [Ask(times[|times| - 1])]
  }

  ghost predicate Ordered(times: seq<int>) { forall i, j | 0 <= i < j < |times| :: times[i] <= times[j] }

  /** A bucket that has served the given checks, from the first on. */
  ghost predicate Served(b: Bucket, q: Quota, times: seq<int>)
    requires q.window != 0 && times != []
  {
    && Sound(b, q) && b.lastUpdate == LastMark(times) && b.expireAt - Ttl(q) == times[|times| - 1]
  }

  /** `tokens` is what the scarcest stretch up to the check at `n` leaves. */
  ghost predicate Scarcest(tokens: int, q: Quota, times: seq<int>, answers: seq<bool>, n: nat)
    requires q.window > 0 && n < |times| && n <= |answers|
  {
    && (forall i | 0 <= i <= n :: tokens <= Left(q.limit, q.window, times, answers, i, n))
    && exists i :: 0 <= i <= n && tokens == Left(q.limit, q.window, times, answers, i, n)
  }

  /** One check of a kept bucket: what it finds, in terms of what the check before left. */
  lemma OneCheck(b: Bucket, q: Quota, now: int) returns (found: int)
    requires q.window > 0 && q.limit >= 1 && RefillsOrNever(q) && Sound(b, q) && b.expireAt - Ttl(q) <= now
    ensures found == Min(q.limit * 1000, b.tokens + q.limit * 1000 / q.window * ((now - b.lastUpdate) / SECOND))
    ensures var (b1, ok) := Consume(Touch(b, q, now), now);
            && (ok <==> found >= 1000)
            && b1.tokens == found - (if ok then 1000 else 0)
            && b1.lastUpdate == (if now - b.lastUpdate >= SECOND then now else b.lastUpdate)
            && Sound(b1, q) && b1.expireAt - Ttl(q) == now
  {
    var e := (now - b.lastUpdate) / SECOND;
    TwoWindowsFill(q);
    if e >= 1 { MulMono(1, e, Rate(q)); }
    found := Min(q.limit * 1000, b.tokens + q.limit * 1000 / q.window * e);
    ConsumeKeepsSound(Touch(b, q, now), q, now);
  }

  lemma FirstCheck(q: Quota, now: int)
    requires q.window > 0 && q.limit >= 1
    ensures var (b, ok) := Consume(Fresh(q, now), now);
            ok && Served(b, q, [now]) && b.tokens == q.limit * 1000 - 1000
  {
  }

  lemma SecondsPrefix(times: seq<int>, t: int, i: nat, n: nat)
    requires i <= n < |times|
    ensures Seconds(times + [t], i, n) == Seconds(times, i, n)
    decreases n
  {
    assert (times + [t])[..n] == times[..n];
  }

  lemma CountNext(answers: seq<bool>, ok: bool, i: nat, n: nat)
    requires i <= n == |answers|
    ensures Count((answers + [ok])[i..n + 1]) == Count(answers[i..n]) + if ok then 1 else 0
  {
    var stretch := (answers + [ok])[i..n + 1];
    assert stretch[..|stretch| - 1] == answers[i..n] && stretch[|stretch| - 1] == ok;
  }

  lemma SecondsNext(times: seq<int>, t: int, i: nat, n: nat)
    requires i <= n && |times| == n + 1
    ensures Seconds(times + [t], i, n + 1) == Seconds(times, i, n) + (t - LastMark(times)) / SECOND
  {
    SecondsPrefix(times, t, i, n);
    assert (times + [t])[..n + 1] == times;
  }

  /** One more check: every stretch that reaches back before it has its seconds and its answer added. */
  lemma LeftNext(limit: int, w: int, times: seq<int>, answers: seq<bool>, t: int, ok: bool, i: nat, n: nat)
    requires w > 0 && i <= n == |answers| && |times| == n + 1
    ensures Left(limit, w, times + [t], answers + [ok], i, n + 1) ==
            Left(limit, w, times, answers, i, n)
            + limit * 1000 / w * ((t - LastMark(times)) / SECOND) - (if ok then 1000 else 0)
  {
    CountNext(answers, ok, i, n);
    SecondsNext(times, t, i, n);
    hide Seconds, Count, LastMark, Lot;
    LotNext(limit, w, Seconds(times, i, n), Count(answers[i..n]), (t - LastMark(times)) / SECOND, ok);
  }

  lemma NoneLeftOut(limit: int, w: int, times: seq<int>, answers: seq<bool>, n: nat)
    requires w > 0 && n < |times| && n <= |answers|
    ensures Left(limit, w, times, answers, n, n) == limit * 1000
  {
    assert answers[n..n] == [];
  }

  lemma ScarcestNext(q: Quota, times: seq<int>, answers: seq<bool>, t: int, ok: bool, found: int, next: int)
    requires q.window > 0 && times != [] && |times| == |answers| + 1
    requires Scarcest(found, q, times, answers, |times| - 1)
    requires next == Min(q.limit * 1000, found - (if ok then 1000 else 0) + q.limit * 1000 / q.window * ((t - LastMark(times)) / SECOND))
    ensures Scarcest(next, q, times + [t], answers + [ok], |times|)
  {
    var n, all, given := |times|, times + [t], answers + [ok];
    hide Left;
    NoneLeftOut(q.limit, q.window, all, given, n);
    forall i | 0 <= i < n
      ensures Left(q.limit, q.window, all, given, i, n) - Left(q.limit, q.window, times, answers, i, n - 1) ==
              q.limit * 1000 / q.window * ((t - LastMark(times)) / SECOND) - (if ok then 1000 else 0)
    {
      LeftNext(q.limit, q.window, times, answers, t, ok, i, n - 1);
    }
    var i :| 0 <= i <= n - 1 && found == Left(q.limit, q.window, times, answers, i, n - 1);
    assert next == if next == q.limit * 1000 then Left(q.limit, q.window, all, given, n, n) else Left(q.limit, q.window, all, given, i, n);
  }

  lemma ServeLast(times: seq<int>, q: Quota)
    requires q.window != 0 && times != []
    ensures var (o, answers) := Serve(None, AsksAt(times[..|times| - 1]), q);
            var t := times[|times| - 1];
            var (b, ok) := Consume(Offered(o, q, t), t);
            Serve(None, AsksAt(times), q) == (Some(b), answers + [ok])
  {
    var pre, t := AsksAt(times[..|times| - 1]), times[|times| - 1];
    var o := Serve(None, pre, q).0;
    hide Serve;
    ServeAppend(None, pre, [Ask(t)], q);
    ServeEvent(o, Ask(t), q);
  }

  /** What the bucket is after the checks at `times`, what the last of them found, and its answer. */
  lemma {:induction false} ServedBy(times: seq<int>, q: Quota) returns (b: Bucket, found: int)
    requires q.window > 0 && q.limit >= 1 && RefillsOrNever(q) && times != [] && Ordered(times)
    ensures var answers := Serve(None, AsksAt(times), q).1;
            && Serve(None, AsksAt(times), q).0 == Some(b) && |answers| == |times|
            && Served(b, q, times)
            && Scarcest(found, q, times, answers[..|times| - 1], |times| - 1)
            && (answers[|times| - 1] <==> found >= 1000)
            && b.tokens == found - (if answers[|times| - 1] then 1000 else 0)
  {
    var pre, t := times[..|times| - 1], times[|times| - 1];
    ServeLast(times, q);
    if pre == [] {
      assert times == [t] && AsksAt([]) == [];
      hide Consume, Fresh, Sound;
      FirstCheck(q, t);
      b, found := Consume(Fresh(q, t), t).0, q.limit * 1000;
      NoneLeftOut(q.limit, q.window, times, [], 0);
    } else {
      var b0, found0 := ServedBy(pre, q);
      hide Serve, AsksAt, Served, Scarcest, RefillsOrNever;
      var given := Serve(None, AsksAt(pre), q).1;
      assert times == pre + [t] && given == given[..|pre| - 1] + [given[|pre| - 1]];
      b, found := ServedNext(pre, t, given[..|pre| - 1], given[|pre| - 1], q, b0, found0);
      assert Serve(None, AsksAt(times), q).1[..|pre|] == given;
    }
  }

  /** One more check, at `t`, of the bucket `b0` that the checks at `pre` left. */
  lemma ServedNext(pre: seq<int>, t: int, earlier: seq<bool>, ok: bool, q: Quota, b0: Bucket, found0: int) returns (b: Bucket, found: int)
    requires q.window > 0 && q.limit >= 1 && RefillsOrNever(q) && pre != [] && |pre| == |earlier| + 1 && Ordered(pre + [t])
    requires Served(b0, q, pre) && b0.tokens == found0 - (if ok then 1000 else 0)
    requires Scarcest(found0, q, pre, earlier, |pre| - 1)
    ensures Consume(Offered(Some(b0), q, t), t) == (b, found >= 1000)
    ensures Served(b, q, pre + [t]) && b.tokens == found - (if found >= 1000 then 1000 else 0)
    ensures Scarcest(found, q, pre + [t], earlier + [ok], |pre|)
  {
    var times, n := pre + [t], |pre|;
    assert pre[n - 1] == times[n - 1] <= times[n] == t && times[..n] == pre;
    hide Consume, Touch, Sound, Scarcest, RefillsOrNever;
    found := OneCheck(b0, q, t);
    b := Consume(Touch(b0, q, t), t).0;
    ScarcestNext(q, pre, earlier, t, ok, found0, found);
  }

  lemma {:induction false} ServePrefix(times: seq<int>, q: Quota, n: nat)
    requires q.window != 0 && n <= |times|
    ensures |Serve(None, AsksAt(times), q).1| == |times|
    ensures Serve(None, AsksAt(times), q).1[..n] == Serve(None, AsksAt(times[..n]), q).1
    decreases |times|
  {
    if times != [] {
      hide Serve, Consume, Offered, AsksAt;
      ServeLast(times, q);
      var pre := times[..|times| - 1];
      if n == |times| {
        ServePrefix(pre, q, |pre|);
        assert times[..n] == times;
        var all := Serve(None, AsksAt(times), q).1;
        assert all[..n] == all;
      } else {
        ServePrefix(pre, q, n);
        assert pre[..n] == times[..n];
      }
    } else {
      assert times[..n] == times;
    }
  }

  lemma LeftSame(limit: int, w: int, times: seq<int>, answers: seq<bool>, i: nat, n: nat)
    requires w > 0 && i <= n < |times| && n <= |answers|
    ensures Left(limit, w, times[..n + 1], answers[..n], i, n) == Left(limit, w, times, answers, i, n)
  {
    SecondsSame(times, i, n, n + 1);
    assert answers[..n][i..n] == answers[i..n];
  }

  lemma {:induction false} SecondsSame(times: seq<int>, i: nat, n: nat, m: nat)
    requires i <= n < m <= |times|
    ensures Seconds(times[..m], i, n) == Seconds(times, i, n)
    decreases n
  {
    if n > i {
      SecondsSame(times, i, n - 1, m);
      assert times[..m][..n] == times[..n];
    }
  }

  // ----- The shard

  /** The clock readings of the checks of `key`. */
  function Times(ops: seq<Op>, key: string): seq<int> {
    if ops == [] then []
    else Times(ops[..|ops| - 1], key) + if Asks(ops[|ops| - 1], key) then [ops[|ops| - 1].now] else []
  }

  lemma {:induction false} TimesAre(ops: seq<Op>, key: string)
    ensures AsksAt(Times(ops, key)) == LimiterExpiry.Checks(ops, key)
  {
    if ops != [] {
      var pre, op := ops[..|ops| - 1], ops[|ops| - 1];
      TimesAre(pre, key);
      assert ops == pre + [op];
      ChecksSnoc(pre, op, key);
      if Asks(op, key) {
        var ts := Times(pre, key);
        assert (ts + [op.now])[..|ts + [op.now]| - 1] == ts;
      } else {
        assert Times(pre, key) + [] == Times(pre, key);
      }
    }
  }

  lemma ChecksCons(ops: seq<Op>, key: string)
    requires ops != []
    ensures LimiterExpiry.Checks(ops, key) ==
            (if Asks(ops[0], key) then [Ask(ops[0].now)] else []) + LimiterExpiry.Checks(ops[1..], key)
  {
  }

  lemma {:induction false} ChecksSnoc(ops: seq<Op>, op: Op, key: string)
    ensures LimiterExpiry.Checks(ops + [op], key) ==
            LimiterExpiry.Checks(ops, key) + if Asks(op, key) then [Ask(op.now)] else []
  {
    if ops == [] {
      assert ([] + [op])[0] == op && ([] + [op])[1..] == [];
    } else {
      assert (ops + [op])[0] == ops[0] && (ops + [op])[1..] == ops[1..] + [op];
      ChecksSnoc(ops[1..], op, key);
      hide LimiterExpiry.Checks;
      ChecksCons(ops, key);
      ChecksCons(ops + [op], key);
    }
  }

  lemma {:induction false} TimesOrdered(ops: seq<Op>, key: string)
    requires Timely(ops)
    ensures Ordered(Times(ops, key))
    ensures forall t | t in Times(ops, key) :: exists i :: 0 <= i < |ops| && Asks(ops[i], key) && ops[i].now == t
  {
    if ops != [] {
      var pre, op := ops[..|ops| - 1], ops[|ops| - 1];
      assert forall i | 0 <= i < |pre| :: pre[i] == ops[i];
      TimesOrdered(pre, key);
      var ts := Times(pre, key);
      forall t | t in Times(ops, key) ensures exists i :: 0 <= i < |ops| && Asks(ops[i], key) && ops[i].now == t {
        if t in ts {
          var i :| 0 <= i < |pre| && Asks(pre[i], key) && pre[i].now == t;
          assert Asks(ops[i], key);
        } else {
          assert Asks(ops[|ops| - 1], key);
        }
      }
      if Asks(op, key) {
        forall k | 0 <= k < |ts| ensures ts[k] <= op.now {
          assert ts[k] in ts;
          var i :| 0 <= i < |pre| && Asks(pre[i], key) && pre[i].now == ts[k];
          assert ops[i].now <= ops[|ops| - 1].now;
        }
      }
    }
  }

  /** Without an eviction of the key its events are its own checks. */
  lemma {:induction false} UnevictedTrace(s: ShardState, ops: seq<Op>, key: string, q: Quotas)
    requires Lose !in Trace(s, ops, key, q)
    ensures Trace(s, ops, key, q) == LimiterExpiry.Checks(ops, key)
    decreases |ops|
  {
    if ops != [] {
      hide Step, AtCap;
      var ev, rest := EventOf(s, ops[0], key), Trace(Step(s, ops[0], q).0, ops[1..], key, q);
      assert forall e | e in ev || e in rest :: e in ev + rest;
      UnevictedTrace(Step(s, ops[0], q).0, ops[1..], key, q);
      assert ev == [Lose] ==> Lose in ev;
    }
  }

  /** The stretch of checks from the one at `i` to the one at `n` asks for more than a full bucket and
      the whole seconds counted in it can give. */
  predicate TooMuch(limit: int, w: int, times: seq<int>, answers: seq<bool>, i: nat, n: nat)
    requires w > 0 && i <= n < |times| && n <= |answers|
  {
    1000 * (Count(answers[i..n]) + 1) > limit * 1000 + limit * 1000 / w * Seconds(times, i, n)
  }

  ghost predicate Overdrawn(limit: int, w: int, times: seq<int>, answers: seq<bool>, n: nat)
    requires w > 0 && n < |times| && n <= |answers|
  {
    exists i :: 0 <= i <= n && TooMuch(limit, w, times, answers, i, n)
  }

  /** Which checks are denied, exactly: over every run of the shard in which the key is not evicted,
      with expiry and cleanup at work and for a quota that refills within a window, a check is denied
      if and only if some stretch of the key's checks that ends with it has
      1000 * (admitted in it + 1) > limit * 1000 + limit * 1000 / window * (the whole seconds counted in it). */
  lemma DeniedIff(ops: seq<Op>, key: string, q: Quotas, n: nat)
    requires Timely(ops) && Lose !in Trace(EMPTY, ops, key, q) && n < |Times(ops, key)|
    requires q(key).limit >= 1 && q(key).window > 0 && q(key).limit * 1000 >= q(key).window
    ensures var times, answers := Times(ops, key), AnswersTo(ops, Answers(EMPTY, ops, q), key);
            |answers| == |times| && (!answers[n] <==> Overdrawn(q(key).limit, q(key).window, times, answers, n))
  {
    assert RefillsOrNever(q(key));
    hide Timely, Answers, AnswersTo, Trace, Times, Overdrawn, RefillsOrNever;
    AnswersAre(ops, key, q);
    TimesOrdered(ops, key);
    DeniedAt(Times(ops, key), q(key), n);
  }

  lemma AnswersAre(ops: seq<Op>, key: string, q: Quotas)
    requires Timely(ops) && Lose !in Trace(EMPTY, ops, key, q) && RefillsOrNever(q(key))
    ensures AnswersTo(ops, Answers(EMPTY, ops, q), key) == Serve(None, AsksAt(Times(ops, key)), q(key)).1
  {
    hide Timely, Answers, AnswersTo, Serve, Follows, Trace, RefillsOrNever, Times, AsksAt;
    assert ops + [] == ops;
    EmptyFollows(ops, key, q(key));
    KeyRun(EMPTY, None, ops, [], key, q);
    UnevictedTrace(EMPTY, ops, key, q);
    TimesAre(ops, key);
  }

  lemma DeniedAt(times: seq<int>, q: Quota, n: nat)
    requires q.window > 0 && q.limit >= 1 && RefillsOrNever(q) && Ordered(times) && n < |times|
    ensures var answers := Serve(None, AsksAt(times), q).1;
            |answers| == |times| && (!answers[n] <==> Overdrawn(q.limit, q.window, times, answers, n))
  {
    var answers, upTo := Serve(None, AsksAt(times), q).1, times[..n + 1];
    ServePrefix(times, q, n + 1);
    ServePrefix(times, q, n);
    var b, found := ServedBy(upTo, q);
    hide Serve, AsksAt, Served, RefillsOrNever, Left;
    assert answers[..n + 1][n] == answers[n] && answers[..n + 1][..n] == answers[..n];
    forall i | 0 <= i <= n
      ensures Left(q.limit, q.window, upTo, answers[..n], i, n) == Left(q.limit, q.window, times, answers, i, n)
    {
      LeftSame(q.limit, q.window, times, answers, i, n);
    }
    assert forall i | 0 <= i <= n ::
        TooMuch(q.limit, q.window, times, answers, i, n) <==> Left(q.limit, q.window, times, answers, i, n) < 1000 by {
      forall i | 0 <= i <= n
        ensures TooMuch(q.limit, q.window, times, answers, i, n) <==> Left(q.limit, q.window, times, answers, i, n) < 1000
      {
        LeftMeans(q.limit, q.window, times, answers, i, n);
      }
    }
  }

  lemma LeftMeans(limit: int, w: int, times: seq<int>, answers: seq<bool>, i: nat, n: nat)
    requires w > 0 && i <= n < |times| && n <= |answers|
    ensures TooMuch(limit, w, times, answers, i, n) <==> Left(limit, w, times, answers, i, n) < 1000
  {
  }

  /** A limit that is not positive denies every check, in every run, if it reaches a bucket at all. */
  lemma NeverAdmitted(ops: seq<Op>, key: string, q: Quotas, n: nat)
    requires Timely(ops) && q(key).limit <= 0 && n < |AnswersTo(ops, Answers(EMPTY, ops, q), key)|
    ensures !AnswersTo(ops, Answers(EMPTY, ops, q), key)[n]
  {
    assert ops + [] == ops;
    EmptyFollows(ops, key, q(key));
    KeyRun(EMPTY, None, ops, [], key, q);
    FrozenDenies(None, Trace(EMPTY, ops, key, q), q(key));
  }

  lemma {:induction false} FrozenDenies(o: Option<Bucket>, evs: seq<Event>, q: Quota)
    requires q.window != 0 && q.limit <= 0 && (o.Some? ==> Kept(o.value, q))
    ensures forall i | 0 <= i < |Serve(o, evs, q).1| :: !Serve(o, evs, q).1[i]
    decreases |evs|
  {
    if evs != [] {
      if evs[0].Lose? {
        FrozenDenies(None, evs[1..], q);
      } else {
        FrozenStays(Offered(o, q, evs[0].now), evs[0].now);
        FrozenDenies(Some(Consume(Offered(o, q, evs[0].now), evs[0].now).0), evs[1..], q);
      }
    }
  }

  // ----- Which keys keep a bucket

  /** Seconds after which a bucket that is not used goes: five minutes, or two windows if that is more. */
  function Patience(w: int): int { if 2 * w > 300 then 2 * w else 300 }

  /** The check at `i` is one of `key`, and no cleanup after it came more than `secs` seconds later. */
  predicate Remembered(ops: seq<Op>, key: string, secs: int, i: nat)
    requires i < |ops|
  {
    Asks(ops[i], key) && NoneAfter(ops[i + 1..], ops[i].now + secs * 1_000_000_000)
  }

  predicate NoneAfter(ops: seq<Op>, t: int) { forall j | 0 <= j < |ops| && ops[j].CleanOp? :: ops[j].now <= t }

  /** After any run of the shard in which a key is not evicted it has a bucket if and only if it was
      checked and no cleanup came more than five minutes, or two windows, after the check. */
  lemma KeptIff(ops: seq<Op>, key: string, q: Quotas)
    requires Timely(ops) && Lose !in Trace(EMPTY, ops, key, q)
    ensures key in Final(EMPTY, ops, q).buckets <==>
            exists i :: 0 <= i < |ops| && Remembered(ops, key, Patience(q(key).window), i)
  {
    KeptFrom(EMPTY, ops, key, q);
  }

  /** The step as the key sees it. */
  lemma StepKeeps(s: ShardState, op: Op, key: string, q: Quotas)
    requires Lose !in EventOf(s, op, key)
    ensures var s1 := Step(s, op, q).0;
            if Asks(op, key) then key in s1.buckets && s1.buckets[key].expireAt == op.now + Patience(q(key).window) * 1_000_000_000
            else && (key in s1.buckets <==> key in s.buckets && (op.CleanOp? ==> op.now <= s.buckets[key].expireAt))
                 && (key in s1.buckets ==> s1.buckets[key] == s.buckets[key])
  {
    if op.CheckOp? {
      if op.key == key {
        hide Prepare;
        OwnBucket(s, key, q(key), op.now, op.victim);
      } else {
        hide Consume, Touch, Fresh;
        assert [Lose][0] == Lose;
      }
    }
  }

  lemma OwnBucket(s: ShardState, key: string, q: Quota, now: int, victim: string)
    requires q.window != 0
    ensures Prepare(s, key, q, now, victim).buckets[key].expireAt == now + Patience(q.window) * 1_000_000_000
  {
  }

  /** Some check of the run is remembered: its first step, or a later one. */
  lemma RememberedCons(ops: seq<Op>, key: string, secs: int)
    requires ops != []
    ensures (exists i :: 0 <= i < |ops| && Remembered(ops, key, secs, i)) <==>
            Remembered(ops, key, secs, 0) || exists i :: 0 <= i < |ops[1..]| && Remembered(ops[1..], key, secs, i)
  {
    hide NoneAfter;
    forall i | 0 <= i < |ops[1..]| ensures Remembered(ops[1..], key, secs, i) <==> Remembered(ops, key, secs, i + 1) {
      assert ops[1..][i + 1..] == ops[i + 1 + 1..];
    }
    if i :| 0 <= i < |ops| && Remembered(ops, key, secs, i) {
      assert i == 0 || Remembered(ops[1..], key, secs, i - 1);
    }
    if i :| 0 <= i < |ops[1..]| && Remembered(ops[1..], key, secs, i) {
      assert Remembered(ops, key, secs, i + 1);
    }
  }

  lemma NoneAfterCons(ops: seq<Op>, t: int)
    requires ops != []
    ensures NoneAfter(ops, t) <==> (ops[0].CleanOp? ==> ops[0].now <= t) && NoneAfter(ops[1..], t)
  {
    forall j | 0 < j < |ops| ensures ops[j] == ops[1..][j - 1] {
    }
  }

  lemma {:induction false} KeptFrom(s: ShardState, ops: seq<Op>, key: string, q: Quotas)
    requires Timely(ops) && Lose !in Trace(s, ops, key, q)
    requires key in s.buckets ==> From(ops, key, s.buckets[key].expireAt - Patience(q(key).window) * 1_000_000_000)
    ensures key in Final(s, ops, q).buckets <==>
            || (key in s.buckets && NoneAfter(ops, s.buckets[key].expireAt))
            || exists i :: 0 <= i < |ops| && Remembered(ops, key, Patience(q(key).window), i)
    decreases |ops|
  {
    if ops != [] {
      var op, rest, s1, secs := ops[0], ops[1..], Step(s, ops[0], q).0, Patience(q(key).window);
      var ev, later := EventOf(s, op, key), Trace(s1, rest, key, q);
      assert forall e | e in ev || e in later :: e in ev + later;
      StepKeeps(s, op, key, q);
      hide Step, Trace, EventOf, Patience;
      assert key in s1.buckets ==> From(rest, key, s1.buckets[key].expireAt - secs * 1_000_000_000);
      hide From, Timely;
      KeptFrom(s1, rest, key, q);
      RememberedCons(ops, key, secs);
      if key in s.buckets {
        NoneAfterCons(ops, s.buckets[key].expireAt);
      }
    }
  }

  /** After every run, with eviction and cleanup at work, an access time that the shard still has is
      that of the key's last check. */
  lemma {:induction false} AccessIsLast(ops: seq<Op>, key: string, q: Quotas)
    requires key in Final(EMPTY, ops, q).lastAccess
    ensures var times := Times(ops, key);
            times != [] && Final(EMPTY, ops, q).lastAccess[key] == Last(times)
    decreases |ops|
  {
    if ops != [] {
      var pre, op := ops[..|ops| - 1], ops[|ops| - 1];
      var s := Final(EMPTY, pre, q);
      assert ops == pre + [op];
      FinalSnoc(EMPTY, pre, op, q);
      StepAccess(s, op, key, q);
      hide Step, Final;
      if !Asks(op, key) {
        AccessIsLast(pre, key, q);
        assert Times(pre, key) + [] == Times(pre, key);
      }
    }
  }

  /** A step leaves the access time of a key, drops it, or sets it to the time of the key's check. */
  lemma StepAccess(s: ShardState, op: Op, key: string, q: Quotas)
    ensures var s1 := Step(s, op, q).0;
            key in s1.lastAccess ==>
              if Asks(op, key) then s1.lastAccess[key] == op.now else key in s.lastAccess && s1.lastAccess[key] == s.lastAccess[key]
  {
    hide Consume, Touch, Fresh;
  }

  function Last(times: seq<int>): int
    requires times != []
  {
    times[|times| - 1]
  }

  /** An eviction takes the least recently checked of the tracked keys. */
  lemma EvictsLeastRecent(ops: seq<Op>, op: Op, k: string, q: Quotas)
    requires AtCap(Final(EMPTY, ops, q), op) && Legal(Final(EMPTY, ops, q), op)
    requires k in Final(EMPTY, ops, q).lastAccess && Final(EMPTY, ops, q).lastAccess[k] < op.now && k != op.key
    ensures op.victim != op.key && op.victim in Final(EMPTY, ops, q).lastAccess
    ensures Times(ops, op.victim) != [] && Times(ops, k) != []
    ensures Last(Times(ops, op.victim)) <= Last(Times(ops, k)) < op.now
  {
    var s := Final(EMPTY, ops, q);
    assert SeenBefore(Vacated(s, op.key, op.now), op.now, k);
    AccessIsLast(ops, k, q);
    assert op.victim in s.lastAccess && op.victim != op.key;
    AccessIsLast(ops, op.victim, q);
  }
}
