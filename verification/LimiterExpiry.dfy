/** Dropping expired buckets cannot be observed, and exactly when.  The reference is an ideal
    limiter that never drops a bucket. */
module LimiterExpiry {
  import opened Options
  import opened TokenBucket
  import opened LimiterRuns
  import opened LimiterKeys

  type Ideal = map<string, Bucket>

  function Held(m: Ideal, key: string): Option<Bucket> { if key in m then Some(m[key]) else None }

  function IdealStep(m: Ideal, op: Op, q: Quotas): (Ideal, bool) {
    match op
    case CheckOp(key, now, _) => var (b, ok) := Consume(Offered(Held(m, key), q(key), now), now); (m[key := b], ok)
    case CleanOp(_) => (m, false)
  }

  function IdealFinal(m: Ideal, ops: seq<Op>, q: Quotas): Ideal
    decreases |ops|
  {
    if ops == [] then m else IdealFinal(IdealStep(m, ops[0], q).0, ops[1..], q)
  }

  function IdealAnswers(m: Ideal, ops: seq<Op>, q: Quotas): (r: seq<bool>)
    ensures |r| == |ops|
    decreases |ops|
  {
    if ops == [] then [] else
      var (m1, ok) := IdealStep(m, ops[0], q);
      [ok] + IdealAnswers(m1, ops[1..], q)
  }

  // ----- Both limiters, key by key

  /** The checks of `key`, as events. */
  function Checks(ops: seq<Op>, key: string): seq<Event> {
    if ops == [] then [] else (if Asks(ops[0], key) then [Ask(ops[0].now)] else []) + Checks(ops[1..], key)
  }

  /** Without eviction a key sees its own checks only. */
  lemma {:induction false} RoomyTrace(s: ShardState, ops: seq<Op>, key: string, q: Quotas)
    requires Roomy(s, ops, q)
    ensures Trace(s, ops, key, q) == Checks(ops, key)
    decreases |ops|
  {
    if ops != [] {
      hide Step, AtCap;
      RoomyTrace(Step(s, ops[0], q).0, ops[1..], key, q);
    }
  }

  /** In the ideal limiter what a key gets depends on its own checks. */
  lemma {:induction false} ServedAlone(m: Ideal, ops: seq<Op>, key: string, q: Quotas)
    ensures AnswersTo(ops, IdealAnswers(m, ops, q), key) == Serve(Held(m, key), Checks(ops, key), q(key)).1
    decreases |ops|
  {
    if ops != [] {
      hide Consume, Offered;
      var m1 := IdealStep(m, ops[0], q).0;
      assert IdealAnswers(m, ops, q)[1..] == IdealAnswers(m1, ops[1..], q);
      ServedAlone(m1, ops[1..], key, q);
      if Asks(ops[0], key) {
        var rest := Checks(ops[1..], key);
        assert ([Ask(ops[0].now)] + rest)[1..] == rest;
      } else {
        assert Held(m1, key) == Held(m, key);
        assert [] + Checks(ops[1..], key) == Checks(ops[1..], key);
      }
    }
  }

  /** Expiry is invisible to a key: over every run of checks and cleanups without eviction, whatever
      the quotas of the other keys, a key whose quota refills its bucket within a window, or grants
      nothing, gets the answers of a limiter that never drops a bucket. */
  lemma KeyRefinesIdeal(ops: seq<Op>, key: string, q: Quotas)
    requires Timely(ops) && Roomy(EMPTY, ops, q) && RefillsOrNever(q(key))
    ensures AnswersTo(ops, Answers(EMPTY, ops, q), key) == AnswersTo(ops, IdealAnswers(map[], ops, q), key)
  {
    hide Roomy, Timely, Answers, IdealAnswers, AnswersTo, Serve, Follows, Trace, Checks;
    assert ops + [] == ops;
    EmptyFollows(ops, key, q(key));
    KeyRun(EMPTY, None, ops, [], key, q);
    RoomyTrace(EMPTY, ops, key, q);
    ServedAlone(map[], ops, key, q);
  }

  // ----- Runs cut in two

  lemma {:induction false} AnswersAppend(s: ShardState, a: seq<Op>, b: seq<Op>, q: Quotas)
    ensures Answers(s, a + b, q) == Answers(s, a, q) + Answers(Final(s, a, q), b, q)
    ensures Final(s, a + b, q) == Final(Final(s, a, q), b, q)
    ensures Roomy(s, a + b, q) <==> Roomy(s, a, q) && Roomy(Final(s, a, q), b, q)
    decreases |a|
  {
    hide Step, AtCap;
    if a == [] {
      assert a + b == b;
    } else {
      assert (a + b)[1..] == a[1..] + b && (a + b)[0] == a[0];
      AnswersAppend(Step(s, a[0], q).0, a[1..], b, q);
    }
  }

  lemma {:induction false} IdealAppend(m: Ideal, a: seq<Op>, b: seq<Op>, q: Quotas)
    ensures IdealAnswers(m, a + b, q) == IdealAnswers(m, a, q) + IdealAnswers(IdealFinal(m, a, q), b, q)
    ensures IdealFinal(m, a + b, q) == IdealFinal(IdealFinal(m, a, q), b, q)
    decreases |a|
  {
    hide IdealStep;
    if a == [] {
      assert a + b == b;
    } else {
      assert (a + b)[1..] == a[1..] + b && (a + b)[0] == a[0];
      IdealAppend(IdealStep(m, a[0], q).0, a[1..], b, q);
    }
  }

  // ----- When expiry does show

  /** `n` checks of one key at time 0. */
  function Hammer(key: string, n: nat): (r: seq<Op>)
    ensures |r| == n && forall op | op in r :: op == CheckOp(key, 0, "")
  {
    if n == 0 then [] else Hammer(key, n - 1) + [CheckOp(key, 0, "")]
  }

  function Trues(n: nat): (r: seq<bool>)
    ensures |r| == n && forall i | 0 <= i < n :: r[i]
  {
    if n == 0 then [] else Trues(n - 1) + [true]
  }

  function Drained(key: string, q: Quota, n: nat): Ideal
    requires q.window != 0
  {
    if n == 0 then map[] else map[key := Fresh(q, 0).(tokens := Capacity(q) - n * PRECISION)]
  }

  lemma {:induction false} HammerDrains(key: string, q: Quotas, n: nat)
    requires n <= q(key).limit
    ensures Roomy(EMPTY, Hammer(key, n), q)
    ensures Final(EMPTY, Hammer(key, n), q).buckets == Drained(key, q(key), n)
    ensures IdealFinal(map[], Hammer(key, n), q) == Drained(key, q(key), n)
    ensures Answers(EMPTY, Hammer(key, n), q) == IdealAnswers(map[], Hammer(key, n), q) == Trues(n)
  {
    if n > 0 {
      HammerDrains(key, q, n - 1);
      var pre, op := Hammer(key, n - 1), CheckOp(key, 0, "");
      AnswersAppend(EMPTY, pre, [op], q);
      IdealAppend(map[], pre, [op], q);
      DrainStep(Final(EMPTY, pre, q), q, n, op);
    }
  }

  /** A check of a shard that holds no other key. */
  lemma AloneStep(s: ShardState, q: Quotas, n: nat, op: Op)
    requires op.CheckOp? && s.buckets == Drained(op.key, q(op.key), n)
    ensures Roomy(s, [op], q)
    ensures var (b, ok) := Consume(Offered(FromShard(s, op.key, op.now), q(op.key), op.now), op.now);
            Final(s, [op], q).buckets == map[op.key := b] && Answers(s, [op], q) == [ok]
    ensures var (b, ok) := Consume(Offered(Held(Drained(op.key, q(op.key), n), op.key), q(op.key), op.now), op.now);
            && IdealFinal(Drained(op.key, q(op.key), n), [op], q) == map[op.key := b]
            && IdealAnswers(Drained(op.key, q(op.key), n), [op], q) == [ok]
  {
    hide Consume, Touch, Fresh, Offered, FromShard;
    assert [op][1..] == [];
    CheckedBuckets(s, op, q, op.key);
    forall k | k != op.key ensures k !in Step(s, op, q).0.buckets { CheckedBuckets(s, op, q, k); }
  }

  lemma DrainStep(s: ShardState, q: Quotas, n: nat, op: Op)
    requires op.CheckOp? && op.now == 0 && 0 < n <= q(op.key).limit
    requires s.buckets == Drained(op.key, q(op.key), n - 1)
    ensures Roomy(s, [op], q)
    ensures Final(s, [op], q).buckets == Drained(op.key, q(op.key), n)
    ensures IdealFinal(Drained(op.key, q(op.key), n - 1), [op], q) == Drained(op.key, q(op.key), n)
    ensures Answers(s, [op], q) == IdealAnswers(Drained(op.key, q(op.key), n - 1), [op], q) == [true]
  {
    hide Roomy, Final, IdealFinal, Answers, IdealAnswers;
    AloneStep(s, q, n - 1, op);
  }

  /** The run that tells the two limiters apart: drain the bucket, wait until it has expired, ask
      once more.  The shard answers yes although the bucket gets no tokens from its rate. */
  lemma ExpiryShows(key: string, q: Quotas)
    requires !RefillsOrNever(q(key))
    ensures var n := q(key).limit;
            var ops := Hammer(key, n) + [CheckOp(key, Ttl(q(key)) + 1, "")];
            && Timely(ops) && Roomy(EMPTY, ops, q)
            && Answers(EMPTY, ops, q) == Trues(n + 1)
            && IdealAnswers(map[], ops, q) == Trues(n) + [false]
  {
    hide Final, Answers, IdealAnswers, IdealFinal, Roomy, Drained;
    var n := q(key).limit;
    var pre, op := Hammer(key, n), CheckOp(key, Ttl(q(key)) + 1, "");
    HammerDrains(key, q, n);
    AnswersAppend(EMPTY, pre, [op], q);
    IdealAppend(map[], pre, [op], q);
    LateCheck(Final(EMPTY, pre, q), q, op);
    assert forall i | 0 <= i < n :: (pre + [op])[i] == pre[i] && pre[i] in pre;
  }

  lemma LateCheck(s: ShardState, q: Quotas, op: Op)
    requires op.CheckOp? && op.now == Ttl(q(op.key)) + 1 && !RefillsOrNever(q(op.key))
    requires s.buckets == Drained(op.key, q(op.key), q(op.key).limit)
    ensures Roomy(s, [op], q)
    ensures Answers(s, [op], q) == [true]
    ensures IdealAnswers(Drained(op.key, q(op.key), q(op.key).limit), [op], q) == [false]
  {
    hide Roomy, Final, IdealFinal, Answers, IdealAnswers;
    AloneStep(s, q, q(op.key).limit, op);
    LateBucket(op.key, q(op.key));
  }

  /** After expiry a fresh bucket serves again; the drained one, which has no positive rate, does not. */
  lemma LateBucket(key: string, q: Quota)
    requires q.window != 0 && !RefillsOrNever(q)
    ensures var b, now := Drained(key, q, q.limit)[key], Ttl(q) + 1;
            && Expired(b, now)
            && Consume(Fresh(q, now), now).1
            && !Consume(Touch(b, q, now), now).1
  {
    assert Rate(q) <= 0;
    var e := TruncDiv(Ttl(q) + 1, SECOND);
    if Rate(q) < 0 { MulMono(0, e, -Rate(q)); }
  }

  /** Dropping the expired buckets of `key` changes none of its answers in any run without eviction. */
  ghost predicate InvisibleTo(key: string, q: Quotas) {
    forall ops | Timely(ops) && Roomy(EMPTY, ops, q) ::
      AnswersTo(ops, Answers(EMPTY, ops, q), key) == AnswersTo(ops, IdealAnswers(map[], ops, q), key)
  }

  /** The exact condition, for any quotas of the other keys: a key cannot tell that expired buckets
      are dropped if and only if its limit grants nothing, or its window is positive and its rate is
      not truncated to zero. */
  lemma ExpiryInvisibleIff(key: string, q: Quotas)
    ensures InvisibleTo(key, q) <==> q(key).limit <= 0 || (q(key).window > 0 && q(key).limit * PRECISION >= q(key).window)
  {
    if RefillsOrNever(q(key)) {
      forall ops | Timely(ops) && Roomy(EMPTY, ops, q)
        ensures AnswersTo(ops, Answers(EMPTY, ops, q), key) == AnswersTo(ops, IdealAnswers(map[], ops, q), key)
      {
        KeyRefinesIdeal(ops, key, q);
      }
    } else {
      ExpiryShows(key, q);
      var n := q(key).limit;
      var ops := Hammer(key, n) + [CheckOp(key, Ttl(q(key)) + 1, "")];
      OnlyItsOwn(ops, Answers(EMPTY, ops, q), key);
      OnlyItsOwn(ops, IdealAnswers(map[], ops, q), key);
      assert Trues(n + 1)[n] && !(Trues(n) + [false])[n];
    }
  }

  /** In a run that checks one key only, its answers are all there are. */
  lemma {:induction false} OnlyItsOwn(ops: seq<Op>, answers: seq<bool>, key: string)
    requires |ops| == |answers| && forall op | op in ops :: Asks(op, key)
    ensures AnswersTo(ops, answers, key) == answers
  {
    if ops != [] {
      assert ops[0] in ops && forall op | op in ops[1..] :: op in ops;
      OnlyItsOwn(ops[1..], answers[1..], key);
      assert answers == [answers[0]] + answers[1..];
    }
  }

  /** And the whole limiter: all its answers are those of the ideal one, over all runs without
      eviction, if and only if every key's quota is such. */
  lemma LimiterInvisibleIff(q: Quotas)
    ensures (forall ops | Timely(ops) && Roomy(EMPTY, ops, q) :: Answers(EMPTY, ops, q) == IdealAnswers(map[], ops, q))
       <==> forall key :: RefillsOrNever(q(key))
  {
    hide Roomy, Timely, Answers, IdealAnswers, AnswersTo, RefillsOrNever;
    if forall key :: RefillsOrNever(q(key)) {
      forall ops | Timely(ops) && Roomy(EMPTY, ops, q) ensures Answers(EMPTY, ops, q) == IdealAnswers(map[], ops, q) {
        forall key ensures AnswersTo(ops, Answers(EMPTY, ops, q), key) == AnswersTo(ops, IdealAnswers(map[], ops, q), key) {
          KeyRefinesIdeal(ops, key, q);
        }
        CleansAnswerNo(EMPTY, map[], ops, q);
        SameAnswers(ops, Answers(EMPTY, ops, q), IdealAnswers(map[], ops, q));
      }
    } else {
      var key :| !RefillsOrNever(q(key));
      ExpiryShows(key, q);
      var n := q(key).limit;
      assert Trues(n + 1)[n] && !(Trues(n) + [false])[n];
    }
  }

  lemma {:induction false} CleansAnswerNo(s: ShardState, m: Ideal, ops: seq<Op>, q: Quotas)
    ensures forall i | 0 <= i < |ops| && ops[i].CleanOp? :: !Answers(s, ops, q)[i] && !IdealAnswers(m, ops, q)[i]
    decreases |ops|
  {
    if ops != [] {
      CleansAnswerNo(Step(s, ops[0], q).0, IdealStep(m, ops[0], q).0, ops[1..], q);
    }
  }

  lemma {:induction false} SameAnswers(ops: seq<Op>, a: seq<bool>, b: seq<bool>)
    requires |a| == |b| == |ops|
    requires forall key :: AnswersTo(ops, a, key) == AnswersTo(ops, b, key)
    requires forall i | 0 <= i < |ops| && ops[i].CleanOp? :: !a[i] && !b[i]
    ensures a == b
  {
    if ops != [] {
      if ops[0].CheckOp? {
        assert AnswersTo(ops, a, ops[0].key)[0] == a[0] && AnswersTo(ops, b, ops[0].key)[0] == b[0];
      }
      forall key ensures AnswersTo(ops[1..], a[1..], key) == AnswersTo(ops[1..], b[1..], key) {
        SameTail(ops, a, b, key);
      }
      SameAnswers(ops[1..], a[1..], b[1..]);
      assert a == [a[0]] + a[1..] && b == [b[0]] + b[1..];
    }
  }

  lemma SameTail(ops: seq<Op>, a: seq<bool>, b: seq<bool>, key: string)
    requires |a| == |b| == |ops| && ops != [] && AnswersTo(ops, a, key) == AnswersTo(ops, b, key)
    ensures AnswersTo(ops[1..], a[1..], key) == AnswersTo(ops[1..], b[1..], key)
  {
    var n := if Asks(ops[0], key) then 1 else 0;
    assert AnswersTo(ops, a, key)[n..] == AnswersTo(ops[1..], a[1..], key);
    assert AnswersTo(ops, b, key)[n..] == AnswersTo(ops[1..], b[1..], key);
  }
}
