/** When the refill of the local limiter stays inside a signed 64-bit integer.  The program multiplies
    the seconds since the last refill by the rate even when the rate is negative and nothing is ever
    refilled; then the seconds keep growing, as far as the clock goes: it counts nanoseconds in a
    signed 64-bit integer itself. */
module LimiterOverflow {
  import opened Options
  import opened TokenBucket
  import opened LimiterRuns
  import LimiterKeys

  /** The whole seconds that a 64-bit clock can show, and the largest negative rate whose product with
      them fits. */
  const CLOCK_SECONDS := 9_223_372_036
  const MAX_NEGATIVE_RATE := 1_000_000_000

  /** The product and the sum of a refill. */
  predicate FitsInt64(b: Bucket, now: int) {
    var add := TokensToAdd(b, now);
    -MAX_INT64 - 1 <= add <= MAX_INT64 && -MAX_INT64 - 1 <= b.tokens + add <= MAX_INT64
  }

  /** A legal run on a 64-bit clock after which the next check of `key`, at `now`, meets a live bucket. */
  ghost predicate Meets(ops: seq<Op>, key: string, now: int, q: Quotas) {
    && Timely(ops + [CheckOp(key, now, "")]) && LegalRun(EMPTY, ops, q)
    && Live(Final(EMPTY, ops, q), key, now)
    && 0 <= now <= MAX_INT64 && forall op | op in ops :: 0 <= op.now
  }

  /** What a negative window does to the rate. */
  lemma NegativeRate(q: Quota)
    requires q.window < 0 && q.limit >= 1
    ensures Rate(q) <= 0
    ensures -Rate(q) <= MAX_NEGATIVE_RATE <==> q.limit * PRECISION < (MAX_NEGATIVE_RATE + 1) * -q.window
  {
    var c, w, r, m := Capacity(q), q.window, Rate(q), MAX_NEGATIVE_RATE;
    assert c == w * r + c % w;
    assert w * r == -w * -r;
    if r >= 1 {
      MulMono(1, r, -w);
      assert false;
    } else if -r <= m {
      MulMono(-r, m, -w);
      assert -r * -w == -w * -r;
    } else {
      MulMono(m + 1, -r, -w);
      assert -r * -w == -w * -r;
    }
  }

  ghost predicate ClocksStarted(s: ShardState) { forall k | k in s.buckets :: s.buckets[k].lastUpdate >= 0 }

  lemma StepKeepsClocks(s: ShardState, op: Op, q: Quotas)
    requires ClocksStarted(s) && 0 <= op.now
    ensures ClocksStarted(Step(s, op, q).0)
  {
    if op.CheckOp? {
      forall k | k in Step(s, op, q).0.buckets ensures Step(s, op, q).0.buckets[k].lastUpdate >= 0 {
        LimiterKeys.CheckedBuckets(s, op, q, k);
      }
    }
  }

  lemma {:induction false} RunKeepsClocks(s: ShardState, ops: seq<Op>, q: Quotas)
    requires ClocksStarted(s) && forall op | op in ops :: 0 <= op.now
    ensures ClocksStarted(Final(s, ops, q))
    decreases |ops|
  {
    if ops != [] {
      hide Step;
      assert ops[0] in ops && forall op | op in ops[1..] :: op in ops;
      StepKeepsClocks(s, ops[0], q);
      RunKeepsClocks(Step(s, ops[0], q).0, ops[1..], q);
    }
  }

  lemma SmallRateFits(ops: seq<Op>, key: string, now: int, q: Quotas)
    requires Meets(ops, key, now, q) && 1 <= q(key).limit <= MAX_INT32 && -MAX_NEGATIVE_RATE <= Rate(q(key)) <= 0
    ensures FitsInt64(Final(EMPTY, ops, q).buckets[key], now)
  {
    var all := ops + [CheckOp(key, now, "")];
    forall i, j | 0 <= i < j < |ops| && ops[j].CheckOp? ensures ops[i].now <= ops[j].now {
      assert all[i] == ops[i] && all[j] == ops[j];
    }
    RunInvariant(ops, q);
    RunKeepsClocks(EMPTY, ops, q);
    forall o | o in ops && o.CheckOp? ensures o.now <= now {
      var i :| 0 <= i < |ops| && ops[i] == o;
      assert all[i] == o && all[|ops|].CheckOp?;
    }
    var b := Final(EMPTY, ops, q).buckets[key];
    assert UpTo(Final(EMPTY, ops, q), q, now);
    hide Final, LegalRun, Timely;
    SmallProduct(b, q(key), now);
  }

  lemma SmallProduct(b: Bucket, q: Quota, now: int)
    requires q.window != 0 && 1 <= q.limit <= MAX_INT32 && -MAX_NEGATIVE_RATE <= Rate(q) <= 0
    requires Sound(b, q) && 0 <= b.lastUpdate <= now <= MAX_INT64
    ensures FitsInt64(b, now)
  {
    var e := (now - b.lastUpdate) / SECOND;
    assert 0 <= e <= CLOCK_SECONDS;
    MulMono(0, e, -Rate(q));
    MulMono(e, CLOCK_SECONDS, -Rate(q));
    MulMono(-Rate(q), MAX_NEGATIVE_RATE, CLOCK_SECONDS);
    assert e * -Rate(q) == -(e * Rate(q));
  }

  /** `n` checks of one key, each just before its bucket expires. */
  function Slow(key: string, n: nat): (ops: seq<Op>)
    ensures |ops| == n && forall i | 0 <= i < n :: ops[i] == CheckOp(key, i * MAX_TTL, "")
  {
    if n == 0 then [] else Slow(key, n - 1) + [CheckOp(key, (n - 1) * MAX_TTL, "")]
  }

  /** The shard after those checks: its refill clock has not moved. */
  ghost predicate Stuck(s: ShardState, key: string, q: Quota, n: nat)
    requires q.window != 0
  {
    && s.buckets.Keys == {key}
    && var b := s.buckets[key];
       b.lastUpdate == 0 && b.rate == Rate(q) && b.oldLimit == q.limit && b.expireAt == n * MAX_TTL && b.tokens <= Capacity(q)
  }

  /** A check with a negative rate refills nothing. */
  lemma StuckBucket(b: Bucket, q: Quota, now: int)
    requires q.window < 0 && q.limit >= 1 && Rate(q) < 0 && 0 <= now
    requires b.lastUpdate == 0 && b.rate == Rate(q) && b.oldLimit == q.limit && b.tokens <= Capacity(q)
    ensures var b1 := Consume(Touch(b, q, now), now).0;
            && b1.lastUpdate == 0 && b1.rate == Rate(q) && b1.oldLimit == q.limit
            && b1.expireAt == now + MAX_TTL && b1.tokens <= Capacity(q)
  {
    var e := now / SECOND;
    MulMono(0, e, -Rate(q));
    assert e * -Rate(q) == -(e * Rate(q));
  }

  /** A check of a shard that holds no other key. */
  lemma AloneStep(s: ShardState, key: string, now: int, q: Quotas)
    requires s.buckets.Keys <= {key}
    ensures var op := CheckOp(key, now, ""); Legal(s, op) && Step(s, op, q).0.buckets.Keys == {key}
  {
    hide Consume, Touch, Fresh, IsVictim;
    var op := CheckOp(key, now, "");
    assert Vacated(s, key, now).buckets.Keys <= {key};
    SmallSet(Vacated(s, key, now).buckets, key);
    assert !AtCap(s, op);
    LimiterKeys.CheckedBuckets(s, op, q, key);
    hide Step, Legal, AtCap, Vacated;
    forall k | k != key ensures k !in Step(s, op, q).0.buckets { LimiterKeys.CheckedBuckets(s, op, q, k); }
  }

  lemma SmallSet(m: map<string, Bucket>, key: string)
    requires m.Keys <= {key}
    ensures |m| <= 1
  {
    if key in m { assert m.Keys == {key}; } else { assert m.Keys == {}; }
  }

  lemma StuckStep(s: ShardState, key: string, q: Quotas, n: nat)
    requires q(key).window < 0 && q(key).limit >= 1 && Rate(q(key)) < 0
    requires if n == 0 then s == EMPTY else Stuck(s, key, q(key), n)
    ensures var op := CheckOp(key, n * MAX_TTL, ""); Legal(s, op) && Stuck(Step(s, op, q).0, key, q(key), n + 1)
  {
    hide Consume, Touch, Fresh, Rate, Legal, Step;
    var now := n * MAX_TTL;
    AloneStep(s, key, now, q);
    LimiterKeys.CheckedBuckets(s, CheckOp(key, now, ""), q, key);
    if n == 0 { FreshStuck(q(key)); } else { StuckBucket(s.buckets[key], q(key), now); }
  }

  lemma FreshStuck(q: Quota)
    requires q.window < 0 && q.limit >= 1
    ensures var b1 := Consume(Fresh(q, 0), 0).0;
            && b1.lastUpdate == 0 && b1.rate == Rate(q) && b1.oldLimit == q.limit
            && b1.expireAt == MAX_TTL && b1.tokens <= Capacity(q)
  {
  }

  lemma {:induction false} SlowIsStuck(key: string, q: Quotas, n: nat)
    requires n > 0 && q(key).window < 0 && q(key).limit >= 1 && Rate(q(key)) < 0
    ensures LegalRun(EMPTY, Slow(key, n), q) && Stuck(Final(EMPTY, Slow(key, n), q), key, q(key), n)
  {
    hide Step, Legal, Stuck, Rate;
    var pre, op := Slow(key, n - 1), CheckOp(key, (n - 1) * MAX_TTL, "");
    if n == 1 { assert pre == []; } else { SlowIsStuck(key, q, n - 1); }
    StuckStep(Final(EMPTY, pre, q), key, q, n - 1);
    FinalSnoc(EMPTY, pre, op, q);
    LegalSnoc(EMPTY, pre, op, q);
  }

  /** Enough checks to keep the bucket alive until the clock shows its last whole second. */
  const CHECKS := CLOCK_SECONDS / 300 + 1

  lemma SlowOverflows(key: string, q: Quotas)
    requires q(key).window < 0 && 1 <= q(key).limit <= MAX_INT32 && -Rate(q(key)) > MAX_NEGATIVE_RATE
    ensures var ops, now := Slow(key, CHECKS), CLOCK_SECONDS * SECOND;
            Meets(ops, key, now, q) && !FitsInt64(Final(EMPTY, ops, q).buckets[key], now)
  {
    var n, now := CHECKS, CLOCK_SECONDS * SECOND;
    hide Slow, LegalRun, Final, Timely, FitsInt64, Rate, Stuck, Live;
    var ops := Slow(key, n);
    SlowIsStuck(key, q, n);
    SlowTimely(key, n, now);
    StuckOverflows(Final(EMPTY, ops, q), key, q(key));
  }

  lemma StuckOverflows(s: ShardState, key: string, q: Quota)
    requires q.window != 0 && -Rate(q) > MAX_NEGATIVE_RATE && Stuck(s, key, q, CHECKS)
    ensures Live(s, key, CLOCK_SECONDS * SECOND) && !FitsInt64(s.buckets[key], CLOCK_SECONDS * SECOND)
  {
    hide Rate, FitsInt64;
    LargeProduct(s.buckets[key], q);
  }

  lemma LargeProduct(b: Bucket, q: Quota)
    requires q.window != 0 && b.lastUpdate == 0 && b.rate == Rate(q) && -Rate(q) > MAX_NEGATIVE_RATE
    ensures !FitsInt64(b, CLOCK_SECONDS * SECOND)
  {
    hide Rate;
    var e := CLOCK_SECONDS * SECOND / SECOND;
    assert e == CLOCK_SECONDS;
    MulMono(MAX_NEGATIVE_RATE + 1, -Rate(q), e);
    assert -Rate(q) * e == -(e * Rate(q));
  }

  lemma SlowTimely(key: string, n: nat, now: int)
    requires n > 0 && (n - 1) * MAX_TTL <= now
    ensures Timely(Slow(key, n) + [CheckOp(key, now, "")]) && forall op | op in Slow(key, n) :: 0 <= op.now
  {
    var ops := Slow(key, n) + [CheckOp(key, now, "")];
    forall i, j | 0 <= i < j < |ops| ensures ops[i].now <= ops[j].now {
      assert ops[i].now == i * MAX_TTL;
    }
  }

  /** The exact condition: for a key with a positive 32-bit limit, every refill of every legal run on a
      64-bit clock stays inside a signed 64-bit integer if and only if the window is positive, or so far
      below zero that the rate takes away at most a thousand million tokens a second. */
  lemma RefillFitsIff(key: string, q: Quotas)
    requires 1 <= q(key).limit <= MAX_INT32
    ensures (forall ops, now | Meets(ops, key, now, q) :: FitsInt64(Final(EMPTY, ops, q).buckets[key], now))
       <==> q(key).window > 0 || q(key).limit * PRECISION < (MAX_NEGATIVE_RATE + 1) * -q(key).window
  {
    if q(key).window > 0 {
      forall ops, now | Meets(ops, key, now, q) ensures FitsInt64(Final(EMPTY, ops, q).buckets[key], now) {
        RefillNeverOverflows(ops, key, now, q);
      }
    } else {
      NegativeRate(q(key));
      if -Rate(q(key)) <= MAX_NEGATIVE_RATE {
        forall ops, now | Meets(ops, key, now, q) ensures FitsInt64(Final(EMPTY, ops, q).buckets[key], now) {
          SmallRateFits(ops, key, now, q);
        }
      } else {
        SlowOverflows(key, q);
      }
    }
  }
}
