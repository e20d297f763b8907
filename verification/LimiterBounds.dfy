/** How many requests a key gets through the local limiter, with expiry, cleanup, eviction, and limits
    that may change from check to check. */
module LimiterBounds {
  import opened Options
  import opened TokenBucket
  import opened LimiterRuns
  import opened LimiterKeys
  import LimiterExpiry

  // ----- Runs whose quotas may change at every step

  function FinalUnder(s: ShardState, ops: seq<Op>, qs: seq<Quotas>): ShardState
    requires |ops| == |qs|
    decreases |ops|
  {
    if ops == [] then s else FinalUnder(Step(s, ops[0], qs[0]).0, ops[1..], qs[1..])
  }

  /** The requests of `key` that such a run lets through. */
  function AdmittedUnder(s: ShardState, ops: seq<Op>, qs: seq<Quotas>, key: string): nat
    requires |ops| == |qs|
    decreases |ops|
  {
    if ops == [] then 0 else
      var (s1, ok) := Step(s, ops[0], qs[0]);
      (if Asks(ops[0], key) && ok then 1 else 0) + AdmittedUnder(s1, ops[1..], qs[1..], key)
  }

  /** The evictions of `key` in such a run. */
  function EvictionsUnder(s: ShardState, ops: seq<Op>, qs: seq<Quotas>, key: string): nat
    requires |ops| == |qs|
    decreases |ops|
  {
    if ops == [] then 0 else
      (if Loses(s, ops[0], key) then 1 else 0) + EvictionsUnder(Step(s, ops[0], qs[0]).0, ops[1..], qs[1..], key)
  }

  predicate Loses(s: ShardState, op: Op, key: string) { EventOf(s, op, key) == [Lose] }

  /** A quota whose limit is at most `top` and refills its bucket within the window `w`. */
  predicate Allowed(q: Quota, top: nat, w: int) { q.window == w && 1 <= q.limit <= top && q.limit * PRECISION >= w }

  /** All checks of `key` carry allowed quotas. */
  ghost predicate AllAllowed(ops: seq<Op>, qs: seq<Quotas>, key: string, top: nat, w: int)
    requires |ops| == |qs|
  {
    forall i | 0 <= i < |ops| && Asks(ops[i], key) :: Allowed(qs[i](key), top, w)
  }

  function Full(top: nat): int { top * PRECISION }

  /** `n` full buckets. */
  function Fulls(n: nat, top: nat): int { n * Full(top) }

  lemma OneMore(n: nat, top: nat)
    ensures Fulls(n + 1, top) == Fulls(n, top) + Full(top) && 0 <= Fulls(n, top) && 0 <= Full(top) && Fulls(0, top) == 0
  {
    MulMono(0, n, Full(top));
  }

  /** What `elapsed` nanoseconds can bring under limits up to `top`. */
  function Earned(top: nat, w: int, elapsed: int): int
    requires w > 0
  {
    Rate(Quota(top, w)) * (elapsed / SECOND)
  }

  lemma EarnedAdds(top: nat, w: int, a: int, b: int)
    requires w > 0 && 0 <= a && 0 <= b
    ensures 0 <= Earned(top, w, a) && 0 <= Rate(Quota(top, w))
    ensures Earned(top, w, a) + Earned(top, w, b) <= Earned(top, w, a + b)
  {
    var r := Rate(Quota(top, w));
    WholeSeconds(a, b);
    MulMono(0, a / SECOND, r);
    MulMono(a / SECOND + b / SECOND, (a + b) / SECOND, r);
  }

  lemma RateRises(limit: nat, top: nat, w: int)
    requires w > 0 && limit <= top
    ensures 0 <= Rate(Quota(limit, w)) <= Rate(Quota(top, w))
  {
    var a, b := limit * PRECISION, top * PRECISION;
    assert a == w * (a / w) + a % w && b == w * (b / w) + b % w;
    if a / w > b / w {
      MulMono(b / w + 1, a / w, w);
    }
  }

  /** After a time to live the largest limit would have brought a full bucket. */
  lemma TtlEarns(top: nat, w: int, elapsed: int)
    requires w > 0 && top >= 1 && Full(top) >= w && elapsed > Ttl(Quota(0, w))
    ensures Earned(top, w, elapsed) >= Full(top)
  {
    var q := Quota(top, w);
    TwoWindowsFill(q);
    assert elapsed / SECOND >= 2 * w;
    MulMono(2 * w, elapsed / SECOND, Rate(q));
  }

  // ----- The bucket of a key

  function Slot(s: ShardState, key: string): Option<Bucket> { if key in s.buckets then Some(s.buckets[key]) else None }

  /** When the bucket was last checked. */
  function Checked(b: Bucket, w: int): int { b.expireAt - Ttl(Quota(0, w)) }

  /** A bucket as a check with an allowed quota leaves it. */
  ghost predicate Fit(b: Bucket, top: nat, w: int)
    requires w > 0
  {
    && 0 <= b.tokens <= Full(top)
    && Allowed(Quota(b.oldLimit, w), top, w)
    && b.capacity == b.oldLimit * PRECISION && b.rate == Rate(Quota(b.oldLimit, w))
    && 0 <= Checked(b, w) - b.lastUpdate < SECOND
  }

  ghost predicate FitSlot(o: Option<Bucket>, top: nat, w: int, from: int)
    requires w > 0
  {
    o.Some? ==> Fit(o.value, top, w) && Checked(o.value, w) <= from
  }

  /** What the key has to spend: the tokens of its bucket, or those of the bucket it will get. */
  function Tokens(o: Option<Bucket>, top: nat): int { if o.Some? then o.value.tokens else Full(top) }

  function Since(o: Option<Bucket>, from: int): int { if o.Some? then o.value.lastUpdate else from }

  lemma FitTokens(o: Option<Bucket>, top: nat, w: int, from: int)
    requires w > 0 && FitSlot(o, top, w, from)
    ensures 0 <= Tokens(o, top) <= Full(top) && Since(o, from) <= from
  {
  }

  /** A live bucket: the check pays with tokens or with whole seconds at the rate of its limit. */
  lemma TouchPays(b: Bucket, q: Quota, top: nat, w: int, now: int)
    requires w > 0 && Fit(b, top, w) && Allowed(q, top, w) && Checked(b, w) <= now
    ensures var (b1, ok) := Consume(Touch(b, q, now), now);
            var paid := (if ok then PRECISION else 0) + b1.tokens;
            && Fit(b1, top, w) && Checked(b1, w) == now && b.lastUpdate <= b1.lastUpdate
            && paid <= Full(top)
            && paid <= b.tokens + Rate(q) * ((b1.lastUpdate - b.lastUpdate) / SECOND)
  {
    TwoWindowsFill(q);
    var e := (now - b.lastUpdate) / SECOND;
    if e >= 1 { MulMono(1, e, Rate(q)); }
  }

  lemma FreshPays(q: Quota, top: nat, w: int, now: int)
    requires w > 0 && Allowed(q, top, w)
    ensures var (b, ok) := Consume(Fresh(q, now), now);
            && ok && Fit(b, top, w) && Checked(b, w) == now == b.lastUpdate && PRECISION + b.tokens <= Full(top)
  {
  }

  /** One check, whatever has become of the bucket: what it takes is covered by what there was to spend
      and by the seconds that have passed; a bucket that expired has earned a full one. */
  lemma AskPays(s: ShardState, key: string, q: Quota, top: nat, w: int, from: int, now: int)
    requires w > 0 && FitSlot(Slot(s, key), top, w, from) && Allowed(q, top, w) && from <= now
    ensures var o := Slot(s, key);
            var (b, ok) := Consume(Offered(FromShard(s, key, now), q, now), now);
            var paid := (if ok then PRECISION else 0) + b.tokens;
            && FitSlot(Some(b), top, w, now) && Since(o, from) <= b.lastUpdate <= now && now - b.lastUpdate < SECOND
            && paid <= Full(top)
            && paid <= Tokens(o, top) + Earned(top, w, b.lastUpdate - Since(o, from))
  {
    hide Consume, Touch, Fresh;
    var o := Slot(s, key);
    FitTokens(o, top, w, from);
    EarnedAdds(top, w, now - Since(o, from), 0);
    if Live(s, key, now) {
      TouchPays(o.value, q, top, w, now);
      var b1 := Consume(Touch(o.value, q, now), now).0;
      RateRises(q.limit, top, w);
      MulSides((b1.lastUpdate - o.value.lastUpdate) / SECOND, Rate(q), Rate(Quota(top, w)));
    } else {
      FreshPays(q, top, w, now);
      if o.Some? { TtlEarns(top, w, now - o.value.lastUpdate); }
    }
  }

  lemma MulSides(n: int, a: int, b: int)
    requires 0 <= n && a <= b
    ensures a * n <= b * n
  {
  }

  // ----- One step and the bucket of a key

  /** Every check of `key` in the rest of a run lies between `lo` and `hi`. */
  ghost predicate Ahead(ops: seq<Op>, key: string, lo: int, hi: int) {
    Timely(ops) && forall i | 0 <= i < |ops| && Asks(ops[i], key) :: lo <= ops[i].now <= hi
  }

  lemma AheadRest(ops: seq<Op>, key: string, lo: int, hi: int)
    requires ops != [] && Ahead(ops, key, lo, hi)
    ensures Ahead(ops[1..], key, Max(lo, ops[0].now), hi) && Ahead(ops[1..], key, lo, hi)
  {
    assert forall i | 0 <= i < |ops| - 1 :: ops[1..][i] == ops[i + 1];
  }

  lemma AllowedRest(ops: seq<Op>, qs: seq<Quotas>, key: string, top: nat, w: int)
    requires ops != [] && |ops| == |qs| && AllAllowed(ops, qs, key, top, w)
    ensures AllAllowed(ops[1..], qs[1..], key, top, w)
    ensures Asks(ops[0], key) ==> Allowed(qs[0](key), top, w)
  {
    assert forall i | 0 <= i < |ops| - 1 :: ops[1..][i] == ops[i + 1] && qs[1..][i] == qs[i + 1];
  }

  /** A step that is no check of `key` leaves its bucket, evicts it, or drops it after expiry. */
  lemma OtherStep(s: ShardState, op: Op, q: Quotas, key: string)
    requires !Asks(op, key)
    ensures var o, o1 := Slot(s, key), Slot(Step(s, op, q).0, key);
            if Loses(s, op, key) then o1 == None
            else o1 == o || (o1 == None && o.Some? && Expired(o.value, op.now))
  {
    hide Consume, Touch, Fresh, AtCap;
    if op.CheckOp? { CheckedBuckets(s, op, q, key); }
  }

  /** Losing a bucket costs a full one; dropping an expired one costs nothing, for it had earned a
      full one. */
  lemma OtherPays(o: Option<Bucket>, o1: Option<Bucket>, lost: bool, now: int, top: nat, w: int, from: int, from': int)
    requires w > 0 && top >= 1 && Full(top) >= w && FitSlot(o, top, w, from) && from' == Max(from, now)
    requires if lost then o1 == None else o1 == o || (o1 == None && o.Some? && Expired(o.value, now))
    ensures FitSlot(o1, top, w, from') && Since(o, from) <= Since(o1, from') <= from'
    ensures Tokens(o1, top) <= Tokens(o, top) + (if lost then Full(top) else 0)
                               + Earned(top, w, Since(o1, from') - Since(o, from))
  {
    FitTokens(o, top, w, from);
    hide Earned;
    EarnedAdds(top, w, Since(o1, from') - Since(o, from), 0);
    if !lost && o1 != o {
      TtlEarns(top, w, from' - o.value.lastUpdate);
    }
  }

  // ----- Ledger

  /** What is admitted in a run, with what the bucket holds in the end, against what there was. */
  predicate Covered(s: ShardState, ops: seq<Op>, qs: seq<Quotas>, key: string, top: nat, w: int, from: int, hi: int)
    requires w > 0 && |ops| == |qs|
  {
    && 0 <= Left(FinalUnder(s, ops, qs), key) <= Full(top)
    && PRECISION * AdmittedUnder(s, ops, qs, key) + Left(FinalUnder(s, ops, qs), key)
       <= Tokens(Slot(s, key), top) + Fulls(EvictionsUnder(s, ops, qs, key), top)
          + Earned(top, w, hi - Since(Slot(s, key), from))
  }

  function Left(s: ShardState, key: string): int { if key in s.buckets then s.buckets[key].tokens else 0 }

  lemma AskCovered(s: ShardState, ops: seq<Op>, qs: seq<Quotas>, key: string, top: nat, w: int, from: int, hi: int)
    requires w > 0 && |ops| == |qs| && ops != [] && Asks(ops[0], key) && Allowed(qs[0](key), top, w)
    requires FitSlot(Slot(s, key), top, w, from) && from <= ops[0].now <= hi
    requires Covered(Step(s, ops[0], qs[0]).0, ops[1..], qs[1..], key, top, w, ops[0].now, hi)
    ensures Covered(s, ops, qs, key, top, w, from, hi)
  {
    hide Step, Consume, Offered, FromShard, Earned, Full, Fulls, FitSlot, Left;
    var now := ops[0].now;
    AskPays(s, key, qs[0](key), top, w, from, now);
    CheckedBuckets(s, ops[0], qs[0], key);
    var b := Step(s, ops[0], qs[0]).0.buckets[key];
    EarnedAdds(top, w, b.lastUpdate - Since(Slot(s, key), from), hi - b.lastUpdate);
    NeverLoses(s, ops[0], key);
  }

  lemma NeverLoses(s: ShardState, op: Op, key: string)
    requires Asks(op, key)
    ensures !Loses(s, op, key)
  {
  }

  lemma Unrolled(s: ShardState, ops: seq<Op>, qs: seq<Quotas>, key: string)
    requires |ops| == |qs| && ops != [] && !Asks(ops[0], key)
    ensures var s1, rest, qs1 := Step(s, ops[0], qs[0]).0, ops[1..], qs[1..];
            && AdmittedUnder(s, ops, qs, key) == AdmittedUnder(s1, rest, qs1, key)
            && FinalUnder(s, ops, qs) == FinalUnder(s1, rest, qs1)
            && EvictionsUnder(s, ops, qs, key) == EvictionsUnder(s1, rest, qs1, key) + if Loses(s, ops[0], key) then 1 else 0
  {
    hide Step, Loses;
  }

  lemma OtherCovered(s: ShardState, ops: seq<Op>, qs: seq<Quotas>, key: string, top: nat, w: int, from: int, from': int, hi: int)
    requires w > 0 && top >= 1 && Full(top) >= w && |ops| == |qs| && ops != [] && !Asks(ops[0], key)
    requires FitSlot(Slot(s, key), top, w, from) && from' == Max(from, ops[0].now) && from' <= hi
    requires Covered(Step(s, ops[0], qs[0]).0, ops[1..], qs[1..], key, top, w, from', hi)
    ensures Covered(s, ops, qs, key, top, w, from, hi)
  {
    hide Step, Earned, Full, Fulls, FitSlot, Left, Loses, Slot, Tokens, Since, AdmittedUnder, FinalUnder, EvictionsUnder, Asks;
    var o, s1 := Slot(s, key), Step(s, ops[0], qs[0]).0;
    OtherStep(s, ops[0], qs[0], key);
    OtherPays(o, Slot(s1, key), Loses(s, ops[0], key), ops[0].now, top, w, from, from');
    EarnedAdds(top, w, Since(Slot(s1, key), from') - Since(o, from), hi - Since(Slot(s1, key), from'));
    OneMore(EvictionsUnder(s1, ops[1..], qs[1..], key), top);
    Unrolled(s, ops, qs, key);
  }

  ghost predicate NoneAsks(ops: seq<Op>, key: string) { forall i | 0 <= i < |ops| :: !Asks(ops[i], key) }

  /** Without checks to come nothing is admitted, and a bucket never appears or grows. */
  lemma {:induction false} NothingToCome(s: ShardState, ops: seq<Op>, qs: seq<Quotas>, key: string)
    requires |ops| == |qs| && NoneAsks(ops, key)
    ensures AdmittedUnder(s, ops, qs, key) == 0
    ensures var s1 := FinalUnder(s, ops, qs); key in s1.buckets ==> key in s.buckets && s1.buckets[key] == s.buckets[key]
    decreases |ops|
  {
    if ops != [] {
      hide Step, AtCap;
      assert forall i | 0 <= i < |ops| - 1 :: ops[1..][i] == ops[i + 1];
      NothingToCome(Step(s, ops[0], qs[0]).0, ops[1..], qs[1..], key);
      UncheckedStep(s, ops[0], qs[0], key);
    }
  }

  lemma UncheckedStep(s: ShardState, op: Op, q: Quotas, key: string)
    requires !Asks(op, key)
    ensures var s1 := Step(s, op, q).0; key in s1.buckets ==> key in s.buckets && s1.buckets[key] == s.buckets[key]
  {
    hide Consume, Touch, Fresh, AtCap;
    if op.CheckOp? { CheckedBuckets(s, op, q, key); }
  }

  lemma LeftOver(s: ShardState, s1: ShardState, key: string, top: nat)
    requires key in s1.buckets ==> key in s.buckets && s1.buckets[key] == s.buckets[key]
    requires 0 <= Tokens(Slot(s, key), top)
    ensures 0 <= Left(s1, key) <= Tokens(Slot(s, key), top)
  {
  }

  lemma IdleCovered(s: ShardState, ops: seq<Op>, qs: seq<Quotas>, key: string, top: nat, w: int, from: int, hi: int)
    requires w > 0 && |ops| == |qs| && FitSlot(Slot(s, key), top, w, from) && from <= hi
    requires NoneAsks(ops, key)
    ensures Covered(s, ops, qs, key, top, w, from, hi)
  {
    hide Earned, AdmittedUnder, FinalUnder, EvictionsUnder, Slot, FitSlot, Left, Tokens, Since, Full, Fulls, NoneAsks;
    NothingToCome(s, ops, qs, key);
    FitTokens(Slot(s, key), top, w, from);
    LeftOver(s, FinalUnder(s, ops, qs), key, top);
    EarnedAdds(top, w, hi - Since(Slot(s, key), from), 0);
    OneMore(EvictionsUnder(s, ops, qs, key), top);
  }

  lemma StepFits(s: ShardState, op: Op, q: Quotas, key: string, top: nat, w: int, from: int)
    requires w > 0 && FitSlot(Slot(s, key), top, w, from)
    requires Asks(op, key) ==> from <= op.now && Allowed(q(key), top, w)
    ensures FitSlot(Slot(Step(s, op, q).0, key), top, w, if Asks(op, key) then op.now else from)
  {
    if Asks(op, key) {
      hide Step, Consume, Offered, FromShard, Fit;
      AskPays(s, key, q(key), top, w, from, op.now);
      CheckedBuckets(s, op, q, key);
    } else {
      hide Step, Fit;
      UncheckedStep(s, op, q, key);
    }
  }

  lemma FitLater(o: Option<Bucket>, top: nat, w: int, from: int, later: int)
    requires w > 0 && FitSlot(o, top, w, from) && from <= later
    ensures FitSlot(o, top, w, later)
  {
  }

  /** The ledger of one key over any run: what was admitted and what is left is covered by what there
      was to spend, one full bucket for each eviction, and what the whole seconds brought. */
  lemma {:induction false} Ledger(s: ShardState, ops: seq<Op>, qs: seq<Quotas>, key: string, top: nat, w: int, from: int, hi: int)
    requires w > 0 && top >= 1 && Full(top) >= w && |ops| == |qs|
    requires FitSlot(Slot(s, key), top, w, from) && from <= hi && Ahead(ops, key, from, hi)
    requires AllAllowed(ops, qs, key, top, w)
    ensures Covered(s, ops, qs, key, top, w, from, hi)
    decreases |ops|
  {
    if NoneAsks(ops, key) {
      IdleCovered(s, ops, qs, key, top, w, from, hi);
    } else {
      hide Step, Covered, FitSlot, AllAllowed, Ahead, Full, Slot, Allowed, NoneAsks, Asks;
      AheadRest(ops, key, from, hi);
      AllowedRest(ops, qs, key, top, w);
      LastIsAhead(ops, key, from, hi);
      StepFits(s, ops[0], qs[0], key, top, w, from);
      var s1, from' := Step(s, ops[0], qs[0]).0, Max(from, ops[0].now);
      if Asks(ops[0], key) {
        Ledger(s1, ops[1..], qs[1..], key, top, w, from', hi);
        AskCovered(s, ops, qs, key, top, w, from, hi);
      } else {
        FitLater(Slot(s1, key), top, w, from, from');
        Ledger(s1, ops[1..], qs[1..], key, top, w, from', hi);
        OtherCovered(s, ops, qs, key, top, w, from, from', hi);
      }
    }
  }

  lemma LastIsAhead(ops: seq<Op>, key: string, from: int, hi: int)
    requires Ahead(ops, key, from, hi) && !NoneAsks(ops, key)
    ensures ops != [] && ops[0].now <= hi && (Asks(ops[0], key) ==> from <= ops[0].now)
  {
    var i :| 0 <= i < |ops| && Asks(ops[i], key);
    assert i > 0 ==> ops[0].now <= ops[i].now;
  }

  // ----- Any stretch

  predicate InBound(s: ShardState, ops: seq<Op>, qs: seq<Quotas>, key: string, top: nat, w: int, span: int)
    requires w > 0 && |ops| == |qs|
  {
    PRECISION * AdmittedUnder(s, ops, qs, key)
    <= Fulls(1 + EvictionsUnder(s, ops, qs, key), top) + Rate(Quota(top, w)) * (span / SECOND + 1)
  }

  /** Any stretch of `span` nanoseconds: after its first check the bucket holds at most a full one less
      what the check took, and its refill clock lies less than a second back. */
  lemma {:induction false} StretchBound(s: ShardState, ops: seq<Op>, qs: seq<Quotas>, key: string, top: nat, w: int, from: int, start: int, span: int)
    requires w > 0 && top >= 1 && Full(top) >= w && |ops| == |qs| && 0 <= span
    requires FitSlot(Slot(s, key), top, w, from) && start <= from && Ahead(ops, key, from, start + span)
    requires AllAllowed(ops, qs, key, top, w)
    ensures InBound(s, ops, qs, key, top, w, span)
    decreases |ops|
  {
    if ops == [] {
      NonNegative(1, top, w, span);
    } else {
      hide Step, FitSlot, AllAllowed, Ahead, Full, Slot, Allowed, Covered, InBound, Asks;
      AheadRest(ops, key, from, start + span);
      AllowedRest(ops, qs, key, top, w);
      FirstIsAhead(ops, key, from, start + span);
      StepFits(s, ops[0], qs[0], key, top, w, from);
      var s1 := Step(s, ops[0], qs[0]).0;
      if Asks(ops[0], key) {
        AskedStretch(s, ops, qs, key, top, w, from, start, span);
      } else {
        StretchBound(s1, ops[1..], qs[1..], key, top, w, from, start, span);
        OtherBound(s, ops, qs, key, top, w, span);
      }
    }
  }

  lemma AskedStretch(s: ShardState, ops: seq<Op>, qs: seq<Quotas>, key: string, top: nat, w: int, from: int, start: int, span: int)
    requires w > 0 && top >= 1 && Full(top) >= w && |ops| == |qs| && 0 <= span && ops != [] && Asks(ops[0], key)
    requires FitSlot(Slot(s, key), top, w, from) && start <= from <= ops[0].now && Allowed(qs[0](key), top, w)
    requires Ahead(ops[1..], key, ops[0].now, start + span) && ops[0].now <= start + span
    requires AllAllowed(ops[1..], qs[1..], key, top, w)
    ensures InBound(s, ops, qs, key, top, w, span)
  {
    hide Step, FitSlot, AllAllowed, Ahead, Full, Slot, Allowed, Covered, InBound;
    StepFits(s, ops[0], qs[0], key, top, w, from);
    Ledger(Step(s, ops[0], qs[0]).0, ops[1..], qs[1..], key, top, w, ops[0].now, start + span);
    FirstBound(s, ops, qs, key, top, w, from, start, span);
  }

  lemma FirstIsAhead(ops: seq<Op>, key: string, from: int, hi: int)
    requires ops != [] && Ahead(ops, key, from, hi)
    ensures Asks(ops[0], key) ==> from <= ops[0].now <= hi && Ahead(ops[1..], key, ops[0].now, hi)
  {
    AheadRest(ops, key, from, hi);
  }

  lemma OtherBound(s: ShardState, ops: seq<Op>, qs: seq<Quotas>, key: string, top: nat, w: int, span: int)
    requires w > 0 && |ops| == |qs| && ops != [] && !Asks(ops[0], key) && 0 <= span
    requires InBound(Step(s, ops[0], qs[0]).0, ops[1..], qs[1..], key, top, w, span)
    ensures InBound(s, ops, qs, key, top, w, span)
  {
    hide Step, Loses, Full, Fulls, Rate, AdmittedUnder, EvictionsUnder, FinalUnder, Asks;
    Unrolled(s, ops, qs, key);
    OneMore(1 + EvictionsUnder(Step(s, ops[0], qs[0]).0, ops[1..], qs[1..], key), top);
  }

  lemma NonNegative(n: nat, top: nat, w: int, span: int)
    requires w > 0 && 0 <= span
    ensures 0 <= Fulls(n, top) && 0 <= Rate(Quota(top, w)) * (span / SECOND + 1)
  {
    RateRises(0, top, w);
    MulMono(0, span / SECOND + 1, Rate(Quota(top, w)));
    OneMore(n, top);
  }

  lemma FirstBound(s: ShardState, ops: seq<Op>, qs: seq<Quotas>, key: string, top: nat, w: int, from: int, start: int, span: int)
    requires w > 0 && |ops| == |qs| && ops != [] && Asks(ops[0], key) && Allowed(qs[0](key), top, w) && 0 <= span
    requires FitSlot(Slot(s, key), top, w, from) && start <= from <= ops[0].now <= start + span
    requires Covered(Step(s, ops[0], qs[0]).0, ops[1..], qs[1..], key, top, w, ops[0].now, start + span)
    ensures InBound(s, ops, qs, key, top, w, span)
  {
    hide Step, Consume, Offered, FromShard, Full, Fulls, Earned, Rate;
    AskPays(s, key, qs[0](key), top, w, from, ops[0].now);
    CheckedBuckets(s, ops[0], qs[0], key);
    NeverLoses(s, ops[0], key);
    var s1 := Step(s, ops[0], qs[0]).0;
    var b := s1.buckets[key];
    assert Fit(b, top, w);
    StretchEarned(top, w, start + span - b.lastUpdate, span);
    OneMore(EvictionsUnder(s1, ops[1..], qs[1..], key), top);
  }

  lemma StretchEarned(top: nat, w: int, elapsed: int, span: int)
    requires w > 0 && 0 <= elapsed < span + SECOND
    ensures 0 <= Earned(top, w, elapsed) <= Rate(Quota(top, w)) * (span / SECOND + 1)
  {
    EarnedAdds(top, w, elapsed, 0);
    MulMono(elapsed / SECOND, span / SECOND + 1, Rate(Quota(top, w)));
  }

  // ----- The shard

  ghost predicate Within(ops: seq<Op>, key: string, lo: int, hi: int) {
    forall op | op in ops && Asks(op, key) :: lo <= op.now <= hi
  }

  lemma WithinIsAhead(ops: seq<Op>, key: string, lo: int, hi: int, t: int)
    requires Timely(ops) && Within(ops, key, lo, hi) && From(ops, key, t)
    ensures Ahead(ops, key, Max(lo, t), hi)
  {
    forall i | 0 <= i < |ops| && Asks(ops[i], key) ensures lo <= ops[i].now <= hi { assert ops[i] in ops; }
  }

  /** The bucket with which a key leaves the first part of a run, for the second part. */
  lemma {:induction false} RunFits(s: ShardState, a: seq<Op>, qs: seq<Quotas>, b: seq<Op>, key: string, top: nat, w: int, from: int)
      returns (later: int)
    requires w > 0 && |a| == |qs| && Timely(a + b) && From(a + b, key, from)
    requires FitSlot(Slot(s, key), top, w, from) && AllAllowed(a, qs, key, top, w)
    ensures FitSlot(Slot(FinalUnder(s, a, qs), key), top, w, later) && Timely(b) && From(b, key, later)
    decreases |a|
  {
    hide Step, FitSlot, AllAllowed, Slot, Allowed, Timely, From;
    later := from;
    if a == [] {
      assert a + b == b;
    } else {
      assert (a + b)[0] == a[0] && (a + b)[1..] == a[1..] + b;
      AllowedRest(a, qs, key, top, w);
      TimelyRest(a + b, key, from);
      StepFits(s, a[0], qs[0], key, top, w, from);
      later := RunFits(Step(s, a[0], qs[0]).0, a[1..], qs[1..], b, key, top, w, if Asks(a[0], key) then a[0].now else from);
    }
  }

  lemma TimelyRest(ops: seq<Op>, key: string, from: int)
    requires ops != [] && Timely(ops) && From(ops, key, from)
    ensures Timely(ops[1..]) && From(ops[1..], key, from)
    ensures Asks(ops[0], key) ==> from <= ops[0].now && From(ops[1..], key, ops[0].now)
  {
    assert forall i | 0 <= i < |ops| - 1 :: ops[1..][i] == ops[i + 1];
  }

  lemma FirstIsFrom(ops: seq<Op>, key: string)
    requires ops != [] && Timely(ops)
    ensures From(ops, key, ops[0].now)
  {
  }

  /** The bound on the requests that a limit and its rate let through in `span` nanoseconds. */
  predicate Meets(admitted: nat, evictions: nat, limit: int, rate: int, span: int) {
    PRECISION * admitted <= (1 + evictions) * (limit * PRECISION) + rate * (span / SECOND + 1)
  }

  /** Admission bound: in whatever stretch of whatever run of a shard, with expiry, cleanup and
      eviction, and with limits that may change from check to check but stay between window / 1000 and
      `top`, a key whose checks in the stretch fall within `span` nanoseconds gets at most
      ((1 + evictions of the key) * capacity + rate * (whole seconds + 1)) / 1000 requests through,
      where capacity and rate are those of `top`. */
  lemma AdmissionBound(pre: seq<Op>, before: seq<Quotas>, mid: seq<Op>, qs: seq<Quotas>,
                       key: string, top: nat, w: int, start: int, span: int)
    requires |pre| == |before| && |mid| == |qs| && Timely(pre + mid) && 0 <= span && Within(mid, key, start, start + span)
    requires w > 0 && AllAllowed(pre, before, key, top, w) && AllAllowed(mid, qs, key, top, w)
    ensures var s := FinalUnder(EMPTY, pre, before);
            Meets(AdmittedUnder(s, mid, qs, key), EvictionsUnder(s, mid, qs, key), top, Rate(Quota(top, w)), span)
  {
    hide Timely, AllAllowed, Within, FinalUnder, AdmittedUnder, EvictionsUnder, NoneAsks, Rate;
    var s := FinalUnder(EMPTY, pre, before);
    if NoneAsks(mid, key) {
      IdleBound(s, mid, qs, key, top, w, span);
    } else {
      SomeAsks(mid, qs, key, top, w);
      assert pre + mid != [];
      AskingStretch(pre, before, mid, qs, key, top, w, start, span);
    }
    assert InBound(s, mid, qs, key, top, w, span);
  }

  lemma IdleBound(s: ShardState, ops: seq<Op>, qs: seq<Quotas>, key: string, top: nat, w: int, span: int)
    requires w > 0 && |ops| == |qs| && 0 <= span && NoneAsks(ops, key)
    ensures InBound(s, ops, qs, key, top, w, span)
  {
    NothingToCome(s, ops, qs, key);
    NonNegative(1 + EvictionsUnder(s, ops, qs, key), top, w, span);
  }

  lemma SomeAsks(ops: seq<Op>, qs: seq<Quotas>, key: string, top: nat, w: int)
    requires |ops| == |qs| && !NoneAsks(ops, key) && AllAllowed(ops, qs, key, top, w)
    ensures ops != [] && top >= 1 && Full(top) >= w
  {
    var i :| 0 <= i < |ops| && Asks(ops[i], key);
    assert Allowed(qs[i](key), top, w);
  }

  lemma AskingStretch(pre: seq<Op>, before: seq<Quotas>, mid: seq<Op>, qs: seq<Quotas>,
                      key: string, top: nat, w: int, start: int, span: int)
    requires |pre| == |before| && |mid| == |qs| && Timely(pre + mid) && 0 <= span && Within(mid, key, start, start + span)
    requires w > 0 && AllAllowed(pre, before, key, top, w) && AllAllowed(mid, qs, key, top, w)
    requires pre + mid != [] && top >= 1 && Full(top) >= w
    ensures InBound(FinalUnder(EMPTY, pre, before), mid, qs, key, top, w, span)
  {
    FirstIsFrom(pre + mid, key);
    hide Timely, AllAllowed, Within, From, InBound, FinalUnder, Full, Ahead, Asks;
    var t := RunFits(EMPTY, pre, before, mid, key, top, w, (pre + mid)[0].now);
    WithinIsAhead(mid, key, start, start + span, t);
    var s := FinalUnder(EMPTY, pre, before);
    FitLater(Slot(s, key), top, w, t, Max(start, t));
    hide FitSlot, Slot;
    StretchBound(s, mid, qs, key, top, w, Max(start, t), start, span);
  }

  /** From a time when a key has no bucket: what was admitted since, with what its bucket holds, is
      covered by the capacity, once more for each eviction, and the whole seconds since. */
  lemma LifetimeBound(s: ShardState, ops: seq<Op>, qs: seq<Quotas>, key: string, top: nat, w: int, created: int, now: int)
    requires |ops| == |qs| && created <= now && Ahead(ops, key, created, now) && key !in s.buckets
    requires w > 0 && top * PRECISION >= w && AllAllowed(ops, qs, key, top, w)
    ensures var s1 := FinalUnder(s, ops, qs);
            var held := if key in s1.buckets then s1.buckets[key].tokens else 0;
            && 0 <= held <= top * PRECISION
            && PRECISION * AdmittedUnder(s, ops, qs, key) + held
               <= Fulls(1 + EvictionsUnder(s, ops, qs, key), top) + Rate(Quota(top, w)) * ((now - created) / SECOND)
  {
    hide Timely, AllAllowed, Ahead, FinalUnder, AdmittedUnder, EvictionsUnder, Rate, Fulls;
    Ledger(s, ops, qs, key, top, w, created, now);
    OneMore(EvictionsUnder(s, ops, qs, key), top);
  }

  // ----- The exact condition, for quotas that do not change

  function Same(q: Quotas, n: nat): (qs: seq<Quotas>)
    ensures |qs| == n && forall i | 0 <= i < n :: qs[i] == q
  {
    seq(n, _ => q)
  }

  lemma SameRest(q: Quotas, n: nat)
    requires n > 0
    ensures Same(q, n)[1..] == Same(q, n - 1) && Same(q, n)[0] == q
  {
  }

  function Count(answers: seq<bool>): nat {
    if answers == [] then 0 else (if answers[0] then 1 else 0) + Count(answers[1..])
  }

  /** A run under one quota for each key is a run under quotas that happen not to change. */
  lemma {:induction false} SameFinal(s: ShardState, ops: seq<Op>, q: Quotas)
    ensures FinalUnder(s, ops, Same(q, |ops|)) == Final(s, ops, q)
    decreases |ops|
  {
    if ops != [] {
      hide Step, Same;
      SameRest(q, |ops|);
      SameFinal(Step(s, ops[0], q).0, ops[1..], q);
    }
  }

  lemma {:induction false} SameEvictions(s: ShardState, ops: seq<Op>, q: Quotas, key: string)
    requires Roomy(s, ops, q)
    ensures EvictionsUnder(s, ops, Same(q, |ops|), key) == 0
    decreases |ops|
  {
    if ops != [] {
      hide Step, AtCap, Same;
      SameRest(q, |ops|);
      SameEvictions(Step(s, ops[0], q).0, ops[1..], q, key);
    }
  }

  lemma CountCons(ok: bool, rest: seq<bool>)
    ensures Count([ok] + rest) == (if ok then 1 else 0) + Count(rest)
  {
    assert ([ok] + rest)[1..] == rest;
  }

  lemma AnswersCons(s: ShardState, ops: seq<Op>, q: Quotas, key: string)
    requires ops != []
    ensures var (s1, ok) := Step(s, ops[0], q);
            var rest := AnswersTo(ops[1..], Answers(s1, ops[1..], q), key);
            AnswersTo(ops, Answers(s, ops, q), key) == if Asks(ops[0], key) then [ok] + rest else rest
  {
    hide Step;
    var s1 := Step(s, ops[0], q).0;
    assert Answers(s, ops, q)[1..] == Answers(s1, ops[1..], q);
    var rest := AnswersTo(ops[1..], Answers(s1, ops[1..], q), key);
    assert [] + rest == rest;
  }

  lemma AdmittedCons(s: ShardState, ops: seq<Op>, q: Quotas, key: string)
    requires ops != []
    ensures var (s1, ok) := Step(s, ops[0], q);
            AdmittedUnder(s, ops, Same(q, |ops|), key) ==
            (if Asks(ops[0], key) && ok then 1 else 0) + AdmittedUnder(s1, ops[1..], Same(q, |ops| - 1), key)
  {
    hide Step, Same;
    SameRest(q, |ops|);
  }

  lemma {:induction false} SameAdmitted(s: ShardState, ops: seq<Op>, q: Quotas, key: string)
    ensures AdmittedUnder(s, ops, Same(q, |ops|), key) == Count(AnswersTo(ops, Answers(s, ops, q), key))
    decreases |ops|
  {
    if ops == [] {
      assert AnswersTo([], [], key) == [];
    } else {
      hide Step, Same, Answers, AnswersTo, Count, AdmittedUnder;
      var (s1, ok) := Step(s, ops[0], q);
      AdmittedCons(s, ops, q, key);
      AnswersCons(s, ops, q, key);
      CountCons(ok, AnswersTo(ops[1..], Answers(s1, ops[1..], q), key));
      SameAdmitted(s1, ops[1..], q, key);
    }
  }

  /** `mid` is a part of a legal run, in which the checks of `key` fall within `span` nanoseconds. */
  ghost predicate Stretch(pre: seq<Op>, mid: seq<Op>, key: string, q: Quotas, start: int, span: int) {
    Timely(pre + mid) && LegalRun(EMPTY, pre + mid, q) && 0 <= span && Within(mid, key, start, start + span)
  }

  predicate KeepsBound(pre: seq<Op>, mid: seq<Op>, key: string, q: Quotas, span: int) {
    var s, qs := Final(EMPTY, pre, q), Same(q, |mid|);
    Meets(AdmittedUnder(s, mid, qs, key), EvictionsUnder(s, mid, qs, key), q(key).limit, Rate(q(key)), span)
  }

  /** The bound holds for `key` in every stretch of every legal run. */
  ghost predicate Bounded(key: string, q: Quotas) {
    forall pre, mid, start, span | Stretch(pre, mid, key, q, start, span) :: KeepsBound(pre, mid, key, q, span)
  }

  lemma {:induction false} RoomyIsLegal(s: ShardState, ops: seq<Op>, q: Quotas)
    requires Roomy(s, ops, q)
    ensures LegalRun(s, ops, q)
    decreases |ops|
  {
    if ops != [] {
      hide Step, AtCap;
      RoomyIsLegal(Step(s, ops[0], q).0, ops[1..], q);
    }
  }

  lemma {:induction false} CountTrues(n: nat)
    ensures Count(LimiterExpiry.Trues(n)) == n
  {
    if n > 0 {
      CountTrues(n - 1);
      assert LimiterExpiry.Trues(n)[1..] == LimiterExpiry.Trues(n - 1);
    }
  }

  lemma NoPositiveRate(q: Quota, span: int)
    requires q.window != 0 && !RefillsOrNever(q) && span == Ttl(q) + 1
    ensures span >= 0 && Rate(q) * (span / SECOND + 1) <= 0
  {
    assert Rate(q) <= 0;
    MulMono(0, span / SECOND + 1, -Rate(q));
    assert -Rate(q) * (span / SECOND + 1) == -(Rate(q) * (span / SECOND + 1));
  }

  /** The run that drains the bucket and asks again after it has expired. */
  function Late(key: string, q: Quota): (ops: seq<Op>)
    requires q.window != 0 && q.limit >= 0
    ensures |ops| == q.limit + 1 && forall op | op in ops :: Asks(op, key) && 0 <= op.now <= Ttl(q) + 1
  {
    LimiterExpiry.Hammer(key, q.limit) + [CheckOp(key, Ttl(q) + 1, "")]
  }

  lemma LateAdmits(key: string, q: Quotas)
    requires !RefillsOrNever(q(key))
    ensures var ops := Late(key, q(key));
            && Timely(ops) && LegalRun(EMPTY, ops, q)
            && AdmittedUnder(EMPTY, ops, Same(q, |ops|), key) == q(key).limit + 1
            && EvictionsUnder(EMPTY, ops, Same(q, |ops|), key) == 0
  {
    var ops := Late(key, q(key));
    assert ops == LimiterExpiry.Hammer(key, q(key).limit) + [CheckOp(key, Ttl(q(key)) + 1, "")];
    hide LegalRun, Roomy, Timely, Answers, AdmittedUnder, EvictionsUnder, LimiterExpiry.IdealAnswers, Late, LimiterExpiry.Hammer, Ttl;
    LimiterExpiry.ExpiryShows(key, q);
    LimiterExpiry.OnlyItsOwn(ops, Answers(EMPTY, ops, q), key);
    SameAdmitted(EMPTY, ops, q, key);
    SameEvictions(EMPTY, ops, q, key);
    CountTrues(q(key).limit + 1);
    RoomyIsLegal(EMPTY, ops, q);
  }

  /** Draining the bucket and asking again after it has expired breaks the bound. */
  lemma BoundBreaks(key: string, q: Quotas)
    requires !RefillsOrNever(q(key))
    ensures !Bounded(key, q)
  {
    var ops, late := Late(key, q(key)), Ttl(q(key)) + 1;
    assert Within(ops, key, 0, 0 + late);
    hide LegalRun, Timely, AdmittedUnder, EvictionsUnder, Rate, Late, Within, Ttl, Same;
    LateAdmits(key, q);
    NoPositiveRate(q(key), late);
    assert [] + ops == ops;
    assert Stretch([], ops, key, q, 0, late);
    hide Stretch;
    LateBreaks(key, q, ops, late);
  }

  lemma LateBreaks(key: string, q: Quotas, ops: seq<Op>, late: int)
    requires q(key).limit >= 1 && Rate(q(key)) * (late / SECOND + 1) <= 0
    requires AdmittedUnder(EMPTY, ops, Same(q, |ops|), key) == q(key).limit + 1
    requires EvictionsUnder(EMPTY, ops, Same(q, |ops|), key) == 0
    ensures !KeepsBound([], ops, key, q, late)
  {
    hide AdmittedUnder, EvictionsUnder, Rate, Same;
  }

  /** The bound holds exactly where expiry does not show: for a key with a positive limit, over every
      stretch of every legal run, if and only if its window is positive and its rate is not truncated
      to zero.  The quotas of the other keys do not matter. */
  lemma AdmissionBoundIff(key: string, q: Quotas)
    requires q(key).limit >= 1
    ensures Bounded(key, q) <==> q(key).window > 0 && q(key).limit * PRECISION >= q(key).window
  {
    if RefillsOrNever(q(key)) {
      forall pre, mid, start, span | Stretch(pre, mid, key, q, start, span) ensures KeepsBound(pre, mid, key, q, span) {
        SameBound(pre, mid, key, q, start, span);
      }
    } else {
      BoundBreaks(key, q);
    }
  }

  lemma SameAllowed(ops: seq<Op>, key: string, q: Quotas)
    requires q(key).limit >= 1 && RefillsOrNever(q(key))
    ensures AllAllowed(ops, Same(q, |ops|), key, q(key).limit, q(key).window)
  {
  }

  lemma SameBound(pre: seq<Op>, mid: seq<Op>, key: string, q: Quotas, start: int, span: int)
    requires q(key).limit >= 1 && RefillsOrNever(q(key)) && Stretch(pre, mid, key, q, start, span)
    ensures KeepsBound(pre, mid, key, q, span)
  {
    SameFinal(EMPTY, pre, q);
    SameAllowed(pre, key, q);
    SameAllowed(mid, key, q);
    var k := q(key);
    assert k == Quota(k.limit, k.window);
    hide Timely, Within, LegalRun, FinalUnder, Final, AdmittedUnder, EvictionsUnder, Rate, Same, AllAllowed, Meets;
    AdmissionBound(pre, Same(q, |pre|), mid, Same(q, |mid|), key, k.limit, k.window, start, span);
  }
}
