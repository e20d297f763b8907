/** One shard of the local limiter as a value, its atomic steps (a check under the shard lock, the
    cleanup of the shard under the same lock), and what holds over every run of such steps. */
module LimiterRuns {
  import opened TokenBucket

  const MAX_BUCKETS_PER_SHARD := 10000

  datatype ShardState = ShardState(buckets: map<string, Bucket>, lastAccess: map<string, int>)

  const EMPTY := ShardState(map[], map[])

  function Drop(s: ShardState, key: string): ShardState {
    ShardState(s.buckets - {key}, s.lastAccess - {key})
  }

  /** The keys that eviction may choose from: those last seen strictly before `now`. */
  predicate SeenBefore(s: ShardState, now: int, key: string) {
    key in s.lastAccess && s.lastAccess[key] < now
  }

  /** `victim` is a possible outcome of the eviction scan, whatever order it visits the map in. */
  ghost predicate IsVictim(s: ShardState, now: int, victim: string) {
    if exists k :: SeenBefore(s, now, k)
    then SeenBefore(s, now, victim) && forall k | SeenBefore(s, now, k) :: s.lastAccess[victim] <= s.lastAccess[k]
    else victim == ""
  }

  function Put(s: ShardState, key: string, b: Bucket): ShardState {
    s.(buckets := s.buckets[key := b])
  }

  predicate Full(s: ShardState) { |s.buckets| >= MAX_BUCKETS_PER_SHARD }

  function MakeRoom(s: ShardState, victim: string): ShardState {
    if Full(s) then Drop(s, victim) else s
  }

  function Insert(s: ShardState, key: string, q: Quota, now: int, victim: string): ShardState
    requires q.window != 0
  {
    Put(MakeRoom(s, victim), key, Fresh(q, now))
  }

  predicate Expired(b: Bucket, now: int) { now > b.expireAt }

  predicate Live(s: ShardState, key: string, now: int) {
    key in s.buckets && !Expired(s.buckets[key], now)
  }

  /** The shard on which a bucket for `key` is inserted when `key` has no live bucket. */
  function Vacated(s: ShardState, key: string, now: int): ShardState {
    var seen := s.(lastAccess := s.lastAccess[key := now]);
    if key in s.buckets then Drop(seen, key) else seen
  }

  function Prepare(s: ShardState, key: string, q: Quota, now: int, victim: string): (r: ShardState)
    requires q.window != 0
    ensures key in r.buckets
  {
    if Live(s, key, now)
    then ShardState(s.buckets[key := Touch(s.buckets[key], q, now)], s.lastAccess[key := now])
    else Insert(Vacated(s, key, now), key, q, now, victim)
  }

  function Check(s: ShardState, key: string, q: Quota, now: int, victim: string): (ShardState, bool)
    requires q.window != 0
  {
    var p := Prepare(s, key, q, now, victim);
    var (b, ok) := Consume(p.buckets[key], now);
    (Put(p, key, b), ok)
  }

  function ExpiredKeys(s: ShardState, now: int): set<string> {
    set k | k in s.buckets && Expired(s.buckets[k], now)
  }

  function Clean(s: ShardState, now: int): ShardState {
    ShardState(s.buckets - ExpiredKeys(s, now), s.lastAccess - ExpiredKeys(s, now))
  }

  // ----- Runs

  /** A check of a key, with the key that its eviction scan would end on, or a cleanup. */
  datatype Op = CheckOp(key: string, now: int, victim: string) | CleanOp(now: int)

  /** The quota each key is checked with; `RatePolicy.OneLimitPerKey` says when there is one. */
  type Quotas = q: string -> Quota | forall k :: q(k).window != 0 witness (k => Quota(1, 1))

  function Step(s: ShardState, op: Op, q: Quotas): (ShardState, bool) {
    match op
    case CheckOp(key, now, victim) => Check(s, key, q(key), now, victim)
    case CleanOp(now) => (Clean(s, now), false)
  }

  function Final(s: ShardState, ops: seq<Op>, q: Quotas): ShardState
    decreases |ops|
  {
    if ops == [] then s else Final(Step(s, ops[0], q).0, ops[1..], q)
  }

  function Answers(s: ShardState, ops: seq<Op>, q: Quotas): (r: seq<bool>)
    ensures |r| == |ops|
    decreases |ops|
  {
    if ops == [] then [] else
      var (s1, ok) := Step(s, ops[0], q);
      [ok] + Answers(s1, ops[1..], q)
  }

  /** Every check reads a clock no earlier than any step before it.  (A cleanup reads its clock
      before it gets the lock, so its time may lie before that of an earlier check.) */
  ghost predicate Timely(ops: seq<Op>) {
    forall i, j | 0 <= i < j < |ops| && ops[j].CheckOp? :: ops[i].now <= ops[j].now
  }

  /** Whether the step inserts a bucket, and into which shard. */
  predicate Inserts(s: ShardState, op: Op) {
    op.CheckOp? && !Live(s, op.key, op.now)
  }

  predicate AtCap(s: ShardState, op: Op) {
    Inserts(s, op) && |Vacated(s, op.key, op.now).buckets| >= MAX_BUCKETS_PER_SHARD
  }

  /** The recorded victim is one that the scan can end on. */
  ghost predicate Legal(s: ShardState, op: Op) {
    AtCap(s, op) ==> IsVictim(Vacated(s, op.key, op.now), op.now, op.victim)
  }

  ghost predicate LegalRun(s: ShardState, ops: seq<Op>, q: Quotas)
    decreases |ops|
  {
    ops == [] || (Legal(s, ops[0]) && LegalRun(Step(s, ops[0], q).0, ops[1..], q))
  }

  /** No insertion of the run meets a full shard. */
  ghost predicate Roomy(s: ShardState, ops: seq<Op>, q: Quotas)
    decreases |ops|
  {
    ops == [] || (!AtCap(s, ops[0]) && Roomy(Step(s, ops[0], q).0, ops[1..], q))
  }

  /** The three ways a check reaches the bucket it consumes from. */
  lemma PrepareCases(s: ShardState, key: string, q: Quota, now: int, victim: string)
    requires q.window != 0
    ensures var seen := s.(lastAccess := s.lastAccess[key := now]);
            var p, op := Prepare(s, key, q, now, victim), CheckOp(key, now, victim);
            if key !in s.buckets then
              && p == Put(MakeRoom(seen, victim), key, Fresh(q, now))
              && (Legal(s, op) <==> (Full(seen) ==> IsVictim(seen, now, victim)))
            else if Expired(s.buckets[key], now) then
              && p == Put(MakeRoom(Drop(seen, key), victim), key, Fresh(q, now))
              && (Legal(s, op) <==> (Full(Drop(seen, key)) ==> IsVictim(Drop(seen, key), now, victim)))
            else
              p == Put(seen, key, Touch(s.buckets[key], q, now)) && Legal(s, op)
    ensures var p := Prepare(s, key, q, now, victim);
            var (b, ok) := Consume(p.buckets[key], now);
            Check(s, key, q, now, victim) == (Put(p, key, b), ok)
  {
  }

  lemma {:induction false} FinalSnoc(s: ShardState, ops: seq<Op>, op: Op, q: Quotas)
    ensures Final(s, ops + [op], q) == Step(Final(s, ops, q), op, q).0
    decreases |ops|
  {
    if ops == [] {
      assert [op] + [] == [op];
      assert [op][1..] == [];
      assert ([] + [op])[0] == op && ([] + [op])[1..] == [];
    } else {
      assert (ops + [op])[1..] == ops[1..] + [op];
      FinalSnoc(Step(s, ops[0], q).0, ops[1..], op, q);
    }
  }

  // ----- Invariants of every run

  ghost predicate Tracked(s: ShardState) { s.lastAccess.Keys <= s.buckets.Keys }

  ghost predicate AllSound(s: ShardState, q: Quotas) {
    forall k | k in s.buckets :: Sound(s.buckets[k], q(k))
  }

  /** No bucket was touched after `now`. */
  ghost predicate UpTo(s: ShardState, q: Quotas, now: int) {
    forall k | k in s.buckets :: s.buckets[k].expireAt - Ttl(q(k)) <= now
  }

  lemma StepKeepsTracked(s: ShardState, op: Op, q: Quotas)
    requires Tracked(s)
    ensures Tracked(Step(s, op, q).0)
  {
  }

  lemma StepKeepsSound(s: ShardState, op: Op, q: Quotas)
    requires AllSound(s, q)
    requires op.CheckOp? ==> UpTo(s, q, op.now)
    ensures AllSound(Step(s, op, q).0, q)
    ensures op.CheckOp? ==> UpTo(Step(s, op, q).0, q, op.now)
    ensures forall t | UpTo(s, q, t) && op.CleanOp? :: UpTo(Step(s, op, q).0, q, t)
  {
    if op.CheckOp? {
      hide Consume, Sound, Fresh, Touch, Ttl;
      var p := Prepare(s, op.key, q(op.key), op.now, op.victim);
      PrepareOthers(s, op.key, q(op.key), op.now, op.victim);
      ConsumeKeepsSound(p.buckets[op.key], q(op.key), op.now);
    }
  }

  lemma PrepareOthers(s: ShardState, key: string, q: Quota, now: int, victim: string)
    requires q.window != 0
    ensures var p := Prepare(s, key, q, now, victim);
            && p.buckets[key] == (if Live(s, key, now) then Touch(s.buckets[key], q, now) else Fresh(q, now))
            && forall k | k in p.buckets && k != key :: k in s.buckets && p.buckets[k] == s.buckets[k]
  {
  }

  /** The invariants that hold between any two steps of any run that starts with an empty shard:
      tracked keys have buckets, and every bucket is sound for its key's quota. */
  lemma {:induction false} RunInvariant(ops: seq<Op>, q: Quotas)
    requires Timely(ops)
    ensures Tracked(Final(EMPTY, ops, q))
    ensures AllSound(Final(EMPTY, ops, q), q)
    ensures forall t | (forall op | op in ops && op.CheckOp? :: op.now <= t) :: UpTo(Final(EMPTY, ops, q), q, t)
  {
    if ops != [] {
      var rest, op := ops[..|ops| - 1], ops[|ops| - 1];
      assert ops == rest + [op];
      assert Timely(rest);
      RunInvariant(rest, q);
      FinalSnoc(EMPTY, rest, op, q);
      var s := Final(EMPTY, rest, q);
      if op.CheckOp? {
        forall o | o in rest && o.CheckOp? ensures o.now <= op.now {
          var i :| 0 <= i < |rest| && rest[i] == o;
          assert ops[i] == o && ops[|ops| - 1] == op;
        }
        assert UpTo(s, q, op.now);
      }
      StepKeepsTracked(s, op, q);
      StepKeepsSound(s, op, q);
      forall t | forall o | o in ops && o.CheckOp? :: o.now <= t
        ensures UpTo(Final(EMPTY, ops, q), q, t)
      {
        forall o | o in rest && o.CheckOp? ensures o.now <= t { assert o in ops; }
        assert op in ops;
      }
    }
  }

  /** Over every run, the refill of the next check never overflows a signed 64-bit integer. */
  lemma RefillNeverOverflows(ops: seq<Op>, key: string, now: int, q: Quotas)
    requires Timely(ops + [CheckOp(key, now, "")])
    requires 1 <= q(key).limit <= MAX_INT32 && q(key).window > 0
    requires Live(Final(EMPTY, ops, q), key, now)
    ensures var b := Final(EMPTY, ops, q).buckets[key];
            && 0 <= TokensToAdd(b, now) <= 300 * Capacity(q(key))
            && 0 <= b.tokens + TokensToAdd(b, now) <= 301 * Capacity(q(key)) <= MAX_INT64
  {
    var all := ops + [CheckOp(key, now, "")];
    forall i, j | 0 <= i < j < |ops| && ops[j].CheckOp? ensures ops[i].now <= ops[j].now {
      assert all[i] == ops[i] && all[j] == ops[j];
    }
    RunInvariant(ops, q);
    forall o | o in ops && o.CheckOp? ensures o.now <= now {
      var i :| 0 <= i < |ops| && ops[i] == o;
      assert all[i] == o && all[|ops|].CheckOp?;
    }
    assert UpTo(Final(EMPTY, ops, q), q, now);
    RefillFits(Final(EMPTY, ops, q).buckets[key], q(key), now);
  }

  // ----- The cap on a shard's size

  /** Whether an insertion at the cap finds something to evict. */
  ghost predicate FindsVictim(s: ShardState, op: Op) {
    AtCap(s, op) ==>
      var v := Vacated(s, op.key, op.now);
      (exists k :: SeenBefore(v, op.now, k)) || ("" in v.buckets && op.key != "")
  }

  /** The size of a shard after an insertion of a key it does not hold. */
  lemma InsertSize(v: ShardState, key: string, q: Quota, now: int, victim: string)
    requires q.window != 0 && key !in v.buckets
    ensures var s := Insert(v, key, q, now, victim);
            |s.buckets| == if |v.buckets| >= MAX_BUCKETS_PER_SHARD && victim in v.buckets then |v.buckets| else |v.buckets| + 1
  {
  }

  /** One step keeps the cap exactly when its insertion, if it meets a full shard, finds a victim. */
  lemma StepKeepsCap(s: ShardState, op: Op, q: Quotas)
    requires Tracked(s) && Legal(s, op) && |s.buckets| <= MAX_BUCKETS_PER_SHARD
    ensures |Step(s, op, q).0.buckets| <= MAX_BUCKETS_PER_SHARD <==> FindsVictim(s, op)
  {
    var s' := Step(s, op, q).0;
    if op.CleanOp? {
      MapSize(s'.buckets, s.buckets);
    } else {
      var p := Prepare(s, op.key, q(op.key), op.now, op.victim);
      assert s'.buckets.Keys == p.buckets.Keys;
      if Live(s, op.key, op.now) {
        assert p.buckets.Keys == s.buckets.Keys;
      } else {
        var v := Vacated(s, op.key, op.now);
        MapSize(v.buckets, s.buckets);
        InsertSize(v, op.key, q(op.key), op.now, op.victim);
        assert FindsVictim(s, op) <==> (AtCap(s, op) ==> op.victim in v.buckets);
      }
    }
  }

  lemma MapSize(a: map<string, Bucket>, b: map<string, Bucket>)
    requires a.Keys <= b.Keys
    ensures |a| <= |b|
  {
    assert b.Keys == a.Keys + (b.Keys - a.Keys);
  }

  ghost predicate AlwaysFindsVictim(s: ShardState, ops: seq<Op>, q: Quotas)
    decreases |ops|
  {
    ops == [] || (FindsVictim(s, ops[0]) && AlwaysFindsVictim(Step(s, ops[0], q).0, ops[1..], q))
  }

  /** No point of the run sees more buckets than the cap. */
  ghost predicate WithinCap(s: ShardState, ops: seq<Op>, q: Quotas) {
    forall n | 0 <= n <= |ops| :: |Final(s, ops[..n], q).buckets| <= MAX_BUCKETS_PER_SHARD
  }

  /** The points of a run are its start and the points of its rest. */
  lemma CapUnrolls(s: ShardState, ops: seq<Op>, q: Quotas)
    requires ops != []
    ensures WithinCap(s, ops, q) <==>
            |s.buckets| <= MAX_BUCKETS_PER_SHARD && WithinCap(Step(s, ops[0], q).0, ops[1..], q)
  {
    hide Step;
    var s1, rest := Step(s, ops[0], q).0, ops[1..];
    if WithinCap(s, ops, q) {
      assert Final(s, ops[..0], q) == s;
      forall n | 0 <= n <= |rest| ensures |Final(s1, rest[..n], q).buckets| <= MAX_BUCKETS_PER_SHARD {
        PointAfter(s, ops, q, n);
      }
    }
    if |s.buckets| <= MAX_BUCKETS_PER_SHARD && WithinCap(s1, rest, q) {
      forall n | 0 <= n <= |ops| ensures |Final(s, ops[..n], q).buckets| <= MAX_BUCKETS_PER_SHARD {
        if n > 0 { PointAfter(s, ops, q, n - 1); }
      }
    }
  }

  lemma PointAfter(s: ShardState, ops: seq<Op>, q: Quotas, n: nat)
    requires n < |ops|
    ensures Final(s, ops[..n + 1], q) == Final(Step(s, ops[0], q).0, ops[1..][..n], q)
  {
    hide Step;
    assert ops[..n + 1][1..] == ops[1..][..n];
  }

  lemma StartsWithinCap(s: ShardState, ops: seq<Op>, q: Quotas)
    requires WithinCap(s, ops, q)
    ensures |s.buckets| <= MAX_BUCKETS_PER_SHARD
  {
    assert Final(s, ops[..0], q) == s;
  }

  lemma NoOps(s: ShardState, q: Quotas)
    requires |s.buckets| <= MAX_BUCKETS_PER_SHARD
    ensures WithinCap(s, [], q)
  {
  }

  /** A shard stays within its cap at every point of a legal run if and only if every insertion of
      the run that meets a full shard finds a victim. */
  lemma {:induction false} CapHolds(s: ShardState, ops: seq<Op>, q: Quotas)
    requires Tracked(s) && |s.buckets| <= MAX_BUCKETS_PER_SHARD && LegalRun(s, ops, q)
    ensures WithinCap(s, ops, q) <==> AlwaysFindsVictim(s, ops, q)
    decreases |ops|
  {
    hide Step, FindsVictim, WithinCap, Legal, Tracked;
    if ops == [] {
      NoOps(s, q);
    } else {
      var s1 := Step(s, ops[0], q).0;
      StepKeepsTracked(s, ops[0], q);
      StepKeepsCap(s, ops[0], q);
      CapUnrolls(s, ops, q);
      if FindsVictim(s, ops[0]) {
        CapHolds(s1, ops[1..], q);
      } else if WithinCap(s1, ops[1..], q) {
        StartsWithinCap(s1, ops[1..], q);
      }
    }
  }

  function Repeat(c: char, n: nat): (r: string)
    ensures |r| == n
  {
    if n == 0 then "" else Repeat(c, n - 1) + [c]
  }

  /** The cap is not unconditional: for every `n` there is a legal run of `n` checks at one clock
      reading that leaves `n` buckets, because eviction only considers keys seen strictly earlier. */
  lemma {:induction false} BurstExceedsCap(n: nat, now: int, q: Quotas) returns (ops: seq<Op>)
    ensures |ops| == n && forall op | op in ops :: op.CheckOp? && op.now == now
    ensures LegalRun(EMPTY, ops, q)
    ensures |Final(EMPTY, ops, q).buckets| == n
    ensures AllAtOnce(Final(EMPTY, ops, q), n, now)
  {
    if n == 0 {
      ops := [];
    } else {
      ops := BurstExceedsCap(n - 1, now, q);
      BurstExtends(ops, n, now, q);
      ops := ops + [CheckOp(Repeat('k', n), now, "")];
    }
  }

  lemma BurstExtends(pre: seq<Op>, n: nat, now: int, q: Quotas)
    requires n > 0 && LegalRun(EMPTY, pre, q) && AllAtOnce(Final(EMPTY, pre, q), n - 1, now)
    ensures var ops := pre + [CheckOp(Repeat('k', n), now, "")];
            && LegalRun(EMPTY, ops, q) && AllAtOnce(Final(EMPTY, ops, q), n, now)
            && |Final(EMPTY, ops, q).buckets| == |Final(EMPTY, pre, q).buckets| + 1
  {
    hide Step, Legal, AllAtOnce, Repeat, LegalRun, Final;
    var op := CheckOp(Repeat('k', n), now, "");
    AllAtOnceStep(Final(EMPTY, pre, q), n, now, q);
    FinalSnoc(EMPTY, pre, op, q);
    LegalSnoc(EMPTY, pre, op, q);
  }

  ghost predicate AllAtOnce(s: ShardState, n: nat, now: int) {
    && (forall k | k in s.buckets :: 1 <= |k| <= n)
    && (forall k | k in s.lastAccess :: s.lastAccess[k] == now)
  }

  lemma AllAtOnceStep(s: ShardState, n: nat, now: int, q: Quotas)
    requires n > 0 && AllAtOnce(s, n - 1, now)
    ensures var s' := Step(s, CheckOp(Repeat('k', n), now, ""), q).0;
            AllAtOnce(s', n, now) && |s'.buckets| == |s.buckets| + 1
    ensures Legal(s, CheckOp(Repeat('k', n), now, ""))
  {
    hide Consume, Fresh, Touch, Repeat;
    var key := Repeat('k', n);
    assert key !in s.buckets && "" !in s.buckets;
    var v := Vacated(s, key, now);
    assert forall k | k in v.lastAccess :: v.lastAccess[k] == now;
    assert v.buckets == s.buckets;
    InsertSize(v, key, q(key), now, "");
    var p := Prepare(s, key, q(key), now, "");
    assert p == Insert(v, key, q(key), now, "");
    ReplaceSize(p.buckets, key, Consume(p.buckets[key], now).0);
  }

  lemma ReplaceSize(m: map<string, Bucket>, key: string, b: Bucket)
    requires key in m
    ensures |m[key := b]| == |m|
  {
  }

  lemma {:induction false} LegalSnoc(s: ShardState, ops: seq<Op>, op: Op, q: Quotas)
    requires LegalRun(s, ops, q) && Legal(Final(s, ops, q), op)
    ensures LegalRun(s, ops + [op], q)
    decreases |ops|
  {
    if ops == [] {
      assert ([] + [op])[0] == op && ([] + [op])[1..] == [];
    } else {
      assert (ops + [op])[1..] == ops[1..] + [op];
      LegalSnoc(Step(s, ops[0], q).0, ops[1..], op, q);
    }
  }

  // ----- Buckets re-created after expiry

  predicate IsName(k: string, n: nat) { 1 <= |k| <= n && k == Repeat('k', |k|) }

  /** The shard holds the first `n` names; the first `i` of them were re-created after expiry and are
      not tracked, and the others expire before `t`. */
  ghost predicate Recreated(s: ShardState, n: nat, i: nat, t: int) {
    && |s.buckets| == n
    && (forall k :: k in s.buckets <==> IsName(k, n))
    && (forall k :: k in s.lastAccess <==> IsName(k, n) && !IsName(k, i))
    && (forall k | k in s.lastAccess :: Expired(s.buckets[k], t))
  }

  /** The shard holds the first `n` names, all tracked, and they expire before `t`. */
  ghost predicate Filled(s: ShardState, n: nat, t: int) {
    && |s.buckets| == n
    && (forall k :: k in s.buckets <==> IsName(k, n))
    && (forall k :: k in s.lastAccess <==> k in s.buckets)
    && (forall k | k in s.buckets :: Expired(s.buckets[k], t))
  }

  /** A time by which the first `n` names have expired. */
  function Late(n: nat, q: Quotas): (t: int)
    ensures t > 0 && forall i | 1 <= i <= n :: Ttl(q(Repeat('k', i))) < t
  {
    if n == 0 then 1 else Max(Late(n - 1, q), Ttl(q(Repeat('k', n))) + 1)
  }

  /** A legal run from the empty shard, up to time `t`. */
  ghost predicate Leads(ops: seq<Op>, q: Quotas, t: int) {
    LegalRun(EMPTY, ops, q) && Timely(ops) && forall op | op in ops :: op.now <= t
  }

  lemma LeadsOn(ops: seq<Op>, op: Op, q: Quotas, t: int)
    requires Leads(ops, q, t) && t <= op.now && Legal(Final(EMPTY, ops, q), op)
    ensures Leads(ops + [op], q, op.now)
    ensures Final(EMPTY, ops + [op], q) == Step(Final(EMPTY, ops, q), op, q).0
  {
    hide LegalRun, Final, Legal, Step;
    FinalSnoc(EMPTY, ops, op, q);
    LegalSnoc(EMPTY, ops, op, q);
    assert forall i | 0 <= i < |ops| :: (ops + [op])[i] == ops[i] && ops[i] in ops;
  }

  /** `s1` is `s` with a new bucket for `key`, which is tracked only if it had no bucket before. */
  ghost predicate Inserted(s: ShardState, s1: ShardState, key: string, now: int, expireAt: int) {
    && (forall k :: k in s1.buckets <==> k in s.buckets || k == key)
    && (forall k | k in s.buckets && k != key :: s1.buckets[k] == s.buckets[k])
    && s1.buckets[key].expireAt == expireAt
    && s1.lastAccess == if key in s.buckets then s.lastAccess - {key} else s.lastAccess[key := now]
  }

  lemma VacantInsert(s: ShardState, key: string, now: int, q: Quotas)
    requires (key !in s.buckets || Expired(s.buckets[key], now)) && |s.buckets - {key}| < MAX_BUCKETS_PER_SHARD
    ensures var op := CheckOp(key, now, "");
            && Legal(s, op)
            && Step(s, op, q).0 == Put(Vacated(s, key, now), key, Consume(Fresh(q(key), now), now).0)
  {
    hide Consume, Fresh, Touch, IsVictim, Prepare, Vacated;
    VacatedIs(s, key, now);
    VacantPrepare(s, key, now, q(key));
    var v, p := Vacated(s, key, now), Prepare(s, key, q(key), now, "");
    assert p.buckets[key] == Fresh(q(key), now);
    assert Put(p, key, Consume(p.buckets[key], now).0) == Put(v, key, Consume(Fresh(q(key), now), now).0);
  }

  lemma VacantPrepare(s: ShardState, key: string, now: int, q: Quota)
    requires q.window != 0 && !Live(s, key, now) && |Vacated(s, key, now).buckets| < MAX_BUCKETS_PER_SHARD
    ensures Prepare(s, key, q, now, "") == Put(Vacated(s, key, now), key, Fresh(q, now))
  {
    hide Fresh, Touch, Vacated;
  }

  lemma InsertStep(s: ShardState, key: string, now: int, q: Quotas)
    requires (key !in s.buckets || Expired(s.buckets[key], now)) && |s.buckets - {key}| < MAX_BUCKETS_PER_SHARD
    ensures var op := CheckOp(key, now, "");
            && Legal(s, op) && Inserted(s, Step(s, op, q).0, key, now, now + Ttl(q(key)))
            && |Step(s, op, q).0.buckets| == |s.buckets - {key}| + 1
  {
    hide Consume, Fresh, Sound, Ttl, Step, Legal, Vacated, Put, Inserted;
    VacantInsert(s, key, now, q);
    ConsumeKeepsSound(Fresh(q(key), now), q(key), now);
    var b := Consume(Fresh(q(key), now), now).0;
    PutVacated(s, key, now, b);
    PutVacatedSize(s, key, now, b);
  }

  lemma VacatedIs(s: ShardState, key: string, now: int)
    ensures var v := Vacated(s, key, now);
            && v.buckets == s.buckets - {key}
            && v.lastAccess == if key in s.buckets then s.lastAccess - {key} else s.lastAccess[key := now]
  {
    assert s.lastAccess[key := now] - {key} == s.lastAccess - {key};
  }

  lemma AddSize(m: map<string, Bucket>, key: string, b: Bucket)
    requires key !in m
    ensures |m[key := b]| == |m| + 1
  {
  }

  lemma PutVacatedSize(s: ShardState, key: string, now: int, b: Bucket)
    ensures |Put(Vacated(s, key, now), key, b).buckets| == |s.buckets - {key}| + 1
  {
    VacatedIs(s, key, now);
    hide Vacated;
    AddSize(s.buckets - {key}, key, b);
  }

  lemma WithoutKey(m: map<string, Bucket>, key: string)
    ensures forall k :: k in m - {key} <==> k in m && k != key
    ensures forall k | k in m - {key} :: (m - {key})[k] == m[k]
  {
  }

  lemma PutVacated(s: ShardState, key: string, now: int, b: Bucket)
    ensures Inserted(s, Put(Vacated(s, key, now), key, b), key, now, b.expireAt)
  {
    VacatedIs(s, key, now);
    WithoutKey(s.buckets, key);
    hide Vacated;
  }

  lemma NextName(i: nat)
    requires i > 0
    ensures forall k :: IsName(k, i) <==> IsName(k, i - 1) || k == Repeat('k', i)
    ensures !IsName(Repeat('k', i), i - 1)
    ensures forall n: nat | i <= n :: IsName(Repeat('k', i), n)
  {
  }

  lemma FilledOn(s: ShardState, s1: ShardState, i: nat, expireAt: int, t: int)
    requires 0 < i && Filled(s, i - 1, t) && Inserted(s, s1, Repeat('k', i), 0, expireAt) && |s1.buckets| == i && expireAt < t
    ensures Filled(s1, i, t)
  {
    hide Repeat, IsName;
    NextName(i);
  }

  lemma FillStep(s: ShardState, i: nat, t: int, q: Quotas)
    requires 0 < i <= MAX_BUCKETS_PER_SHARD && Filled(s, i - 1, t) && Ttl(q(Repeat('k', i))) < t
    ensures var op := CheckOp(Repeat('k', i), 0, "");
            Legal(s, op) && Filled(Step(s, op, q).0, i, t)
  {
    hide Step, Repeat, Legal, IsName, Ttl, Inserted;
    var key := Repeat('k', i);
    NextName(i);
    assert s.buckets - {key} == s.buckets;
    InsertStep(s, key, 0, q);
    FilledOn(s, Step(s, CheckOp(key, 0, ""), q).0, i, Ttl(q(key)), t);
  }

  lemma RecreateStep(s: ShardState, n: nat, i: nat, t: int, q: Quotas)
    requires 0 < i <= n <= MAX_BUCKETS_PER_SHARD && Recreated(s, n, i - 1, t)
    ensures var op := CheckOp(Repeat('k', i), t, "");
            Legal(s, op) && Recreated(Step(s, op, q).0, n, i, t)
  {
    hide Step, Repeat, Legal, IsName, Ttl;
    var key := Repeat('k', i);
    NextName(i);
    DropSize(s.buckets, key);
    InsertStep(s, key, t, q);
  }

  lemma {:induction false} Fill(n: nat, i: nat, q: Quotas) returns (ops: seq<Op>)
    requires i <= n <= MAX_BUCKETS_PER_SHARD
    ensures Leads(ops, q, 0) && Filled(Final(EMPTY, ops, q), i, Late(n, q))
  {
    ops := [];
    if i > 0 {
      ops := Fill(n, i - 1, q);
      hide LegalRun, Step, Final, Repeat, Legal, Leads, Filled, Late;
      FillStep(Final(EMPTY, ops, q), i, Late(n, q), q);
      LeadsOn(ops, CheckOp(Repeat('k', i), 0, ""), q, 0);
      ops := ops + [CheckOp(Repeat('k', i), 0, "")];
    }
  }

  lemma {:induction false} Recreate(n: nat, i: nat, q: Quotas) returns (ops: seq<Op>)
    requires i <= n <= MAX_BUCKETS_PER_SHARD
    ensures Leads(ops, q, Late(n, q)) && Recreated(Final(EMPTY, ops, q), n, i, Late(n, q))
  {
    if i == 0 {
      ops := Fill(n, n, q);
    } else {
      ops := Recreate(n, i - 1, q);
      var t := Late(n, q);
      hide LegalRun, Step, Final, Repeat, Legal, Leads, Recreated, Late;
      RecreateStep(Final(EMPTY, ops, q), n, i, t, q);
      LeadsOn(ops, CheckOp(Repeat('k', i), t, ""), q, t);
      ops := ops + [CheckOp(Repeat('k', i), t, "")];
    }
  }

  lemma DropSize(m: map<string, Bucket>, key: string)
    requires key in m
    ensures |m - {key}| == |m| - 1
  {
    assert (m - {key}).Keys == m.Keys - {key};
  }

  /** The cap is also lost without a burst: fill a shard, let its buckets expire, ask for every key
      again.  The re-created buckets are not tracked, so a new key that comes strictly later than
      all other checks finds nothing to evict and is inserted beyond the cap. */
  lemma RecreatedExceedCap(q: Quotas) returns (ops: seq<Op>, last: Op)
    ensures Timely(ops + [last]) && LegalRun(EMPTY, ops + [last], q)
    ensures last.CheckOp? && forall op | op in ops :: op.now < last.now
    ensures |Final(EMPTY, ops, q).buckets| == MAX_BUCKETS_PER_SHARD
    ensures |Final(EMPTY, ops + [last], q).buckets| == MAX_BUCKETS_PER_SHARD + 1
  {
    var n := MAX_BUCKETS_PER_SHARD;
    var t := Late(n, q);
    ops := Recreate(n, n, q);
    var key := Repeat('k', n + 1);
    last := CheckOp(key, t + 1, "");
    hide LegalRun, Final, Repeat, Late;
    UntrackedStep(Final(EMPTY, ops, q), n, t, key, q);
    LeadsOn(ops, last, q, t);
  }

  lemma UntrackedStep(s: ShardState, n: nat, t: int, key: string, q: Quotas)
    requires n == MAX_BUCKETS_PER_SHARD && Recreated(s, n, n, t) && !IsName(key, n)
    ensures var op := CheckOp(key, t + 1, ""); Legal(s, op) && |Step(s, op, q).0.buckets| == n + 1
  {
    hide Consume, Fresh, Touch, Repeat;
    var v := Vacated(s, key, t + 1);
    assert v.buckets == s.buckets && v.lastAccess.Keys == {key};
    assert "" !in s.buckets;
    InsertSize(v, key, q(key), t + 1, "");
    var p := Prepare(s, key, q(key), t + 1, "");
    ReplaceSize(p.buckets, key, Consume(p.buckets[key], t + 1).0);
  }
}
