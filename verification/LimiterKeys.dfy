/** What one key sees of a shard: its own checks and the evictions of its bucket.  A single bucket
    that is dropped on eviction alone, fed with those events, gives the shard's answers to the key,
    although the shard also drops the bucket when it expires. */
module LimiterKeys {
  import opened Options
  import opened TokenBucket
  import opened LimiterRuns

  datatype Event = Ask(now: int) | Lose

  function EventOf(s: ShardState, op: Op, key: string): seq<Event> {
    if op.CleanOp? then []
    else if op.key == key then [Ask(op.now)]
    else if AtCap(s, op) && op.victim == key && key in s.buckets then [Lose]
    else []
  }

  /** The events of `key` in a run. */
  function Trace(s: ShardState, ops: seq<Op>, key: string, q: Quotas): seq<Event>
    decreases |ops|
  {
    if ops == [] then [] else EventOf(s, ops[0], key) + Trace(Step(s, ops[0], q).0, ops[1..], key, q)
  }

  function Offered(o: Option<Bucket>, q: Quota, now: int): Bucket
    requires q.window != 0
  {
    if o.Some? then Touch(o.value, q, now) else Fresh(q, now)
  }

  /** The reference: a bucket that is never dropped but on eviction, and its answers. */
  function Serve(o: Option<Bucket>, evs: seq<Event>, q: Quota): (Option<Bucket>, seq<bool>)
    requires q.window != 0
    decreases |evs|
  {
    if evs == [] then (o, [])
    else match evs[0]
      case Lose => Serve(None, evs[1..], q)
      case Ask(now) =>
        var (b, ok) := Consume(Offered(o, q, now), now);
        var (o1, answers) := Serve(Some(b), evs[1..], q);
        (o1, [ok] + answers)
  }

  predicate Asks(op: Op, key: string) { op.CheckOp? && op.key == key }

  /** The answers that the checks of `key` get. */
  function AnswersTo(ops: seq<Op>, answers: seq<bool>, key: string): seq<bool>
    requires |ops| == |answers|
  {
    if ops == [] then []
    else (if Asks(ops[0], key) then [answers[0]] else []) + AnswersTo(ops[1..], answers[1..], key)
  }

  // ----- Simulation

  /** Quotas for which a bucket is full again when it expires, or never lets anything through. */
  predicate RefillsOrNever(q: Quota) { q.limit <= 0 || (q.window > 0 && q.limit * PRECISION >= q.window) }

  /** A bucket that cannot serve, and no refill changes that. */
  predicate Frozen(b: Bucket) { b.tokens < PRECISION && b.capacity < PRECISION }

  predicate Alike(a: Bucket, b: Bucket, q: Quota) {
    if q.limit >= 1 then a == b else Frozen(a) && Frozen(b) && a.oldLimit == b.oldLimit == q.limit
  }

  /** What a kept bucket satisfies between checks. */
  ghost predicate Kept(b: Bucket, q: Quota)
    requires q.window != 0
  {
    if q.limit >= 1 then Sound(b, q) else Frozen(b) && b.oldLimit == q.limit
  }

  /** Every check of `key` still to come happens at `t` or later. */
  ghost predicate From(ops: seq<Op>, key: string, t: int) {
    forall i | 0 <= i < |ops| && Asks(ops[i], key) :: ops[i].now >= t
  }

  /** The shard's bucket for `key` and the kept one agree, unless the shard dropped its own; then it
      had expired before every check still to come. */
  ghost predicate Follows(buckets: map<string, Bucket>, o: Option<Bucket>, ops: seq<Op>, key: string, q: Quota)
    requires q.window != 0
  {
    && (key in buckets ==> o.Some? && Alike(buckets[key], o.value, q) && buckets[key].expireAt == o.value.expireAt)
    && (o.Some? ==> Kept(o.value, q) && From(ops, key, o.value.expireAt - Ttl(q)))
    && (o.Some? && key !in buckets ==> From(ops, key, o.value.expireAt + 1))
  }

  /** An expired bucket that was kept is full at its next check, like a fresh one. */
  lemma FullAgain(b: Bucket, q: Quota, now: int)
    requires q.window > 0 && q.limit >= 1 && RefillsOrNever(q)
    requires Sound(b, q) && Expired(b, now)
    ensures Consume(Touch(b, q, now), now) == Consume(Fresh(q, now), now)
  {
    TwoWindowsFill(q);
    var e := (now - b.lastUpdate) / SECOND;
    assert now - b.lastUpdate > q.window * SECOND * 2;
    assert e >= 2 * q.window;
    MulMono(2 * q.window, e, Rate(q));
  }

  lemma FrozenStays(b: Bucket, now: int)
    requires Frozen(b)
    ensures !Consume(b, now).1 && Frozen(Consume(b, now).0)
    ensures Consume(b, now).0.oldLimit == b.oldLimit && Consume(b, now).0.expireAt == b.expireAt
  {
  }

  /** The bucket that a check of the shard consumes from. */
  function FromShard(s: ShardState, key: string, now: int): Option<Bucket> {
    if Live(s, key, now) then Some(s.buckets[key]) else None
  }

  /** One check at the level of its key's bucket. */
  lemma SameAnswer(s: ShardState, o: Option<Bucket>, key: string, now: int, q: Quota)
    requires q.window != 0 && RefillsOrNever(q)
    requires key in s.buckets ==> o.Some? && Alike(s.buckets[key], o.value, q) && s.buckets[key].expireAt == o.value.expireAt
    requires o.Some? ==> Kept(o.value, q) && now >= o.value.expireAt - Ttl(q)
    requires o.Some? && key !in s.buckets ==> now > o.value.expireAt
    ensures var (a, ok) := Consume(Offered(FromShard(s, key, now), q, now), now);
            var (b, ok') := Consume(Offered(o, q, now), now);
            ok == ok' && Alike(a, b, q) && Kept(b, q) && a.expireAt == b.expireAt == now + Ttl(q)
  {
    var x, y := Offered(FromShard(s, key, now), q, now), Offered(o, q, now);
    if q.limit <= 0 {
      FrozenStays(x, now);
      FrozenStays(y, now);
    } else {
      ConsumeKeepsSound(y, q, now);
      if o.Some? && !Live(s, key, now) {
        FullAgain(o.value, q, now);
      }
    }
  }

  /** What a check does to the bucket of its own key and to that of another. */
  lemma CheckedBuckets(s: ShardState, op: Op, q: Quotas, key: string)
    requires op.CheckOp?
    ensures var (s1, ok) := Step(s, op, q);
            if op.key == key then
              key in s1.buckets && (s1.buckets[key], ok) == Consume(Offered(FromShard(s, key, op.now), q(key), op.now), op.now)
            else if AtCap(s, op) && op.victim == key then
              key !in s1.buckets
            else
              (key in s1.buckets <==> key in s.buckets) && (key in s.buckets ==> s1.buckets[key] == s.buckets[key])
  {
    hide Consume, Fresh, Touch;
  }

  lemma FromRest(ops: seq<Op>, key: string, t: int)
    requires ops != [] && From(ops, key, t)
    ensures From(ops[1..], key, t)
  {
  }

  lemma FromNow(ops: seq<Op>, key: string, t: int)
    requires ops != [] && Timely(ops) && t <= ops[0].now
    ensures From(ops[1..], key, t)
  {
  }

  lemma FollowsRest(buckets: map<string, Bucket>, o: Option<Bucket>, ops: seq<Op>, key: string, q: Quota)
    requires q.window != 0 && ops != [] && Follows(buckets, o, ops, key, q)
    ensures Follows(buckets, o, ops[1..], key, q)
  {
    if o.Some? {
      FromRest(ops, key, o.value.expireAt - Ttl(q));
      if key !in buckets { FromRest(ops, key, o.value.expireAt + 1); }
    }
  }

  lemma NothingServed(o: Option<Bucket>, q: Quota)
    requires q.window != 0
    ensures Serve(o, [], q) == (o, [])
  {
  }

  lemma ServeEvent(o: Option<Bucket>, ev: Event, q: Quota)
    requires q.window != 0
    ensures Serve(o, [Lose], q) == (None, [])
    ensures ev.Ask? ==> var (b, ok) := Consume(Offered(o, q, ev.now), ev.now); Serve(o, [ev], q) == (Some(b), [ok])
  {
    assert [ev][1..] == [];
    assert [Lose][1..] == [];
    if ev.Ask? {
      var ok := Consume(Offered(o, q, ev.now), ev.now).1;
      assert [ok] + [] == [ok];
    }
  }

  lemma AskStep(s: ShardState, o: Option<Bucket>, ops: seq<Op>, key: string, q: Quotas)
    requires ops != [] && Asks(ops[0], key) && Timely(ops) && Follows(s.buckets, o, ops, key, q(key)) && RefillsOrNever(q(key))
    ensures var (s1, ok) := Step(s, ops[0], q);
            var (b, ok') := Consume(Offered(o, q(key), ops[0].now), ops[0].now);
            ok == ok' && Follows(s1.buckets, Some(b), ops[1..], key, q(key))
  {
    hide Step, Consume, Touch, Fresh, Live, AtCap, Ttl, Kept, Alike, RefillsOrNever, Offered, FromShard;
    CheckedBuckets(s, ops[0], q, key);
    SameAnswer(s, o, key, ops[0].now, q(key));
    FromNow(ops, key, ops[0].now);
  }

  lemma KeyStep(s: ShardState, o: Option<Bucket>, ops: seq<Op>, key: string, q: Quotas)
    requires ops != [] && Timely(ops) && Follows(s.buckets, o, ops, key, q(key)) && RefillsOrNever(q(key))
    ensures var (s1, ok) := Step(s, ops[0], q);
            var (o1, answers) := Serve(o, EventOf(s, ops[0], key), q(key));
            Follows(s1.buckets, o1, ops[1..], key, q(key)) && answers == if Asks(ops[0], key) then [ok] else []
  {
    hide Serve, Follows;
    NothingServed(o, q(key));
    ServeEvent(o, Ask(ops[0].now), q(key));
    FollowsRest(s.buckets, o, ops, key, q(key));
    if ops[0].CleanOp? {
      CleanStep(s, o, ops, key, q(key));
    } else if ops[0].key == key {
      AskStep(s, o, ops, key, q);
    } else {
      OtherStep(s, o, ops, key, q);
    }
  }

  lemma CleanStep(s: ShardState, o: Option<Bucket>, ops: seq<Op>, key: string, q: Quota)
    requires ops != [] && ops[0].CleanOp? && Timely(ops) && q.window != 0 && Follows(s.buckets, o, ops, key, q)
    ensures Follows(Clean(s, ops[0].now).buckets, o, ops[1..], key, q)
  {
    FollowsRest(s.buckets, o, ops, key, q);
    if key in s.buckets && Expired(s.buckets[key], ops[0].now) {
      FromNow(ops, key, o.value.expireAt + 1);
    }
  }

  lemma OtherStep(s: ShardState, o: Option<Bucket>, ops: seq<Op>, key: string, q: Quotas)
    requires ops != [] && ops[0].CheckOp? && ops[0].key != key && Follows(s.buckets, o, ops, key, q(key))
    ensures var s1, o1 := Step(s, ops[0], q).0, if EventOf(s, ops[0], key) == [Lose] then None else o;
            Follows(s1.buckets, o1, ops[1..], key, q(key))
  {
    hide Step, Kept, Alike, AtCap;
    CheckedBuckets(s, ops[0], q, key);
    FollowsRest(s.buckets, o, ops, key, q(key));
  }

  lemma {:induction false} ServeAppend(o: Option<Bucket>, a: seq<Event>, b: seq<Event>, q: Quota)
    requires q.window != 0
    ensures var (o1, x) := Serve(o, a, q); var (o2, y) := Serve(o1, b, q); Serve(o, a + b, q) == (o2, x + y)
    decreases |a|
  {
    hide Consume, Offered;
    if a == [] {
      assert a + b == b;
      var y := Serve(o, b, q).1;
      assert [] + y == y;
    } else {
      assert (a + b)[1..] == a[1..] + b && (a + b)[0] == a[0];
      var o1 := if a[0].Lose? then None else Some(Consume(Offered(o, q, a[0].now), a[0].now).0);
      ServeAppend(o1, a[1..], b, q);
      var x, y := Serve(o1, a[1..], q).1, Serve(Serve(o1, a[1..], q).0, b, q).1;
      forall ok ensures [ok] + (x + y) == [ok] + x + y {}
    }
  }

  /** A key sees nothing of the shard but its own events: over every run, with expiry, cleanup and
      eviction, the answers it gets are those of one bucket that is dropped on eviction alone, if its
      quota refills its bucket within a window or grants nothing. */
  lemma {:induction false} KeyRun(s: ShardState, o: Option<Bucket>, a: seq<Op>, b: seq<Op>, key: string, q: Quotas)
    requires Timely(a + b) && Follows(s.buckets, o, a + b, key, q(key)) && RefillsOrNever(q(key))
    ensures var (o1, answers) := Serve(o, Trace(s, a, key, q), q(key));
            && answers == AnswersTo(a, Answers(s, a, q), key)
            && Follows(Final(s, a, q).buckets, o1, b, key, q(key))
            && Timely(b)
    decreases |a|
  {
    hide Step, Follows, Serve, RefillsOrNever, EventOf;
    var ops := a + b;
    if a == [] {
      assert ops == b;
      NothingServed(o, q(key));
    } else {
      assert ops[1..] == a[1..] + b && ops[0] == a[0];
      assert Timely(a[1..] + b) by { assert forall i | 0 <= i < |ops| - 1 :: ops[1..][i] == ops[i + 1]; }
      KeyStep(s, o, ops, key, q);
      var s1, o1 := Step(s, a[0], q).0, Serve(o, EventOf(s, a[0], key), q(key)).0;
      KeyRun(s1, o1, a[1..], b, key, q);
      ServeAppend(o, EventOf(s, a[0], key), Trace(s1, a[1..], key, q), q(key));
      assert Answers(s, a, q)[1..] == Answers(s1, a[1..], q);
    }
  }

  /** The empty shard follows no bucket at all. */
  lemma EmptyFollows(ops: seq<Op>, key: string, q: Quota)
    requires q.window != 0
    ensures Follows(EMPTY.buckets, None, ops, key, q)
  {
  }
}
