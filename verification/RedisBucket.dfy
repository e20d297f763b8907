/** The Redis token bucket: one atomic script per check, exact rational tokens, milliseconds.  The
    server drops a hash at or after its deadline; all clocks are one nondecreasing clock.  A window is
    a whole number of milliseconds, possibly negative; the limit may change from call to call. */
module RedisBucket {
  import opened Options

  const PRECISION := 1000
  const MIN_TTL_MS := 300000

  /** The stored hash and the moment PEXPIRE set for it. */
  datatype Stored = Stored(tokens: real, lastUpdate: int, limit: int, deadline: int)

  datatype Quota = Quota(limit: int, windowMs: int)

  function Capacity(q: Quota): int { q.limit * PRECISION }

  function FillRate(q: Quota): real
    requires q.windowMs != 0
  {
    (Capacity(q) as real) / (q.windowMs as real)
  }

  function Ttl(q: Quota): int { if q.windowMs * 2 > MIN_TTL_MS then q.windowMs * 2 else MIN_TTL_MS }

  function Min(a: real, b: real): real { if a <= b then a else b }

  /** What the script starts from: the stored state, or a full bucket when there is none or the
      stored limit is another one. */
  function Loaded(h: Option<Stored>, q: Quota, now: int): Stored {
    if h.Some? && h.value.limit == Capacity(q) then h.value
    else Stored(Capacity(q) as real, now, Capacity(q), now)
  }

  function Refilled(b: Stored, q: Quota, now: int): real
    requires q.windowMs != 0
  {
    Min(Capacity(q) as real, b.tokens + ((now - b.lastUpdate) as real) * FillRate(q))
  }

  function Script(h: Option<Stored>, q: Quota, now: int): (Stored, bool)
    requires q.windowMs != 0
  {
    var t := Refilled(Loaded(h, q, now), q, now);
    var ok := t >= PRECISION as real;
    (Stored(if ok then t - PRECISION as real else t, now, Capacity(q), now + Ttl(q)), ok)
  }

  /** The server, as far as the limiter uses it. */
  class Server {
    var hashes: map<string, Stored>

    ghost function Get(key: string): Option<Stored>
      reads this
    {
      if key in hashes then Some(hashes[key]) else None
    }

    constructor ()
      ensures hashes == map[]
    {
      hashes := map[];
    }

    /** EVAL of the rate-limit script for `key`. */
    method Eval(key: string, limit: int, windowMs: int, now: int) returns (allowed: bool)
      requires windowMs != 0
      modifies this
      ensures (Get(key), allowed) == Step(old(Get(key)), EvalOp(now, limit), windowMs)
      ensures hashes == old(hashes)[key := Script(old(Get(key)), Quota(limit, windowMs), now).0]
    {
      var capacity := limit * PRECISION;
      var fillRate := (capacity as real) / (windowMs as real);
      var tokens, lastUpdate := capacity as real, now;
      if key in hashes {
        tokens, lastUpdate := hashes[key].tokens, hashes[key].lastUpdate;
        if hashes[key].limit != capacity {
          tokens, lastUpdate := capacity as real, now;
        }
      }
      var elapsed := now - lastUpdate;
      ghost var q := Quota(limit, windowMs);
      assert tokens == Loaded(old(Get(key)), q, now).tokens && lastUpdate == Loaded(old(Get(key)), q, now).lastUpdate;
      assert fillRate == FillRate(q);
      var newTokens := Min(capacity as real, tokens + (elapsed as real) * fillRate);
      assert newTokens == Refilled(Loaded(old(Get(key)), q, now), q, now);
      hide FillRate, Refilled, Loaded;
      allowed := false;
      if newTokens >= PRECISION as real {
        newTokens := newTokens - PRECISION as real;
        allowed := true;
      }
      assert (Stored(newTokens, now, capacity, now + Ttl(q)), allowed) == Script(old(Get(key)), q, now);
      var ttl := if windowMs * 2 > MIN_TTL_MS then windowMs * 2 else MIN_TTL_MS;
      hashes := hashes[key := Stored(newTokens, now, capacity, now + ttl)];
    }

    /** The server removes a hash whose deadline has come: the step of which `ExpiryInvisible` shows
        that it changes no later answer. */
    method Expire(key: string, now: int)
      modifies this
      ensures forall w | w != 0 :: (Get(key), false) == Step(old(Get(key)), ExpireOp(now), w)
      ensures hashes == if key in old(hashes) && old(hashes)[key].deadline <= now then old(hashes) - {key} else old(hashes)
    {
      if key in hashes && hashes[key].deadline <= now {
        hashes := hashes - {key};
      }
    }
  }

  // ----- Runs of one key: one window, a limit for each call

  datatype Op = EvalOp(now: int, limit: int) | ExpireOp(now: int)

  function Step(h: Option<Stored>, op: Op, w: int): (Option<Stored>, bool)
    requires w != 0
  {
    match op
    case EvalOp(now, limit) => var (b, ok) := Script(h, Quota(limit, w), now); (Some(b), ok)
    case ExpireOp(now) => (if h.Some? && h.value.deadline <= now then None else h, false)
  }

  function Answers(h: Option<Stored>, ops: seq<Op>, w: int): (r: seq<bool>)
    requires w != 0
    ensures |r| == |ops|
    decreases |ops|
  {
    if ops == [] then [] else
      var (h1, ok) := Step(h, ops[0], w);
      [ok] + Answers(h1, ops[1..], w)
  }

  function Final(h: Option<Stored>, ops: seq<Op>, w: int): Option<Stored>
    requires w != 0
    decreases |ops|
  {
    if ops == [] then h else Final(Step(h, ops[0], w).0, ops[1..], w)
  }

  /** The reference: a server that never expires anything. */
  function KeepingAnswers(h: Option<Stored>, ops: seq<Op>, w: int): (r: seq<bool>)
    requires w != 0
    ensures |r| == |ops|
    decreases |ops|
  {
    if ops == [] then []
    else
      var (h1, ok) := if ops[0].ExpireOp? then (h, false) else Step(h, ops[0], w);
      [ok] + KeepingAnswers(h1, ops[1..], w)
  }

  ghost predicate Timely(ops: seq<Op>, from: int) {
    ops == [] || (from <= ops[0].now && Timely(ops[1..], ops[0].now))
  }

  /** Every call carries one of these limits. */
  ghost predicate LimitsFrom(ops: seq<Op>, limits: iset<int>) {
    forall op | op in ops && op.EvalOp? :: op.limit in limits
  }

  /** A bucket as a script run leaves it. */
  predicate Sound(b: Stored, w: int)
    requires w != 0
  {
    && b.tokens <= b.limit as real
    && (w > 0 && b.limit >= 0 ==> 0.0 <= b.tokens)
    && b.deadline == b.lastUpdate + Ttl(Quota(0, w))
  }

  lemma Products(x: real, y: real, z: real)
    ensures (x + y) * z == x * z + y * z
    ensures 0.0 <= x && 0.0 <= z ==> 0.0 <= x * z
  {
  }

  lemma RateSign(q: Quota)
    requires q.windowMs != 0
    ensures q.limit >= 0 && q.windowMs > 0 ==> FillRate(q) >= 0.0
    ensures FillRate(q) * (q.windowMs as real) == Capacity(q) as real
  {
  }

  lemma ScriptKeepsSound(h: Option<Stored>, q: Quota, now: int)
    requires q.windowMs != 0
    requires h.Some? ==> Sound(h.value, q.windowMs) && h.value.lastUpdate <= now
    ensures var b := Script(h, q, now).0;
            && Sound(b, q.windowMs) && b.lastUpdate == now && b.limit == Capacity(q)
            && b.deadline == now + if 2 * q.windowMs > 300_000 then 2 * q.windowMs else 300_000
  {
    if h.Some? {
      RateSign(q);
      Products((now - h.value.lastUpdate) as real, 0.0, FillRate(q));
    }
  }

  /** A bucket left alone for two windows is full again. */
  lemma FullAgain(b: Stored, q: Quota, now: int)
    requires q.windowMs > 0 && q.limit >= 0 && Sound(b, q.windowMs) && b.deadline <= now
    ensures Script(Some(b), q, now) == Script(None, q, now)
  {
    var w, e, r := q.windowMs as real, (now - b.lastUpdate) as real, FillRate(q);
    RateSign(q);
    assert e >= w;
    Products(w, e - w, r);
    Products(e - w, 0.0, r);
    assert w + (e - w) == e;
    assert e * r >= Capacity(q) as real;
    assert ((now - now) as real) * r == 0.0;
  }

  /** A limit below one request never lets anything through. */
  lemma NeverServes(h: Option<Stored>, q: Quota, now: int)
    requires q.windowMs != 0 && q.limit < 1
    ensures !Script(h, q, now).1
  {
  }

  // ----- Expiry

  /** Two hashes that answer alike; tokens below the price of a request do not matter. */
  predicate Alike(a: Stored, b: Stored) {
    && a.limit == b.limit && a.lastUpdate == b.lastUpdate && a.deadline == b.deadline
    && (a.limit >= PRECISION ==> a.tokens == b.tokens)
  }

  /** `h` is what the server has, `m` what it would have without expiry; a dropped hash had reached
      its deadline by `from`. */
  ghost predicate Simulates(h: Option<Stored>, m: Option<Stored>, w: int, from: int)
    requires w != 0
  {
    && (h.Some? ==> m.Some? && Alike(h.value, m.value))
    && (m.Some? ==> Sound(m.value, w) && m.value.lastUpdate <= from)
    && (m.Some? && h.None? ==> m.value.deadline <= from)
  }

  lemma EvalSimulates(h: Option<Stored>, m: Option<Stored>, q: Quota, from: int, now: int)
    requires q.windowMs != 0 && (q.windowMs > 0 || q.limit < 1) && Simulates(h, m, q.windowMs, from) && from <= now
    ensures var (a, x) := Script(h, q, now); var (b, y) := Script(m, q, now);
            x == y && Simulates(Some(a), Some(b), q.windowMs, now)
  {
    ScriptKeepsSound(m, q, now);
    if q.limit < 1 {
      NeverServes(h, q, now);
      NeverServes(m, q, now);
    } else if m.Some? && h.None? {
      FullAgain(m.value, q, now);
    }
  }

  /** Expiry is invisible: over every run of script calls with whatever limits and of expirations, the
      answers are those of a server that never expires a hash, if the window is positive or no limit
      grants anything. */
  lemma {:induction false} ExpiryInvisible(h: Option<Stored>, m: Option<Stored>, ops: seq<Op>, w: int, from: int)
    requires w != 0 && Timely(ops, from) && Simulates(h, m, w, from)
    requires w > 0 || forall op | op in ops && op.EvalOp? :: op.limit < 1
    ensures Answers(h, ops, w) == KeepingAnswers(m, ops, w)
    decreases |ops|
  {
    if ops != [] {
      hide Script, Alike, Sound;
      assert ops[0] in ops && forall op | op in ops[1..] :: op in ops;
      var now := ops[0].now;
      if ops[0].ExpireOp? {
        ExpireSimulates(h, m, w, from, now);
        ExpiryInvisible(Step(h, ops[0], w).0, m, ops[1..], w, now);
      } else {
        EvalSimulates(h, m, Quota(ops[0].limit, w), from, now);
        ExpiryInvisible(Step(h, ops[0], w).0, Step(m, ops[0], w).0, ops[1..], w, now);
      }
    }
  }

  lemma ExpireSimulates(h: Option<Stored>, m: Option<Stored>, w: int, from: int, now: int)
    requires w != 0 && Simulates(h, m, w, from) && from <= now
    ensures Simulates(Step(h, ExpireOp(now), w).0, m, w, now)
  {
  }

  /** `n` calls with one limit at time 0. */
  function Hammer(limit: int, n: nat): (r: seq<Op>)
    ensures |r| == n && forall op | op in r :: op == EvalOp(0, limit)
  {
    if n == 0 then [] else [EvalOp(0, limit)] + Hammer(limit, n - 1)
  }

  function Trues(n: nat): (r: seq<bool>)
    ensures |r| == n && forall i | 0 <= i < n :: r[i]
  {
    if n == 0 then [] else [true] + Trues(n - 1)
  }

  /** The hash after calls at time 0 that leave `k` requests of the limit. */
  function Drained(limit: int, w: int, k: int): Stored {
    Stored((k * PRECISION) as real, 0, limit * PRECISION, Ttl(Quota(0, w)))
  }

  lemma DrainOne(limit: int, w: int, k: nat)
    requires w != 0 && 0 < k <= limit
    ensures Script(Some(Drained(limit, w, k)), Quota(limit, w), 0) == (Drained(limit, w, k - 1), true)
    ensures Script(None, Quota(limit, w), 0) == (Drained(limit, w, limit - 1), true)
  {
    assert (0 as real) * FillRate(Quota(limit, w)) == 0.0;
  }

  lemma OneMoreTrue(n: nat, rest: seq<bool>)
    requires n > 0
    ensures [true] + (Trues(n - 1) + rest) == Trues(n) + rest
  {
  }

  lemma {:induction false} HammerDrains(limit: int, w: int, n: nat, k: nat, rest: seq<Op>)
    requires w != 0 && n <= k <= limit
    ensures var h, h1 := Some(Drained(limit, w, k)), Some(Drained(limit, w, k - n));
            && Answers(h, Hammer(limit, n) + rest, w) == Trues(n) + Answers(h1, rest, w)
            && KeepingAnswers(h, Hammer(limit, n) + rest, w) == Trues(n) + KeepingAnswers(h1, rest, w)
    decreases n
  {
    hide Script, Drained;
    var ops, h1 := Hammer(limit, n) + rest, Some(Drained(limit, w, k - n));
    if n == 0 {
      assert ops == rest;
    } else {
      DrainOne(limit, w, k);
      HammerDrains(limit, w, n - 1, k - 1, rest);
      assert ops[0] == EvalOp(0, limit) && ops[1..] == Hammer(limit, n - 1) + rest;
      hide Trues;
      OneMoreTrue(n, Answers(h1, rest, w));
      OneMoreTrue(n, KeepingAnswers(h1, rest, w));
    }
  }

  /** The run that a negative window fails: drain the bucket, let it expire, ask once more. */
  function Late(limit: int): seq<Op>
    requires limit >= 1
  {
    Hammer(limit, limit) + [ExpireOp(MIN_TTL_MS), EvalOp(MIN_TTL_MS, limit)]
  }

  lemma {:induction false} HammerTimely(limit: int, n: nat, rest: seq<Op>)
    requires Timely(rest, 0)
    ensures Timely(Hammer(limit, n) + rest, 0)
  {
    if n == 0 {
      assert [] + rest == rest;
    } else {
      HammerTimely(limit, n - 1, rest);
      assert (Hammer(limit, n) + rest)[1..] == Hammer(limit, n - 1) + rest;
    }
  }

  lemma LateBucket(limit: int, w: int)
    requires w < 0 && limit >= 1
    ensures var b, q := Drained(limit, w, 0), Quota(limit, w);
            && b.deadline <= MIN_TTL_MS
            && Script(None, q, MIN_TTL_MS).1
            && !Script(Some(b), q, MIN_TTL_MS).1
  {
    var q := Quota(limit, w);
    var r := FillRate(q);
    assert r <= 0.0;
    Products(MIN_TTL_MS as real, 0.0, -r);
    assert (MIN_TTL_MS as real) * r == -((MIN_TTL_MS as real) * -r);
    assert (0 as real) * r == 0.0;
  }

  lemma ExpiryShows(limit: int, w: int)
    requires w < 0 && limit >= 1
    ensures Timely(Late(limit), 0)
    ensures Answers(None, Late(limit), w) == Trues(limit) + [false, true]
    ensures KeepingAnswers(None, Late(limit), w) == Trues(limit) + [false, false]
  {
    hide Script, Drained;
    var rest := [ExpireOp(MIN_TTL_MS), EvalOp(MIN_TTL_MS, limit)];
    HammerTimely(limit, limit, rest);
    LateRest(limit, w);
    DrainOne(limit, w, limit);
    HammerDrains(limit, w, limit - 1, limit - 1, rest);
    var ops := Late(limit);
    assert ops[0] == EvalOp(0, limit) && ops[1..] == Hammer(limit, limit - 1) + rest;
    OneMoreTrue(limit, [false, true]);
    OneMoreTrue(limit, [false, false]);
  }

  lemma LateRest(limit: int, w: int)
    requires w < 0 && limit >= 1
    ensures var b, rest := Drained(limit, w, 0), [ExpireOp(MIN_TTL_MS), EvalOp(MIN_TTL_MS, limit)];
            && Timely(rest, 0)
            && Answers(Some(b), rest, w) == [false, true]
            && KeepingAnswers(Some(b), rest, w) == [false, false]
  {
    LateBucket(limit, w);
    hide Script, Drained;
    var rest := [ExpireOp(MIN_TTL_MS), EvalOp(MIN_TTL_MS, limit)];
    var last := rest[1..];
    assert last == [EvalOp(MIN_TTL_MS, limit)] && last[1..] == [];
    assert Timely(last, MIN_TTL_MS);
    assert Answers(None, last, w) == [true];
    assert KeepingAnswers(Some(Drained(limit, w, 0)), last, w) == [false];
  }

  /** The exact condition, for any set of limits in use: expiry is invisible over all runs if and only
      if the window is positive or no limit grants anything. */
  lemma ExpiryInvisibleIff(limits: iset<int>, w: int)
    requires w != 0
    ensures (forall ops, from | Timely(ops, from) && LimitsFrom(ops, limits) ::
               Answers(None, ops, w) == KeepingAnswers(None, ops, w))
       <==> w > 0 || forall l | l in limits :: l < 1
  {
    if w > 0 || forall l | l in limits :: l < 1 {
      forall ops, from | Timely(ops, from) && LimitsFrom(ops, limits)
        ensures Answers(None, ops, w) == KeepingAnswers(None, ops, w)
      {
        ExpiryInvisible(None, None, ops, w, from);
      }
    } else {
      var l :| l in limits && l >= 1;
      ExpiryShows(l, w);
      assert LimitsFrom(Late(l), limits);
      assert (Trues(l) + [false, true])[l + 1] != (Trues(l) + [false, false])[l + 1];
    }
  }

  // ----- How many requests get through

  function Admitted(answers: seq<bool>): nat {
    if answers == [] then 0 else (if answers[0] then 1 else 0) + Admitted(answers[1..])
  }

  /** Whether the step meets a hash with another limit, which it replaces by a full one. */
  predicate Resets(h: Option<Stored>, op: Op) { op.EvalOp? && h.Some? && h.value.limit != op.limit * PRECISION }

  lemma NeverResets(h: Option<Stored>, now: int)
    ensures !Resets(h, ExpireOp(now))
  {
  }

  /** How often a run changes the limit. */
  function Changes(h: Option<Stored>, ops: seq<Op>, w: int): nat
    requires w != 0
    decreases |ops|
  {
    if ops == [] then 0 else (if Resets(h, ops[0]) then 1 else 0) + Changes(Step(h, ops[0], w).0, ops[1..], w)
  }

  /** What `elapsed` milliseconds bring at most, with limits up to `top`. */
  function Earned(top: nat, w: int, elapsed: int): real
    requires w != 0
  {
    (elapsed as real) * FillRate(Quota(top, w))
  }

  lemma EarnedAdds(top: nat, w: int, a: int, b: int)
    requires w > 0
    ensures Earned(top, w, a) + Earned(top, w, b) == Earned(top, w, a + b)
    ensures 0 <= a ==> Earned(top, w, a) >= 0.0
    ensures w <= a ==> Earned(top, w, a) >= Capacity(Quota(top, w)) as real
  {
    var q := Quota(top, w);
    RateSign(q);
    Products(a as real, b as real, FillRate(q));
    if w <= a {
      Products(w as real, (a - w) as real, FillRate(q));
      Products((a - w) as real, 0.0, FillRate(q));
      assert (w as real) + ((a - w) as real) == a as real;
    }
  }

  /** A hash under limits up to `top`, last touched at `from` or earlier. */
  predicate Ready(h: Option<Stored>, top: nat, w: int, from: int)
    requires w != 0
  {
    h.Some? ==> Sound(h.value, w) && 0 <= h.value.limit <= top * PRECISION && h.value.lastUpdate <= from
  }

  /** What there is to spend: the tokens of the hash, or those of the hash there will be. */
  function Tokens(h: Option<Stored>, top: nat): real { if h.Some? then h.value.tokens else (top * PRECISION) as real }

  /** `n` full buckets of the largest limit. */
  function Capacities(n: nat, top: nat): real { (n * top * PRECISION) as real }

  function Since(h: Option<Stored>, from: int): int { if h.Some? then h.value.lastUpdate else from }

  lemma RatesRise(limit: nat, top: nat, w: int, e: int)
    requires w > 0 && limit <= top && 0 <= e
    ensures 0.0 <= (e as real) * FillRate(Quota(limit, w)) <= Earned(top, w, e)
  {
    var low, high := FillRate(Quota(limit, w)), FillRate(Quota(top, w));
    assert 0.0 <= low <= high by { Quotients(limit, top, w); }
    Products(e as real, 0.0, low);
    Products(e as real, 0.0, high - low);
    assert (e as real) * (low + (high - low)) == (e as real) * low + (e as real) * (high - low);
  }

  lemma Quotients(limit: nat, top: nat, w: int)
    requires w > 0 && limit <= top
    ensures 0.0 <= FillRate(Quota(limit, w)) <= FillRate(Quota(top, w))
  {
  }

  /** One call pays with tokens, with the milliseconds that have passed, or by a change of limit. */
  lemma ScriptPays(h: Option<Stored>, op: Op, top: nat, w: int, from: int)
    requires w > 0 && op.EvalOp? && 0 <= op.limit <= top && Ready(h, top, w, from) && from <= op.now
    ensures var (b, ok) := Script(h, Quota(op.limit, w), op.now);
            var paid := (if ok then PRECISION as real else 0.0) + b.tokens;
            && Ready(Some(b), top, w, op.now) && b.lastUpdate == op.now
            && paid <= (top * PRECISION) as real
            && paid <= Tokens(h, top) + (if Resets(h, op) then (top * PRECISION) as real else 0.0)
                       + Earned(top, w, op.now - Since(h, from))
  {
    var q := Quota(op.limit, w);
    ScriptKeepsSound(h, q, op.now);
    EarnedAdds(top, w, op.now - Since(h, from), 0);
    if h.Some? { RatesRise(op.limit, top, w, op.now - h.value.lastUpdate); }
    assert ((op.now - op.now) as real) * FillRate(q) == 0.0;
  }

  /** The server drops a hash after two windows, in which a capacity would have come back. */
  lemma ExpirePays(h: Option<Stored>, top: nat, w: int, from: int, now: int)
    requires w > 0 && Ready(h, top, w, from) && from <= now
    ensures var h1 := Step(h, ExpireOp(now), w).0;
            && Ready(h1, top, w, now)
            && Since(h, from) <= Since(h1, now) <= now
            && Tokens(h1, top) <= Tokens(h, top) + Earned(top, w, Since(h1, now) - Since(h, from))
  {
    var h1 := Step(h, ExpireOp(now), w).0;
    EarnedAdds(top, w, Since(h1, now) - Since(h, from), 0);
  }

  /** The calls of a run carry limits up to `top`, and none of its steps happens after `hi`. */
  ghost predicate UpTo(ops: seq<Op>, top: nat, hi: int) {
    forall op | op in ops :: op.now <= hi && (op.EvalOp? ==> 0 <= op.limit <= top)
  }

  predicate Covered(h: Option<Stored>, ops: seq<Op>, top: nat, w: int, from: int, hi: int)
    requires w != 0
  {
    (PRECISION * Admitted(Answers(h, ops, w))) as real
    <= Tokens(h, top) + Capacities(Changes(h, ops, w), top) + Earned(top, w, hi - Since(h, from))
  }

  lemma EvalCovered(h: Option<Stored>, ops: seq<Op>, top: nat, w: int, from: int, hi: int)
    requires w > 0 && Ready(h, top, w, from) && ops != [] && ops[0].EvalOp? && 0 <= ops[0].limit <= top
    requires from <= ops[0].now && Covered(Step(h, ops[0], w).0, ops[1..], top, w, ops[0].now, hi)
    ensures Covered(h, ops, top, w, from, hi)
  {
    hide Script, Earned, Ready, Tokens, Since, Resets, Capacities;
    var op, rest := ops[0], ops[1..];
    var (h1, ok) := Step(h, op, w);
    assert Answers(h, ops, w)[1..] == Answers(h1, rest, w);
    ScriptPays(h, op, top, w, from);
    Spent(h1.value, top, op.now);
    EarnedAdds(top, w, op.now - Since(h, from), hi - op.now);
    OneMore(Changes(h1, rest, w), top);
  }

  lemma ExpireCovered(h: Option<Stored>, ops: seq<Op>, top: nat, w: int, from: int, hi: int)
    requires w > 0 && Ready(h, top, w, from) && ops != [] && ops[0].ExpireOp?
    requires from <= ops[0].now && Covered(Step(h, ops[0], w).0, ops[1..], top, w, ops[0].now, hi)
    ensures Covered(h, ops, top, w, from, hi)
  {
    hide Earned, Ready, Tokens, Since, Resets, Capacities;
    var now, h1 := ops[0].now, Step(h, ops[0], w).0;
    assert Answers(h, ops, w)[1..] == Answers(h1, ops[1..], w);
    NeverResets(h, now);
    ExpirePays(h, top, w, from, now);
    EarnedAdds(top, w, Since(h1, now) - Since(h, from), hi - Since(h1, now));
  }

  /** Ledger: what is admitted up to `hi` is covered by what there is to spend, one capacity for each
      change of the limit, and the time that passes. */
  lemma {:induction false} Ledger(h: Option<Stored>, ops: seq<Op>, top: nat, w: int, from: int, hi: int)
    requires w > 0 && Ready(h, top, w, from) && from <= hi && Timely(ops, from) && UpTo(ops, top, hi)
    ensures (PRECISION * Admitted(Answers(h, ops, w))) as real
            <= Tokens(h, top) + Capacities(Changes(h, ops, w), top) + Earned(top, w, hi - Since(h, from))
    decreases |ops|
  {
    if ops == [] {
      ReadyTokens(h, top, w, from);
      EarnedAdds(top, w, hi - Since(h, from), 0);
    } else {
      var op := ops[0];
      assert op in ops && forall o | o in ops[1..] :: o in ops;
      assert Covered(Step(h, op, w).0, ops[1..], top, w, op.now, hi) by {
        hide Script, Earned, Ready, Tokens, Since, Capacities, Changes, Answers;
        if op.EvalOp? { ScriptPays(h, op, top, w, from); } else { ExpirePays(h, top, w, from, op.now); }
        Ledger(Step(h, op, w).0, ops[1..], top, w, op.now, hi);
      }
      hide Script, Earned, Ready, Tokens, Since, Capacities, Changes, Answers, Step;
      if op.EvalOp? { EvalCovered(h, ops, top, w, from, hi); } else { ExpireCovered(h, ops, top, w, from, hi); }
    }
  }

  lemma ReadyTokens(h: Option<Stored>, top: nat, w: int, from: int)
    requires w > 0 && Ready(h, top, w, from)
    ensures 0.0 <= Tokens(h, top) && Since(h, from) <= from
  {
  }

  lemma Spent(b: Stored, top: nat, now: int)
    ensures Tokens(Some(b), top) == b.tokens && Since(Some(b), now) == b.lastUpdate
  {
  }

  lemma OneMore(n: nat, top: nat)
    ensures Capacities(n + 1, top) == Capacities(n, top) + (top * PRECISION) as real && Capacities(n, top) >= 0.0
  {
    assert (n + 1) * top * PRECISION == n * top * PRECISION + top * PRECISION;
  }

  /** A stretch: after its first call the bucket holds at most the capacity less what that call took. */
  lemma {:induction false} StretchBound(h: Option<Stored>, ops: seq<Op>, top: nat, w: int, from: int, start: int, span: nat)
    requires w > 0 && Ready(h, top, w, from) && Timely(ops, from)
    requires forall op | op in ops :: start <= op.now <= start + span && (op.EvalOp? ==> 0 <= op.limit <= top)
    ensures (PRECISION * Admitted(Answers(h, ops, w))) as real
            <= Capacities(1 + Changes(h, ops, w), top) + Earned(top, w, span)
    decreases |ops|
  {
    EarnedAdds(top, w, span, 0);
    OneMore(Changes(h, ops, w), top);
    if ops != [] {
      hide Script, Earned, Ready, Tokens, Since, Capacities;
      var op, rest := ops[0], ops[1..];
      assert op in ops && forall o | o in rest :: o in ops;
      var (h1, ok) := Step(h, op, w);
      assert Answers(h, ops, w)[1..] == Answers(h1, rest, w);
      if op.EvalOp? {
        ScriptPays(h, op, top, w, from);
        Spent(h1.value, top, op.now);
        Ledger(h1, rest, top, w, op.now, start + span);
        EarnedAdds(top, w, op.now - start, start + span - op.now);
        MoreChanges(Changes(h1, rest, w), Changes(h, ops, w), top);
      } else {
        ExpirePays(h, top, w, from, op.now);
        StretchBound(h1, rest, top, w, op.now, start, span);
      }
    }
  }

  lemma MoreChanges(n: nat, m: nat, top: nat)
    requires n <= m
    ensures Capacities(n, top) <= Capacities(m, top)
  {
    assert m * top == n * top + (m - n) * top && 0 <= (m - n) * top;
  }

  /** What a run leaves, for a stretch that follows. */
  lemma {:induction false} RunReady(h: Option<Stored>, a: seq<Op>, b: seq<Op>, top: nat, w: int, from: int) returns (mid: int)
    requires w > 0 && Ready(h, top, w, from) && Timely(a + b, from)
    requires forall op | op in a && op.EvalOp? :: 0 <= op.limit <= top
    ensures from <= mid && Ready(Final(h, a, w), top, w, mid) && Timely(b, mid)
    decreases |a|
  {
    hide Ready, Script;
    if a == [] {
      mid := from;
      assert a + b == b;
    } else {
      assert (a + b)[1..] == a[1..] + b && (a + b)[0] == a[0];
      assert a[0] in a && forall op | op in a[1..] :: op in a;
      if a[0].EvalOp? { ScriptPays(h, a[0], top, w, from); } else { ExpirePays(h, top, w, from, a[0].now); }
      mid := RunReady(Step(h, a[0], w).0, a[1..], b, top, w, a[0].now);
    }
  }

  /** Admission bound: in whatever stretch of a run that starts without a hash, with limits up to
      `top` that may change from call to call, if the stretch lasts `span` milliseconds it admits at
      most ((1 + changes of the limit) * capacity + span * capacity / window) / 1000 requests, with the
      server expiring hashes as it likes once their deadline has come. */
  lemma AdmissionBound(pre: seq<Op>, mid: seq<Op>, top: nat, w: int, from: int, start: int, span: nat)
    requires w > 0 && Timely(pre + mid, from)
    requires forall op | op in pre + mid && op.EvalOp? :: 0 <= op.limit <= top
    requires forall op | op in mid :: start <= op.now <= start + span
    ensures KeepsBound(Final(None, pre, w), mid, top, w, span)
  {
    hide Ready, Script, Answers, Changes, Timely, Final, Admitted;
    assert forall op | op in pre :: op in pre + mid;
    assert forall op | op in mid :: op in pre + mid;
    NothingReady(top, w, from);
    var t := RunReady(None, pre, mid, top, w, from);
    var h := Final(None, pre, w);
    assert KeepsBound(h, mid, top, w, span) by { StretchBound(h, mid, top, w, t, start, span); }
  }

  lemma NothingReady(top: nat, w: int, from: int)
    requires w != 0
    ensures Ready(None, top, w, from)
  {
  }

  predicate KeepsBound(h: Option<Stored>, mid: seq<Op>, top: nat, w: int, span: nat)
    requires w != 0
  {
    (PRECISION * Admitted(Answers(h, mid, w))) as real
    <= ((1 + Changes(h, mid, w)) * top * PRECISION) as real
       + (span as real) * (((top * PRECISION) as real) / (w as real))
  }

  ghost predicate Stretch(pre: seq<Op>, mid: seq<Op>, top: nat, from: int, start: int, span: nat) {
    && Timely(pre + mid, from)
    && (forall op | op in pre + mid && op.EvalOp? :: 0 <= op.limit <= top)
    && forall op | op in mid :: start <= op.now <= start + span
  }

  lemma {:induction false} CountTrues(n: nat, rest: seq<bool>)
    ensures Admitted(Trues(n) + rest) == n + Admitted(rest)
  {
    if n == 0 {
      assert [] + rest == rest;
    } else {
      CountTrues(n - 1, rest);
      assert (Trues(n) + rest)[1..] == Trues(n - 1) + rest;
    }
  }

  lemma {:induction false} SameLimitNeverResets(h: Option<Stored>, ops: seq<Op>, limit: int, w: int)
    requires w != 0 && (h.Some? ==> h.value.limit == limit * PRECISION)
    requires forall op | op in ops && op.EvalOp? :: op.limit == limit
    ensures Changes(h, ops, w) == 0
    decreases |ops|
  {
    if ops != [] {
      assert ops[0] in ops && forall op | op in ops[1..] :: op in ops;
      SameLimitNeverResets(Step(h, ops[0], w).0, ops[1..], limit, w);
    }
  }

  /** The exact condition: for limits up to a positive one, the bound holds in every stretch of every
      run if and only if the window is positive. */
  lemma AdmissionBoundIff(top: nat, w: int)
    requires w != 0 && top >= 1
    ensures (forall pre, mid, from, start, span | Stretch(pre, mid, top, from, start, span) ::
               KeepsBound(Final(None, pre, w), mid, top, w, span))
       <==> w > 0
  {
    if w > 0 {
      forall pre, mid, from, start, span | Stretch(pre, mid, top, from, start, span)
        ensures KeepsBound(Final(None, pre, w), mid, top, w, span)
      {
        AdmissionBound(pre, mid, top, w, from, start, span);
      }
    } else {
      BoundBreaks(top, w);
    }
  }

  lemma BoundBreaks(top: nat, w: int)
    requires w < 0 && top >= 1
    ensures Stretch([], Late(top), top, 0, 0, MIN_TTL_MS) && !KeepsBound(Final(None, [], w), Late(top), top, w, MIN_TTL_MS)
  {
    var ops := Late(top);
    assert [] + ops == ops;
    ExpiryShows(top, w);
    SameLimitNeverResets(None, ops, top, w);
    CountTrues(top, [false, true]);
    assert [false, true][1..] == [true] && [true][1..] == [];
    assert Admitted([false, true]) == 1;
    var r := ((top * PRECISION) as real) / (w as real);
    assert r <= 0.0;
    Products(MIN_TTL_MS as real, 0.0, -r);
    assert (MIN_TTL_MS as real) * r == -((MIN_TTL_MS as real) * -r);
  }

  /** A change of limit hands out a full bucket: calls that alternate between positive limits are
      never denied, however fast they come. */
  lemma {:induction false} AlternatingNeverDenied(h: Option<Stored>, ops: seq<Op>, w: int)
    requires w != 0
    requires forall op | op in ops :: op.EvalOp? && op.limit >= 1
    requires forall i | 0 <= i < |ops| - 1 :: ops[i].limit != ops[i + 1].limit
    requires h.Some? && ops != [] ==> h.value.limit != ops[0].limit * PRECISION
    ensures forall i | 0 <= i < |ops| :: Answers(h, ops, w)[i]
    decreases |ops|
  {
    if ops != [] {
      assert ops[0] in ops && forall op | op in ops[1..] :: op in ops;
      FullServes(h, ops[0], w);
      AlternatingNeverDenied(Step(h, ops[0], w).0, ops[1..], w);
    }
  }

  lemma FullServes(h: Option<Stored>, op: Op, w: int)
    requires w != 0 && op.EvalOp? && op.limit >= 1 && (h.None? || Resets(h, op))
    ensures Step(h, op, w).1 && Step(h, op, w).0.value.limit == op.limit * PRECISION
  {
    assert ((op.now - op.now) as real) * FillRate(Quota(op.limit, w)) == 0.0;
  }
}
