/** The fallback loop of a route: attempts, sleeps and when it gives up. */
module Fallback {
  import opened Options

  datatype Config = Config(preDelay: Option<nat>, postDelay: Option<nat>, maxRetries: Option<nat>)

  const DEFAULT_MAX_RETRIES := 3

  /** What one attempt at a cluster gives; `ok` covers success and the streaming marker. */
  datatype Outcome = Outcome(ok: bool, response: string)

  datatype Event = Pre(d: nat) | Try(k: nat) | Post(d: nat)

  function Retries(max: nat): nat { if max == 0 then DEFAULT_MAX_RETRIES else max }

  /** The sleep before attempt `k`: only retries that are counted have one. */
  function Before(cfg: Option<Config>, k: nat): seq<Event> {
    if cfg.Some? && cfg.value.preDelay.Some? && cfg.value.maxRetries.Some? && k > 0 then [Pre(cfg.value.preDelay.value)] else []
  }

  function After(cfg: Option<Config>, o: Outcome): seq<Event> {
    if cfg.Some? && cfg.value.postDelay.Some? && !o.ok then [Post(cfg.value.postDelay.value)] else []
  }

  /** Everything that happens in the first `n` attempts. */
  function Trace(cfg: Option<Config>, outcomes: nat -> Outcome, n: nat): seq<Event> {
    if n == 0 then [] else Trace(cfg, outcomes, n - 1) + Before(cfg, n - 1) + [Try(n - 1)] + After(cfg, outcomes(n - 1))
  }

  /** The loop ends by itself: there is no fallback, a bound on the retries, or an attempt that works. */
  ghost predicate Ends(cfg: Option<Config>, outcomes: nat -> Outcome) {
    cfg.None? || cfg.value.maxRetries.Some? || exists k: nat :: outcomes(k).ok
  }

  /** The number of attempts the documentation promises. */
  ghost predicate AttemptsAre(cfg: Option<Config>, outcomes: nat -> Outcome, n: nat) {
    && n > 0
    && (forall k: nat | k < n - 1 :: !outcomes(k).ok)
    && (cfg.None? ==> n == 1)
    && (cfg.Some? && cfg.value.maxRetries.Some? ==> n <= Retries(cfg.value.maxRetries.value) + 1)
    && (cfg.Some? && !outcomes(n - 1).ok ==> cfg.value.maxRetries.Some? && n == Retries(cfg.value.maxRetries.value) + 1)
  }

  lemma AttemptsUnique(cfg: Option<Config>, outcomes: nat -> Outcome, n: nat, m: nat)
    requires AttemptsAre(cfg, outcomes, n) && AttemptsAre(cfg, outcomes, m)
    ensures n == m
  {
  }

  /** The first `k` attempts fail; the number of attempts is found among the next `more`. */
  lemma {:induction false} FirstEnd(cfg: Config, outcomes: nat -> Outcome, k: nat, more: nat) returns (n: nat)
    requires forall i: nat | i < k :: !outcomes(i).ok
    requires if cfg.maxRetries.Some? then k + more == Retries(cfg.maxRetries.value) else outcomes(k + more).ok
    ensures AttemptsAre(Some(cfg), outcomes, n)
    decreases more
  {
    if more == 0 || outcomes(k).ok {
      n := k + 1;
    } else {
      n := FirstEnd(cfg, outcomes, k + 1, more - 1);
    }
  }

  /** The loop makes a number of attempts exactly when there is no fallback, a bound on the retries, or
      an attempt that works; otherwise it goes on for ever. */
  lemma EndsIff(cfg: Option<Config>, outcomes: nat -> Outcome)
    ensures (exists n: nat :: AttemptsAre(cfg, outcomes, n)) <==> Ends(cfg, outcomes)
  {
    if cfg.None? {
      assert AttemptsAre(cfg, outcomes, 1);
    } else if Ends(cfg, outcomes) {
      var bound: nat := if cfg.value.maxRetries.Some? then Retries(cfg.value.maxRetries.value) else
        (var k: nat :| outcomes(k).ok; k);
      var n := FirstEnd(cfg.value, outcomes, 0, bound);
    } else {
      forall n: nat | n > 0 ensures !AttemptsAre(cfg, outcomes, n) { assert !outcomes(n - 1).ok; }
    }
  }

  /** When every attempt fails there are N + 1 of them, and four if N is zero. */
  lemma AttemptsIfAllFail(cfg: Config, outcomes: nat -> Outcome, n: nat)
    requires cfg.maxRetries.Some? && forall k: nat :: !outcomes(k).ok
    ensures AttemptsAre(Some(cfg), outcomes, n) <==> n == if cfg.maxRetries.value == 0 then 4 else cfg.maxRetries.value + 1
  {
  }

  /** Runs attempts until one works or the retries are used up, and returns the last one's result. */
  method HandleRequest(cfg: Option<Config>, outcomes: nat -> Outcome) returns (result: Outcome, attempts: nat, trace: seq<Event>)
    requires Ends(cfg, outcomes)
    ensures AttemptsAre(cfg, outcomes, attempts)
    ensures result == outcomes(attempts - 1)
    ensures trace == Trace(cfg, outcomes, attempts)
  {
    ghost var good: nat := if exists k: nat :: outcomes(k).ok then (var k: nat :| outcomes(k).ok; k) else 0;
    var retriedCount: nat := 0;
    attempts, trace := 0, [];
    while true
      invariant forall k: nat | k < attempts :: !outcomes(k).ok
      invariant trace == Trace(cfg, outcomes, attempts)
      invariant attempts > 0 ==> cfg.Some?
      invariant cfg.Some? ==> retriedCount == if cfg.value.maxRetries.Some? then attempts else 0
      invariant cfg.Some? && cfg.value.maxRetries.Some? ==> attempts <= Retries(cfg.value.maxRetries.value)
      decreases if cfg.None? then 0 else if cfg.value.maxRetries.Some? then Retries(cfg.value.maxRetries.value) + 1 - attempts else good + 1 - attempts
    {
      if cfg.Some? && cfg.value.preDelay.Some? && retriedCount > 0 {
        trace := trace + [Pre(cfg.value.preDelay.value)];
      }
      var k := attempts;
      result := outcomes(k);
      trace, attempts := trace + [Try(k)], attempts + 1;
      assert trace == Trace(cfg, outcomes, k) + Before(cfg, k) + [Try(k)];
      if result.ok {
        assert trace + [] == trace;
        return;
      }
      if cfg.None? {
        assert trace + [] == trace;
        return;
      }
      if cfg.value.postDelay.Some? {
        trace := trace + [Post(cfg.value.postDelay.value)];
      }
      assert trace == Trace(cfg, outcomes, attempts);
      if cfg.value.maxRetries.Some? {
        if retriedCount >= Retries(cfg.value.maxRetries.value) {
          return;
        }
        retriedCount := retriedCount + 1;
        continue;
      }
    }
  }

  predicate IsTry(e: Event) { e.Try? }

  predicate IsPre(e: Event) { e.Pre? }

  predicate IsPost(e: Event) { e.Post? }

  function Count(trace: seq<Event>, p: Event -> bool): nat {
    if trace == [] then 0 else (if p(trace[0]) then 1 else 0) + Count(trace[1..], p)
  }

  lemma {:induction false} CountAppend(a: seq<Event>, b: seq<Event>, p: Event -> bool)
    ensures Count(a + b, p) == Count(a, p) + Count(b, p)
  {
    if a == [] {
      assert a + b == b;
    } else {
      assert (a + b)[1..] == a[1..] + b;
      CountAppend(a[1..], b, p);
    }
  }

  lemma CountOne(e: Event, p: Event -> bool)
    ensures Count([e], p) == if p(e) then 1 else 0
  {
  }

  /** The pre-delay is slept once for every attempt after the first, if the retries are counted, and
      the post-delay once for every failed attempt. */
  lemma {:induction false} Sleeps(cfg: Config, outcomes: nat -> Outcome, n: nat)
    requires n > 0 && forall k: nat | k < n - 1 :: !outcomes(k).ok
    ensures var t := Trace(Some(cfg), outcomes, n);
            && Count(t, IsTry) == n
            && Count(t, IsPre) == (if cfg.preDelay.Some? && cfg.maxRetries.Some? then n - 1 else 0)
            && Count(t, IsPost) == (if cfg.postDelay.Some? then if outcomes(n - 1).ok then n - 1 else n else 0)
  {
    OneAttempt(cfg, outcomes, n, IsTry);
    OneAttempt(cfg, outcomes, n, IsPre);
    OneAttempt(cfg, outcomes, n, IsPost);
    if n > 1 {
      Sleeps(cfg, outcomes, n - 1);
    }
  }

  lemma OneAttempt(cfg: Config, outcomes: nat -> Outcome, n: nat, p: Event -> bool)
    requires n > 0
    ensures Count(Trace(Some(cfg), outcomes, n), p) ==
            Count(Trace(Some(cfg), outcomes, n - 1), p)
            + (if cfg.preDelay.Some? && cfg.maxRetries.Some? && n > 1 && p(Pre(cfg.preDelay.value)) then 1 else 0)
            + (if p(Try(n - 1)) then 1 else 0)
            + (if cfg.postDelay.Some? && !outcomes(n - 1).ok && p(Post(cfg.postDelay.value)) then 1 else 0)
    ensures n == 1 ==> Count(Trace(Some(cfg), outcomes, n - 1), p) == 0
  {
    var t, b, a := Trace(Some(cfg), outcomes, n - 1), Before(Some(cfg), n - 1), After(Some(cfg), outcomes(n - 1));
    CountAppend(t, b, p);
    CountAppend(t + b, [Try(n - 1)], p);
    CountAppend(t + b + [Try(n - 1)], a, p);
    CountOne(Try(n - 1), p);
    if b != [] { CountOne(b[0], p); }
    if a != [] { CountOne(a[0], p); }
  }

  // ----- The order of what happens

  function Tries(trace: seq<Event>): seq<nat> {
    if trace == [] then [] else (if trace[0].Try? then [trace[0].k] else []) + Tries(trace[1..])
  }

  function UpTo(n: nat): (r: seq<nat>)
    ensures |r| == n && forall k | 0 <= k < n :: r[k] == k
  {
    if n == 0 then [] else UpTo(n - 1) + [n - 1]
  }

  lemma {:induction false} TriesAppend(a: seq<Event>, b: seq<Event>)
    ensures Tries(a + b) == Tries(a) + Tries(b)
  {
    if a == [] {
      assert a + b == b;
    } else {
      assert (a + b)[0] == a[0] && (a + b)[1..] == a[1..] + b;
      TriesAppend(a[1..], b);
    }
  }

  /** Attempts happen in order, every pre-delay comes right before an attempt that is not the first, and
      every post-delay right after an attempt that failed. */
  ghost predicate InOrder(trace: seq<Event>, outcomes: nat -> Outcome, n: nat) {
    && Tries(trace) == UpTo(n)
    && (forall p | 0 <= p < |trace| && trace[p].Pre? :: p + 1 < |trace| && trace[p + 1].Try? && trace[p + 1].k > 0)
    && (forall p | 0 <= p < |trace| && trace[p].Post? :: p > 0 && trace[p - 1].Try? && !outcomes(trace[p - 1].k).ok)
  }

  lemma {:induction false} TraceInOrder(cfg: Option<Config>, outcomes: nat -> Outcome, n: nat)
    ensures InOrder(Trace(cfg, outcomes, n), outcomes, n)
  {
    if n > 0 {
      TraceInOrder(cfg, outcomes, n - 1);
      var t, b, a := Trace(cfg, outcomes, n - 1), Before(cfg, n - 1), After(cfg, outcomes(n - 1));
      hide Trace, InOrder;
      assert Trace(cfg, outcomes, n) == t + b + [Try(n - 1)] + a by { TraceStep(cfg, outcomes, n); }
      AttemptInOrder(t, b, a, outcomes, n - 1);
    }
  }

  lemma TraceStep(cfg: Option<Config>, outcomes: nat -> Outcome, n: nat)
    requires n > 0
    ensures Trace(cfg, outcomes, n) ==
            Trace(cfg, outcomes, n - 1) + Before(cfg, n - 1) + [Try(n - 1)] + After(cfg, outcomes(n - 1))
  {
  }

  lemma AttemptInOrder(t: seq<Event>, b: seq<Event>, a: seq<Event>, outcomes: nat -> Outcome, k: nat)
    requires InOrder(t, outcomes, k)
    requires |b| <= 1 && (forall e | e in b :: e.Pre? && k > 0)
    requires |a| <= 1 && (forall e | e in a :: e.Post? && !outcomes(k).ok)
    ensures InOrder(t + b + [Try(k)] + a, outcomes, k + 1)
  {
    AttemptTries(t, b, a, k);
    Around(t, b, a, outcomes, k);
  }

  lemma {:induction false} NoTries(t: seq<Event>)
    requires forall e | e in t :: !e.Try?
    ensures Tries(t) == []
  {
    if t != [] {
      assert t[0] in t && forall e | e in t[1..] :: e in t;
      NoTries(t[1..]);
    }
  }

  lemma OneTry(k: nat)
    ensures Tries([Try(k)]) == [k]
  {
    NoTries([]);
    assert [Try(k)][1..] == [] && [k] + [] == [k];
  }

  lemma AttemptTries(t: seq<Event>, b: seq<Event>, a: seq<Event>, k: nat)
    requires (forall e | e in b :: e.Pre?) && forall e | e in a :: e.Post?
    ensures Tries(t + b + [Try(k)] + a) == Tries(t) + [k]
  {
    hide Tries;
    TriesAppend(t + b + [Try(k)], a);
    TriesAppend(t + b, [Try(k)]);
    TriesAppend(t, b);
    NoTries(a);
    NoTries(b);
    OneTry(k);
    assert Tries(t) + [] + [k] + [] == Tries(t) + [k];
  }

  lemma Around(t: seq<Event>, b: seq<Event>, a: seq<Event>, outcomes: nat -> Outcome, k: nat)
    requires InOrder(t, outcomes, k)
    requires |b| <= 1 && (forall e | e in b :: e.Pre? && k > 0)
    requires |a| <= 1 && (forall e | e in a :: e.Post? && !outcomes(k).ok)
    ensures var all := t + b + [Try(k)] + a;
            && (forall p | 0 <= p < |all| && all[p].Pre? :: p + 1 < |all| && all[p + 1].Try? && all[p + 1].k > 0)
            && (forall p | 0 <= p < |all| && all[p].Post? :: p > 0 && all[p - 1].Try? && !outcomes(all[p - 1].k).ok)
  {
    hide Tries, UpTo;
    var all, m := t + b + [Try(k)] + a, |t| + |b|;
    forall p | 0 <= p < |all|
      ensures all[p] == if p < |t| then t[p] else if p < m then b[p - |t|] else if p == m then Try(k) else a[p - m - 1]
    {
    }
    forall i | 0 <= i < |b| ensures b[i].Pre? { assert b[i] in b; }
    forall i | 0 <= i < |a| ensures a[i].Post? { assert a[i] in a; }
    forall p | 0 <= p < |all| && all[p].Pre? ensures p + 1 < |all| && all[p + 1].Try? && all[p + 1].k > 0 {
      if p < |t| {
        assert t[p].Pre?;
        assert all[p + 1] == t[p + 1];
      } else if p < m {
        assert p + 1 == m && all[p + 1] == all[m] && b[p - |t|] in b;
      }
    }
    forall p | 0 <= p < |all| && all[p].Post? ensures p > 0 && all[p - 1].Try? && !outcomes(all[p - 1].k).ok {
      if p < |t| {
        assert t[p].Post?;
        assert all[p - 1] == t[p - 1];
      } else if p > m {
        assert p - 1 == m && all[p - 1] == all[m] && a[p - m - 1] in a;
      }
    }
  }
}
