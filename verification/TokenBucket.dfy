/** The fixed-point token bucket of the local rate limiter: what one bucket holds and what a
    refill and a consumption do to it.  Time is an integer number of nanoseconds; a window is a
    whole number of seconds, so that the source's floating-point quotient is integer division.
    Nothing keeps a configured window from being negative. */
module TokenBucket {

  const SECOND := 1_000_000_000
  const PRECISION := 1000
  const MAX_TTL := 300 * SECOND
  const TTL_RATE := 2
  const MAX_INT32 := 0x7fff_ffff
  const MAX_INT64 := 0x7fff_ffff_ffff_ffff

  /** The limit and the window (in seconds) that a policy grants to one key. */
  datatype Quota = Quota(limit: int, window: int)

  datatype Bucket = Bucket(
    tokens: int,
    capacity: int,
    rate: int,
    lastUpdate: int,
    oldLimit: int,
    expireAt: int)

  function Min(a: int, b: int): int { if a <= b then a else b }

  function Max(a: int, b: int): int { if a >= b then a else b }

  /** Go's integer division and float-to-integer conversion both truncate toward zero. */
  function TruncDiv(a: int, b: int): int
    requires b != 0
  {
    if a >= 0 then a / b else -((-a) / b)
  }

  function Capacity(q: Quota): int { q.limit * PRECISION }

  function Rate(q: Quota): int
    requires q.window != 0
  {
    TruncDiv(Capacity(q), q.window)
  }

  function Ttl(q: Quota): int { Max(MAX_TTL, q.window * SECOND * TTL_RATE) }

  function Fresh(q: Quota, now: int): Bucket
    requires q.window != 0
  {
    Bucket(Capacity(q), Capacity(q), Rate(q), now, q.limit, now + Ttl(q))
  }

  /** A check of a live bucket: a changed limit is adopted, and the time to live is renewed. */
  function Touch(b: Bucket, q: Quota, now: int): Bucket
    requires q.window != 0
  {
    var b1 := if b.oldLimit != q.limit
              then b.(oldLimit := q.limit, capacity := Capacity(q), rate := Rate(q))
              else b;
    b1.(expireAt := now + Ttl(q))
  }

  function TokensToAdd(b: Bucket, now: int): int {
    TruncDiv(now - b.lastUpdate, SECOND) * b.rate
  }

  function Refill(b: Bucket, now: int): Bucket {
    if TokensToAdd(b, now) > 0
    then b.(tokens := Min(b.tokens + TokensToAdd(b, now), b.capacity), lastUpdate := now)
    else b
  }

  function Consume(b: Bucket, now: int): (Bucket, bool) {
    var r := Refill(b, now);
    if r.tokens >= PRECISION then (r.(tokens := r.tokens - PRECISION), true) else (r, false)
  }

  // ----- Arithmetic of refills

  lemma MulMono(a: int, b: int, c: int)
    requires a <= b && 0 <= c
    ensures a * c <= b * c
  {
  }

  /** Whole seconds are superadditive: dropping the fraction twice loses at least as much. */
  lemma WholeSeconds(a: int, b: int)
    requires 0 <= a && 0 <= b
    ensures a / SECOND + b / SECOND <= (a + b) / SECOND
    ensures (a + b) / SECOND <= a / SECOND + b / SECOND + 1
  {
  }

  /** Twice the window at the truncated rate fills the bucket, as soon as the rate is not zero. */
  lemma TwoWindowsFill(q: Quota)
    requires q.window > 0 && q.limit > 0
    requires Capacity(q) >= q.window
    ensures Rate(q) >= 1
    ensures 2 * q.window * Rate(q) > Capacity(q)
  {
    var c, w, r := Capacity(q), q.window, Rate(q);
    assert c == w * r + c % w;
    if r <= 0 {
      MulMono(r, 0, w);
    }
    MulMono(1, r, w);
    assert w <= w * r;
  }

  /** A bucket of quota `q` as every check leaves it. */
  predicate Sound(b: Bucket, q: Quota)
    requires q.window != 0
  {
    && b.capacity == Capacity(q)
    && b.rate == Rate(q)
    && b.oldLimit == q.limit
    && b.tokens <= b.capacity
    && (0 <= q.limit ==> 0 <= b.tokens)
    && b.lastUpdate <= b.expireAt - Ttl(q)
    && (b.rate >= 1 ==> b.expireAt - Ttl(q) - b.lastUpdate < SECOND)
  }

  lemma ConsumeKeepsSound(b: Bucket, q: Quota, now: int)
    requires q.window != 0
    requires b == Fresh(q, now) || (exists b0 :: Sound(b0, q) && b0.expireAt - Ttl(q) <= now && b == Touch(b0, q, now))
    ensures Sound(Consume(b, now).0, q)
    ensures Consume(b, now).0.expireAt == now + Ttl(q)
  {
    if b.rate >= 1 && TokensToAdd(b, now) <= 0 {
      var e := TruncDiv(now - b.lastUpdate, SECOND);
      if e >= 1 {
        MulMono(1, e, b.rate);
      }
    }
  }

  /** No overflow: at a refill of a bucket that has not expired, with any 32-bit limit, at most 300
      capacities are added, and the sum stays inside a signed 64-bit integer. */
  lemma RefillFits(b: Bucket, q: Quota, now: int)
    requires q.window > 0 && 1 <= q.limit <= MAX_INT32
    requires Sound(b, q) && b.expireAt - Ttl(q) <= now <= b.expireAt
    ensures 0 <= TokensToAdd(b, now) <= 300 * Capacity(q)
    ensures 0 <= b.tokens + TokensToAdd(b, now) <= 301 * Capacity(q) <= MAX_INT64
  {
    var c, w, r := Capacity(q), q.window, Rate(q);
    var e := (now - b.lastUpdate) / SECOND;
    assert c == w * r + c % w;
    if r >= 1 {
      var secs := Max(300, 2 * w);
      assert Ttl(q) == secs * SECOND;
      assert e <= secs;
      MulMono(e, secs, r);
      assert e * r <= secs * r;
      assert w * r <= c;
      if secs == 300 {
        MulMono(1, w, r);
        assert secs * r <= 300 * c;
      } else {
        assert secs * r == 2 * (w * r);
      }
      MulMono(0, e, r);
    } else {
      assert r >= 0 by { if r <= -1 { MulMono(r, -1, w); } }
      assert r == 0;
    }
  }
}
