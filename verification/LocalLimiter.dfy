/** The local limiter as the program runs it: buckets are objects updated in place, a shard is a
    pair of maps, and the limiter is 64 shards indexed by a hash of the key.  Every method is tied
    to the value-level steps of `LimiterRuns`, so the results about runs are about these methods. */
module LocalLimiter {
  import opened TokenBucket
  import opened LimiterRuns

  const NUM_SHARDS := 64

  class AtomicBucket {
    var tokens: int
    var capacity: int
    var rate: int
    var lastUpdate: int
    var oldLimit: int
    var expireAt: int

    ghost function View(): Bucket
      reads this
    {
      Bucket(tokens, capacity, rate, lastUpdate, oldLimit, expireAt)
    }

    constructor (limit: int, newCapacity: int, newRate: int, now: int, expireAt: int)
      ensures View() == Bucket(newCapacity, newCapacity, newRate, now, limit, expireAt)
    {
      this.tokens := newCapacity;
      this.capacity := newCapacity;
      this.rate := newRate;
      this.lastUpdate := now;
      this.oldLimit := limit;
      this.expireAt := expireAt;
    }

    method TryConsume(now: int) returns (ok: bool)
      modifies this
      ensures (View(), ok) == Consume(old(View()), now)
    {
      var elapsed := TruncDiv(now - lastUpdate, SECOND);
      var tokensToAdd := elapsed * rate;
      if tokensToAdd > 0 {
        tokens := Min(tokens + tokensToAdd, capacity);
        lastUpdate := now;
      }
      if tokens >= PRECISION {
        tokens := tokens - PRECISION;
        return true;
      }
      return false;
    }
  }

  class Shard {
    var buckets: map<string, AtomicBucket>
    var lastAccessTime: map<string, int>

    /** No two keys share a bucket object. */
    ghost predicate Valid()
      reads this
    {
      forall j, k | j in buckets && k in buckets && buckets[j] == buckets[k] :: j == k
    }

    /** Every bucket but that of `key` was already there. */
    ghost predicate Kept(before: map<string, AtomicBucket>, key: string)
      reads this
    {
      forall k | k in buckets && k != key :: k in before && buckets[k] == before[k]
    }

    ghost function View(): ShardState
      reads this, buckets.Values
    {
      ShardState(map k | k in buckets :: buckets[k].View(), lastAccessTime)
    }

    /** The view after `key` was pointed at `b` and no other bucket changed. */
    twostate lemma Stored(key: string, new b: AtomicBucket)
      requires buckets == old(buckets)[key := b] && lastAccessTime == old(lastAccessTime)
      requires forall k | k in old(buckets) && k != key :: old(buckets)[k].View() == old(buckets[k].View())
      ensures View() == Put(old(View()), key, b.View())
    {
    }

    constructor ()
      ensures Valid() && View() == EMPTY && buckets == map[]
    {
      buckets := map[];
      lastAccessTime := map[];
    }

    /** Scans the access times in an arbitrary order and drops the key it ends on. */
    method EvictOldestBucket(now: int) returns (ghost victim: string)
      requires Valid()
      modifies this
      ensures Valid() && buckets == old(buckets) - {victim}
      ensures IsVictim(old(View()), now, victim)
      ensures View() == Drop(old(View()), victim)
    {
      var oldestKey := "";
      var oldestTime := now;
      var rest := lastAccessTime.Keys;
      while rest != {}
        invariant rest <= lastAccessTime.Keys
        invariant oldestTime <= now
        invariant forall k | k in lastAccessTime && k !in rest :: oldestTime <= lastAccessTime[k]
        invariant if oldestTime == now then oldestKey == "" else oldestKey in lastAccessTime && lastAccessTime[oldestKey] == oldestTime
      {
        var k :| k in rest;
        if lastAccessTime[k] < oldestTime {
          oldestTime := lastAccessTime[k];
          oldestKey := k;
        }
        rest := rest - {k};
      }
      victim := oldestKey;
      assert IsVictim(View(), now, victim) by {
        if oldestTime < now { assert SeenBefore(View(), now, victim); }
      }
      buckets := buckets - {oldestKey};
      lastAccessTime := lastAccessTime - {oldestKey};
    }

    method InitBucket(key: string, limit: int, newCapacity: int, newRate: int, now: int, expireAt: int)
      returns (bucket: AtomicBucket, ghost victim: string)
      requires Valid() && key !in buckets
      modifies this
      ensures Valid() && fresh(bucket) && key in buckets && buckets[key] == bucket
      ensures Kept(old(buckets), key)
      ensures Full(old(View())) ==> IsVictim(old(View()), now, victim)
      ensures View() == Put(MakeRoom(old(View()), victim), key, Bucket(newCapacity, newCapacity, newRate, now, limit, expireAt))
    {
      hide IsVictim, Drop, Put;
      assert View().buckets.Keys == buckets.Keys;
      if |buckets| >= MAX_BUCKETS_PER_SHARD {
        victim := EvictOldestBucket(now);
      } else {
        victim := "";
      }
      assert View() == MakeRoom(old(View()), victim);
      label roomy:
      bucket := new AtomicBucket(limit, newCapacity, newRate, now, expireAt);
      buckets := buckets[key := bucket];
      Stored@roomy(key, bucket);
    }

    method UpdateBucket(bucket: AtomicBucket, key: string, limit: int, newCapacity: int, newRate: int, now: int, expireAt: int)
      returns (r: AtomicBucket, ghost victim: string)
      requires Valid() && key in buckets && buckets[key] == bucket
      modifies this, bucket
      ensures Valid() && key in buckets && buckets[key] == r && (r == bucket || fresh(r))
      ensures Kept(old(buckets), key)
      ensures Expired(old(View()).buckets[key], now) ==>
                var v := Drop(old(View()), key);
                && (Full(v) ==> IsVictim(v, now, victim))
                && View() == Put(MakeRoom(v, victim), key, Bucket(newCapacity, newCapacity, newRate, now, limit, expireAt))
      ensures !Expired(old(View()).buckets[key], now) ==>
                var b := old(View()).buckets[key];
                var b1 := if b.oldLimit != limit then b.(oldLimit := limit, capacity := newCapacity, rate := newRate) else b;
                View() == Put(old(View()), key, b1.(expireAt := expireAt))
    {
      hide IsVictim, MakeRoom, Put, Full;
      if now > bucket.expireAt {
        buckets := buckets - {key};
        lastAccessTime := lastAccessTime - {key};
        assert View() == Drop(old(View()), key);
        r, victim := InitBucket(key, limit, newCapacity, newRate, now, expireAt);
        return;
      }
      if bucket.oldLimit != limit {
        bucket.oldLimit := limit;
        bucket.capacity := newCapacity;
        bucket.rate := newRate;
      }
      bucket.expireAt := expireAt;
      r, victim := bucket, "";
      Stored(key, bucket);
    }

    /** Finds or creates the bucket of `key` and brings its limit and time to live up to date. */
    method Acquire(key: string, window: int, limit: int, now: int) returns (bucket: AtomicBucket, ghost victim: string)
      requires Valid() && window != 0
      modifies this, buckets.Values
      ensures Valid() && Kept(old(buckets), key) && key in buckets && buckets[key] == bucket
      ensures fresh(bucket) || (key in old(buckets) && bucket == old(buckets[key]))
      ensures Legal(old(View()), CheckOp(key, now, victim))
      ensures View() == Prepare(old(View()), key, Quota(limit, window), now, victim)
    {
      lastAccessTime := lastAccessTime[key := now];
      assert View() == old(View()).(lastAccess := old(View()).lastAccess[key := now]);
      var ttl := Max(MAX_TTL, window * SECOND * TTL_RATE);
      var expireAt := now + ttl;
      var newCapacity := limit * PRECISION;
      var newRate := TruncDiv(newCapacity, window);
      hide IsVictim, Drop, Put, MakeRoom, Prepare, Legal, Full, Consume, Check;
      if key !in buckets {
        bucket, victim := InitBucket(key, limit, newCapacity, newRate, now, expireAt);
      } else {
        bucket, victim := UpdateBucket(buckets[key], key, limit, newCapacity, newRate, now, expireAt);
      }
      PrepareCases(old(View()), key, Quota(limit, window), now, victim);
    }

    /** A check under the shard lock, at clock reading `now`. */
    method CheckBucketLocal(key: string, window: int, limit: int, now: int) returns (ok: bool, ghost victim: string)
      requires Valid() && window != 0
      modifies this, buckets.Values
      ensures Valid() && Kept(old(buckets), key)
      ensures key in buckets && (fresh(buckets[key]) || (key in old(buckets) && buckets[key] == old(buckets[key])))
      ensures Legal(old(View()), CheckOp(key, now, victim))
      ensures (View(), ok) == Check(old(View()), key, Quota(limit, window), now, victim)
    {
      hide Put, Prepare, Legal, Consume, Check, Live, Expired;
      var bucket: AtomicBucket;
      bucket, victim := Acquire(key, window, limit, now);
      PrepareCases(old(View()), key, Quota(limit, window), now, victim);
      label acquired:
      ok := bucket.TryConsume(now);
      assert forall k | k in buckets && k != key :: buckets[k] != bucket;
      Stored@acquired(key, bucket);
    }

    /** The part of a cleanup that works on this shard, under its lock. */
    method Cleanup(now: int)
      requires Valid()
      modifies this
      ensures Valid() && forall k | k in buckets :: k in old(buckets) && buckets[k] == old(buckets[k])
      ensures View() == Clean(old(View()), now)
    {
      var rest := buckets.Keys;
      ghost var all, access := buckets, lastAccessTime;
      ghost var dropped: set<string> := {};
      while rest != {}
        invariant rest <= all.Keys
        invariant dropped == set k | k in all && k !in rest && now > all[k].expireAt
        invariant buckets == all - dropped && lastAccessTime == access - dropped
      {
        var key :| key in rest;
        if now > buckets[key].expireAt {
          buckets := buckets - {key};
          lastAccessTime := lastAccessTime - {key};
          dropped := dropped + {key};
        }
        rest := rest - {key};
      }
      assert dropped == ExpiredKeys(old(View()), now);
    }
  }

  const DEFAULT_WINDOW := 60

  /** What `checkBucket` hands on to the buckets: a zero limit means no limit, a zero window the
      default one. */
  function EffectiveWindow(window: int): (w: int)
    ensures w != 0
  {
    if window == 0 then DEFAULT_WINDOW else window
  }

  ghost predicate Apart(s: Shard, t: Shard)
    reads s, t
  {
    forall j, k | j in s.buckets && k in t.buckets :: s.buckets[j] != t.buckets[k]
  }

  class RateLimiter {
    const hash: string -> nat
    const shards: seq<Shard>

    function Home(key: string): nat { hash(key) % NUM_SHARDS }

    /** The limiter between calls: distinct, well-formed shards that share no bucket, and every key
        only in the shard its hash names. */
    ghost predicate Valid()
      reads this, shards
    {
      && |shards| == NUM_SHARDS
      && (forall i, j | 0 <= i < j < NUM_SHARDS :: shards[i] != shards[j])
      && (forall i | 0 <= i < NUM_SHARDS :: shards[i].Valid())
      && (forall i, k | 0 <= i < NUM_SHARDS && k in shards[i].buckets :: Home(k) == i)
      && (forall i, j | 0 <= i < NUM_SHARDS && 0 <= j < NUM_SHARDS && i != j :: Apart(shards[i], shards[j]))
    }

    constructor (hash: string -> nat)
      ensures Valid() && this.hash == hash
      ensures forall i | 0 <= i < NUM_SHARDS :: fresh(shards[i]) && shards[i].buckets == map[] && shards[i].View() == EMPTY
    {
      this.hash := hash;
      var made: seq<Shard> := [];
      while |made| < NUM_SHARDS
        invariant |made| <= NUM_SHARDS
        invariant forall i | 0 <= i < |made| ::
                    fresh(made[i]) && made[i].buckets == map[] && made[i].Valid() && made[i].View() == EMPTY
        invariant forall i, j | 0 <= i < j < |made| :: made[i] != made[j]
      {
        var s := new Shard();
        made := made + [s];
      }
      shards := made;
    }

    /** One rate-limit check in local mode: it steps the key's own shard and touches no other. */
    method CheckBucket(key: string, window: int, limit: int, now: int) returns (ok: bool, ghost victim: string)
      requires Valid()
      modifies shards[Home(key)], shards[Home(key)].buckets.Values
      ensures Valid()
      ensures limit == 0 ==> ok && unchanged(shards[Home(key)]) && shards[Home(key)].View() == old(shards[Home(key)].View())
      ensures limit != 0 ==>
                var s := old(shards[Home(key)].View());
                && Legal(s, CheckOp(key, now, victim))
                && (shards[Home(key)].View(), ok) == Check(s, key, Quota(limit, if window != 0 then window else 60), now, victim)
      ensures forall i | 0 <= i < NUM_SHARDS && i != Home(key) :: shards[i].View() == old(shards[i].View())
    {
      if limit == 0 {
        ok, victim := true, "";
        return;
      }
      hide Legal, Check;
      ok, victim := shards[Home(key)].CheckBucketLocal(key, EffectiveWindow(window), limit, now);
      OnlyHome(key);
    }

    /** A step of the shard of `key` that keeps or creates its bucket keeps the limiter valid and
        leaves what the other shards hold. */
    twostate lemma OnlyHome(key: string)
      requires old(Valid()) && shards[Home(key)].Valid()
      requires forall i | 0 <= i < NUM_SHARDS && i != Home(key) :: unchanged(shards[i])
      requires forall b: AtomicBucket | old(allocated(b)) && b !in old(shards[Home(key)].buckets.Values) :: unchanged(b)
      requires shards[Home(key)].Kept(old(shards[Home(key)].buckets), key)
      requires var h := shards[Home(key)];
               key in h.buckets && (fresh(h.buckets[key]) || (key in old(h.buckets) && h.buckets[key] == old(h.buckets[key])))
      ensures Valid()
      ensures forall i | 0 <= i < NUM_SHARDS && i != Home(key) :: shards[i].View() == old(shards[i].View())
    {
      var h := shards[Home(key)];
      assert forall i, k | 0 <= i < NUM_SHARDS && i != Home(key) && k in shards[i].buckets ::
          shards[i].buckets[k] !in old(h.buckets.Values);
      assert forall i | 0 <= i < NUM_SHARDS && i != Home(key) :: Apart(shards[i], h) && Apart(h, shards[i]);
    }

    /** A cleanup with one clock reading visits the shards in order, each under its own lock. */
    method Cleanup(now: int)
      requires Valid()
      modifies shards
      ensures Valid()
      ensures forall i | 0 <= i < NUM_SHARDS :: shards[i].View() == Clean(old(shards[i].View()), now)
    {
      hide Clean;
      for n := 0 to NUM_SHARDS
        invariant Valid()
        invariant forall i | 0 <= i < n :: shards[i].View() == Clean(old(shards[i].View()), now)
        invariant forall i | n <= i < NUM_SHARDS :: shards[i].buckets == old(shards[i].buckets) && shards[i].View() == old(shards[i].View())
      {
        shards[n].Cleanup(now);
      }
    }
  }
}
