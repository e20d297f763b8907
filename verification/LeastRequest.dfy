/** The least-request balancer: every selection goes to a server whose count per weight is least.
    Ratios are exact rationals; counts stay below 2^31. */
module LeastRequest {

  // ----- The counter

  /** Bitwise AND of two numbers of `bits` bits, as `atomic.Int32.And` computes it. */
  function BitAnd(x: nat, y: nat, bits: nat): nat {
    if bits == 0 then 0 else x % 2 * (y % 2) + 2 * BitAnd(x / 2, y / 2, bits - 1)
  }

  function Pow2(n: nat): nat { if n == 0 then 1 else 2 * Pow2(n - 1) }

  /** -1 in two's complement with `bits` bits has every bit set, so ANDing with it changes nothing. */
  lemma {:induction false} AndMinusOne(x: nat, bits: nat)
    requires x < Pow2(bits)
    ensures BitAnd(x, Pow2(bits) - 1, bits) == x
  {
    if bits > 0 {
      assert (Pow2(bits) - 1) % 2 == 1 && (Pow2(bits) - 1) / 2 == Pow2(bits - 1) - 1;
      AndMinusOne(x / 2, bits - 1);
    }
  }

  class RequestCounter {
    var count: nat

    constructor ()
      ensures count == 0
    {
      count := 0;
    }

    method Inc()
      modifies this
      ensures count == old(count) + 1
    {
      count := count + 1;
    }

    /** Meant to undo `Inc`; as written it leaves every counter as it is. */
    method Desc()
      requires count < Pow2(31)
      modifies this
      ensures count == old(count)
    {
      if count > 0 {
        Widen(count);
        AndMinusOne(count, 32);
        count := BitAnd(count, Pow2(32) - 1, 32);
      }
    }
  }

  lemma Widen(x: nat)
    requires x < Pow2(31)
    ensures x < Pow2(32)
  {
  }

  // ----- One selection

  datatype Server = Server(name: string, weight: int)

  /** Counts per weight compared by cross-multiplication; equal ratios are decided by the count. */
  predicate Better(c1: int, w1: int, c2: int, w2: int) {
    c1 * w2 < c2 * w1 || (c1 * w2 == c2 * w1 && c1 < c2)
  }

  ghost predicate Positive(ws: seq<int>) { forall i | 0 <= i < |ws| :: ws[i] > 0 }

  /** The server a scan of the first `n` servers keeps. */
  function Best(cs: seq<int>, ws: seq<int>, n: nat): (b: nat)
    requires |cs| == |ws| && 0 < n <= |ws|
    ensures b < n
  {
    if n == 1 then 0 else
      var b := Best(cs, ws, n - 1);
      if Better(cs[n - 1], ws[n - 1], cs[b], ws[b]) then n - 1 else b
  }

  function Ratio(c: int, w: int): real
    requires w > 0
  {
    (c as real) / (w as real)
  }

  /** The source's comparison of ratios, ties included, is `Better`; no ratio is the start value. */
  lemma CompareRatios(c1: nat, w1: int, c2: nat, w2: int)
    requires w1 > 0 && w2 > 0
    ensures Ratio(c1, w1) < Ratio(c2, w2) || (Ratio(c1, w1) == Ratio(c2, w2) && c1 < c2) <==> Better(c1, w1, c2, w2)
    ensures Ratio(c2, w2) != -1.0
  {
  }

  lemma Order(a: int, u: int, b: int, v: int, c: int, w: int)
    requires u > 0 && v > 0 && w > 0
    requires a * v <= b * u && b * w <= c * v
    ensures a * w <= c * u
  {
  }

  /** The kept server has the least ratio of all that were scanned. */
  lemma {:induction false} BestIsLeast(cs: seq<int>, ws: seq<int>, n: nat)
    requires |cs| == |ws| && 0 < n <= |ws| && Positive(ws)
    ensures forall i | 0 <= i < n :: cs[Best(cs, ws, n)] * ws[i] <= cs[i] * ws[Best(cs, ws, n)]
  {
    if n > 1 {
      var b := Best(cs, ws, n - 1);
      BestIsLeast(cs, ws, n - 1);
      if Better(cs[n - 1], ws[n - 1], cs[b], ws[b]) {
        forall i | 0 <= i < n - 1 ensures cs[n - 1] * ws[i] <= cs[i] * ws[n - 1] {
          Order(cs[n - 1], ws[n - 1], cs[b], ws[b], cs[i], ws[i]);
        }
      }
    }
  }

  lemma BetterTransitive(a: int, u: int, b: int, v: int, c: int, w: int)
    requires u > 0 && v > 0 && w > 0
    requires Better(a, u, b, v) && !Better(c, w, b, v)
    ensures Better(a, u, c, w)
  {
  }

  /** The kept server beats every earlier one and no later one beats it: ties in the ratio go to the
      smaller count, and then to the earlier server. */
  lemma {:induction false} BestIsFirst(cs: seq<int>, ws: seq<int>, n: nat)
    requires |cs| == |ws| && 0 < n <= |ws| && Positive(ws)
    ensures var b := Best(cs, ws, n);
            && (forall i | 0 <= i < b :: Better(cs[b], ws[b], cs[i], ws[i]))
            && (forall i | 0 <= i < n :: !Better(cs[i], ws[i], cs[b], ws[b]))
  {
    if n > 1 {
      var b := Best(cs, ws, n - 1);
      BestIsFirst(cs, ws, n - 1);
      if Better(cs[n - 1], ws[n - 1], cs[b], ws[b]) {
        forall i | 0 <= i < n - 1 ensures Better(cs[n - 1], ws[n - 1], cs[i], ws[i]) {
          BetterTransitive(cs[n - 1], ws[n - 1], cs[b], ws[b], cs[i], ws[i]);
        }
      }
    }
  }

  class WeightedLeastRequest {
    const servers: seq<Server>
    const counters: seq<RequestCounter>
    var current: nat

    ghost predicate Valid()
      reads this
    {
      && |counters| == |servers|
      && (servers != [] ==> current < |servers|)
      && (forall i, j | 0 <= i < j < |counters| :: counters[i] != counters[j])
      && (forall i | 0 <= i < |servers| :: servers[i].weight > 0)
    }

    ghost function Counts(): (cs: seq<int>)
      reads counters
      ensures |cs| == |counters| && forall i | 0 <= i < |cs| :: cs[i] == counters[i].count
    {
      seq(|counters|, i requires 0 <= i < |counters| reads counters => counters[i].count)
    }

    ghost function Weights(): (ws: seq<int>)
      ensures |ws| == |servers| && forall i | 0 <= i < |ws| :: ws[i] == servers[i].weight
    {
      seq(|servers|, i requires 0 <= i < |servers| => servers[i].weight)
    }

    constructor (servers: seq<Server>)
      requires forall i | 0 <= i < |servers| :: servers[i].weight > 0
      ensures Valid() && this.servers == servers && Counts() == Zeros(|servers|)
      ensures forall i | 0 <= i < |servers| :: fresh(counters[i])
    {
      var made: seq<RequestCounter> := [];
      while |made| < |servers|
        invariant |made| <= |servers|
        invariant forall i | 0 <= i < |made| :: fresh(made[i]) && made[i].count == 0
        invariant forall i, j | 0 <= i < j < |made| :: made[i] != made[j]
      {
        var c := new RequestCounter();
        made := made + [c];
      }
      this.servers := servers;
      this.counters := made;
      this.current := 0;
    }

    /** The scan of `Next`: it keeps the server whose count per weight is least. */
    method Scan() returns (selected: nat)
      requires Valid() && |servers| >= 2
      ensures selected < |servers| && selected == Best(Counts(), Weights(), |servers|)
    {
      hide Ratio, Better;
      ghost var cs, ws := Counts(), Weights();
      var leastLoadRatio := -1.0;
      selected := current;
      for i := 0 to |servers|
        invariant selected < |servers|
        invariant i == 0 ==> leastLoadRatio == -1.0
        invariant i > 0 ==> selected == Best(cs, ws, i) && leastLoadRatio == Ratio(cs[selected], ws[selected])
      {
        var loadRatio := Ratio(counters[i].count, servers[i].weight);
        var requestLess := loadRatio == leastLoadRatio && counters[i].count < counters[selected].count;
        if i > 0 {
          CompareRatios(counters[i].count, servers[i].weight, counters[selected].count, servers[selected].weight);
        }
        if leastLoadRatio == -1.0 || loadRatio < leastLoadRatio || requestLess {
          leastLoadRatio := loadRatio;
          selected := i;
        }
      }
    }

    twostate lemma Raised(selected: nat)
      requires selected < |counters| && counters[selected].count == old(counters[selected].count) + 1
      requires forall i | 0 <= i < |counters| && i != selected :: counters[i].count == old(counters[i].count)
      ensures Counts() == old(Counts())[selected := old(Counts())[selected] + 1]
    {
    }

    method Next() returns (name: string)
      requires Valid()
      modifies this`current, counters
      ensures Valid()
      ensures |servers| == 0 ==> name == ""
      ensures |servers| == 1 ==> name == servers[0].name
      ensures Counts() == Counted(old(Counts()), Weights(), NextOp)
      ensures |servers| >= 2 ==> current == Best(old(Counts()), Weights(), |servers|) && name == servers[current].name
    {
      if |servers| == 0 {
        return "";
      }
      if |servers| == 1 {
        return servers[0].name;
      }
      name := Serve();
    }

    method Serve() returns (name: string)
      requires Valid() && |servers| >= 2
      modifies this`current, counters
      ensures Valid()
      ensures Counts() == Select(old(Counts()), Weights())
      ensures current == Best(old(Counts()), Weights(), |servers|) && name == servers[current].name
    {
      hide Best, Positive;
      var selected := Scan();
      current := selected;
      counters[selected].Inc();
      Raised(selected);
      name := servers[selected].name;
    }

    /** The end of a request: no count changes, whichever server was selected last. */
    method Done()
      requires Valid() && servers != [] && counters[current].count < Pow2(31)
      modifies counters
      ensures Valid() && Counts() == old(Counts()) == Counted(old(Counts()), Weights(), DoneOp)
    {
      counters[current].Desc();
    }
  }

  /** The counts after one selection among two or more servers. */
  function Select(cs: seq<int>, ws: seq<int>): (r: seq<int>)
    requires |cs| == |ws| && |ws| > 0
    ensures |r| == |cs|
  {
    var b := Best(cs, ws, |ws|);
    cs[b := cs[b] + 1]
  }

  // ----- Quotas over runs

  function Zeros(n: nat): seq<int> { seq(n, _ => 0) }

  /** A call of the balancer: a selection or the end of a request. */
  datatype Op = NextOp | DoneOp

  /** What a call does to the counts: with fewer than two servers nothing is counted, and the end of a
      request counts nothing either (`Next` and `Done` refine this). */
  function Counted(cs: seq<int>, ws: seq<int>, op: Op): (r: seq<int>)
    requires |cs| == |ws|
    ensures |r| == |cs|
  {
    if op.NextOp? && |ws| >= 2 then Select(cs, ws) else cs
  }

  /** The counts after a run from fresh counters. */
  function After(ws: seq<int>, ops: seq<Op>): (cs: seq<int>)
    ensures |cs| == |ws|
  {
    if ops == [] then Zeros(|ws|) else Counted(After(ws, ops[..|ops| - 1]), ws, ops[|ops| - 1])
  }

  function Selections(ops: seq<Op>): nat {
    if ops == [] then 0 else Selections(ops[..|ops| - 1]) + if ops[|ops| - 1].NextOp? then 1 else 0
  }

  /** No server is a whole selection ahead of another, in proportion to their weights. */
  ghost predicate Balanced(cs: seq<int>, ws: seq<int>)
    requires |cs| == |ws|
  {
    && (forall i | 0 <= i < |cs| :: cs[i] >= 0)
    && forall i, j | 0 <= i < |ws| && 0 <= j < |ws| :: (cs[i] - 1) * ws[j] <= cs[j] * ws[i]
  }

  lemma SelectKeepsBalance(cs: seq<int>, ws: seq<int>)
    requires |cs| == |ws| && |ws| > 0 && Positive(ws) && Balanced(cs, ws)
    ensures Balanced(Select(cs, ws), ws)
  {
    var b, cs' := Best(cs, ws, |ws|), Select(cs, ws);
    BestIsLeast(cs, ws, |ws|);
    forall i, j | 0 <= i < |ws| && 0 <= j < |ws| ensures (cs'[i] - 1) * ws[j] <= cs'[j] * ws[i] {
      if i == b {
        assert cs[b] * ws[j] <= cs[j] * ws[b];
        if j == b { assert cs[b] * ws[b] <= (cs[b] + 1) * ws[b]; }
      } else if j == b {
        assert (cs[i] - 1) * ws[b] <= cs[b] * ws[i];
        assert (cs[b] + 1) * ws[i] == cs[b] * ws[i] + ws[i];
      }
    }
  }

  lemma {:induction false} AfterBalanced(ws: seq<int>, ops: seq<Op>)
    requires Positive(ws)
    ensures Balanced(After(ws, ops), ws)
  {
    if ops == [] {
      forall i, j | 0 <= i < |ws| && 0 <= j < |ws| ensures (0 - 1) * ws[j] <= 0 * ws[i] {}
    } else {
      var pre := ops[..|ops| - 1];
      AfterBalanced(ws, pre);
      if |ws| >= 2 { SelectKeepsBalance(After(ws, pre), ws); }
    }
  }

  function SumTo(xs: seq<int>, n: nat): int
    requires n <= |xs|
  {
    if n == 0 then 0 else SumTo(xs, n - 1) + xs[n - 1]
  }

  lemma {:induction false} SumUpdated(xs: seq<int>, b: nat, v: int, n: nat)
    requires n <= |xs| && b < |xs|
    ensures SumTo(xs[b := v], n) == SumTo(xs, n) + if b < n then v - xs[b] else 0
  {
    if n > 0 { SumUpdated(xs, b, v, n - 1); }
  }

  /** Among two servers or more every selection is counted once, whatever ends of requests come in
      between. */
  lemma {:induction false} AfterCounts(ws: seq<int>, ops: seq<Op>)
    requires |ws| >= 2
    ensures SumTo(After(ws, ops), |ws|) == Selections(ops)
  {
    if ops == [] {
      SumZeros(|ws|, |ws|);
    } else {
      var pre := ops[..|ops| - 1];
      AfterCounts(ws, pre);
      var cs := After(ws, pre);
      var b := Best(cs, ws, |ws|);
      SumUpdated(cs, b, cs[b] + 1, |ws|);
    }
  }

  lemma {:induction false} SumZeros(k: nat, n: nat)
    requires n <= k
    ensures SumTo(Zeros(k), n) == 0
  {
    if n > 0 { SumZeros(k, n - 1); }
  }

  lemma {:induction false} LowerSum(cs: seq<int>, ws: seq<int>, j: nat, n: nat)
    requires |cs| == |ws| && j < |ws| && n <= |ws| && Balanced(cs, ws)
    ensures (SumTo(cs, n) - n + if j < n then 1 else 0) * ws[j] <= cs[j] * SumTo(ws, n)
  {
    if n > 0 {
      LowerSum(cs, ws, j, n - 1);
      var i := n - 1;
      var share := if i == j then cs[i] else cs[i] - 1;
      assert share * ws[j] <= cs[j] * ws[i];
      LowerAdd(SumTo(cs, i) - i + (if j < i then 1 else 0), share, ws[j], cs[j], SumTo(ws, i), ws[i]);
    }
  }

  lemma {:induction false} UpperSum(cs: seq<int>, ws: seq<int>, j: nat, n: nat)
    requires |cs| == |ws| && j < |ws| && n <= |ws| && Balanced(cs, ws)
    ensures (cs[j] - 1) * (SumTo(ws, n) - if j < n then ws[j] else 0) <= (SumTo(cs, n) - if j < n then cs[j] else 0) * ws[j]
  {
    if n > 0 {
      UpperSum(cs, ws, j, n - 1);
      var i := n - 1;
      assert (cs[j] - 1) * ws[i] <= cs[i] * ws[j];
      if i != j {
        UpperAdd(cs[j] - 1, SumTo(ws, i) - (if j < i then ws[j] else 0), ws[i],
                 SumTo(cs, i) - (if j < i then cs[j] else 0), cs[i], ws[j]);
      }
    }
  }

  lemma UpperAdd(a: int, x: int, y: int, p: int, r: int, w: int)
    requires a * x <= p * w && a * y <= r * w
    ensures a * (x + y) <= (p + r) * w
  {
  }

  lemma LowerAdd(p: int, r: int, w: int, a: int, x: int, y: int)
    requires p * w <= a * x && r * w <= a * y
    ensures (p + r) * w <= a * (x + y)
  {
  }

  /** Quota: after any run with `n` selections among k >= 2 servers of total weight W, with ends of
      requests anywhere in between, server `j` has been selected at least (n - k + 1) * w_j / W times
      and less than n * w_j / W + 1 times. */
  lemma Quota(ws: seq<int>, ops: seq<Op>, j: nat)
    requires |ws| >= 2 && Positive(ws) && j < |ws|
    ensures var c, n, w, total := After(ws, ops)[j], Selections(ops), ws[j], SumTo(ws, |ws|);
            (n - |ws| + 1) * w <= c * total <= n * w + total - w
  {
    var cs, n, w, total := After(ws, ops), Selections(ops), ws[j], SumTo(ws, |ws|);
    var c := cs[j];
    AfterBalanced(ws, ops);
    AfterCounts(ws, ops);
    LowerSum(cs, ws, j, |ws|);
    UpperSum(cs, ws, j, |ws|);
    QuotaArithmetic(c, n, w, total);
  }

  lemma QuotaArithmetic(c: int, n: int, w: int, total: int)
    requires (c - 1) * (total - w) <= (n - c) * w
    ensures c * total <= n * w + total - w
  {
  }
}
