/** The weighted scan: a rotating start index and a random draw below the total weight. */
module RoundRobin {
  import opened Options

  datatype Server = Server(name: string, weight: int)

  function Sum(ws: seq<int>): int {
    if ws == [] then 0 else ws[0] + Sum(ws[1..])
  }

  function Weights(servers: seq<Server>): (ws: seq<int>)
    ensures |ws| == |servers| && forall i | 0 <= i < |ws| :: ws[i] == servers[i].weight
  {
    seq(|servers|, i requires 0 <= i < |servers| => servers[i].weight)
  }

  /** The number of servers whose running total, from `total` on, does not exceed the draw. */
  function Scan(ws: seq<int>, total: int, draw: int): (r: nat)
    ensures r <= |ws|
  {
    if ws == [] || total + ws[0] > draw then 0 else 1 + Scan(ws[1..], total + ws[0], draw)
  }

  function Rotate(ws: seq<int>, start: nat): (r: seq<int>)
    requires start < |ws|
    ensures |r| == |ws|
  {
    ws[start..] + ws[..start]
  }

  /** Position `a` on a ring of `n` servers. */
  function Ring(a: nat, n: nat): (r: nat)
    requires n > 0
    ensures r < n
  {
    a % n
  }

  /** The server the scan selects: `start` itself when no running total exceeds the draw. */
  function Pick(ws: seq<int>, start: nat, draw: int): (i: nat)
    requires start < |ws|
    ensures i < |ws|
  {
    var k := Scan(Rotate(ws, start), 0, draw);
    if k < |ws| then Ring(start + k, |ws|) else start
  }

  lemma PickIs(ws: seq<int>, start: nat, draw: int)
    requires start < |ws|
    ensures var k := Scan(Rotate(ws, start), 0, draw);
            Pick(ws, start, draw) == if k < |ws| then Ring(start + k, |ws|) else start
  {
  }

  lemma Wrap(a: nat, n: nat)
    requires a < 2 * n
    ensures Ring(a, n) == if a < n then a else a - n
  {
  }

  lemma RotateAt(ws: seq<int>, start: nat, i: nat)
    requires start < |ws| && i < |ws|
    ensures Rotate(ws, start)[i] == ws[Ring(start + i, |ws|)]
  {
    Wrap(start + i, |ws|);
  }

  lemma ScanStep(ws: seq<int>, i: nat, total: int, draw: int)
    requires i <= |ws|
    ensures Scan(ws[i..], total, draw) ==
            if i == |ws| || total + ws[i] > draw then 0 else 1 + Scan(ws[i + 1..], total + ws[i], draw)
  {
    if i < |ws| { assert ws[i..][1..] == ws[i + 1..]; }
  }

  class WeightedRoundRobin {
    const servers: seq<Server>
    var current: nat

    ghost predicate Valid()
      reads this
    {
      servers != [] ==> current < |servers|
    }

    constructor (servers: seq<Server>)
      ensures Valid() && this.servers == servers && current == 0
    {
      this.servers := servers;
      this.current := 0;
    }

    /** `draw` is the random number below the total weight, or none when the generator failed. */
    method Next(draw: Option<int>) returns (name: string)
      requires Valid() && (|servers| >= 2 ==> Sum(Weights(servers)) > 0)
      modifies this`current
      ensures Valid()
      ensures |servers| == 0 ==> name == "" && current == old(current)
      ensures |servers| == 1 ==> name == servers[0].name && current == old(current)
      ensures |servers| >= 2 && draw.None? ==> name == "" && current == old(current)
      ensures |servers| >= 2 && draw.Some? ==>
                var i := Pick(Weights(servers), old(current), draw.value);
                name == servers[i].name && current == Ring(i + 1, |servers|)
    {
      if |servers| == 0 {
        return "";
      }
      if |servers| == 1 {
        return servers[0].name;
      }
      if draw.None? {
        return "";
      }
      hide Ring, Sum, Rotate, Scan, Pick;
      var currentIndex := current;
      ghost var ws := Weights(servers);
      ghost var rotated := Rotate(ws, currentIndex);
      var total, foundIdx, i := 0, -1, 0;
      ghost var found := Scan(rotated, 0, draw.value);
      assert rotated[0..] == rotated;
      while i < |servers|
        invariant 0 <= i <= |servers|
        invariant foundIdx == -1
        invariant found == i + Scan(rotated[i..], total, draw.value)
      {
        var idx := Ring(currentIndex + i, |servers|);
        RotateAt(ws, currentIndex, i);
        ScanStep(rotated, i, total, draw.value);
        total := total + servers[idx].weight;
        if total > draw.value {
          foundIdx := idx;
          break;
        }
        i := i + 1;
      }
      PickIs(ws, currentIndex, draw.value);
      if foundIdx == -1 {
        ScanStep(rotated, i, total, draw.value);
        foundIdx := currentIndex;
      }
      current := Ring(foundIdx + 1, |servers|);
      name := servers[foundIdx].name;
    }
  }

  // ----- Proportionality

  ghost predicate NonNegative(ws: seq<int>) { forall i | 0 <= i < |ws| :: ws[i] >= 0 }

  lemma {:induction false} SumAppend(a: seq<int>, b: seq<int>)
    ensures Sum(a + b) == Sum(a) + Sum(b)
  {
    if a == [] {
      assert a + b == b;
    } else {
      assert (a + b)[1..] == a[1..] + b;
      SumAppend(a[1..], b);
    }
  }

  lemma SumRotate(ws: seq<int>, start: nat)
    requires start < |ws|
    ensures Sum(Rotate(ws, start)) == Sum(ws)
    ensures NonNegative(ws) ==> NonNegative(Rotate(ws, start))
  {
    SumAppend(ws[start..], ws[..start]);
    SumAppend(ws[..start], ws[start..]);
    assert ws == ws[..start] + ws[start..];
  }

  lemma {:induction false} SumNonNegative(ws: seq<int>)
    requires NonNegative(ws)
    ensures Sum(ws) >= 0
  {
    if ws != [] { SumNonNegative(ws[1..]); }
  }

  /** The scan stops at position `k` exactly for the draws in that server's own interval. */
  lemma {:induction false} ScanInterval(ws: seq<int>, total: int, draw: int, k: nat)
    requires NonNegative(ws) && k < |ws| && total <= draw
    ensures Scan(ws, total, draw) == k <==> total + Sum(ws[..k]) <= draw < total + Sum(ws[..k]) + ws[k]
  {
    if k > 0 {
      assert ws[..k][0] == ws[0] && ws[..k][1..] == ws[1..][..k - 1];
      SumNonNegative(ws[1..][..k - 1]);
      if total + ws[0] <= draw { ScanInterval(ws[1..], total + ws[0], draw, k - 1); }
    }
  }

  /** The scan runs past the end exactly for the draws that are not below the total weight. */
  lemma {:induction false} ScanMisses(ws: seq<int>, total: int, draw: int)
    requires NonNegative(ws) && total <= draw
    ensures Scan(ws, total, draw) == |ws| <==> draw >= total + Sum(ws)
  {
    if ws != [] {
      SumNonNegative(ws[1..]);
      if total + ws[0] <= draw { ScanMisses(ws[1..], total + ws[0], draw); }
    }
  }

  /** How many of the draws 0 .. n - 1 select server `i`. */
  function Draws(ws: seq<int>, start: nat, i: nat, n: nat): nat
    requires start < |ws|
  {
    if n == 0 then 0 else Draws(ws, start, i, n - 1) + if Pick(ws, start, n - 1) == i then 1 else 0
  }

  /** The position of server `i` in the scan that begins at `start`. */
  function Offset(ws: seq<int>, start: nat, i: nat): (k: nat)
    requires start < |ws| && i < |ws|
    ensures k < |ws| && Ring(start + k, |ws|) == i
  {
    Wrap(if start <= i then i else i + |ws|, |ws|);
    if start <= i then i - start else i + |ws| - start
  }

  /** A draw below the total weight always finds a server by its running total. */
  lemma PickInterval(ws: seq<int>, start: nat, i: nat, draw: nat)
    requires NonNegative(ws) && start < |ws| && i < |ws| && draw < Sum(ws)
    ensures var r, k := Rotate(ws, start), Offset(ws, start, i);
            && Scan(r, 0, draw) < |r|
            && r[k] == ws[i]
            && (Pick(ws, start, draw) == i <==> Sum(r[..k]) <= draw < Sum(r[..k]) + ws[i])
  {
    var r, k := Rotate(ws, start), Offset(ws, start, i);
    SumRotate(ws, start);
    hide Scan, Rotate, Offset, Sum;
    ScanMisses(r, 0, draw);
    ScanInterval(r, 0, draw, k);
    RotateAt(ws, start, k);
    Wrap(start + k, |ws|);
    Wrap(start + Scan(r, 0, draw), |ws|);
  }

  lemma {:induction false} DrawsInterval(ws: seq<int>, start: nat, i: nat, n: nat)
    requires NonNegative(ws) && start < |ws| && i < |ws| && n <= Sum(ws)
    ensures var lo := Sum(Rotate(ws, start)[..Offset(ws, start, i)]);
            Draws(ws, start, i, n) == if n <= lo then 0 else if n >= lo + ws[i] then ws[i] else n - lo
  {
    SumNonNegative(Rotate(ws, start)[..Offset(ws, start, i)]);
    if n > 0 {
      DrawsInterval(ws, start, i, n - 1);
      PickInterval(ws, start, i, n - 1);
    }
  }

  /** Exact proportionality: from every start index, exactly `ws[i]` of the `Sum(ws)` possible draws
      select server `i`. */
  lemma ExactlyProportional(ws: seq<int>, start: nat, i: nat)
    requires NonNegative(ws) && start < |ws| && i < |ws|
    ensures Sum(ws) >= 0 && Draws(ws, start, i, Sum(ws)) == ws[i]
  {
    SumNonNegative(ws);
    DrawsInterval(ws, start, i, Sum(ws));
    var r, k := Rotate(ws, start), Offset(ws, start, i);
    SumAppend(r[..k], r[k..]);
    assert r == r[..k] + r[k..];
    SumNonNegative(r[k..][1..]);
    SumRotate(ws, start);
    RotateAt(ws, start, k);
  }

  function Pow(b: nat, e: nat): nat { if e == 0 then 1 else b * Pow(b, e - 1) }

  function Following(ws: seq<int>, start: nat, draw: int): (next: nat)
    requires start < |ws|
    ensures next < |ws|
  {
    Ring(Pick(ws, start, draw) + 1, |ws|)
  }

  /** How often server `i` is selected in all runs of `n` calls together, one run for each of the
      `Sum(ws)` to the power `n` sequences of draws. */
  function Selections(ws: seq<int>, start: nat, i: nat, n: nat): nat
    requires start < |ws| && Sum(ws) >= 0
    decreases n, 0
  {
    if n == 0 then 0 else SelectionsBelow(ws, start, i, n, Sum(ws))
  }

  /** The part of `Selections` whose first draw is below `d`. */
  function SelectionsBelow(ws: seq<int>, start: nat, i: nat, n: nat, d: nat): nat
    requires start < |ws| && Sum(ws) >= 0 && n > 0
    decreases n - 1, 1, d
  {
    if d == 0 then 0 else
      SelectionsBelow(ws, start, i, n, d - 1)
      + (if Pick(ws, start, d - 1) == i then Pow(Sum(ws), n - 1) else 0)
      + Selections(ws, Following(ws, start, d - 1), i, n - 1)
  }

  lemma {:induction false} SelectionsBelowIs(ws: seq<int>, start: nat, i: nat, n: nat, d: nat)
    requires NonNegative(ws) && start < |ws| && i < |ws| && n > 0 && Sum(ws) > 0
    ensures SelectionsBelow(ws, start, i, n, d) * Sum(ws)
            == Draws(ws, start, i, d) * Pow(Sum(ws), n) + d * ((n - 1) * Pow(Sum(ws), n - 1) * ws[i])
    decreases n - 1, 1, d
  {
    if d > 0 {
      var w, p := Sum(ws), Pow(Sum(ws), n - 1);
      var x := (n - 1) * p * ws[i];
      SelectionsBelowIs(ws, start, i, n, d - 1);
      RunsProportional(ws, Following(ws, start, d - 1), i, n - 1);
      var rest := Selections(ws, Following(ws, start, d - 1), i, n - 1);
      var hit := if Pick(ws, start, d - 1) == i then 1 else 0;
      AddOneDraw(SelectionsBelow(ws, start, i, n, d - 1), hit, p, rest, w, Draws(ws, start, i, d - 1), d, x);
    }
  }

  lemma AddOneDraw(before: int, hit: int, p: int, rest: int, w: int, draws: int, d: int, x: int)
    requires before * w == draws * (w * p) + (d - 1) * x && rest * w == x
    ensures (before + hit * p + rest) * w == (draws + hit) * (w * p) + d * x
  {
  }

  /** Proportionality over whole runs: of the `n` selections in each of the equally likely sequences
      of draws, the share of server `i` is its share of the weight, whatever the start index. */
  lemma {:induction false} RunsProportional(ws: seq<int>, start: nat, i: nat, n: nat)
    requires NonNegative(ws) && start < |ws| && i < |ws| && Sum(ws) > 0
    ensures Selections(ws, start, i, n) * Sum(ws) == n * Pow(Sum(ws), n) * ws[i]
    decreases n, 0
  {
    if n > 0 {
      var w, p := Sum(ws), Pow(Sum(ws), n - 1);
      SelectionsBelowIs(ws, start, i, n, w);
      ExactlyProportional(ws, start, i);
      AllDraws(n, w, p, ws[i]);
    }
  }

  lemma AllDraws(n: int, w: int, p: int, v: int)
    ensures v * (w * p) + w * ((n - 1) * p * v) == n * (w * p) * v
  {
  }
}
