/** The augmentation loops of the assignment solver, on the arrays they update in place. */
module LapSolver {
  import opened LapPhase

  /** The first column loop of a pass: relax every column outside the tree through column j0 and its row i0,
      and pick a nearest one (0 when there is none). */
  method Scan(cost: seq<seq<real>>, m: nat, i0: nat, j0: nat, u: array<real>, v: array<real>,
              way: array<int>, minv: array<Length>, used: array<bool>)
    returns (delta: Length, j1: int)
    requires i0 < |cost| && i0 < u.Length && |cost[i0]| == m + 1
    requires v.Length == way.Length == minv.Length == used.Length == m + 1
    modifies way, minv
    ensures forall j :: 1 <= j <= m ==>
      if !used[j] && Shorter(Finite(cost[i0][j] - u[i0] - v[j]), old(minv[j]))
      then way[j] == j0 && minv[j] == Finite(cost[i0][j] - u[i0] - v[j])
      else way[j] == old(way[j]) && minv[j] == old(minv[j])
    ensures forall j :: 1 <= j <= m && !used[j] ==> minv[j].Finite? && delta.Finite? && delta.value <= minv[j].value
    ensures delta.Finite? ==> 1 <= j1 <= m && !used[j1] && minv[j1] == delta
  {
    delta, j1 := Infinity, 0;
    var j := 1;
    while j <= m
      invariant 1 <= j <= m + 1
      invariant forall k :: 1 <= k < j ==>
        if !used[k] && Shorter(Finite(cost[i0][k] - u[i0] - v[k]), old(minv[k]))
        then way[k] == j0 && minv[k] == Finite(cost[i0][k] - u[i0] - v[k])
        else way[k] == old(way[k]) && minv[k] == old(minv[k])
      invariant forall k :: j <= k <= m ==> way[k] == old(way[k]) && minv[k] == old(minv[k])
      invariant forall k :: 1 <= k < j && !used[k] ==> minv[k].Finite? && delta.Finite? && delta.value <= minv[k].value
      invariant delta.Finite? ==> 1 <= j1 < j && !used[j1] && minv[j1] == delta
    {
      if !used[j] {
        var cur := cost[i0][j] - u[i0] - v[j];
        if Shorter(Finite(cur), minv[j]) {
          minv[j] := Finite(cur);
          way[j] := j0;
        }
        if Shorter(minv[j], delta) {
          delta := minv[j];
          j1 := j;
        }
      }
      j := j + 1;
    }
  }

  /** The second column loop of a pass: shift the prices of the tree, and the distances outside it, by delta. */
  method Shift(m: nat, delta: real, u: array<real>, v: array<real>, p: array<int>,
               minv: array<Length>, used: array<bool>, ghost col: seq<int>, ghost i: nat)
    requires v.Length == p.Length == minv.Length == used.Length == m + 1 && i < u.Length == |col|
    requires forall j :: 0 <= j <= m && used[j] ==> 1 <= p[j] <= i && col[p[j]] == j
    requires forall r :: 1 <= r <= i ==> 0 <= col[r] <= m && p[col[r]] == r
    requires u != v
    modifies u, v, minv
    ensures forall r :: 1 <= r <= i ==> u[r] == old(u[r]) + (if used[col[r]] then delta else 0.0)
    ensures forall j :: 0 <= j <= m ==> v[j] == old(v[j]) - (if used[j] then delta else 0.0)
    ensures forall j :: 0 <= j <= m && !used[j] && old(minv[j]).Finite? ==>
      minv[j] == Finite(old(minv[j]).value - delta)
  {
    var j := 0;
    while j <= m
      invariant 0 <= j <= m + 1
      invariant forall r :: 1 <= r <= i ==>
        u[r] == old(u[r]) + (if used[col[r]] && col[r] < j then delta else 0.0)
      invariant forall k :: 0 <= k < j ==> v[k] == old(v[k]) - (if used[k] then delta else 0.0)
      invariant forall k :: 0 <= k < j && !used[k] && old(minv[k]).Finite? ==>
        minv[k] == Finite(old(minv[k]).value - delta)
      invariant forall k :: j <= k <= m ==> v[k] == old(v[k]) && minv[k] == old(minv[k])
    {
      if used[j] {
        u[p[j]] := u[p[j]] + delta;
        v[j] := v[j] - delta;
      } else if minv[j].Finite? {
        minv[j] := Finite(minv[j].value - delta);
      }
      j := j + 1;
    }
  }

  /** While the flip runs, column hole is unmatched and every row 1..i sits, along a tight arc, in another column. */
  ghost predicate HoldsExcept(t: Search, p: seq<int>, col: seq<int>, hole: int)
    requires t.Shape()
  {
    && |p| == t.m + 1 && |col| == t.n + 1
    && (forall j :: 0 <= j <= t.m ==> 0 <= p[j] <= t.n)
    && (forall r :: 1 <= r <= t.i ==> 0 <= col[r] <= t.m && col[r] != hole && p[col[r]] == r)
    && (forall j :: 0 <= j <= t.m && j != hole && p[j] != 0 ==> p[j] <= t.i && col[p[j]] == j)
    && (forall j :: 1 <= j <= t.m && j != hole && p[j] != 0 ==> t.Red(p[j], j) == 0.0)
    && (forall j :: 0 <= j <= t.m && j != hole && p[j] == 0 ==> t.p[j] == 0)
  }

  /** A finished tree: start is a free column whose predecessor is a tree column along a tight arc. */
  ghost predicate Found(t: Search, start: int) {
    && t.Shape() && 1 <= start <= t.m && t.p[start] == 0
    && Tight(t.cost, t.n, t.m, t.u, t.v, t.p)
    && (forall j :: t.InTree(j) ==> t.p[j] != 0 && 0 <= t.rank[j] < t.size)
    && (forall j :: 1 <= j <= t.m && t.used[j] ==> t.Linked(j))
    && t.InTree(t.way[start]) && t.Red(t.p[t.way[start]], start) == 0.0
  }

  /** Rank of the hole: the free column counts as scanned last. */
  ghost function HoleRank(t: Search, start: int, hole: int): int
    requires t.Shape() && 0 <= hole <= t.m
  {
    if hole == start then t.size else t.rank[hole]
  }

  ghost predicate Flipping(t: Search, start: int, p: seq<int>, col: seq<int>, hole: int) {
    && Found(t, start)
    && 0 <= hole <= t.m && (t.InTree(hole) || hole == start)
    && HoldsExcept(t, p, col, hole)
    && (forall j :: t.InTree(j) && t.rank[j] <= HoleRank(t, start, hole) ==> p[j] == t.p[j])
  }

  lemma FlipLink(t: Search, start: int, hole: int)
    requires Found(t, start) && 1 <= hole <= t.m && (t.InTree(hole) || hole == start)
    ensures t.InTree(t.way[hole]) && t.p[t.way[hole]] != 0 && t.Red(t.p[t.way[hole]], hole) == 0.0
    ensures t.way[hole] != start && 0 <= t.rank[t.way[hole]] < HoleRank(t, start, hole)
  {
    if hole != start {
      assert t.Linked(hole);
    }
  }

  lemma FlipHolds(t: Search, p: seq<int>, col: seq<int>, j0: int, j1: int)
    requires t.Shape() && HoldsExcept(t, p, col, j0) && 1 <= j0 <= t.m
    requires t.InTree(j1) && j1 != j0 && p[j1] == t.p[j1] != 0
    requires t.Red(t.p[j1], j0) == 0.0
    ensures HoldsExcept(t, p[j0 := p[j1]], col[p[j1] := j0], j1)
  {
  }

  lemma FlipStep(t: Search, start: int, p: seq<int>, col: seq<int>, j0: int)
    requires Flipping(t, start, p, col, j0) && j0 != 0
    ensures var j1 := t.way[j0];
      && 0 <= j1 <= t.m && 0 < p[j1] <= t.n
      && Flipping(t, start, p[j0 := p[j1]], col[p[j1] := j0], j1)
      && 0 <= HoleRank(t, start, j1) < HoleRank(t, start, j0)
  {
    var j1 := t.way[j0];
    FlipLink(t, start, j0);
    assert p[j1] == t.p[j1];
    FlipHolds(t, p, col, j0, j1);
  }

  lemma FlipDone(t: Search, start: int, p: seq<int>, col: seq<int>)
    requires Flipping(t, start, p, col, 0)
    ensures Holds(p, col, t.n, t.m, 1, t.i)
    ensures Tight(t.cost, t.n, t.m, t.u, t.v, p)
    ensures forall j :: 1 <= j <= t.m && p[j] == 0 ==> t.p[j] == 0
  {
  }

  /** Walk the predecessor links back from the free column start, moving each column's row one step along. */
  method Flip(p: array<int>, way: array<int>, start: int, ghost t: Search) returns (ghost col: seq<int>)
    requires Found(t, start) && p[..] == t.p && way[..] == t.way && p != way
    modifies p
    ensures Holds(p[..], col, t.n, t.m, 1, t.i)
    ensures Tight(t.cost, t.n, t.m, t.u, t.v, p[..])
    ensures forall j :: 1 <= j <= t.m && p[j] == 0 ==> t.p[j] == 0
  {
    var j0 := start;
    col := t.col;
    while j0 != 0
      invariant Flipping(t, start, p[..], col, j0)
      decreases HoleRank(t, start, j0)
    {
      ghost var before := p[..];
      FlipStep(t, start, before, col, j0);
      var j1 := way[j0];
      col := col[p[j1] := j0];
      p[j0] := p[j1];
      assert p[..] == before[j0 := before[j1]];
      j0 := j1;
    }
    FlipDone(t, start, p[..], col);
  }

  // ---- One phase ----

  /** The arrays hold exactly what the snapshot t says. */
  ghost predicate Shows(t: Search, u: array<real>, v: array<real>, p: array<int>, way: array<int>,
                        minv: array<Length>, used: array<bool>)
    reads u, v, p, way, minv, used
  {
    u[..] == t.u && v[..] == t.v && p[..] == t.p && way[..] == t.way && minv[..] == t.minv && used[..] == t.used
  }

  lemma PhaseStarts(t: Search, p: seq<int>, col: seq<int>)
    requires 1 <= t.i <= t.n <= t.m && Settled(t.cost, t.n, t.m, t.u, t.v, p, col, t.i - 1)
    requires t.p == p[0 := t.i] && t.col == col[t.i := 0] && t.size == 0
    requires |t.way| == |t.minv| == |t.used| == |t.rank| == t.m + 1
    requires forall j :: 0 <= j <= t.m ==> t.minv[j] == Infinity && !t.used[j]
    ensures t.Tree() && t.NextToScan(0)
  {
  }

  lemma PassScanned(t: Search, s: Search, j0: int, way': seq<int>, minv': seq<Length>)
    requires t.Tree() && t.NextToScan(j0)
    requires |way'| == |minv'| == t.m + 1
    requires s
       == t.(way := way', minv := minv', used := t.used[j0 := true], rank := t.rank[j0 := t.size], size := t.size + 1)
    requires forall j :: 1 <= j <= t.m ==>
      if !s.used[j] && Shorter(Finite(t.Red(t.p[j0], j)), t.minv[j])
      then way'[j] == j0 && minv'[j] == Finite(t.Red(t.p[j0], j))
      else way'[j] == t.way[j] && minv'[j] == t.minv[j]
    ensures s.Shape() && t.ScanTo(j0, s)
    ensures exists j :: 1 <= j <= t.m && !s.used[j]
    ensures forall j :: s.InTree(j) ==> 1 <= s.p[j] <= s.i && s.col[s.p[j]] == j
  {
    FreeColumnExists(t.p, t.col, t.n, t.m, t.i);
    var j :| 1 <= j <= t.m && t.p[j] == 0;
    assert !t.InTree(j);
    assert !s.used[j];
  }

  /** Put row i in the pseudo-column and clear the distances. */
  method StartRow(cost: seq<seq<real>>, n: nat, m: nat, i: nat, u: array<real>, v: array<real>, p: array<int>,
                  way: array<int>, minv: array<Length>, used: array<bool>, ghost col: seq<int>)
    returns (ghost t: Search)
    requires 1 <= i <= n <= m && Settled(cost, n, m, u[..], v[..], p[..], col, i - 1)
    requires way.Length == minv.Length == used.Length == m + 1 && p != way
    modifies p, minv, used
    ensures t.cost == cost && t.n == n && t.m == m && t.i == i
    ensures Shows(t, u, v, p, way, minv, used) && t.Tree() && t.NextToScan(0)
  {
    p[0] := i;
    var j := 0;
    while j <= m
      invariant 0 <= j <= m + 1
      invariant forall k :: 0 <= k < j ==> minv[k] == Infinity && !used[k]
      invariant p[..] == old(p[..])[0 := i]
    {
      minv[j] := Infinity;
      used[j] := false;
      j := j + 1;
    }
    t := Search(cost, n, m, i, p[..], col[i := 0], u[..], v[..], way[..], minv[..], used[..], seq(m + 1, _ => 0), 0);
    PhaseStarts(t, old(p[..]), col);
  }

  /** First half of a pass: column j0 enters the tree and relaxes the columns outside it. */
  method Relax(ghost t: Search, cost: seq<seq<real>>, m: nat, j0: nat, u: array<real>, v: array<real>, p: array<int>,
               way: array<int>, minv: array<Length>, used: array<bool>)
    returns (delta: real, j1: nat, ghost s: Search)
    requires Shows(t, u, v, p, way, minv, used) && t.Tree() && t.NextToScan(j0) && t.cost == cost && t.m == m
    requires p != way
    modifies way, minv, used
    ensures s.Shape() && t.ScanTo(j0, s) && s.Nearest(delta, j1) && Shows(s, u, v, p, way, minv, used)
    ensures forall j :: s.InTree(j) ==> 1 <= s.p[j] <= s.i && s.col[s.p[j]] == j
  {
    used[j0] := true;
    var nearest, k := Scan(cost, m, p[j0], j0, u, v, way, minv, used);
    s := t.(way := way[..], minv := minv[..], used := used[..], rank := t.rank[j0 := t.size], size := t.size + 1);
    assert s.used == t.used[j0 := true];
    PassScanned(t, s, j0, way[..], minv[..]);
    delta, j1 := nearest.value, k;
  }

  /** Second half of a pass: shift the prices by the distance of the nearest column. */
  method Raise(ghost s: Search, m: nat, delta: real, u: array<real>, v: array<real>, p: array<int>,
               way: array<int>, minv: array<Length>, used: array<bool>)
    returns (ghost s': Search)
    requires Shows(s, u, v, p, way, minv, used) && s.Shape() && s.m == m && u != v
    requires forall j :: s.InTree(j) ==> 1 <= s.p[j] <= s.i && s.col[s.p[j]] == j
    modifies u, v, minv
    ensures s'.Shape() && s.ShiftTo(delta, s') && Shows(s', u, v, p, way, minv, used)
  {
    Shift(m, delta, u, v, p, minv, used, s.col, s.i);
    s' := s.(u := u[..], v := v[..], minv := minv[..]);
  }

  lemma SearchEnds(t: Search, j0: int)
    requires t.Tree() && 1 <= j0 <= t.m && !t.used[j0] && t.used[0] && t.minv[j0] == Finite(0.0) && t.p[j0] == 0
    ensures Found(t, j0)
  {
    assert t.Reached(j0);
  }

  /** The columns in the tree; each pass adds one. */
  ghost function Inside(t: Search): set<int>
    requires t.Shape()
  {
    set k | 0 <= k <= t.m && t.used[k]
  }

  lemma {:induction false} InjectionCard(s: set<int>, p: seq<int>, col: seq<int>, i: nat)
    requires forall k :: k in s ==> 0 <= k < |p| && 1 <= p[k] <= i && p[k] < |col| && col[p[k]] == k
    ensures |s| <= i
  {
    if i == 0 {
      assert forall k :: k !in s;
    } else if exists k :: k in s && p[k] == i {
      var k :| k in s && p[k] == i;
      InjectionCard(s - {k}, p, col, i - 1);
    } else {
      InjectionCard(s, p, col, i - 1);
    }
  }

  /** Tree columns hold distinct rows among those served so far, so there are at most as many. */
  lemma TreeIsSmall(t: Search)
    requires t.Tree()
    ensures |Inside(t)| <= t.i
  {
    InjectionCard(Inside(t), t.p, t.col, t.i);
  }

  lemma TreeGainsOne(t: Search, s: Search, j0: int)
    requires t.Shape() && 0 <= j0 <= t.m && !t.used[j0] && s.Shape() && s.m == t.m && s.used == t.used[j0 := true]
    ensures |Inside(s)| == |Inside(t)| + 1
  {
    assert Inside(s) == Inside(t) + {j0};
  }

  /** TreeGrows, with what the search loop needs next. */
  lemma PassDone(t: Search, s: Search, s': Search, j0: int, delta: real, j1: int)
    requires t.Tree() && t.NextToScan(j0) && s.Shape() && t.ScanTo(j0, s)
    requires s.Nearest(delta, j1) && s'.Shape() && s.ShiftTo(delta, s')
    ensures s'.Tree() && |Inside(s')| == |Inside(t)| + 1 <= t.i
    ensures if s'.p[j1] == 0 then Found(s', j1) else s'.NextToScan(j1)
  {
    TreeGrows(t, s, s', j0, delta, j1);
    TreeGainsOne(t, s', j0);
    TreeIsSmall(s');
    if s'.p[j1] == 0 {
      SearchEnds(s', j1);
    }
  }

  /** The inner loop of a phase: grow the tree until it reaches a free column, in at most as many passes as there are
      rows to serve. */
  method GrowTree(ghost start: Search, cost: seq<seq<real>>, m: nat, u: array<real>, v: array<real>, p: array<int>,
                  way: array<int>, minv: array<Length>, used: array<bool>)
    returns (j0: nat, ghost t: Search, ghost passes: nat)
    requires start.Tree() && start.NextToScan(0) && Shows(start, u, v, p, way, minv, used)
    requires start.cost == cost && start.m == m && u != v && p != way
    modifies u, v, way, minv, used
    ensures t.Tree() && Found(t, j0) && t.used[0] && Shows(t, u, v, p, way, minv, used)
    ensures t.cost == cost && t.n == start.n && t.m == m && t.i == start.i
    ensures 1 <= passes <= start.i
  {
    t := start;
    j0 := 0;
    passes := 0;
    EmptyTree(start);
    while true
      invariant t.Tree() && t.NextToScan(j0) && Shows(t, u, v, p, way, minv, used)
      invariant t.cost == cost && t.n == start.n && t.m == m && t.i == start.i
      invariant passes == |Inside(t)| <= t.i
      decreases t.i - passes
    {
      var delta, j1, s := Relax(t, cost, m, j0, u, v, p, way, minv, used);
      ghost var s' := Raise(s, m, delta, u, v, p, way, minv, used);
      PassDone(t, s, s', j0, delta, j1);
      j0, t, passes := j1, s', passes + 1;
      if p[j0] == 0 {
        break;
      }
    }
  }

  lemma EmptyTree(t: Search)
    requires t.Tree() && t.NextToScan(0)
    ensures Inside(t) == {}
  {
  }

  lemma PhaseEnds(t: Search, p: seq<int>, col: seq<int>)
    requires t.Tree() && t.used[0] && Holds(p, col, t.n, t.m, 1, t.i)
    requires Tight(t.cost, t.n, t.m, t.u, t.v, p)
    requires forall j :: 1 <= j <= t.m && p[j] == 0 ==> t.p[j] == 0
    ensures Settled(t.cost, t.n, t.m, t.u, t.v, p, col, t.i)
  {
  }

  /** Phase i: match one more row, keeping optimal prices, in at most i passes over the columns. */
  method AugmentRow(cost: seq<seq<real>>, n: nat, m: nat, i: nat, u: array<real>, v: array<real>, p: array<int>,
                    way: array<int>, minv: array<Length>, used: array<bool>, ghost col: seq<int>)
    returns (ghost col': seq<int>, ghost passes: nat)
    requires 1 <= i <= n <= m && Settled(cost, n, m, u[..], v[..], p[..], col, i - 1)
    requires way.Length == minv.Length == used.Length == m + 1 && u != v && p != way
    modifies u, v, p, way, minv, used
    ensures Settled(cost, n, m, u[..], v[..], p[..], col', i)
    ensures 1 <= passes <= i
  {
    ghost var t0 := StartRow(cost, n, m, i, u, v, p, way, minv, used, col);
    var j0, t, k := GrowTree(t0, cost, m, u, v, p, way, minv, used);
    passes := k;
    col' := Flip(p, way, j0, t);
    PhaseEnds(t, p[..], col');
  }
}
