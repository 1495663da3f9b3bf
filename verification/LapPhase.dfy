/** One phase of the shortest-augmenting-path solver: grow a tree of tight arcs from a new row until it
    reaches a free column, then flip the matching along the predecessor links.

    Lines are numbered from 1; index 0 of every column array is the pseudo-column that holds the new row. */
module LapPhase {
  import opened Pigeonhole

  /** A path length; Infinity is "not reached yet". */
  datatype Length = Infinity | Finite(value: real)

  predicate Shorter(a: Length, b: Length) {
    a.Finite? && (b.Infinity? || a.value < b.value)
  }

  ghost predicate CostTable(cost: seq<seq<real>>, n: nat, m: nat) {
    |cost| == n + 1 && forall i :: 0 <= i <= n ==> |cost[i]| == m + 1
  }

  /** Reduced cost of row r and column j. */
  ghost function Reduced(cost: seq<seq<real>>, u: seq<real>, v: seq<real>, r: int, j: int): real
    requires 0 <= r < |cost| && r < |u| && 0 <= j < |cost[r]| && j < |v|
  {
    cost[r][j] - u[r] - v[j]
  }

  /** Rows 1..k are priced below every entry. */
  ghost predicate Feasible(cost: seq<seq<real>>, n: nat, m: nat, u: seq<real>, v: seq<real>, k: nat)
    requires CostTable(cost, n, m) && |u| == n + 1 && |v| == m + 1 && k <= n
  {
    forall r, j :: 1 <= r <= k && 1 <= j <= m ==> Reduced(cost, u, v, r, j) >= 0.0
  }

  /** Column prices are at most 0, and 0 on free columns. */
  ghost predicate FreeColumnsCostNothing(m: nat, v: seq<real>, p: seq<int>)
    requires |v| == |p| == m + 1
  {
    forall j :: 1 <= j <= m ==> v[j] <= 0.0 && (p[j] == 0 ==> v[j] == 0.0)
  }

  ghost predicate Tight(cost: seq<seq<real>>, n: nat, m: nat, u: seq<real>, v: seq<real>, p: seq<int>)
    requires CostTable(cost, n, m) && |u| == n + 1 && |v| == |p| == m + 1
    requires forall j :: 0 <= j <= m ==> 0 <= p[j] <= n
  {
    forall j :: 1 <= j <= m && p[j] != 0 ==> Reduced(cost, u, v, p[j], j) == 0.0
  }

  /** col[r] is the column from lo..m that holds row r, for exactly the rows 1..k. */
  ghost predicate Holds(p: seq<int>, col: seq<int>, n: nat, m: nat, lo: nat, k: nat) {
    && |p| == m + 1 && |col| == n + 1 && k <= n
    && (forall j :: 0 <= j <= m ==> 0 <= p[j] <= n)
    && (forall r :: 1 <= r <= k ==> lo <= col[r] <= m && p[col[r]] == r)
    && (forall j :: lo <= j <= m && p[j] != 0 ==> p[j] <= k && col[p[j]] == j)
  }

  /** What every completed phase leaves: rows 1..k matched to distinct columns along tight arcs, with valid prices. */
  ghost predicate Settled(cost: seq<seq<real>>, n: nat, m: nat, u: seq<real>, v: seq<real>, p: seq<int>,
                          col: seq<int>, k: nat)
  {
    && CostTable(cost, n, m) && |u| == n + 1 && |v| == m + 1
    && Holds(p, col, n, m, 1, k)
    && Feasible(cost, n, m, u, v, k)
    && Tight(cost, n, m, u, v, p)
    && FreeColumnsCostNothing(m, v, p)
  }

  /** With the new row in pseudo-column 0, i <= m rows cannot fill all m + 1 columns. */
  lemma FreeColumnExists(p: seq<int>, col: seq<int>, n: nat, m: nat, i: nat)
    requires Holds(p, col, n, m, 0, i) && i <= m && p[0] != 0
    ensures exists j :: 1 <= j <= m && p[j] == 0
  {
    if forall j :: 1 <= j <= m ==> p[j] != 0 {
      var rows := seq(m + 1, j requires 0 <= j <= m => p[j] - 1);
      forall a, b | 0 <= a < b <= m
        ensures rows[a] != rows[b]
      {
        assert col[p[a]] == a && col[p[b]] == b;
      }
      AtMost(rows, i);
    }
  }

  // ---- The shortest-path tree ----

  /** A snapshot of phase i: matching, prices, predecessor links, distances and the columns scanned so far.
      col[r] is the column that holds row r; the new row i sits in pseudo-column 0.
      rank[j] says when tree column j was scanned; all ranks so far are below size. */
  datatype Search = Search(cost: seq<seq<real>>, n: nat, m: nat, i: nat, p: seq<int>, col: seq<int>,
                           u: seq<real>, v: seq<real>, way: seq<int>, minv: seq<Length>, used: seq<bool>,
                           rank: seq<int>, size: nat)
  {
    ghost predicate Shape() {
      && CostTable(cost, n, m) && 1 <= i <= n <= m
      && |u| == n + 1 && |v| == |way| == |minv| == |used| == |rank| == m + 1
      && Holds(p, col, n, m, 0, i) && p[0] == i
      && (used[0] <==> size > 0)
    }

    ghost function Red(r: int, j: int): real
      requires Shape() && 0 <= r <= n && 0 <= j <= m
    {
      Reduced(cost, u, v, r, j)
    }

    ghost predicate InTree(j: int)
      requires Shape()
    {
      0 <= j <= m && used[j]
    }

    /** Tree column j was reached from an earlier tree column along a tight arc. */
    ghost predicate Linked(j: int)
      requires Shape() && 1 <= j <= m
    {
      InTree(way[j]) && rank[way[j]] < rank[j] && Red(p[way[j]], j) == 0.0
    }

    /** minv[j] is the least reduced cost from a tree row to column j, attained at way[j]. */
    ghost predicate Reached(j: int)
      requires Shape() && 1 <= j <= m
    {
      && minv[j].Finite?
      && InTree(way[j]) && Red(p[way[j]], j) == minv[j].value
      && forall c :: InTree(c) ==> minv[j].value <= Red(p[c], j)
    }

    ghost predicate Tree() {
      && Shape()
      && (forall j :: InTree(j) ==> p[j] != 0 && 0 <= rank[j] < size)
      && FreeColumnsCostNothing(m, v, p)
      && Feasible(cost, n, m, u, v, if used[0] then i else i - 1)
      && Tight(cost, n, m, u, v, p)
      && (forall j :: 1 <= j <= m && used[j] ==> used[0] && Linked(j))
      && (!used[0] ==> forall j :: 1 <= j <= m ==> minv[j] == Infinity)
      && (used[0] ==> forall j :: 1 <= j <= m && !used[j] ==> Reached(j))
    }

    /** The next column to scan: the pseudo-column first, then a column at distance 0. */
    ghost predicate NextToScan(j0: int)
      requires Shape()
    {
      && 0 <= j0 <= m && !used[j0] && p[j0] != 0
      && (used[0] ==> minv[j0] == Finite(0.0))
      && (!used[0] ==> j0 == 0)
    }

    /** s is this search after column j0 entered the tree and relaxed every column outside it. */
    ghost predicate ScanTo(j0: int, s: Search)
      requires Shape() && s.Shape() && 0 <= j0 <= m
    {
      && s.cost == cost && s.n == n && s.m == m && s.i == i && s.p == p && s.col == col && s.u == u && s.v == v
      && s.used == used[j0 := true] && s.rank == rank[j0 := size] && s.size == size + 1
      && (forall j :: 1 <= j <= m && !s.used[j] && Shorter(Finite(Red(p[j0], j)), minv[j]) ==>
            s.way[j] == j0 && s.minv[j] == Finite(Red(p[j0], j)))
      && (forall j :: 1 <= j <= m && (s.used[j] || !Shorter(Finite(Red(p[j0], j)), minv[j])) ==>
            s.way[j] == way[j] && s.minv[j] == minv[j])
    }

    /** j1 is a nearest column outside the tree, at distance delta. */
    ghost predicate Nearest(delta: real, j1: int)
      requires Shape()
    {
      && 1 <= j1 <= m && !used[j1] && minv[j1] == Finite(delta)
      && forall j :: 1 <= j <= m && !used[j] ==> minv[j].Finite? && delta <= minv[j].value
    }

    /** s is this search after tree rows rose and tree columns fell by delta, and outside distances shrank by it. */
    ghost predicate ShiftTo(delta: real, s: Search)
      requires Shape() && s.Shape()
    {
      && s.cost == cost && s.n == n && s.m == m && s.i == i && s.p == p && s.col == col
      && s.used == used && s.rank == rank && s.size == size && s.way == way
      && (forall r :: 1 <= r <= i ==> s.u[r] == u[r] + (if used[col[r]] then delta else 0.0))
      && (forall j :: 0 <= j <= m ==> s.v[j] == v[j] - (if used[j] then delta else 0.0))
      && (forall j :: 1 <= j <= m && !used[j] && minv[j].Finite? ==> s.minv[j] == Finite(minv[j].value - delta))
    }
  }

  lemma ReducedAfterShift(s: Search, s': Search, delta: real, r: int, j: int)
    requires s.Shape() && s'.Shape() && s.ShiftTo(delta, s') && 1 <= r <= s.i && 0 <= j <= s.m
    ensures s'.Red(r, j) == s.Red(r, j) - (if s.used[s.col[r]] then delta else 0.0) + (if s.used[j] then delta else 0.0)
  {
  }

  lemma ScanReaches(t: Search, s: Search, j0: int, j: int)
    requires t.Tree() && t.NextToScan(j0) && s.Shape() && t.ScanTo(j0, s)
    requires 1 <= j <= t.m && !s.used[j]
    ensures s.Reached(j)
  {
    if t.used[0] {
      assert t.Reached(j);
    }
  }

  lemma ShiftKeepsReached(s: Search, s': Search, delta: real, j: int)
    requires s.Shape() && s'.Shape() && s.ShiftTo(delta, s')
    requires forall c :: s.InTree(c) ==> s.p[c] != 0
    requires 1 <= j <= s.m && !s.used[j] && s.Reached(j)
    ensures s'.Reached(j) && s'.minv[j].value == s.minv[j].value - delta
  {
    forall c | s.InTree(c)
      ensures s'.Red(s.p[c], j) == s.Red(s.p[c], j) - delta
    {
      assert s.col[s.p[c]] == c;
      ReducedAfterShift(s, s', delta, s.p[c], j);
    }
  }

  lemma ShiftKeepsLinked(t: Search, s: Search, s': Search, j0: int, delta: real, j: int)
    requires t.Tree() && t.NextToScan(j0) && s.Shape() && t.ScanTo(j0, s)
    requires s'.Shape() && s.ShiftTo(delta, s')
    requires 1 <= j <= t.m && s.used[j]
    ensures s'.Linked(j)
  {
    if j == j0 {
      assert t.Reached(j);
    } else {
      assert t.Linked(j);
    }
    var c := t.way[j];
    assert t.InTree(c) && t.rank[c] < t.size;
    assert s.col[s.p[c]] == c;
    ReducedAfterShift(s, s', delta, s.p[c], j);
  }

  /** After the first pass every shift is by a non-negative distance. */
  lemma LaterShiftsAreNonNegative(t: Search, s: Search, j0: int, delta: real, j1: int)
    requires t.Tree() && t.NextToScan(j0) && s.Shape() && t.ScanTo(j0, s) && s.Nearest(delta, j1) && t.used[0]
    ensures delta >= 0.0
  {
    ScanReaches(t, s, j0, j1);
  }

  /** A column in the tree: its price falls by no less than the row's rises. */
  lemma InsideStaysFeasible(t: Search, s: Search, s': Search, j0: int, delta: real, j1: int, r: int, j: int)
    requires t.Tree() && t.NextToScan(j0) && s.Shape() && t.ScanTo(j0, s)
    requires s.Nearest(delta, j1) && s'.Shape() && s.ShiftTo(delta, s')
    requires 1 <= r <= t.i && 1 <= j <= t.m && s.used[j]
    ensures s'.Red(r, j) >= 0.0
  {
    ReducedAfterShift(s, s', delta, r, j);
    assert t.used[0];
    LaterShiftsAreNonNegative(t, s, j0, delta, j1);
  }

  /** A column outside the tree and a row in it: no nearer than the shift. */
  lemma NearestStaysFeasible(s: Search, s': Search, delta: real, j1: int, r: int, j: int)
    requires s.Shape() && s'.Shape() && s.ShiftTo(delta, s') && s.Nearest(delta, j1)
    requires 1 <= r <= s.i && 1 <= j <= s.m && !s.used[j] && s.Reached(j) && s.InTree(s.col[r])
    ensures s'.Red(r, j) >= 0.0
  {
    ReducedAfterShift(s, s', delta, r, j);
    assert s.p[s.col[r]] == r;
  }

  /** A column and a row outside the tree: nothing changes. */
  lemma UntouchedStaysFeasible(t: Search, s: Search, s': Search, j0: int, delta: real, r: int, j: int)
    requires t.Tree() && t.NextToScan(j0) && s.Shape() && t.ScanTo(j0, s) && s'.Shape() && s.ShiftTo(delta, s')
    requires 1 <= r <= t.i && 1 <= j <= t.m && !s.used[j] && !s.InTree(s.col[r])
    ensures s'.Red(r, j) >= 0.0
  {
    ReducedAfterShift(s, s', delta, r, j);
    assert t.p[t.col[r]] == r;
  }

  lemma ShiftKeepsFeasible(t: Search, s: Search, s': Search, j0: int, delta: real, j1: int, r: int, j: int)
    requires t.Tree() && t.NextToScan(j0) && s.Shape() && t.ScanTo(j0, s)
    requires s.Nearest(delta, j1) && s'.Shape() && s.ShiftTo(delta, s')
    requires 1 <= r <= t.i && 1 <= j <= t.m
    ensures s'.Red(r, j) >= 0.0
  {
    if s.used[j] {
      InsideStaysFeasible(t, s, s', j0, delta, j1, r, j);
    } else {
      ScanReaches(t, s, j0, j);
      if s.InTree(s.col[r]) {
        NearestStaysFeasible(s, s', delta, j1, r, j);
      } else {
        UntouchedStaysFeasible(t, s, s', j0, delta, r, j);
      }
    }
  }

  lemma ShiftKeepsAllFeasible(t: Search, s: Search, s': Search, j0: int, delta: real, j1: int)
    requires t.Tree() && t.NextToScan(j0) && s.Shape() && t.ScanTo(j0, s)
    requires s.Nearest(delta, j1) && s'.Shape() && s.ShiftTo(delta, s')
    ensures Feasible(s'.cost, s'.n, s'.m, s'.u, s'.v, s'.i)
  {
    forall r, j | 1 <= r <= s'.i && 1 <= j <= s'.m
      ensures Reduced(s'.cost, s'.u, s'.v, r, j) >= 0.0
    {
      ShiftKeepsFeasible(t, s, s', j0, delta, j1, r, j);
    }
  }

  lemma ShiftKeepsTight(s: Search, s': Search, delta: real)
    requires s.Shape() && s'.Shape() && s.ShiftTo(delta, s')
    requires Tight(s.cost, s.n, s.m, s.u, s.v, s.p)
    ensures Tight(s'.cost, s'.n, s'.m, s'.u, s'.v, s'.p)
  {
    forall j | 1 <= j <= s.m && s.p[j] != 0
      ensures s'.Red(s.p[j], j) == 0.0
    {
      assert s.col[s.p[j]] == j;
      ReducedAfterShift(s, s', delta, s.p[j], j);
    }
  }

  lemma ShiftKeepsSigns(t: Search, s: Search, s': Search, j0: int, delta: real, j1: int)
    requires t.Tree() && t.NextToScan(j0) && s.Shape() && t.ScanTo(j0, s)
    requires s.Nearest(delta, j1) && s'.Shape() && s.ShiftTo(delta, s')
    ensures FreeColumnsCostNothing(s'.m, s'.v, s'.p)
  {
    forall j | 1 <= j <= t.m
      ensures s'.v[j] <= 0.0 && (s'.p[j] == 0 ==> s'.v[j] == 0.0)
    {
      if s.used[j] {
        assert t.used[0];
        LaterShiftsAreNonNegative(t, s, j0, delta, j1);
      }
    }
  }

  lemma ShiftKeepsPaths(t: Search, s: Search, s': Search, j0: int, delta: real, j1: int)
    requires t.Tree() && t.NextToScan(j0) && s.Shape() && t.ScanTo(j0, s)
    requires s.Nearest(delta, j1) && s'.Shape() && s.ShiftTo(delta, s')
    ensures forall j :: 1 <= j <= t.m && s.used[j] ==> s'.Linked(j)
    ensures forall j :: 1 <= j <= t.m && !s.used[j] ==> s'.Reached(j)
  {
    forall j | 1 <= j <= t.m && s.used[j]
      ensures s'.Linked(j)
    {
      ShiftKeepsLinked(t, s, s', j0, delta, j);
    }
    forall j | 1 <= j <= t.m && !s.used[j]
      ensures s'.Reached(j)
    {
      ScanReaches(t, s, j0, j);
      ShiftKeepsReached(s, s', delta, j);
    }
  }

  lemma ShiftKeepsTreeRows(t: Search, s: Search, s': Search, j0: int, delta: real)
    requires t.Tree() && t.NextToScan(j0) && s.Shape() && t.ScanTo(j0, s) && s'.Shape() && s.ShiftTo(delta, s')
    ensures s'.used[0] && forall j :: s'.InTree(j) ==> s'.p[j] != 0 && 0 <= s'.rank[j] < s'.size
  {
  }

  lemma TreeFromParts(s: Search)
    requires s.Shape() && s.used[0] && (forall j :: s.InTree(j) ==> s.p[j] != 0 && 0 <= s.rank[j] < s.size)
    requires FreeColumnsCostNothing(s.m, s.v, s.p) && Feasible(s.cost, s.n, s.m, s.u, s.v, s.i)
    requires Tight(s.cost, s.n, s.m, s.u, s.v, s.p)
    requires forall j :: 1 <= j <= s.m && s.used[j] ==> s.Linked(j)
    requires forall j :: 1 <= j <= s.m && !s.used[j] ==> s.Reached(j)
    ensures s.Tree()
  {
  }

  /** One scan-and-shift pass keeps the tree invariant, and brings the nearest outside column to distance 0. */
  lemma TreeGrows(t: Search, s: Search, s': Search, j0: int, delta: real, j1: int)
    requires t.Tree() && t.NextToScan(j0) && s.Shape() && t.ScanTo(j0, s)
    requires s.Nearest(delta, j1) && s'.Shape() && s.ShiftTo(delta, s')
    ensures s'.Tree() && s'.minv[j1] == Finite(0.0)
  {
    ShiftKeepsTreeRows(t, s, s', j0, delta);
    ShiftKeepsAllFeasible(t, s, s', j0, delta, j1);
    ShiftKeepsTight(s, s', delta);
    ShiftKeepsSigns(t, s, s', j0, delta, j1);
    ShiftKeepsPaths(t, s, s', j0, delta, j1);
    TreeFromParts(s');
  }
}
