/** The exact linear assignment solver: any rectangular matrix, maximizing or minimizing, with pruning and dual
    export. */
module Lap {
  import opened Wrappers
  import opened RealSums
  import opened Assignments
  import opened LapPhase
  import LapSolver

  datatype LapError = EmptyMatrix | DimensionMismatch(row: nat)

  datatype LapAssignment = LapAssignment(rowToCol: seq<int>, colToRow: seq<int>, totalWeight: real, matchCount: nat,
                                         rowDuals: seq<real>, colDuals: seq<real>)

  /** The solver minimizes; a maximization enters with its sign flipped. */
  function CostOf(maximize: bool, x: real): real {
    if maximize then -x else x
  }

  /** cost is the matrix, 1-indexed and turned so that its rows are the shorter side. */
  ghost predicate Encodes(cost: seq<seq<real>>, matrix: Matrix, rows: nat, cols: nat, maximize: bool)
    requires Rectangular(matrix, rows, cols)
  {
    if rows > cols then
      CostTable(cost, cols, rows)
      && forall i, j :: 0 <= i < rows && 0 <= j < cols ==> cost[j + 1][i + 1] == CostOf(maximize, matrix[i][j])
    else
      CostTable(cost, rows, cols)
      && forall i, j :: 0 <= i < rows && 0 <= j < cols ==> cost[i + 1][j + 1] == CostOf(maximize, matrix[i][j])
  }

  method BuildCost(matrix: Matrix, rows: nat, cols: nat, maximize: bool) returns (cost: seq<seq<real>>)
    requires Rectangular(matrix, rows, cols)
    ensures Encodes(cost, matrix, rows, cols, maximize)
  {
    var transposed := rows > cols;
    var n, m := if transposed then cols else rows, if transposed then rows else cols;
    cost := seq(n + 1, _ => seq(m + 1, _ => 0.0));
    var i := 0;
    while i < rows
      invariant 0 <= i <= rows && CostTable(cost, n, m)
      invariant forall a, b :: 0 <= a < i && 0 <= b < cols ==>
        (if transposed then cost[b + 1][a + 1] else cost[a + 1][b + 1]) == CostOf(maximize, matrix[a][b])
    {
      var j := 0;
      while j < cols
        invariant 0 <= j <= cols && CostTable(cost, n, m)
        invariant forall a, b :: 0 <= a < rows && 0 <= b < cols && (a < i || (a == i && b < j)) ==>
          (if transposed then cost[b + 1][a + 1] else cost[a + 1][b + 1]) == CostOf(maximize, matrix[a][b])
      {
        var val := CostOf(maximize, matrix[i][j]);
        if transposed {
          cost := cost[j + 1 := cost[j + 1][i + 1 := val]];
        } else {
          cost := cost[i + 1 := cost[i + 1][j + 1 := val]];
        }
        j := j + 1;
      }
      i := i + 1;
    }
  }

  /** No more passes over the columns than phases of 1, 2, ... n passes make. */
  ghost predicate FewPasses(passes: nat, n: nat) {
    2 * passes <= n * (n + 1)
  }

  lemma MorePasses(passes: nat, more: nat, i: nat)
    requires 1 <= i && FewPasses(passes, i - 1) && more <= i
    ensures FewPasses(passes + more, i)
  {
    assert (i - 1) * i + 2 * i == i * (i + 1);
  }

  /** All phases: match every row of the cost table, at optimal prices, in at most n(n+1)/2 passes over the columns. */
  method AugmentRows(cost: seq<seq<real>>, n: nat, m: nat)
    returns (u: array<real>, v: array<real>, p: array<int>, ghost col: seq<int>, ghost passes: nat)
    requires CostTable(cost, n, m) && n <= m
    ensures Settled(cost, n, m, u[..], v[..], p[..], col, n)
    ensures FewPasses(passes, n)
    ensures fresh(u) && fresh(v) && fresh(p)
  {
    u := new real[n + 1](_ => 0.0);
    v := new real[m + 1](_ => 0.0);
    p := new int[m + 1](_ => 0);
    var way := new int[m + 1](_ => 0);
    var minv := new Length[m + 1](_ => Infinity);
    var used := new bool[m + 1](_ => false);
    col := seq(n + 1, _ => 0);
    passes := 0;
    var i := 1;
    while i <= n
      invariant 1 <= i <= n + 1
      invariant Settled(cost, n, m, u[..], v[..], p[..], col, i - 1)
      invariant FewPasses(passes, i - 1)
    {
      ghost var more: nat;
      col, more := LapSolver.AugmentRow(cost, n, m, i, u, v, p, way, minv, used, col);
      MorePasses(passes, more, i);
      passes := passes + more;
      i := i + 1;
    }
  }

  /** Row assignment of a finished solver, in the orientation of the matrix. */
  ghost function RowChoice(p: seq<int>, col: seq<int>, rows: nat, cols: nat): (a: Assignment)
    requires if rows > cols then |p| == rows + 1 else |col| == rows + 1
  {
    seq(rows, r requires 0 <= r < rows => (if rows > cols then p[r + 1] else col[r + 1]) - 1)
  }

  ghost function ColChoice(p: seq<int>, col: seq<int>, rows: nat, cols: nat): (a: seq<int>)
    requires if rows > cols then |col| == cols + 1 else |p| == cols + 1
  {
    seq(cols, c requires 0 <= c < cols => (if rows > cols then col[c + 1] else p[c + 1]) - 1)
  }

  /** Read the matching back into 0-indexed tables. */
  method Extract(p: array<int>, ghost col: seq<int>, rows: nat, cols: nat)
    returns (rowToCol: array<int>, colToRow: array<int>)
    requires if rows > cols then Holds(p[..], col, cols, rows, 1, cols) else Holds(p[..], col, rows, cols, 1, rows)
    ensures fresh(rowToCol) && fresh(colToRow) && rowToCol != colToRow
    ensures rowToCol[..] == RowChoice(p[..], col, rows, cols)
    ensures colToRow[..] == ColChoice(p[..], col, rows, cols)
  {
    rowToCol := new int[rows](_ => -1);
    colToRow := new int[cols](_ => -1);
    if rows <= cols {
      var j := 1;
      while j <= cols
        invariant 1 <= j <= cols + 1
        invariant forall r :: 0 <= r < rows ==> rowToCol[r] == if col[r + 1] < j then col[r + 1] - 1 else -1
        invariant forall c :: 0 <= c < cols ==> colToRow[c] == if c + 1 < j then p[c + 1] - 1 else -1
      {
        var r1 := p[j];
        if 0 < r1 <= rows {
          rowToCol[r1 - 1] := j - 1;
          colToRow[j - 1] := r1 - 1;
        }
        j := j + 1;
      }
    } else {
      var j := 1;
      while j <= rows
        invariant 1 <= j <= rows + 1
        invariant forall c :: 0 <= c < cols ==> colToRow[c] == if col[c + 1] < j then col[c + 1] - 1 else -1
        invariant forall r :: 0 <= r < rows ==> rowToCol[r] == if r + 1 < j then p[r + 1] - 1 else -1
      {
        var c1 := p[j];
        if 0 < c1 <= cols {
          rowToCol[j - 1] := c1 - 1;
          colToRow[c1 - 1] := j - 1;
        }
        j := j + 1;
      }
    }
  }

  /** The assignment without its negative pairs; only a maximization that disallows them is pruned. */
  function Pruned(matrix: Matrix, a: Assignment, prune: bool): (b: Assignment)
    requires |a| == |matrix| && forall r :: 0 <= r < |a| ==> -1 <= a[r] < |matrix[r]|
    ensures |b| == |a| && forall r :: 0 <= r < |a| ==>
      b[r] == if prune && a[r] != -1 && matrix[r][a[r]] < 0.0 then -1 else a[r]
  {
    seq(|a|, r requires 0 <= r < |a| => if prune && a[r] != -1 && matrix[r][a[r]] < 0.0 then -1 else a[r])
  }

  /** The two tables describe the same set of pairs. */
  ghost predicate Inverses(rowToCol: seq<int>, colToRow: seq<int>) {
    && (forall r :: 0 <= r < |rowToCol| ==> -1 <= rowToCol[r] < |colToRow|)
    && (forall c :: 0 <= c < |colToRow| ==> -1 <= colToRow[c] < |rowToCol|)
    && (forall r :: 0 <= r < |rowToCol| && rowToCol[r] != -1 ==> colToRow[rowToCol[r]] == r)
    && (forall c :: 0 <= c < |colToRow| && colToRow[c] != -1 ==> rowToCol[colToRow[c]] == c)
  }

  lemma InversesUnlink(rowToCol: seq<int>, colToRow: seq<int>, r: nat)
    requires Inverses(rowToCol, colToRow) && r < |rowToCol| && rowToCol[r] != -1
    ensures Inverses(rowToCol[r := -1], colToRow[rowToCol[r] := -1])
  {
  }

  /** Leave row r idle. */
  method Unlink(rowToCol: array<int>, colToRow: array<int>, r: nat)
    requires rowToCol != colToRow && Inverses(rowToCol[..], colToRow[..])
    requires r < rowToCol.Length && rowToCol[r] != -1
    modifies rowToCol, colToRow
    ensures rowToCol[..] == old(rowToCol[..])[r := -1]
    ensures colToRow[..] == old(colToRow[..])[old(rowToCol[r]) := -1]
    ensures Inverses(rowToCol[..], colToRow[..])
  {
    InversesUnlink(rowToCol[..], colToRow[..], r);
    var c := rowToCol[r];
    rowToCol[r] := -1;
    colToRow[c] := -1;
    assert rowToCol[..] == old(rowToCol[..])[r := -1];
    assert colToRow[..] == old(colToRow[..])[c := -1];
  }

  /** Keep row r's pair, or leave the row idle if the pair may not be kept. */
  method PruneRow(matrix: Matrix, prune: bool, rowToCol: array<int>, colToRow: array<int>, r: nat) returns (kept: bool)
    requires rowToCol != colToRow && r < rowToCol.Length == |matrix| && Inverses(rowToCol[..], colToRow[..])
    requires |matrix[r]| == colToRow.Length
    modifies rowToCol, colToRow
    ensures kept == (old(rowToCol[r]) != -1 && !(prune && matrix[r][old(rowToCol[r])] < 0.0))
    ensures rowToCol[r] == if kept then old(rowToCol[r]) else -1
    ensures forall k :: 0 <= k < rowToCol.Length && k != r ==> rowToCol[k] == old(rowToCol[k])
    ensures Inverses(rowToCol[..], colToRow[..])
  {
    var c := rowToCol[r];
    if c == -1 {
      return false;
    }
    if prune && matrix[r][c] < 0.0 {
      Unlink(rowToCol, colToRow, r);
      return false;
    }
    return true;
  }

  /** The rows before r are pruned, the others as they were. */
  ghost predicate PrunedUpTo(now: seq<int>, before: seq<int>, after: seq<int>, r: nat) {
    |now| == |before| == |after| && forall k :: 0 <= k < |now| ==> now[k] == if k < r then after[k] else before[k]
  }

  lemma PruneOneMore(now: seq<int>, now': seq<int>, before: seq<int>, after: seq<int>, r: nat)
    requires PrunedUpTo(now, before, after, r) && r < |now| == |now'|
    requires now'[r] == after[r] && forall k :: 0 <= k < |now| && k != r ==> now'[k] == now[k]
    ensures PrunedUpTo(now', before, after, r + 1)
  {
  }

  /** Total and count of the first r rows of b. */
  ghost predicate Totalled(matrix: Matrix, b: Assignment, r: nat, totalWeight: real, matchCount: nat)
    requires r <= |b| == |matrix| && forall k :: 0 <= k < |b| ==> -1 <= b[k] < |matrix[k]|
  {
    totalWeight == WeightTo(matrix, b, r) && matchCount == MatchedTo(b, r)
  }

  /** Row r of the pruning loop. */
  method VisitRow(matrix: Matrix, prune: bool, rowToCol: array<int>, colToRow: array<int>, r: nat, totalWeight: real,
                  matchCount: nat, ghost before: Assignment, ghost after: Assignment)
    returns (totalWeight': real, matchCount': nat)
    requires rowToCol != colToRow && r < rowToCol.Length == |matrix| == |before| && |matrix[r]| == colToRow.Length
    requires Inverses(rowToCol[..], colToRow[..]) && PrunedUpTo(rowToCol[..], before, after, r)
    requires -1 <= before[r] < colToRow.Length
    requires after[r] == if before[r] != -1 && prune && matrix[r][before[r]] < 0.0 then -1 else before[r]
    requires |after| == |matrix| && forall k :: 0 <= k < |after| ==> -1 <= after[k] < |matrix[k]|
    requires Totalled(matrix, after, r, totalWeight, matchCount)
    modifies rowToCol, colToRow
    ensures Inverses(rowToCol[..], colToRow[..]) && PrunedUpTo(rowToCol[..], before, after, r + 1)
    ensures Totalled(matrix, after, r + 1, totalWeight', matchCount')
  {
    ghost var now := rowToCol[..];
    var kept := PruneRow(matrix, prune, rowToCol, colToRow, r);
    PruneOneMore(now, rowToCol[..], before, after, r);
    totalWeight', matchCount' := totalWeight, matchCount;
    if kept {
      totalWeight' := totalWeight + matrix[r][rowToCol[r]];
      matchCount' := matchCount + 1;
    }
  }

  /** Drop the pairs that may not be kept, and total the rest. */
  method Prune(matrix: Matrix, prune: bool, rowToCol: array<int>, colToRow: array<int>)
    returns (totalWeight: real, matchCount: nat)
    requires rowToCol != colToRow && rowToCol.Length == |matrix|
    requires forall i :: 0 <= i < |matrix| ==> |matrix[i]| == colToRow.Length
    requires Inverses(rowToCol[..], colToRow[..])
    modifies rowToCol, colToRow
    ensures rowToCol[..] == Pruned(matrix, old(rowToCol[..]), prune)
    ensures Inverses(rowToCol[..], colToRow[..])
    ensures totalWeight == Weight(matrix, rowToCol[..])
    ensures matchCount == MatchedTo(rowToCol[..], |matrix|)
  {
    ghost var a := rowToCol[..];
    ghost var b := Pruned(matrix, a, prune);
    totalWeight, matchCount := 0.0, 0;
    var r := 0;
    while r < rowToCol.Length
      invariant 0 <= r <= rowToCol.Length
      invariant PrunedUpTo(rowToCol[..], a, b, r)
      invariant Inverses(rowToCol[..], colToRow[..])
      invariant Totalled(matrix, b, r, totalWeight, matchCount)
    {
      totalWeight, matchCount := VisitRow(matrix, prune, rowToCol, colToRow, r, totalWeight, matchCount, a, b);
      r := r + 1;
    }
    assert rowToCol[..] == b;
  }

  /** Prices of one side, back in 0-indexed form and in the sign of the matrix. */
  method ExportDuals(prices: array<real>, maximize: bool) returns (duals: seq<real>)
    requires prices.Length >= 1
    ensures |duals| == prices.Length - 1
    ensures forall i :: 0 <= i < |duals| ==> duals[i] == CostOf(maximize, prices[i + 1])
  {
    var out := new real[prices.Length - 1](_ => 0.0);
    var i := 0;
    while i < out.Length
      invariant 0 <= i <= out.Length
      invariant forall k :: 0 <= k < i ==> out[k] == CostOf(maximize, prices[k + 1])
    {
      out[i] := CostOf(maximize, prices[i + 1]);
      i := i + 1;
    }
    duals := out[..];
  }

  // ---- From the solver's invariant to the certificate ----

  lemma SettledWide(cost: seq<seq<real>>, matrix: Matrix, rows: nat, cols: nat, maximize: bool, u: seq<real>,
                    v: seq<real>,
                    p: seq<int>, col: seq<int>, rowDuals: seq<real>, colDuals: seq<real>)
    requires Rectangular(matrix, rows, cols) && rows <= cols && Encodes(cost, matrix, rows, cols, maximize)
    requires Settled(cost, rows, cols, u, v, p, col, rows)
    requires |rowDuals| == rows && forall i :: 0 <= i < rows ==> rowDuals[i] == CostOf(maximize, u[i + 1])
    requires |colDuals| == cols && forall j :: 0 <= j < cols ==> colDuals[j] == CostOf(maximize, v[j + 1])
    ensures var a := RowChoice(p, col, rows, cols);
      Complete(a, rows, cols) && Certified(matrix, rows, cols, maximize, rowDuals, colDuals, a)
  {
    var a := RowChoice(p, col, rows, cols);
    forall i, j | 0 <= i < rows && 0 <= j < cols
      ensures Gain(maximize, rowDuals[i] + colDuals[j]) >= Gain(maximize, matrix[i][j])
    {
      assert Reduced(cost, u, v, i + 1, j + 1) >= 0.0;
    }
    forall i | 0 <= i < rows
      ensures rowDuals[i] + colDuals[a[i]] == matrix[i][a[i]]
    {
      assert Reduced(cost, u, v, p[col[i + 1]], col[i + 1]) == 0.0;
    }
    forall j | 0 <= j < cols && p[j + 1] != 0
      ensures j in Covered(a, rows)
    {
      assert a[p[j + 1] - 1] == j;
    }
  }

  lemma SettledTall(cost: seq<seq<real>>, matrix: Matrix, rows: nat, cols: nat, maximize: bool, u: seq<real>,
                    v: seq<real>,
                    p: seq<int>, col: seq<int>, rowDuals: seq<real>, colDuals: seq<real>)
    requires Rectangular(matrix, rows, cols) && rows > cols && Encodes(cost, matrix, rows, cols, maximize)
    requires Settled(cost, cols, rows, u, v, p, col, cols)
    requires |rowDuals| == rows && forall i :: 0 <= i < rows ==> rowDuals[i] == CostOf(maximize, v[i + 1])
    requires |colDuals| == cols && forall j :: 0 <= j < cols ==> colDuals[j] == CostOf(maximize, u[j + 1])
    ensures var a := RowChoice(p, col, rows, cols);
      Complete(a, rows, cols) && Certified(matrix, rows, cols, maximize, rowDuals, colDuals, a)
  {
    var a := RowChoice(p, col, rows, cols);
    forall i, j | 0 <= i < rows && 0 <= j < cols
      ensures Gain(maximize, rowDuals[i] + colDuals[j]) >= Gain(maximize, matrix[i][j])
    {
      assert Reduced(cost, u, v, j + 1, i + 1) >= 0.0;
    }
    forall i | 0 <= i < rows && a[i] != -1
      ensures rowDuals[i] + colDuals[a[i]] == matrix[i][a[i]]
    {
      assert Reduced(cost, u, v, p[i + 1], i + 1) == 0.0;
    }
    forall c | 0 <= c < cols
      ensures c in Covered(a, rows)
    {
      assert p[col[c + 1]] == c + 1;
      assert a[col[c + 1] - 1] == c;
    }
  }

  lemma ChoicesAreInverses(p: seq<int>, col: seq<int>, rows: nat, cols: nat)
    requires if rows > cols then Holds(p, col, cols, rows, 1, cols) else Holds(p, col, rows, cols, 1, rows)
    ensures Inverses(RowChoice(p, col, rows, cols), ColChoice(p, col, rows, cols))
  {
  }

  /** The solver's choices and the prices that come out with them. */
  ghost predicate Solves(cost: seq<seq<real>>, n: nat, m: nat, u: array<real>, v: array<real>, p: seq<int>,
                         col: seq<int>)
    reads u, v
  {
    Settled(cost, n, m, u[..], v[..], p, col, n)
  }

  /** The prices of both sides; they certify the solver's choices. */
  method ExportPrices(ghost cost: seq<seq<real>>, ghost matrix: Matrix, rows: nat, cols: nat, maximize: bool,
                      u: array<real>, v: array<real>, ghost p: seq<int>, ghost col: seq<int>)
    returns (rowDuals: seq<real>, colDuals: seq<real>)
    requires Rectangular(matrix, rows, cols) && Encodes(cost, matrix, rows, cols, maximize)
    requires if rows > cols then Solves(cost, cols, rows, u, v, p, col) else Solves(cost, rows, cols, u, v, p, col)
    ensures var a := RowChoice(p, col, rows, cols);
      && Certified(matrix, rows, cols, maximize, rowDuals, colDuals, a)
      && Optimal(matrix, rows, cols, maximize, a) && Sum(rowDuals) + Sum(colDuals) == Weight(matrix, a)
  {
    if rows > cols {
      rowDuals := ExportDuals(v, maximize);
      colDuals := ExportDuals(u, maximize);
      SettledTall(cost, matrix, rows, cols, maximize, u[..], v[..], p, col, rowDuals, colDuals);
    } else {
      rowDuals := ExportDuals(u, maximize);
      colDuals := ExportDuals(v, maximize);
      SettledWide(cost, matrix, rows, cols, maximize, u[..], v[..], p, col, rowDuals, colDuals);
    }
    CertifiedIsOptimal(matrix, rows, cols, maximize, rowDuals, colDuals, RowChoice(p, col, rows, cols));
  }

  // ---- The solver ----

  /** First row whose length differs from cols, if any. */
  method CheckRows(matrix: Matrix, cols: nat) returns (bad: Option<nat>)
    ensures bad == None <==> Rectangular(matrix, |matrix|, cols)
    ensures bad.Some? ==> bad.value < |matrix| && |matrix[bad.value]| != cols
    ensures bad.Some? ==> forall i :: 0 <= i < bad.value ==> |matrix[i]| == cols
  {
    var i := 0;
    while i < |matrix|
      invariant 0 <= i <= |matrix|
      invariant forall k :: 0 <= k < i ==> |matrix[k]| == cols
    {
      if |matrix[i]| != cols {
        return Some(i);
      }
      i := i + 1;
    }
    return None;
  }

  /** complete is best in the sense asked for; the answer keeps its pairs, except that a maximization which bars losses
      leaves the rows of negative pairs idle; and the two tables name the same pairs. */
  ghost predicate Answers(matrix: Matrix, maximize: bool, allowNegative: bool, r: LapAssignment, complete: Assignment)
    requires |matrix| > 0 && Rectangular(matrix, |matrix|, |matrix[0]|)
  {
    var rows, cols := |matrix|, |matrix[0]|;
    && Complete(complete, rows, cols)
    && (maximize ==> forall b :: Complete(b, rows, cols) ==> Weight(matrix, b) <= Weight(matrix, complete))
    && (!maximize ==> forall b :: Complete(b, rows, cols) ==> Weight(matrix, b) >= Weight(matrix, complete))
    && |r.rowToCol| == rows && |r.colToRow| == cols
    && (forall i :: 0 <= i < rows ==>
          (r.rowToCol[i] == complete[i] || r.rowToCol[i] == -1)
          && (r.rowToCol[i] == -1 <==>
                complete[i] == -1 || (maximize && !allowNegative && matrix[i][complete[i]] < 0.0)))
    && (forall i :: 0 <= i < rows && r.rowToCol[i] != -1 ==> r.colToRow[r.rowToCol[i]] == i)
    && forall c :: 0 <= c < cols && r.colToRow[c] != -1 ==>
         0 <= r.colToRow[c] < rows && r.rowToCol[r.colToRow[c]] == c
  }

  lemma AnswersRead(matrix: Matrix, maximize: bool, allowNegative: bool, r: LapAssignment, complete: Assignment)
    requires |matrix| > 0 && Rectangular(matrix, |matrix|, |matrix[0]|)
    requires Optimal(matrix, |matrix|, |matrix[0]|, maximize, complete)
    requires r.rowToCol == Pruned(matrix, complete, maximize && !allowNegative)
    requires |r.colToRow| == |matrix[0]| && Inverses(r.rowToCol, r.colToRow)
    ensures Answers(matrix, maximize, allowNegative, r, complete)
  {
  }

  /** complete is the assignment found before pruning: it is optimal among all complete assignments, the duals
      certify it and sum to its weight, and the returned tables are exactly its unpruned pairs. passes counts the
      double loops over the columns, which is what the running time is made of. */
  method SolveLAP(matrix: Matrix, maximize: bool, allowNegative: bool)
    returns (r: Result<LapAssignment, LapError>, ghost complete: Assignment, ghost passes: nat)
    ensures |matrix| == 0 || |matrix[0]| == 0 <==> r == Err(EmptyMatrix)
    ensures |matrix| > 0 && |matrix[0]| > 0 && !Rectangular(matrix, |matrix|, |matrix[0]|) ==>
      && r.Err? && r.error.DimensionMismatch? && r.error.row < |matrix| && |matrix[r.error.row]| != |matrix[0]|
      && forall i :: 0 <= i < r.error.row ==> |matrix[i]| == |matrix[0]|
    ensures r.Ok? <==> |matrix| > 0 && |matrix[0]| > 0 && Rectangular(matrix, |matrix|, |matrix[0]|)
    ensures r.Ok? ==> FewPasses(passes, ShorterSide(|matrix|, |matrix[0]|))
    ensures r.Ok? ==> Answers(matrix, maximize, allowNegative, r.value, complete)
    ensures r.Ok? ==>
      var rows, cols := |matrix|, |matrix[0]|;
      && Optimal(matrix, rows, cols, maximize, complete)
      && Certified(matrix, rows, cols, maximize, r.value.rowDuals, r.value.colDuals, complete)
      && Sum(r.value.rowDuals) + Sum(r.value.colDuals) == Weight(matrix, complete)
      && r.value.rowToCol == Pruned(matrix, complete, maximize && !allowNegative)
      && |r.value.colToRow| == cols && Inverses(r.value.rowToCol, r.value.colToRow)
      && r.value.totalWeight == Weight(matrix, r.value.rowToCol)
      && r.value.matchCount == MatchedTo(r.value.rowToCol, rows)
  {
    complete, passes := [], 0;
    var rows := |matrix|;
    if rows == 0 {
      return Err(EmptyMatrix), complete, passes;
    }
    var cols := |matrix[0]|;
    if cols == 0 {
      return Err(EmptyMatrix), complete, passes;
    }
    var bad := CheckRows(matrix, cols);
    if bad.Some? {
      return Err(DimensionMismatch(bad.value)), complete, passes;
    }
    var transposed := rows > cols;
    var n, m := if transposed then cols else rows, if transposed then rows else cols;
    var cost := BuildCost(matrix, rows, cols, maximize);
    var u, v, p, col, k := AugmentRows(cost, n, m);
    passes := k;
    var rowToCol, colToRow := Extract(p, col, rows, cols);
    complete := rowToCol[..];
    ChoicesAreInverses(p[..], col, rows, cols);
    var rowDuals, colDuals := ExportPrices(cost, matrix, rows, cols, maximize, u, v, p[..], col);
    var totalWeight, matchCount := Prune(matrix, maximize && !allowNegative, rowToCol, colToRow);
    var answer := LapAssignment(rowToCol[..], colToRow[..], totalWeight, matchCount, rowDuals, colDuals);
    AnswersRead(matrix, maximize, allowNegative, answer, complete);
    r := Ok(answer);
  }
}
