/** From complete assignments to partial ones: extension, pruning, and the lexicographic optimum
    that a large negative sentinel buys. */
module PartialAssignments {
  import opened Pigeonhole
  import opened RealSums
  import opened Assignments
  import opened Lap

  // ---- Every one-to-one assignment extends to a complete one ----

  lemma {:induction false} MatchedCounts(a: Assignment, rows: nat, cols: nat, k: nat)
    requires OneToOne(a, rows, cols) && k <= rows
    ensures MatchedTo(a, k) == |Covered(a, k)| <= k
  {
    if k == 0 {
      assert Covered(a, 0) == {};
    } else {
      MatchedCounts(a, rows, cols, k - 1);
      CoveredStep(a, rows, cols, k);
    }
  }

  /** A complete assignment matches min(rows, cols) pairs, and no one-to-one assignment matches more. */
  lemma {:induction false} CompleteIsLargest(a: Assignment, rows: nat, cols: nat)
    requires OneToOne(a, rows, cols)
    ensures MatchedTo(a, rows) <= ShorterSide(rows, cols)
    ensures Complete(a, rows, cols) ==> MatchedTo(a, rows) == ShorterSide(rows, cols)
  {
    MatchedCounts(a, rows, cols, rows);
    SubsetCard(Covered(a, rows), Below(cols));
    if Complete(a, rows, cols) {
      if rows > cols {
        assert Covered(a, rows) == Below(cols);
      } else {
        AllMatched(a, rows);
      }
    }
  }

  lemma {:induction false} AllMatched(a: Assignment, k: nat)
    requires k <= |a| && forall r :: 0 <= r < k ==> a[r] != -1
    ensures MatchedTo(a, k) == k
  {
    if k > 0 {
      AllMatched(a, k - 1);
    }
  }

  lemma {:induction false} AllMatchedConverse(a: Assignment, k: nat, r: nat)
    requires r < k <= |a| && a[r] == -1
    ensures MatchedTo(a, k) < k
  {
    if r < k - 1 {
      AllMatchedConverse(a, k - 1, r);
    } else {
      MatchedAtMost(a, k - 1);
    }
  }

  lemma {:induction false} MatchedAtMost(a: Assignment, k: nat)
    requires k <= |a|
    ensures MatchedTo(a, k) <= k
  {
    if k > 0 {
      MatchedAtMost(a, k - 1);
    }
  }

  /** An incomplete assignment leaves a row and a column free at the same time. */
  lemma FreePair(a: Assignment, rows: nat, cols: nat) returns (r: nat, c: nat)
    requires OneToOne(a, rows, cols) && !Complete(a, rows, cols)
    ensures r < rows && a[r] == -1 && c < cols && c !in Covered(a, rows)
  {
    MatchedCounts(a, rows, cols, rows);
    if forall k :: 0 <= k < rows ==> a[k] != -1 {
      AllMatched(a, rows);
      SubsetCard(Covered(a, rows), Below(cols));
    }
    r :| 0 <= r < rows && a[r] == -1;
    AllMatchedConverse(a, rows, r);
    if forall k :: 0 <= k < cols ==> k in Covered(a, rows) {
      SubsetCard(Below(cols), Covered(a, rows));
    }
    c :| 0 <= c < cols && c !in Covered(a, rows);
  }

  lemma {:induction false} WeightAssign(matrix: Matrix, a: Assignment, r: nat, c: nat, k: nat)
    requires |a| == |matrix| && (forall i :: 0 <= i < |a| ==> -1 <= a[i] < |matrix[i]|)
    requires r < |a| && a[r] == -1 && c < |matrix[r]| && k <= |a|
    ensures WeightTo(matrix, a[r := c], k) == WeightTo(matrix, a, k) + (if r < k then matrix[r][c] else 0.0)
    ensures MatchedTo(a[r := c], k) == MatchedTo(a, k) + (if r < k then 1 else 0)
  {
    if k > 0 {
      WeightAssign(matrix, a, r, c, k - 1);
    }
  }

  lemma AssignKeepsOneToOne(a: Assignment, rows: nat, cols: nat, r: nat, c: nat)
    requires OneToOne(a, rows, cols) && r < rows && a[r] == -1 && c < cols && c !in Covered(a, rows)
    ensures OneToOne(a[r := c], rows, cols)
  {
  }

  /** If no entry is below -loss, completing an assignment costs at most loss per added pair. */
  lemma Extend(matrix: Matrix, rows: nat, cols: nat, a: Assignment, loss: real) returns (b: Assignment)
    requires Rectangular(matrix, rows, cols) && OneToOne(a, rows, cols)
    requires forall i, j :: 0 <= i < rows && 0 <= j < cols ==> matrix[i][j] >= -loss
    ensures Complete(b, rows, cols)
    ensures MatchedTo(a, rows) <= MatchedTo(b, rows)
    ensures Weight(matrix, b) >= Weight(matrix, a) - Times(MatchedTo(b, rows) - MatchedTo(a, rows), loss)
    decreases rows - MatchedTo(a, rows)
  {
    if Complete(a, rows, cols) {
      b := a;
    } else {
      var r, c := FreePair(a, rows, cols);
      AssignKeepsOneToOne(a, rows, cols, r, c);
      WeightAssign(matrix, a, r, c, rows);
      MatchedAtMost(a[r := c], rows);
      b := Extend(matrix, rows, cols, a[r := c], loss);
    }
  }

  // ---- Pruning ----

  /** The matrix with losses replaced by zero. */
  ghost function Raised(matrix: Matrix, rows: nat, cols: nat): (raised: Matrix)
    requires Rectangular(matrix, rows, cols)
    ensures Rectangular(raised, rows, cols)
    ensures forall i, j :: 0 <= i < rows && 0 <= j < cols ==>
      raised[i][j] == if matrix[i][j] < 0.0 then 0.0 else matrix[i][j]
  {
    seq(rows, i requires 0 <= i < rows => RaisedRow(matrix[i]))
  }

  ghost function RaisedRow(row: seq<real>): (raised: seq<real>)
    ensures |raised| == |row| && forall j :: 0 <= j < |row| ==> raised[j] == if row[j] < 0.0 then 0.0 else row[j]
  {
    seq(|row|, j requires 0 <= j < |row| => if row[j] < 0.0 then 0.0 else row[j])
  }

  /** What is left after pruning is what the assignment is worth when losses count as nothing, and no less than it was
      worth before. */
  lemma {:induction false} PrunedWeight(matrix: Matrix, rows: nat, cols: nat, a: Assignment, k: nat)
    requires Rectangular(matrix, rows, cols) && OneToOne(a, rows, cols) && k <= rows
    ensures WeightTo(matrix, Pruned(matrix, a, true), k) == WeightTo(Raised(matrix, rows, cols), a, k)
    ensures WeightTo(matrix, Pruned(matrix, a, true), k) >= WeightTo(matrix, a, k)
  {
    if k > 0 {
      PrunedWeight(matrix, rows, cols, a, k - 1);
    }
  }

  lemma PrunedIsOneToOne(matrix: Matrix, rows: nat, cols: nat, a: Assignment)
    requires Rectangular(matrix, rows, cols) && OneToOne(a, rows, cols)
    ensures OneToOne(Pruned(matrix, a, true), rows, cols)
  {
  }

  /** No one-to-one assignment, complete or not, is worth more than b. */
  ghost predicate BestOfAll(matrix: Matrix, rows: nat, cols: nat, b: Assignment)
    requires Rectangular(matrix, rows, cols)
  {
    OneToOne(b, rows, cols) && forall c :: OneToOne(c, rows, cols) ==> Weight(matrix, c) <= Weight(matrix, b)
  }

  lemma RaisedOptimumIsBest(matrix: Matrix, rows: nat, cols: nat, a: Assignment, b: Assignment)
    requires Rectangular(matrix, rows, cols) && OneToOne(b, rows, cols)
    requires Optimal(Raised(matrix, rows, cols), rows, cols, true, a)
    ensures Weight(matrix, b) <= Weight(matrix, Pruned(matrix, a, true))
  {
    var raised := Raised(matrix, rows, cols);
    PrunedWeight(matrix, rows, cols, a, rows);
    PrunedWeight(matrix, rows, cols, b, rows);
    var c := Extend(raised, rows, cols, b, 0.0);
    TimesIsProduct(MatchedTo(c, rows) - MatchedTo(b, rows), 0.0);
    assert Weight(raised, c) <= Weight(raised, a);
  }

  lemma BestIsRaisedOptimum(matrix: Matrix, rows: nat, cols: nat, a: Assignment, b: Assignment)
    requires Rectangular(matrix, rows, cols) && Complete(a, rows, cols) && Complete(b, rows, cols)
    requires BestOfAll(matrix, rows, cols, Pruned(matrix, a, true))
    ensures Weight(Raised(matrix, rows, cols), b) <= Weight(Raised(matrix, rows, cols), a)
  {
    PrunedWeight(matrix, rows, cols, a, rows);
    PrunedWeight(matrix, rows, cols, b, rows);
    PrunedIsOneToOne(matrix, rows, cols, b);
  }

  /** Pruning a complete assignment leaves the best of all one-to-one assignments exactly when the assignment was
      optimal for the matrix with losses replaced by zero. */
  lemma PrunedIsBestIff(matrix: Matrix, rows: nat, cols: nat, a: Assignment)
    requires Rectangular(matrix, rows, cols) && Complete(a, rows, cols)
    ensures BestOfAll(matrix, rows, cols, Pruned(matrix, a, true))
       <==> Optimal(Raised(matrix, rows, cols), rows, cols, true, a)
  {
    var raised := Raised(matrix, rows, cols);
    PrunedIsOneToOne(matrix, rows, cols, a);
    if Optimal(raised, rows, cols, true, a) {
      forall b | OneToOne(b, rows, cols)
        ensures Weight(matrix, b) <= Weight(matrix, Pruned(matrix, a, true))
      {
        RaisedOptimumIsBest(matrix, rows, cols, a, b);
      }
    }
    if BestOfAll(matrix, rows, cols, Pruned(matrix, a, true)) {
      forall b | Complete(b, rows, cols)
        ensures Weight(raised, b) <= Weight(raised, a)
      {
        BestIsRaisedOptimum(matrix, rows, cols, a, b);
      }
    }
  }

  /** In particular when there are no losses. */
  lemma PrunedIsBestWithoutLosses(matrix: Matrix, rows: nat, cols: nat, a: Assignment)
    requires Rectangular(matrix, rows, cols) && Optimal(matrix, rows, cols, true, a)
    requires forall i, j :: 0 <= i < rows && 0 <= j < cols ==> matrix[i][j] >= 0.0
    ensures BestOfAll(matrix, rows, cols, Pruned(matrix, a, true))
  {
    var raised := Raised(matrix, rows, cols);
    forall i | 0 <= i < rows
      ensures raised[i] == matrix[i]
    {
    }
    assert raised == matrix;
    PrunedIsBestIff(matrix, rows, cols, a);
  }

  lemma TwoRowWeight(matrix: Matrix, a: Assignment)
    requires Rectangular(matrix, 2, 2) && OneToOne(a, 2, 2)
    ensures Weight(matrix, a)
       == (if a[0] == -1 then 0.0 else matrix[0][a[0]]) + (if a[1] == -1 then 0.0 else matrix[1][a[1]])
  {
    assert WeightTo(matrix, a, 1) == WeightTo(matrix, a, 0) + (if a[0] == -1 then 0.0 else matrix[0][a[0]]);
  }

  /** With mixed signs it need not be: here every optimal complete assignment takes the pairs worth 1 and 1,
      while leaving row 1 idle would have kept the pair worth 10. */
  lemma PrunedIsNotBestInGeneral() returns (matrix: Matrix, b: Assignment)
    ensures Rectangular(matrix, 2, 2) && OneToOne(b, 2, 2)
    ensures exists a :: Optimal(matrix, 2, 2, true, a)
    ensures forall a :: Optimal(matrix, 2, 2, true, a) ==> Weight(matrix, Pruned(matrix, a, true)) < Weight(matrix, b)
  {
    matrix := [[10.0, 1.0], [1.0, -100.0]];
    b := [0, -1];
    var anti: Assignment := [1, 0];
    TwoRowWeight(matrix, b);
    TwoRowWeight(matrix, anti);
    forall a | Complete(a, 2, 2)
      ensures a == anti || Weight(matrix, a) == -90.0
    {
      TwoRowWeight(matrix, a);
    }
    assert Optimal(matrix, 2, 2, true, anti);
    forall a | Optimal(matrix, 2, 2, true, a)
      ensures Pruned(matrix, a, true) == anti
    {
      assert Weight(matrix, a) >= 2.0;
    }
  }

  // ---- The sentinel ----

  /** Score of a driver-load pair that is no candidate. */
  const INFEASIBLE_SCORE_SENTINEL := -1000000000.0

  /** Every entry is the sentinel or a score between lowest and top, and a full set of score ranges weighs less than one
      sentinel. */
  ghost predicate SentinelMatrix(matrix: Matrix, rows: nat, cols: nat, lowest: real, top: real) {
    && Rectangular(matrix, rows, cols)
    && (forall i, j :: 0 <= i < rows && 0 <= j < cols ==>
          matrix[i][j] == INFEASIBLE_SCORE_SENTINEL || lowest <= matrix[i][j] <= top)
    && lowest <= 0.0 <= top && Times(ShorterSide(rows, cols), top - lowest) < -INFEASIBLE_SCORE_SENTINEL
  }

  /** The assignment without its sentinel pairs. */
  ghost function Kept(matrix: Matrix, a: Assignment): (b: Assignment)
    requires |a| == |matrix| && forall r :: 0 <= r < |a| ==> -1 <= a[r] < |matrix[r]|
    ensures |b| == |a| && forall r :: 0 <= r < |a| ==>
      b[r] == if a[r] != -1 && matrix[r][a[r]] == INFEASIBLE_SCORE_SENTINEL then -1 else a[r]
  {
    seq(|a|, r requires 0 <= r < |a| =>
          if a[r] != -1 && matrix[r][a[r]] == INFEASIBLE_SCORE_SENTINEL then -1 else a[r])
  }

  lemma {:induction false} KeptWeight(matrix: Matrix, rows: nat, cols: nat, a: Assignment, k: nat)
    requires Rectangular(matrix, rows, cols) && OneToOne(a, rows, cols) && k <= rows
    ensures MatchedTo(Kept(matrix, a), k) <= MatchedTo(a, k)
    ensures WeightTo(matrix, a, k) == WeightTo(matrix, Kept(matrix, a), k)
      + INFEASIBLE_SCORE_SENTINEL * (MatchedTo(a, k) as real - MatchedTo(Kept(matrix, a), k) as real)
  {
    if k > 0 {
      KeptWeight(matrix, rows, cols, a, k - 1);
    }
  }

  lemma {:induction false} KeptBounds(matrix: Matrix, rows: nat, cols: nat, lowest: real, top: real, a: Assignment,
                                      k: nat)
    requires SentinelMatrix(matrix, rows, cols, lowest, top) && OneToOne(a, rows, cols) && k <= rows
    ensures -Times(MatchedTo(Kept(matrix, a), k), -lowest) <= WeightTo(matrix, Kept(matrix, a), k)
    ensures WeightTo(matrix, Kept(matrix, a), k) <= Times(MatchedTo(Kept(matrix, a), k), top)
  {
    if k > 0 {
      KeptBounds(matrix, rows, cols, lowest, top, a, k - 1);
    }
  }

  /** size pairs in all, kept (resp. rival) of them candidates; one sentinel outweighs all score ranges. */
  lemma SentinelDominates(size: nat, kept: nat, rival: nat, lowest: real, top: real, keptWeight: real,
                          rivalWeight: real)
    requires kept <= size && rival <= size && lowest <= 0.0 <= top
    requires Times(size, top - lowest) < -INFEASIBLE_SCORE_SENTINEL
    requires keptWeight <= Times(kept, top) && -Times(rival, -lowest) <= rivalWeight
    requires rivalWeight + INFEASIBLE_SCORE_SENTINEL * (size as real - rival as real)
      <= keptWeight + INFEASIBLE_SCORE_SENTINEL * (size as real - kept as real)
    ensures rival <= kept
    ensures rival == kept ==> rivalWeight <= keptWeight
  {
    if rival > kept {
      TimesMonotone(kept, rival, top, top);
      TimesOfSum(rival, top, -lowest);
      assert top + -lowest == top - lowest;
      TimesMonotone(rival, size, top - lowest, top - lowest);
      assert false;
    }
  }

  /** The best complete assignment weighs at least b with its missing pairs filled by sentinels. */
  lemma {:induction false} OptimumBeatsFilled(matrix: Matrix, rows: nat, cols: nat, lowest: real, top: real,
                                              a: Assignment, b: Assignment)
    requires SentinelMatrix(matrix, rows, cols, lowest, top) && Optimal(matrix, rows, cols, true, a)
    requires OneToOne(b, rows, cols)
    ensures var size := ShorterSide(rows, cols);
      Weight(matrix, a) >= Weight(matrix, b) + INFEASIBLE_SCORE_SENTINEL * (size as real - MatchedTo(b, rows) as real)
  {
    LowestAboveSentinel(matrix, rows, cols, lowest, top);
    var c := Extend(matrix, rows, cols, b, -INFEASIBLE_SCORE_SENTINEL);
    CompleteIsLargest(c, rows, cols);
    TimesIsProduct(MatchedTo(c, rows) - MatchedTo(b, rows), -INFEASIBLE_SCORE_SENTINEL);
    assert Weight(matrix, a) >= Weight(matrix, c);
  }

  lemma LowestAboveSentinel(matrix: Matrix, rows: nat, cols: nat, lowest: real, top: real)
    requires SentinelMatrix(matrix, rows, cols, lowest, top)
    ensures forall i, j :: 0 <= i < rows && 0 <= j < cols ==> matrix[i][j] >= INFEASIBLE_SCORE_SENTINEL
  {
    if rows > 0 && cols > 0 {
      TimesMonotone(1, ShorterSide(rows, cols), top - lowest, top - lowest);
      assert Times(1, top - lowest) == Times(0, top - lowest) + (top - lowest);
    }
  }

  lemma {:induction false} KeptOfComplete(matrix: Matrix, rows: nat, cols: nat, lowest: real, top: real, a: Assignment)
    requires SentinelMatrix(matrix, rows, cols, lowest, top) && Complete(a, rows, cols)
    ensures var size := ShorterSide(rows, cols);
      var kept := MatchedTo(Kept(matrix, a), rows);
      && OneToOne(Kept(matrix, a), rows, cols) && kept <= size
      && Weight(matrix, Kept(matrix, a)) <= Times(kept, top)
      && Weight(matrix, a)
         == Weight(matrix, Kept(matrix, a)) + INFEASIBLE_SCORE_SENTINEL * (size as real - kept as real)
  {
    KeptWeight(matrix, rows, cols, a, rows);
    KeptBounds(matrix, rows, cols, lowest, top, a, rows);
    CompleteIsLargest(a, rows, cols);
  }

  /** Every pair of b is a candidate. */
  ghost predicate OnlyCandidates(matrix: Matrix, b: Assignment)
    requires |b| == |matrix| && forall r :: 0 <= r < |b| ==> -1 <= b[r] < |matrix[r]|
  {
    forall r :: 0 <= r < |b| && b[r] != -1 ==> matrix[r][b[r]] != INFEASIBLE_SCORE_SENTINEL
  }

  lemma {:induction false} CandidateBounds(matrix: Matrix, rows: nat, cols: nat, lowest: real, top: real, b: Assignment)
    requires SentinelMatrix(matrix, rows, cols, lowest, top) && OneToOne(b, rows, cols) && OnlyCandidates(matrix, b)
    ensures -Times(MatchedTo(b, rows), -lowest) <= Weight(matrix, b)
    ensures MatchedTo(b, rows) <= ShorterSide(rows, cols)
  {
    assert Kept(matrix, b) == b;
    KeptBounds(matrix, rows, cols, lowest, top, b, rows);
    CompleteIsLargest(b, rows, cols);
  }

  /** A best complete assignment, stripped of its sentinel pairs, first matches as many candidate pairs as any
      one-to-one assignment can, and then has the best total among those that match as many. */
  lemma {:induction false} LexicographicOptimum(matrix: Matrix, rows: nat, cols: nat, lowest: real, top: real,
                                                a: Assignment, b: Assignment)
    requires SentinelMatrix(matrix, rows, cols, lowest, top) && Optimal(matrix, rows, cols, true, a)
    requires OneToOne(b, rows, cols) && OnlyCandidates(matrix, b)
    ensures OneToOne(Kept(matrix, a), rows, cols)
    ensures MatchedTo(b, rows) <= MatchedTo(Kept(matrix, a), rows)
    ensures MatchedTo(b, rows) == MatchedTo(Kept(matrix, a), rows) ==>
      Weight(matrix, b) <= Weight(matrix, Kept(matrix, a))
  {
    OptimumBeatsFilled(matrix, rows, cols, lowest, top, a, b);
    KeptOfComplete(matrix, rows, cols, lowest, top, a);
    CandidateBounds(matrix, rows, cols, lowest, top, b);
    var size := ShorterSide(rows, cols);
    var kept := Kept(matrix, a);
    SentinelDominates(size, MatchedTo(kept, rows), MatchedTo(b, rows), lowest, top, Weight(matrix, kept),
                      Weight(matrix, b));
  }
}
