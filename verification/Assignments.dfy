/** One-to-one assignments of rows to columns, their weight, and the dual certificates that prove them best. */
module Assignments {
  import opened RealSums

  type Matrix = seq<seq<real>>

  /** Row r goes to column a[r]; -1 leaves the row unassigned. */
  type Assignment = seq<int>

  function ShorterSide(rows: nat, cols: nat): nat {
    if rows <= cols then rows else cols
  }

  ghost predicate Rectangular(matrix: Matrix, rows: nat, cols: nat) {
    |matrix| == rows && forall i :: 0 <= i < rows ==> |matrix[i]| == cols
  }

  ghost predicate OneToOne(a: Assignment, rows: nat, cols: nat) {
    && |a| == rows
    && (forall r :: 0 <= r < rows ==> -1 <= a[r] < cols)
    && (forall r, s :: 0 <= r < s < rows && a[r] == a[s] ==> a[r] == -1)
  }

  /** Columns taken by the first k rows. */
  ghost function Covered(a: Assignment, k: nat): set<int>
    requires k <= |a|
  {
    set r | 0 <= r < k && a[r] != -1 :: a[r]
  }

  /** Every line of the shorter side is assigned. */
  ghost predicate Complete(a: Assignment, rows: nat, cols: nat) {
    && OneToOne(a, rows, cols)
    && (rows <= cols ==> forall r :: 0 <= r < rows ==> a[r] != -1)
    && (rows > cols ==> forall c :: 0 <= c < cols ==> c in Covered(a, rows))
  }

  function WeightTo(matrix: Matrix, a: Assignment, k: nat): real
    requires k <= |a| == |matrix|
    requires forall r :: 0 <= r < |a| ==> -1 <= a[r] < |matrix[r]|
  {
    if k == 0 then 0.0
    else WeightTo(matrix, a, k - 1) + (if a[k - 1] == -1 then 0.0 else matrix[k - 1][a[k - 1]])
  }

  function Weight(matrix: Matrix, a: Assignment): real
    requires |a| == |matrix|
    requires forall r :: 0 <= r < |a| ==> -1 <= a[r] < |matrix[r]|
  {
    WeightTo(matrix, a, |a|)
  }

  /** Number of assigned rows among the first k. */
  function MatchedTo(a: Assignment, k: nat): nat
    requires k <= |a|
  {
    if k == 0 then 0 else MatchedTo(a, k - 1) + (if a[k - 1] == -1 then 0 else 1)
  }

  /** x as a gain: the value itself when maximizing, its opposite when minimizing. */
  function Gain(maximize: bool, x: real): real {
    if maximize then x else -x
  }

  /** The complete assignment a is at least as good as every other complete assignment. */
  ghost predicate Optimal(matrix: Matrix, rows: nat, cols: nat, maximize: bool, a: Assignment)
    requires Rectangular(matrix, rows, cols)
  {
    && Complete(a, rows, cols)
    && forall b :: Complete(b, rows, cols) ==> Gain(maximize, Weight(matrix, b)) <= Gain(maximize, Weight(matrix, a))
  }

  /** Row and column prices that cover every entry, are tight on a, and have the sign of a slack price
      on the longer side, zero where a leaves a line of it unassigned. */
  ghost predicate Certified(matrix: Matrix, rows: nat, cols: nat, maximize: bool,
                            rowDuals: seq<real>, colDuals: seq<real>, a: Assignment)
    requires Rectangular(matrix, rows, cols)
  {
    && |rowDuals| == rows && |colDuals| == cols
    && OneToOne(a, rows, cols)
    && (forall i, j :: 0 <= i < rows && 0 <= j < cols ==>
          Gain(maximize, rowDuals[i] + colDuals[j]) >= Gain(maximize, matrix[i][j]))
    && (forall i :: 0 <= i < rows && a[i] != -1 ==> rowDuals[i] + colDuals[a[i]] == matrix[i][a[i]])
    && (rows <= cols ==> forall j :: 0 <= j < cols ==>
          Gain(maximize, colDuals[j]) >= 0.0 && (j !in Covered(a, rows) ==> colDuals[j] == 0.0))
    && (rows > cols ==> forall i :: 0 <= i < rows ==>
          Gain(maximize, rowDuals[i]) >= 0.0 && (a[i] == -1 ==> rowDuals[i] == 0.0))
  }

  // ---- Weak duality ----

  /** What the first k rows pay beyond the entries they take. */
  ghost function SlackTo(matrix: Matrix, rowDuals: seq<real>, colDuals: seq<real>, a: Assignment, k: nat): real
    requires k <= |a| == |matrix| == |rowDuals|
    requires forall r :: 0 <= r < |a| ==> -1 <= a[r] < |matrix[r]| == |colDuals|
  {
    if k == 0 then 0.0
    else SlackTo(matrix, rowDuals, colDuals, a, k - 1) + rowDuals[k - 1]
         + (if a[k - 1] == -1 then 0.0 else colDuals[a[k - 1]] - matrix[k - 1][a[k - 1]])
  }

  /** Sum of the first k prices whose index lies outside taken. */
  ghost function SumOutside(prices: seq<real>, taken: set<int>, k: nat): real
    requires k <= |prices|
  {
    if k == 0 then 0.0 else SumOutside(prices, taken, k - 1) + (if k - 1 in taken then 0.0 else prices[k - 1])
  }

  lemma {:induction false} SumOutsideTaking(prices: seq<real>, taken: set<int>, c: nat, k: nat)
    requires k <= |prices| && c < |prices| && c !in taken
    ensures SumOutside(prices, taken + {c}, k) == SumOutside(prices, taken, k) - (if c < k then prices[c] else 0.0)
  {
    if k > 0 {
      SumOutsideTaking(prices, taken, c, k - 1);
    }
  }

  lemma {:induction false} SumOutsideNothing(prices: seq<real>, k: nat)
    requires k <= |prices|
    ensures SumOutside(prices, {}, k) == SumTo(prices, k)
  {
    if k > 0 {
      SumOutsideNothing(prices, k - 1);
    }
  }

  lemma CoveredStep(a: Assignment, rows: nat, cols: nat, k: nat)
    requires OneToOne(a, rows, cols) && 0 < k <= rows
    ensures a[k - 1] == -1 ==> Covered(a, k) == Covered(a, k - 1)
    ensures a[k - 1] != -1 ==> Covered(a, k) == Covered(a, k - 1) + {a[k - 1]} && a[k - 1] !in Covered(a, k - 1)
  {
  }

  /** Total price = weight + what the rows overpay + what the untaken columns are worth. */
  lemma {:induction false} DualityGap(matrix: Matrix, rows: nat, cols: nat, rowDuals: seq<real>, colDuals: seq<real>,
                                      a: Assignment, k: nat)
    requires Rectangular(matrix, rows, cols) && OneToOne(a, rows, cols)
    requires |rowDuals| == rows && |colDuals| == cols && k <= rows
    ensures SumTo(rowDuals, k) + Sum(colDuals)
         == WeightTo(matrix, a, k) + SlackTo(matrix, rowDuals, colDuals, a, k)
          + SumOutside(colDuals, Covered(a, k), cols)
  {
    if k == 0 {
      assert Covered(a, 0) == {};
      SumOutsideNothing(colDuals, cols);
    } else {
      DualityGap(matrix, rows, cols, rowDuals, colDuals, a, k - 1);
      CoveredStep(a, rows, cols, k);
      if a[k - 1] != -1 {
        SumOutsideTaking(colDuals, Covered(a, k - 1), a[k - 1], cols);
      }
    }
  }

  lemma {:induction false} SlackSign(matrix: Matrix, rows: nat, cols: nat, maximize: bool, rowDuals: seq<real>,
                                     colDuals: seq<real>, a: Assignment, b: Assignment, k: nat)
    requires Rectangular(matrix, rows, cols) && Certified(matrix, rows, cols, maximize, rowDuals, colDuals, a)
    requires Complete(b, rows, cols) && k <= rows
    ensures Gain(maximize, SlackTo(matrix, rowDuals, colDuals, b, k)) >= 0.0
    ensures b == a ==> SlackTo(matrix, rowDuals, colDuals, b, k) == 0.0
  {
    if k > 0 {
      SlackSign(matrix, rows, cols, maximize, rowDuals, colDuals, a, b, k - 1);
    }
  }

  lemma {:induction false} OutsideSign(matrix: Matrix, rows: nat, cols: nat, maximize: bool, rowDuals: seq<real>,
                                       colDuals: seq<real>, a: Assignment, b: Assignment, k: nat)
    requires Rectangular(matrix, rows, cols) && Certified(matrix, rows, cols, maximize, rowDuals, colDuals, a)
    requires Complete(b, rows, cols) && k <= cols
    ensures Gain(maximize, SumOutside(colDuals, Covered(b, rows), k)) >= 0.0
    ensures b == a ==> SumOutside(colDuals, Covered(b, rows), k) == 0.0
  {
    if k > 0 {
      OutsideSign(matrix, rows, cols, maximize, rowDuals, colDuals, a, b, k - 1);
    }
  }

  /** Strong duality: a certified complete assignment is optimal, and all prices together sum to its weight. */
  lemma CertifiedIsOptimal(matrix: Matrix, rows: nat, cols: nat, maximize: bool, rowDuals: seq<real>,
                           colDuals: seq<real>, a: Assignment)
    requires Rectangular(matrix, rows, cols) && Complete(a, rows, cols)
    requires Certified(matrix, rows, cols, maximize, rowDuals, colDuals, a)
    ensures Optimal(matrix, rows, cols, maximize, a)
    ensures Sum(rowDuals) + Sum(colDuals) == Weight(matrix, a)
  {
    forall b | Complete(b, rows, cols)
      ensures Gain(maximize, Weight(matrix, b)) <= Gain(maximize, Sum(rowDuals) + Sum(colDuals))
      ensures b == a ==> Weight(matrix, b) == Sum(rowDuals) + Sum(colDuals)
    {
      DualityGap(matrix, rows, cols, rowDuals, colDuals, b, rows);
      SlackSign(matrix, rows, cols, maximize, rowDuals, colDuals, a, b, rows);
      OutsideSign(matrix, rows, cols, maximize, rowDuals, colDuals, a, b, cols);
    }
  }
}
