/** Cholesky factorization of a dense matrix and the triangular solves that use it. */
module Cholesky {
  import opened Wrappers
  import opened RealSums
  import opened LinearAlgebra
  import opened GramMatrices
  import opened RealProducts
  import opened DenseMatrix
  import opened CholeskyFactor

  datatype MatrixError =
    | NotSquare
    | DimensionMismatch
    | NotPositiveDefinite(index: nat, pivot: real)
    | SingularMatrix(index: nat)

  /** Inner product of the first k entries of two rows. */
  method RowProduct(l: Matrix, r: nat, s: nat, k: nat) returns (sum: real)
    requires l.Valid() && r < l.rows && s < l.rows && k <= l.cols
    ensures sum == Dot(l.Entries()[r], l.Entries()[s], k)
  {
    sum := 0.0;
    var i := 0;
    while i < k
      invariant 0 <= i <= k
      invariant sum == Dot(l.Entries()[r], l.Entries()[s], i)
    {
      sum := sum + l.At(r, i) * l.At(s, i);
      i := i + 1;
    }
  }

  method FillBelowPivot(l: Matrix, a: Matrix, j: nat)
    requires l.Valid() && a.Valid() && l.rows == l.cols == a.rows == a.cols && l.data != a.data && j < l.rows
    requires Partial(l.Entries(), a.Entries(), l.rows, j, j + 1)
    modifies l.data
    ensures Partial(l.Entries(), a.Entries(), l.rows, j + 1, j + 1)
  {
    var n := l.rows;
    assert PivotDone(l.Entries(), n, j);
    var i := j + 1;
    while i < n
      invariant j < i <= n
      invariant a.Entries() == old(a.Entries()) && Partial(l.Entries(), a.Entries(), n, j, i)
    {
      assert PivotDone(l.Entries(), n, j);
      var sumK := RowProduct(l, i, j, j);
      var x := (a.At(i, j) - sumK) / l.At(j, j);
      assert Product(x, l.At(j, j)) == a.At(i, j) - sumK;
      RowStep(l.Entries(), a.Entries(), n, j, i, x);
      l.Set(i, j, x);
      i := i + 1;
    }
    NextColumn(l.Entries(), a.Entries(), n, j);
  }

  lemma RootOfPivot(root: real -> real, pivot: real)
    requires IsSquareRoot(root) && pivot > SINGULAR
    ensures root(pivot) > 0.0 && Product(root(pivot), root(pivot)) == pivot
  {
    assert root(pivot) * root(pivot) == pivot;
  }

  /** l is lower triangular, its rows multiply to a's entries on and below the diagonal, and no pivot is near zero. */
  ghost predicate FactorReads(l: Mat, a: Mat, n: nat) {
    && Square(l, n) && Square(a, n)
    && (forall r, c :: 0 <= r < c < n ==> l[r][c] == 0.0)
    && (forall r, c :: 0 <= c <= r < n ==> Sum(Products(l[r], l[c])) == a[r][c])
    && (forall c :: 0 <= c < n ==> l[c][c] > 0.0 && l[c][c] * l[c][c] > 0.000000000000001)
  }

  lemma FactoredReads(l: Mat, a: Mat, n: nat)
    requires Factored(l, a, n)
    ensures FactorReads(l, a, n)
  {
    forall r, c | 0 <= c <= r < n
      ensures Sum(Products(l[r], l[c])) == a[r][c]
    {
      assert EntryDone(l, a, n, r, c);
      DotTail(l[r], l[c], c + 1, n);
      DotIsSum(l[r], l[c], n);
    }
    forall c | 0 <= c < n
      ensures l[c][c] > 0.0 && l[c][c] * l[c][c] > 0.000000000000001
    {
      assert PivotDone(l, n, c);
    }
  }

  /** Factors the symmetric matrix whose lower triangle is a's: the entries above the diagonal are never read. */
  method Cholesky(a: Matrix, root: real -> real) returns (r: Result<Matrix, MatrixError>)
    requires a.Valid() && IsSquareRoot(root)
    ensures r == Err(NotSquare) <==> a.rows != a.cols
    ensures a.rows == a.cols ==> (r.Ok? <==> Curved(Mirror(a.Entries(), a.rows), a.rows))
    ensures r.Ok? ==>
      && fresh(r.value) && fresh(r.value.data) && r.value.Valid() && r.value.rows == r.value.cols == a.rows
      && Factored(r.value.Entries(), a.Entries(), a.rows)
      && FactorReads(r.value.Entries(), a.Entries(), a.rows)
    ensures r.Err? && a.rows == a.cols ==>
      && r.error.NotPositiveDefinite?
      && r.error.pivot <= 0.000000000000001
      && exists l :: Stopped(l, a.Entries(), a.rows, r.error.index, r.error.pivot)
  {
    if a.rows != a.cols {
      return Err(NotSquare);
    }
    var n := a.rows;
    var l := new Matrix(n, n);
    var j := 0;
    while j < n
      invariant 0 <= j <= n && l.Valid() && l.rows == l.cols == n && fresh(l.data)
      invariant a.Entries() == old(a.Entries())
      invariant Partial(l.Entries(), a.Entries(), n, j, j)
    {
      var sum := RowProduct(l, j, j, j);
      var pivot := a.At(j, j) - sum;
      if pivot <= SINGULAR {
        assert Stopped(l.Entries(), a.Entries(), n, j, pivot);
        var x := StoppedIsNotCurved(l.Entries(), a.Entries(), n, j, pivot);
        return Err(NotPositiveDefinite(j, pivot));
      }
      RootOfPivot(root, pivot);
      PivotStep(l.Entries(), a.Entries(), n, j, root(pivot));
      l.Set(j, j, root(pivot));
      FillBelowPivot(l, a, j);
      j := j + 1;
    }
    FinishedIsCurved(l.Entries(), a.Entries(), n);
    FactoredReads(l.Entries(), a.Entries(), n);
    return Ok(l);
  }

  /** The two properties a caller of Cholesky relies on, and what they cost on an asymmetric input. */
  lemma FactorOfSymmetric(l: Mat, a: Mat, n: nat)
    requires Factored(l, a, n)
    ensures Gram(l, n, n) == a <==> Symmetric(a, n)
    ensures Symmetric(a, n) ==> PositiveDefinite(a, n)
  {
    FactorReproduces(l, a, n);
    MirrorIsIdentityOnSymmetric(a, n);
  }

  /** An asymmetric matrix is accepted; its factor reproduces another matrix. */
  lemma AsymmetricIsAccepted() returns (a: Mat, l: Mat)
    ensures Factored(l, a, 2) && !Symmetric(a, 2) && Gram(l, 2, 2) != a
  {
    a := [[1.0, 5.0], [0.0, 1.0]];
    l := [[1.0, 0.0], [0.0, 1.0]];
    assert Dot(l[0], l[0], 1) == 1.0 && Dot(l[1], l[0], 1) == 0.0;
    assert Dot(l[1], l[1], 2) == Dot(l[1], l[1], 1) + 1.0 && Dot(l[1], l[1], 1) == 0.0;
    assert PivotDone(l, 2, 0) && PivotDone(l, 2, 1);
    assert EntryDone(l, a, 2, 0, 0) && EntryDone(l, a, 2, 1, 0) && EntryDone(l, a, 2, 1, 1);
    assert a[0][1] != a[1][0];
    FactorOfSymmetric(l, a, 2);
  }

  method Transpose(m: Matrix) returns (t: Matrix)
    requires m.Valid()
    ensures fresh(t) && fresh(t.data) && t.Valid() && t.rows == m.cols && t.cols == m.rows
    ensures forall r, c :: 0 <= r < m.rows && 0 <= c < m.cols ==> t.Entries()[c][r] == m.Entries()[r][c]
  {
    t := new Matrix(m.cols, m.rows);
    var r := 0;
    while r < m.rows
      invariant 0 <= r <= m.rows && m.Entries() == old(m.Entries())
      invariant forall i, c :: 0 <= i < r && 0 <= c < m.cols ==> t.Entries()[c][i] == m.Entries()[i][c]
    {
      var c := 0;
      while c < m.cols
        invariant 0 <= c <= m.cols && m.Entries() == old(m.Entries())
        invariant forall i, k :: 0 <= i < m.rows && 0 <= k < m.cols && (i < r || (i == r && k < c)) ==>
          t.Entries()[k][i] == m.Entries()[i][k]
      {
        t.Set(c, r, m.At(r, c));
        c := c + 1;
      }
      r := r + 1;
    }
  }

  // ---- Triangular systems ----

  ghost predicate NearZero(d: real) {
    -0.000000000000001 < d < 0.000000000000001
  }

  ghost predicate Solvable(l: Mat, n: nat)
    requires Square(l, n)
  {
    forall i :: 0 <= i < n ==> !NearZero(l[i][i])
  }

  /** Row i of the lower triangle times y is b[i]. */
  ghost predicate LowerRow(l: Mat, n: nat, y: Vec, b: Vec, i: nat)
    requires Square(l, n) && i < n && i < |y| && i < |b|
  {
    Dot(l[i], y, i + 1) == b[i]
  }

  ghost predicate LowerRows(l: Mat, n: nat, y: Vec, b: Vec, i: nat) {
    Square(l, n) && |y| == |b| == n && i <= n && forall k :: 0 <= k < i ==> LowerRow(l, n, y, b, k)
  }

  lemma ForwardStep(l: Mat, n: nat, y: Vec, b: Vec, i: nat, x: real)
    requires LowerRows(l, n, y, b, i) && i < n && Dot(l[i], y, i) + x * l[i][i] == b[i]
    ensures LowerRows(l, n, y[i := x], b, i + 1)
  {
    var y' := y[i := x];
    forall k | 0 <= k <= i
      ensures LowerRow(l, n, y', b, k)
    {
      if k < i {
        assert LowerRow(l, n, y, b, k);
        DotPrefix(l[k], y, y', k + 1);
      } else {
        DotPrefix(l[i], y, y', i);
      }
    }
  }

  method RowTimes(m: Matrix, i: nat, y: array<real>, k: nat) returns (sum: real)
    requires m.Valid() && i < m.rows && k <= m.cols && k <= y.Length
    ensures sum == Dot(m.Entries()[i], y[..], k)
  {
    sum := 0.0;
    var j := 0;
    while j < k
      invariant 0 <= j <= k
      invariant sum == Dot(m.Entries()[i], y[..], j)
    {
      sum := sum + m.At(i, j) * y[j];
      j := j + 1;
    }
  }

  /** Forward substitution. Only the lower triangle of l is read. */
  method SolveLower(l: Matrix, b: seq<real>) returns (r: Result<seq<real>, MatrixError>)
    requires l.Valid()
    ensures r == Err(NotSquare) <==> l.rows != l.cols
    ensures r == Err(DimensionMismatch) <==> l.rows == l.cols && |b| != l.rows
    ensures l.rows == l.cols == |b| ==> (r.Ok? <==> Solvable(l.Entries(), l.rows))
    ensures r.Ok? ==> LowerRows(l.Entries(), l.rows, r.value, b, l.rows)
    ensures r.Err? && r.error.SingularMatrix? ==>
      && r.error.index < l.rows && NearZero(l.Entries()[r.error.index][r.error.index])
      && forall k :: 0 <= k < r.error.index ==> !NearZero(l.Entries()[k][k])
  {
    if l.rows != l.cols {
      return Err(NotSquare);
    }
    var n := l.rows;
    if |b| != n {
      return Err(DimensionMismatch);
    }
    var y := new real[n](_ => 0.0);
    ghost var e := l.Entries();
    var i := 0;
    while i < n
      invariant 0 <= i <= n && l.Entries() == e
      invariant forall k :: 0 <= k < i ==> !NearZero(e[k][k])
      invariant LowerRows(e, n, y[..], b, i)
    {
      var sum := RowTimes(l, i, y, i);
      var diag := l.At(i, i);
      if -SINGULAR < diag < SINGULAR {
        return Err(SingularMatrix(i));
      }
      var x := (b[i] - sum) / diag;
      ForwardStep(e, n, y[..], b, i, x);
      ghost var y0 := y[..];
      y[i] := x;
      assert y[..] == y0[i := x];
      i := i + 1;
    }
    return Ok(y[..]);
  }

  /** Inner product of the coordinates from k on. */
  function DotFrom(x: Vec, y: Vec, k: nat): real
    requires k <= |x| == |y|
    decreases |x| - k
  {
    if k == |x| then 0.0 else x[k] * y[k] + DotFrom(x, y, k + 1)
  }

  lemma {:induction false} DotFromSame(x: Vec, y: Vec, y': Vec, k: nat)
    requires k <= |x| == |y| == |y'| && forall i :: k <= i < |x| ==> y[i] == y'[i]
    ensures DotFrom(x, y, k) == DotFrom(x, y', k)
    decreases |x| - k
  {
    if k < |x| {
      DotFromSame(x, y, y', k + 1);
    }
  }

  lemma {:induction false} DotSplits(x: Vec, y: Vec, k: nat)
    requires k <= |x| == |y|
    ensures Dot(x, y, |x|) == Dot(x, y, k) + DotFrom(x, y, k)
    decreases |x| - k
  {
    if k < |x| {
      DotSplits(x, y, k + 1);
    }
  }

  ghost predicate UpperRow(u: Mat, n: nat, x: Vec, y: Vec, i: nat)
    requires Square(u, n) && i < n && |x| == n && i < |y|
  {
    DotFrom(u[i], x, i) == y[i]
  }

  ghost predicate UpperRows(u: Mat, n: nat, x: Vec, y: Vec, i: int) {
    Square(u, n) && |x| == |y| == n && -1 <= i && forall k :: i < k < n ==> UpperRow(u, n, x, y, k)
  }

  lemma BackwardStep(u: Mat, n: nat, x: Vec, y: Vec, i: nat, v: real)
    requires UpperRows(u, n, x, y, i) && i < n && DotFrom(u[i], x, i + 1) + v * u[i][i] == y[i]
    ensures UpperRows(u, n, x[i := v], y, i - 1)
  {
    var x' := x[i := v];
    forall k | i <= k < n
      ensures UpperRow(u, n, x', y, k)
    {
      if k > i {
        assert UpperRow(u, n, x, y, k);
        DotFromSame(u[k], x, x', k);
      } else {
        DotFromSame(u[i], x, x', i + 1);
      }
    }
  }

  method RowTimesFrom(m: Matrix, i: nat, x: array<real>, k: nat) returns (sum: real)
    requires m.Valid() && i < m.rows && k <= m.cols == x.Length
    ensures sum == DotFrom(m.Entries()[i], x[..], k)
  {
    sum := 0.0;
    ghost var row := m.Entries()[i];
    var j := k;
    while j < m.cols
      invariant k <= j <= m.cols
      invariant sum + DotFrom(row, x[..], j) == DotFrom(row, x[..], k)
    {
      sum := sum + m.At(i, j) * x[j];
      j := j + 1;
    }
  }

  /** Backward substitution. Only the upper triangle of u is read. */
  method SolveUpper(u: Matrix, y: seq<real>) returns (r: Result<seq<real>, MatrixError>)
    requires u.Valid()
    ensures r == Err(NotSquare) <==> u.rows != u.cols
    ensures r == Err(DimensionMismatch) <==> u.rows == u.cols && |y| != u.rows
    ensures u.rows == u.cols == |y| ==> (r.Ok? <==> Solvable(u.Entries(), u.rows))
    ensures r.Ok? ==> UpperRows(u.Entries(), u.rows, r.value, y, -1)
    ensures r.Err? && r.error.SingularMatrix? ==>
      && r.error.index < u.rows && NearZero(u.Entries()[r.error.index][r.error.index])
      && forall k :: r.error.index < k < u.rows ==> !NearZero(u.Entries()[k][k])
  {
    if u.rows != u.cols {
      return Err(NotSquare);
    }
    var n := u.rows;
    if |y| != n {
      return Err(DimensionMismatch);
    }
    var x := new real[n](_ => 0.0);
    ghost var e := u.Entries();
    var i := n - 1;
    while i >= 0
      invariant -1 <= i < n && u.Entries() == e
      invariant forall k :: i < k < n ==> !NearZero(e[k][k])
      invariant UpperRows(e, n, x[..], y, i)
    {
      var sum := RowTimesFrom(u, i, x, i + 1);
      var diag := u.At(i, i);
      if -SINGULAR < diag < SINGULAR {
        return Err(SingularMatrix(i));
      }
      var v := (y[i] - sum) / diag;
      BackwardStep(e, n, x[..], y, i, v);
      ghost var x0 := x[..];
      x[i] := v;
      assert x[..] == x0[i := v];
      i := i - 1;
    }
    return Ok(x[..]);
  }

  // ---- Solving with a factor ----

  ghost function LowerPart(l: Mat, n: nat): (m: Mat)
    requires Square(l, n)
    ensures Square(m, n) && Lower(m, n)
    ensures forall r, c :: 0 <= c <= r < n ==> m[r][c] == l[r][c]
  {
    seq(n, r requires 0 <= r < n => seq(n, c requires 0 <= c < n => if c <= r then l[r][c] else 0.0))
  }

  lemma LowerPartOfLower(l: Mat, n: nat)
    requires Square(l, n) && Lower(l, n)
    ensures LowerPart(l, n) == l
  {
    forall r | 0 <= r < n
      ensures LowerPart(l, n)[r] == l[r]
    {
    }
  }

  lemma {:induction false} GramTimes(l: Mat, n: nat, x: Vec, p: Vec, q: nat, i: nat)
    requires Square(l, n) && |x| == |p| == n && q <= n && i < n
    requires forall k :: 0 <= k < n ==> p[k] == Projection(l, n, x, k)
    ensures Dot(Gram(l, n, q)[i], x, n) == Dot(l[i], p, q)
  {
    if q == 0 {
      DotZero(Gram(l, n, 0)[i], x, n);
    } else {
      GramTimes(l, n, x, p, q - 1, i);
      GramRow(l, n, x, q, i);
    }
  }

  lemma BackwardIsProjection(l: Mat, t: Mat, n: nat, x: Vec, y: Vec, k: nat)
    requires Square(l, n) && Square(t, n) && |x| == |y| == n && k < n
    requires forall r, c :: 0 <= r < n && 0 <= c < n ==> t[c][r] == l[r][c]
    requires UpperRow(t, n, x, y, k)
    ensures Projection(LowerPart(l, n), n, x, k) == y[k]
  {
    var m := LowerPart(l, n);
    var c := Column(m, k, n);
    DotSymmetric(x, c, n);
    DotSplits(c, x, k);
    DotZero(c, x, k);
    DotFromRows(c, t[k], x, k);
  }

  lemma {:induction false} DotFromRows(x: Vec, x': Vec, y: Vec, k: nat)
    requires k <= |x| == |x'| == |y| && forall i :: k <= i < |x| ==> x[i] == x'[i]
    ensures DotFrom(x, y, k) == DotFrom(x', y, k)
    decreases |x| - k
  {
    if k < |x| {
      DotFromRows(x, x', y, k + 1);
    }
  }

  /** The two substitutions together solve the system of L * L^T. */
  lemma SubstitutionsSolve(l: Mat, t: Mat, n: nat, b: Vec, y: Vec, x: Vec)
    requires Square(l, n) && Square(t, n) && |x| == |y| == |b| == n
    requires forall r, c :: 0 <= r < n && 0 <= c < n ==> t[c][r] == l[r][c]
    requires LowerRows(l, n, y, b, n) && UpperRows(t, n, x, y, -1)
    ensures Apply(Gram(LowerPart(l, n), n, n), x, n) == b
  {
    var m := LowerPart(l, n);
    forall k | 0 <= k < n
      ensures y[k] == Projection(m, n, x, k)
    {
      BackwardIsProjection(l, t, n, x, y, k);
    }
    forall i | 0 <= i < n
      ensures Dot(Gram(m, n, n)[i], x, n) == b[i]
    {
      assert LowerRow(l, n, y, b, i);
      GramTimes(m, n, x, y, n, i);
      DotSymmetric(m[i], y, n);
      DotTail(y, m[i], i + 1, n);
      DotSame(m[i], l[i], y, y, i + 1);
      DotSymmetric(m[i], y, i + 1);
    }
  }

  /** Solves L * L^T * x = b, for the lower triangle L of l. */
  method SolveCholesky(l: Matrix, b: seq<real>) returns (r: Result<seq<real>, MatrixError>)
    requires l.Valid()
    ensures r == Err(NotSquare) <==> l.rows != l.cols
    ensures r == Err(DimensionMismatch) <==> l.rows == l.cols && |b| != l.rows
    ensures l.rows == l.cols == |b| ==> (r.Ok? <==> Solvable(l.Entries(), l.rows))
    ensures r.Err? && r.error.SingularMatrix? ==>
      && r.error.index < l.rows == l.cols && NearZero(l.Entries()[r.error.index][r.error.index])
      && forall k :: 0 <= k < r.error.index ==> !NearZero(l.Entries()[k][k])
    ensures r.Ok? ==>
      |r.value| == l.rows && Apply(Gram(LowerPart(l.Entries(), l.rows), l.rows, l.rows), r.value, l.rows) == b
  {
    if l.rows != l.cols {
      return Err(NotSquare);
    }
    var forward := SolveLower(l, b);
    if forward.Err? {
      return Err(forward.error);
    }
    var t := Transpose(l);
    assert forall i :: 0 <= i < l.rows ==> t.Entries()[i][i] == l.Entries()[i][i];
    r := SolveUpper(t, forward.value);
    if r.Ok? {
      SubstitutionsSolve(l.Entries(), t.Entries(), l.rows, b, forward.value, r.value);
    }
  }

  lemma SmallSquare(d: real, e: real)
    requires 0.0 <= d < SINGULAR && 0.0 <= e < SINGULAR
    ensures Product(d, e) < SINGULAR
  {
    NonNegativeProduct(d, 1.0 - e);
    assert d * (1.0 - e) == d - d * e;
  }

  /** With the factor of a symmetric matrix, SolveCholesky cannot fail and solves that matrix's own system. */
  lemma FactorIsSolvable(l: Mat, a: Mat, n: nat)
    requires Factored(l, a, n)
    ensures Solvable(l, n)
    ensures Symmetric(a, n) ==> Gram(LowerPart(l, n), n, n) == a
  {
    forall i | 0 <= i < n
      ensures !NearZero(l[i][i])
    {
      assert PivotDone(l, n, i);
      if l[i][i] < SINGULAR {
        SmallSquare(l[i][i], l[i][i]);
      }
    }
    FactorReproduces(l, a, n);
    LowerPartOfLower(l, n);
    FactorOfSymmetric(l, a, n);
  }
}
