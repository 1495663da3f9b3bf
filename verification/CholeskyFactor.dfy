/** What a column-by-column Cholesky factorization has established after each entry it writes. */
module CholeskyFactor {
  import opened LinearAlgebra
  import opened GramMatrices
  import opened DenseMatrix

  /** Pivots and divisors at or below this count as zero. */
  const SINGULAR := 0.000000000000001

  lemma {:induction false} DotSame(x: Vec, x': Vec, y: Vec, y': Vec, k: nat)
    requires k <= |x| && k <= |x'| && k <= |y| && k <= |y'|
    requires forall i :: 0 <= i < k ==> x[i] == x'[i] && y[i] == y'[i]
    ensures Dot(x, y, k) == Dot(x', y', k)
  {
    if k > 0 {
      DotSame(x, x', y, y', k - 1);
    }
  }

  /** Trailing zeros of y do not count. */
  lemma {:induction false} DotTail(x: Vec, y: Vec, k: nat, n: nat)
    requires k <= n <= |x| && n <= |y| && forall i :: k <= i < n ==> y[i] == 0.0
    ensures Dot(x, y, n) == Dot(x, y, k)
  {
    if k < n {
      DotTail(x, y, k, n - 1);
    }
  }

  /** Row r of column c is right: it reproduces a[r][c]. */
  ghost predicate EntryDone(l: Mat, a: Mat, n: nat, r: nat, c: nat)
    requires Square(l, n) && Square(a, n) && r < n && c < n
  {
    Dot(l[r], l[c], c + 1) == a[r][c]
  }

  ghost predicate PivotDone(l: Mat, n: nat, c: nat)
    requires Square(l, n) && c < n
  {
    l[c][c] > 0.0 && Product(l[c][c], l[c][c]) > SINGULAR
  }

  /** Columns before j are complete, column j is complete down to row i, everything else is still zero. */
  ghost predicate Partial(l: Mat, a: Mat, n: nat, j: nat, i: nat) {
    && Square(l, n) && Square(a, n) && j <= i <= n
    && (forall r, c :: 0 <= r < n && 0 <= c < n && (r < c || c > j || (c == j && r >= i)) ==> l[r][c] == 0.0)
    && (forall c :: 0 <= c < n && (c < j || (c == j && c < i)) ==> PivotDone(l, n, c))
    && (forall r, c :: 0 <= c <= r < n && (c < j || (c == j && r < i)) ==> EntryDone(l, a, n, r, c))
  }

  lemma EntryKept(l: Mat, a: Mat, n: nat, j: nat, i: nat, x: real, r: nat, c: nat)
    requires Square(l, n) && Square(a, n) && i < n && j <= i && r < n && c < n && EntryDone(l, a, n, r, c)
    requires c < j || (c == j && r != i && c != i)
    ensures EntryDone(WithEntry(l, i, j, x), a, n, r, c)
  {
    DotSame(l[r], WithEntry(l, i, j, x)[r], l[c], WithEntry(l, i, j, x)[c], c + 1);
  }

  /** Writing the pivot of column j. */
  lemma {:induction false} PivotStep(l: Mat, a: Mat, n: nat, j: nat, x: real)
    requires j < n && Partial(l, a, n, j, j) && x > 0.0 && Product(x, x) > SINGULAR
    requires Dot(l[j], l[j], j) + Product(x, x) == a[j][j]
    ensures Partial(WithEntry(l, j, j, x), a, n, j, j + 1)
  {
    var l' := WithEntry(l, j, j, x);
    DotSame(l[j], l'[j], l[j], l'[j], j);
    forall r, c | 0 <= c <= r < n && c < j
      ensures EntryDone(l', a, n, r, c)
    {
      EntryKept(l, a, n, j, j, x, r, c);
    }
    assert EntryDone(l', a, n, j, j);
    forall c | 0 <= c <= j
      ensures PivotDone(l', n, c)
    {
      if c < j {
        assert PivotDone(l, n, c);
      }
    }
  }

  /** Writing row i > j of column j. */
  lemma {:induction false} RowStep(l: Mat, a: Mat, n: nat, j: nat, i: nat, x: real)
    requires j < i < n && Partial(l, a, n, j, i)
    requires Dot(l[i], l[j], j) + Product(x, l[j][j]) == a[i][j]
    ensures Partial(WithEntry(l, i, j, x), a, n, j, i + 1)
  {
    var l' := WithEntry(l, i, j, x);
    DotSame(l[i], l'[i], l[j], l'[j], j);
    forall r, c | 0 <= c <= r < n && (c < j || (c == j && r < i))
      ensures EntryDone(l', a, n, r, c)
    {
      EntryKept(l, a, n, j, i, x, r, c);
    }
    assert EntryDone(l', a, n, i, j);
    forall c | 0 <= c <= j
      ensures PivotDone(l', n, c)
    {
      assert PivotDone(l, n, c);
    }
  }

  lemma NextColumn(l: Mat, a: Mat, n: nat, j: nat)
    requires j < n && Partial(l, a, n, j, n)
    ensures Partial(l, a, n, j + 1, j + 1)
  {
  }

  // ---- What a finished or stopped factorization means ----

  /** The symmetric matrix with a's entries on and below the diagonal: all of a that is ever read. */
  ghost function Mirror(a: Mat, n: nat): (m: Mat)
    requires Square(a, n)
    ensures Square(m, n)
    ensures forall r, c :: 0 <= c <= r < n ==> m[r][c] == m[c][r] == a[r][c]
  {
    seq(n, r requires 0 <= r < n => seq(n, c requires 0 <= c < n => if c <= r then a[r][c] else a[c][r]))
  }

  lemma MirrorIsIdentityOnSymmetric(a: Mat, n: nat)
    requires Square(a, n)
    ensures Symmetric(Mirror(a, n), n)
    ensures Mirror(a, n) == a <==> Symmetric(a, n)
  {
    var m := Mirror(a, n);
    forall r, c | 0 <= r < n && 0 <= c < n
      ensures m[r][c] == m[c][r]
    {
      if c <= r {
        assert m[r][c] == m[c][r];
      } else {
        assert m[c][r] == m[r][c];
      }
    }
    if Symmetric(a, n) {
      forall r | 0 <= r < n
        ensures m[r] == a[r]
      {
      }
    }
  }

  ghost predicate Factored(l: Mat, a: Mat, n: nat) {
    Partial(l, a, n, n, n)
  }

  /** In the columns before q, the Gram entries on and below the diagonal are those of a. */
  lemma GramAgrees(l: Mat, a: Mat, n: nat, q: nat, r: nat, c: nat)
    requires Partial(l, a, n, q, q) && c <= r < n && c < q
    ensures GramEntry(l, n, r, c, q) == GramEntry(l, n, c, r, q) == a[r][c]
  {
    assert EntryDone(l, a, n, r, c);
    DotTail(l[r], l[c], c + 1, q);
    DotSymmetric(l[r], l[c], q);
  }

  lemma PivotsAreNonZero(l: Mat, a: Mat, n: nat, q: nat)
    requires Partial(l, a, n, q, q)
    ensures NonZeroDiagonal(l, n, q)
  {
    forall k | 0 <= k < q
      ensures l[k][k] != 0.0
    {
      assert PivotDone(l, n, k);
    }
  }

  /** A finished factor is lower triangular and reproduces a's lower triangle, mirrored. */
  lemma FactorReproduces(l: Mat, a: Mat, n: nat)
    requires Factored(l, a, n)
    ensures Lower(l, n) && NonZeroDiagonal(l, n, n) && (forall k :: 0 <= k < n ==> l[k][k] > 0.0)
    ensures Gram(l, n, n) == Mirror(a, n)
    ensures PositiveDefinite(Mirror(a, n), n)
  {
    PivotsAreNonZero(l, a, n, n);
    forall k | 0 <= k < n
      ensures l[k][k] > 0.0
    {
      assert PivotDone(l, n, k);
    }
    var g, m := Gram(l, n, n), Mirror(a, n);
    forall r | 0 <= r < n
      ensures g[r] == m[r]
    {
      forall c | 0 <= c < n
        ensures g[r][c] == m[r][c]
      {
        if c <= r {
          GramAgrees(l, a, n, n, r, c);
        } else {
          GramAgrees(l, a, n, n, c, r);
        }
      }
    }
    GramIsPositiveDefinite(l, n);
  }

  /** x ends with a 1 in coordinate j. */
  ghost predicate EndsAt(x: Vec, n: nat, j: nat) {
    |x| == n && j < n && x[j] == 1.0 && forall i :: j < i < n ==> x[i] == 0.0
  }

  /** a's quadratic form exceeds the singularity threshold on every vector whose last non-zero coordinate is 1. */
  ghost predicate Curved(a: Mat, n: nat)
    requires Square(a, n)
  {
    forall x: Vec, j: nat {:trigger EndsAt(x, n, j)} :: EndsAt(x, n, j) ==> Quad(a, x, n) > SINGULAR
  }

  lemma {:induction false} SquaresDominate(l: Mat, n: nat, x: Vec, k: nat, q: nat)
    requires Square(l, n) && |x| == n && k < q <= n
    ensures SumOfSquares(l, n, x, q) >= Product(Projection(l, n, x, k), Projection(l, n, x, k))
  {
    SquaresVanish(l, n, x, q - 1);
    SquareSign(Projection(l, n, x, q - 1));
    if k < q - 1 {
      SquaresDominate(l, n, x, k, q - 1);
    }
  }

  lemma FinishedIsCurved(l: Mat, a: Mat, n: nat)
    requires Factored(l, a, n)
    ensures Curved(Mirror(a, n), n)
  {
    FactorReproduces(l, a, n);
    forall x: Vec, j: nat | EndsAt(x, n, j)
      ensures Quad(Mirror(a, n), x, n) > SINGULAR
    {
      assert PivotDone(l, n, j);
      GramQuad(l, n, x, n);
      SquaresDominate(l, n, x, j, n);
      var c := Column(l, j, n);
      SingleTerm(x, c, j, n);
    }
  }

  /** The factorization of a stops at column j, whose pivot is too small. */
  ghost predicate Stopped(l: Mat, a: Mat, n: nat, j: nat, pivot: real) {
    j < n && Partial(l, a, n, j, j) && Dot(l[j], l[j], j) + pivot == a[j][j] && pivot <= SINGULAR
  }

  lemma StoppedIsNotCurved(l: Mat, a: Mat, n: nat, j: nat, pivot: real) returns (x: Vec)
    requires Stopped(l, a, n, j, pivot)
    ensures EndsAt(x, n, j) && Quad(Mirror(a, n), x, n) == pivot <= SINGULAR
  {
    var m, g := Mirror(a, n), Gram(l, n, j);
    forall i, c | 0 <= i <= j && 0 <= c <= j
      ensures m[i][c] == g[i][c] + (if i == j && c == j then pivot else 0.0)
    {
      if i != j || c != j {
        GramAgrees(l, a, n, j, if i < c then c else i, if i < c then i else c);
      }
    }
    PivotsAreNonZero(l, a, n, j);
    x := PivotIsCurvature(m, l, n, j, pivot);
  }

  // ---- There is only one factor ----

  ghost predicate SameColumns(l: Mat, k: Mat, n: nat, j: nat)
    requires Square(l, n) && Square(k, n)
  {
    forall r, c :: 0 <= r < n && 0 <= c < n && c < j ==> l[r][c] == k[r][c]
  }

  lemma SameRoot(p: real, q: real, s: real, t: real)
    requires p > 0.0 && q > 0.0 && s + p * p == t && s + q * q == t
    ensures p == q
  {
    assert (p - q) * (p + q) == 0.0;
  }

  lemma SameQuotient(p: real, q: real, d: real, s: real, t: real)
    requires d != 0.0 && s + p * d == t && s + q * d == t
    ensures p == q
  {
    assert (p - q) * d == 0.0;
  }

  lemma {:induction false} ColumnsAgree(l: Mat, k: Mat, a: Mat, n: nat, j: nat)
    requires Factored(l, a, n) && Factored(k, a, n) && j <= n
    ensures SameColumns(l, k, n, j)
  {
    if j > 0 {
      var c := j - 1;
      ColumnsAgree(l, k, a, n, c);
      assert PivotDone(l, n, c) && PivotDone(k, n, c);
      assert EntryDone(l, a, n, c, c) && EntryDone(k, a, n, c, c);
      DotSame(l[c], k[c], l[c], k[c], c);
      SameRoot(l[c][c], k[c][c], Dot(l[c], l[c], c), a[c][c]);
      forall r | c < r < n
        ensures l[r][c] == k[r][c]
      {
        assert EntryDone(l, a, n, r, c) && EntryDone(k, a, n, r, c);
        DotSame(l[r], k[r], l[c], k[c], c);
        SameQuotient(l[r][c], k[r][c], l[c][c], Dot(l[r], l[c], c), a[r][c]);
      }
    }
  }

  lemma FactorIsUnique(l: Mat, k: Mat, a: Mat, n: nat)
    requires Factored(l, a, n) && Factored(k, a, n)
    ensures l == k
  {
    ColumnsAgree(l, k, a, n, n);
    forall r | 0 <= r < n
      ensures l[r] == k[r]
    {
    }
  }
}
