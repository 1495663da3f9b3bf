/** Matrices of the form L * L^T, their quadratic forms, and triangular systems. */
module GramMatrices {
  import opened LinearAlgebra
  import opened RealProducts

  /** Entry (i, c) of L * L^T restricted to the first q columns of L. */
  ghost function GramEntry(l: Mat, n: nat, i: nat, c: nat, q: nat): real
    requires Square(l, n) && i < n && c < n && q <= n
  {
    Dot(l[i], l[c], q)
  }

  ghost function Gram(l: Mat, n: nat, q: nat): (a: Mat)
    requires Square(l, n) && q <= n
    ensures Square(a, n)
    ensures forall i, c :: 0 <= i < n && 0 <= c < n ==> a[i][c] == GramEntry(l, n, i, c, q)
  {
    seq(n, i requires 0 <= i < n => seq(n, c requires 0 <= c < n => GramEntry(l, n, i, c, q)))
  }

  /** Column k of l, as weights on x: coordinate k of L^T * x. */
  ghost function Projection(l: Mat, n: nat, x: Vec, k: nat): real
    requires Square(l, n) && |x| == n && k < n
  {
    Dot(x, Column(l, k, n), n)
  }

  ghost function SumOfSquares(l: Mat, n: nat, x: Vec, q: nat): real
    requires Square(l, n) && |x| == n && q <= n
  {
    if q == 0 then 0.0
    else SumOfSquares(l, n, x, q - 1) + Product(Projection(l, n, x, q - 1), Projection(l, n, x, q - 1))
  }

  lemma {:induction false} GramRow(l: Mat, n: nat, x: Vec, q: nat, i: nat)
    requires Square(l, n) && |x| == n && 0 < q <= n && i < n
    ensures Dot(Gram(l, n, q)[i], x, n)
         == Dot(Gram(l, n, q - 1)[i], x, n) + Product(l[i][q - 1], Projection(l, n, x, q - 1))
  {
    var row, row', c := Gram(l, n, q - 1)[i], Gram(l, n, q)[i], Column(l, q - 1, n);
    DotCombine(x, row, c, row', l[i][q - 1], n);
    DotSymmetric(x, row, n);
    DotSymmetric(x, row', n);
  }

  lemma {:induction false} GramZero(l: Mat, n: nat, x: Vec)
    requires Square(l, n) && |x| == n
    ensures Quad(Gram(l, n, 0), x, n) == 0.0
  {
    var g := Gram(l, n, 0);
    forall i | 0 <= i < n
      ensures Apply(g, x, n)[i] == 0.0
    {
      DotZero(g[i], x, n);
    }
    DotSymmetric(x, Apply(g, x, n), n);
    DotZero(Apply(g, x, n), x, n);
  }

  /** The quadratic form of L * L^T is the sum of the squared coordinates of L^T * x. */
  lemma {:induction false} GramQuad(l: Mat, n: nat, x: Vec, q: nat)
    requires Square(l, n) && |x| == n && q <= n
    ensures Quad(Gram(l, n, q), x, n) == SumOfSquares(l, n, x, q)
  {
    if q == 0 {
      GramZero(l, n, x);
    } else {
      GramQuad(l, n, x, q - 1);
      var y, y' := Apply(Gram(l, n, q - 1), x, n), Apply(Gram(l, n, q), x, n);
      var c, t := Column(l, q - 1, n), Projection(l, n, x, q - 1);
      forall i | 0 <= i < n
        ensures y'[i] == y[i] + t * c[i]
      {
        GramRow(l, n, x, q, i);
        ProductCommutes(c[i], t);
      }
      DotCombine(x, y, c, y', t, n);
    }
  }

  ghost predicate Lower(l: Mat, n: nat)
    requires Square(l, n)
  {
    forall i, j :: 0 <= i < j < n ==> l[i][j] == 0.0
  }

  lemma {:induction false} SquaresVanish(l: Mat, n: nat, x: Vec, q: nat)
    requires Square(l, n) && |x| == n && q <= n
    ensures SumOfSquares(l, n, x, q) >= 0.0
    ensures SumOfSquares(l, n, x, q) == 0.0 ==> forall k :: 0 <= k < q ==> Projection(l, n, x, k) == 0.0
  {
    if q > 0 {
      SquaresVanish(l, n, x, q - 1);
      var p := Projection(l, n, x, q - 1);
      SquareSign(p);
    }
  }

  lemma ProductCommutes(a: real, b: real)
    ensures Product(a, b) == b * a
  {
  }

  lemma PositiveProduct(p: real, q: real)
    requires p > 0.0 && q > 0.0
    ensures Product(p, q) > 0.0
  {
  }

  lemma NegatedProduct(p: real, q: real)
    ensures Product(-p, -q) == Product(p, q)
  {
  }

  lemma SquareSign(p: real)
    ensures Product(p, p) >= 0.0 && (Product(p, p) == 0.0 ==> p == 0.0)
  {
    if p < 0.0 {
      PositiveProduct(-p, -p);
      NegatedProduct(p, p);
    } else if p > 0.0 {
      PositiveProduct(p, p);
    }
  }

  // ---- Positive definiteness ----

  ghost predicate PositiveDefinite(a: Mat, n: nat)
    requires Square(a, n)
  {
    forall x: Vec {:trigger Quad(a, x, n)} ::
      |x| == n && (exists i :: 0 <= i < n && x[i] != 0.0) ==> Quad(a, x, n) > 0.0
  }

  lemma {:induction false} SingleTerm(x: Vec, c: Vec, k: nat, n: nat)
    requires n <= |x| && n <= |c| && k < n
    requires forall i :: 0 <= i < n && i != k ==> x[i] == 0.0 || c[i] == 0.0
    ensures Dot(x, c, n) == x[k] * c[k]
  {
    if k < n - 1 {
      SingleTerm(x, c, k, n - 1);
      ZeroFactor(x[n - 1], c[n - 1]);
    } else {
      VanishingTerms(x, c, n - 1);
    }
  }

  lemma {:induction false} VanishingTerms(x: Vec, c: Vec, n: nat)
    requires n <= |x| && n <= |c|
    requires forall i :: 0 <= i < n ==> x[i] == 0.0 || c[i] == 0.0
    ensures Dot(x, c, n) == 0.0
  {
    if n > 0 {
      VanishingTerms(x, c, n - 1);
      ZeroFactor(x[n - 1], c[n - 1]);
    }
  }

  ghost predicate NonZeroDiagonal(l: Mat, n: nat, q: nat)
    requires Square(l, n) && q <= n
  {
    forall k :: 0 <= k < q ==> l[k][k] != 0.0
  }

  /** A non-singular lower factor maps only zero to zero: from the last coordinate down. */
  lemma {:induction false} OnlyZeroVanishes(l: Mat, n: nat, x: Vec, k: nat)
    requires Square(l, n) && Lower(l, n) && NonZeroDiagonal(l, n, n) && |x| == n && k <= n
    requires forall i :: 0 <= i < n ==> Projection(l, n, x, i) == 0.0
    ensures forall i :: k <= i < n ==> x[i] == 0.0
    decreases n - k
  {
    if k < n {
      OnlyZeroVanishes(l, n, x, k + 1);
      SingleTerm(x, Column(l, k, n), k, n);
      assert Projection(l, n, x, k) == x[k] * l[k][k];
    }
  }

  /** L * L^T is positive definite when L is lower triangular without a zero on the diagonal. */
  lemma GramIsPositiveDefinite(l: Mat, n: nat)
    requires Square(l, n) && Lower(l, n) && NonZeroDiagonal(l, n, n)
    ensures PositiveDefinite(Gram(l, n, n), n)
  {
    forall x: Vec | |x| == n && exists i :: 0 <= i < n && x[i] != 0.0
      ensures Quad(Gram(l, n, n), x, n) > 0.0
    {
      GramQuad(l, n, x, n);
      SquaresVanish(l, n, x, n);
      if SumOfSquares(l, n, x, n) == 0.0 {
        OnlyZeroVanishes(l, n, x, 0);
      }
    }
  }

  // ---- A vector on which the first j columns of L vanish ----

  lemma KernelStep(l: Mat, n: nat, j: nat, x: Vec, k: nat) returns (x': Vec)
    requires k < j < n && Square(l, n) && Lower(l, n) && NonZeroDiagonal(l, n, j) && |x| == n
    requires forall i :: k < i < j ==> Projection(l, n, x, i) == 0.0
    ensures |x'| == n && forall i :: 0 <= i < n && i != k ==> x'[i] == x[i]
    ensures forall i :: k <= i < j ==> Projection(l, n, x', i) == 0.0
  {
    var t := -Projection(l, n, x, k) / l[k][k];
    ProductOfQuotient(l[k][k], -Projection(l, n, x, k), t);
    x' := x[k := x[k] + t];
    forall i | k <= i < j
      ensures Projection(l, n, x', i) == 0.0
    {
      var c := Column(l, i, n);
      DotMoved(x, c, k, t, n);
      assert Projection(l, n, x', i) == Projection(l, n, x, i) + Product(c[k], t);
      if i == k {
        assert c[k] == l[k][k];
        assert Product(c[k], t) == -Projection(l, n, x, k);
      } else {
        assert c[k] == 0.0;
        ZeroProduct(c[k], t);
        assert Projection(l, n, x, i) == 0.0;
      }
    }
  }

  lemma ZeroProduct(c: real, t: real)
    requires c == 0.0
    ensures Product(c, t) == 0.0
  {
  }

  lemma ProductOfQuotient(d: real, p: real, t: real)
    requires d != 0.0 && t == p / d
    ensures Product(d, t) == p
  {
  }

  lemma Kernel(l: Mat, n: nat, j: nat) returns (x: Vec)
    requires j < n && Square(l, n) && Lower(l, n) && NonZeroDiagonal(l, n, j)
    ensures |x| == n && x[j] == 1.0 && forall i :: j < i < n ==> x[i] == 0.0
    ensures forall i :: 0 <= i < j ==> Projection(l, n, x, i) == 0.0
  {
    x := seq(n, i requires 0 <= i < n => if i == j then 1.0 else 0.0);
    var k := j;
    while k > 0
      invariant 0 <= k <= j
      invariant |x| == n && x[j] == 1.0 && forall i :: j < i < n ==> x[i] == 0.0
      invariant forall i :: k <= i < j ==> Projection(l, n, x, i) == 0.0
    {
      k := k - 1;
      x := KernelStep(l, n, j, x, k);
    }
  }

  lemma {:induction false} NoProjectionNoSquares(l: Mat, n: nat, x: Vec, q: nat)
    requires Square(l, n) && |x| == n && q <= n && forall i :: 0 <= i < q ==> Projection(l, n, x, i) == 0.0
    ensures SumOfSquares(l, n, x, q) == 0.0
  {
    if q > 0 {
      NoProjectionNoSquares(l, n, x, q - 1);
    }
  }

  /** a agrees with g on the leading block up to j, except that its last diagonal entry is larger by pivot. */
  ghost predicate AgreesUpTo(a: Mat, g: Mat, n: nat, j: nat, pivot: real)
    requires Square(a, n) && Square(g, n) && j < n
  {
    forall i, c :: 0 <= i <= j && 0 <= c <= j ==> a[i][c] == g[i][c] + (if i == j && c == j then pivot else 0.0)
  }

  lemma {:induction false} RowDifference(r: Vec, s: Vec, x: Vec, j: nat, pivot: real, n: nat)
    requires n <= |r| && n <= |s| && n <= |x| && j < |x| && x[j] == 1.0 && forall i :: j < i < |x| ==> x[i] == 0.0
    requires forall c :: 0 <= c < n && c <= j ==> r[c] == s[c] + (if c == j then pivot else 0.0)
    ensures Dot(r, x, n) == Dot(s, x, n) + (if j < n then pivot else 0.0)
  {
    if n > 0 {
      RowDifference(r, s, x, j, pivot, n - 1);
    }
  }

  /** On a vector that ends in a 1 at j, the two forms differ by the pivot. */
  lemma QuadDifference(a: Mat, g: Mat, n: nat, j: nat, pivot: real, x: Vec)
    requires Square(a, n) && Square(g, n) && j < n && AgreesUpTo(a, g, n, j, pivot)
    requires |x| == n && x[j] == 1.0 && forall i :: j < i < n ==> x[i] == 0.0
    ensures Quad(a, x, n) == Quad(g, x, n) + pivot
  {
    var y, z := Apply(a, x, n), Apply(g, x, n);
    forall i | 0 <= i <= j
      ensures y[i] == z[i] + (if i == j then pivot else 0.0)
    {
      RowDifference(a[i], g[i], x, j, if i == j then pivot else 0.0, n);
    }
    RowDifference(y, z, x, j, pivot, n);
    DotSymmetric(x, y, n);
    DotSymmetric(x, z, n);
  }

  /** A factorization that stops at column j with a pivot has found a direction of that curvature. */
  lemma PivotIsCurvature(a: Mat, l: Mat, n: nat, j: nat, pivot: real) returns (x: Vec)
    requires j < n && Square(a, n) && Square(l, n) && Lower(l, n) && NonZeroDiagonal(l, n, j)
    requires AgreesUpTo(a, Gram(l, n, j), n, j, pivot)
    ensures |x| == n && x[j] == 1.0 && (forall i :: j < i < n ==> x[i] == 0.0) && Quad(a, x, n) == pivot
  {
    x := Kernel(l, n, j);
    QuadDifference(a, Gram(l, n, j), n, j, pivot, x);
    GramQuad(l, n, x, j);
    NoProjectionNoSquares(l, n, x, j);
  }
}
