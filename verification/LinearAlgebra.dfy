/** Inner products, quadratic forms and symmetric matrices over exact reals. */
module LinearAlgebra {
  import opened RealSums

  type Vec = seq<real>
  type Mat = seq<seq<real>>

  /** root is the exact square root on non-negative reals. */
  ghost predicate IsSquareRoot(root: real -> real) {
    forall x {:trigger root(x)} :: x >= 0.0 ==> root(x) >= 0.0 && root(x) * root(x) == x
  }

  ghost predicate Square(a: Mat, n: nat) {
    |a| == n && forall i :: 0 <= i < n ==> |a[i]| == n
  }

  ghost predicate Symmetric(a: Mat, n: nat)
    requires Square(a, n)
  {
    forall i, j :: 0 <= i < n && 0 <= j < n ==> a[i][j] == a[j][i]
  }

  /** x * y, as a named term that proofs can match. */
  function Product(x: real, y: real): real {
    x * y
  }

  /** Inner product of the first k coordinates. */
  function Dot(x: Vec, y: Vec, k: nat): real
    requires k <= |x| && k <= |y|
  {
    if k == 0 then 0.0 else Dot(x, y, k - 1) + x[k - 1] * y[k - 1]
  }

  /** The products of equal coordinates. */
  function Products(x: Vec, y: Vec): (p: Vec)
    requires |x| == |y|
    ensures |p| == |x| && forall i :: 0 <= i < |p| ==> p[i] == Product(x[i], y[i])
  {
    seq(|x|, i requires 0 <= i < |x| => Product(x[i], y[i]))
  }

  /** The inner product is the sum of the products of the coordinates. */
  lemma {:induction false} DotIsSum(x: Vec, y: Vec, k: nat)
    requires k <= |x| == |y|
    ensures Dot(x, y, k) == SumTo(Products(x, y), k)
  {
    if k > 0 {
      DotIsSum(x, y, k - 1);
    }
  }

  ghost function Apply(a: Mat, x: Vec, n: nat): (y: Vec)
    requires Square(a, n) && |x| == n
    ensures |y| == n && forall i :: 0 <= i < n ==> y[i] == Dot(a[i], x, n)
  {
    seq(n, i requires 0 <= i < n => Dot(a[i], x, n))
  }

  /** The quadratic form of a at x. */
  ghost function Quad(a: Mat, x: Vec, n: nat): real
    requires Square(a, n) && |x| == n
  {
    Dot(x, Apply(a, x, n), n)
  }

  ghost predicate PositiveSemidefinite(a: Mat, n: nat)
    requires Square(a, n)
  {
    forall x: Vec {:trigger Quad(a, x, n)} :: |x| == n ==> Quad(a, x, n) >= 0.0
  }

  lemma {:induction false} DotSymmetric(x: Vec, y: Vec, k: nat)
    requires k <= |x| && k <= |y|
    ensures Dot(x, y, k) == Dot(y, x, k)
  {
    if k > 0 {
      DotSymmetric(x, y, k - 1);
    }
  }

  lemma {:induction false} DotPrefix(x: Vec, y: Vec, z: Vec, k: nat)
    requires k <= |x| && k <= |y| && k <= |z| && forall i :: 0 <= i < k ==> y[i] == z[i]
    ensures Dot(x, y, k) == Dot(x, z, k)
  {
    if k > 0 {
      DotPrefix(x, y, z, k - 1);
    }
  }

  /** Dot is linear in its second argument. */
  lemma {:induction false} DotCombine(x: Vec, y: Vec, z: Vec, w: Vec, c: real, k: nat)
    requires k <= |x| && k <= |y| && k <= |z| && k <= |w|
    requires forall i :: 0 <= i < k ==> w[i] == y[i] + c * z[i]
    ensures Dot(x, w, k) == Dot(x, y, k) + Product(c, Dot(x, z, k))
  {
    if k > 0 {
      DotCombine(x, y, z, w, c, k - 1);
      Distribute(x[k - 1], y[k - 1], z[k - 1], c, Dot(x, z, k - 1));
    }
  }

  lemma Distribute(x: real, y: real, z: real, c: real, rest: real)
    ensures x * (y + c * z) == x * y + c * (x * z)
    ensures c * (rest + x * z) == c * rest + c * (x * z)
  {
  }

  /** Moving one coordinate by t. */
  lemma {:induction false} DotShift(a: Vec, x: Vec, k: nat, t: real, n: nat)
    requires n <= |a| && n <= |x| && k < |x|
    ensures Dot(a, x[k := x[k] + t], n) == Dot(a, x, n) + (if k < n then Product(a[k], t) else 0.0)
  {
    var y := x[k := x[k] + t];
    if n <= k {
      DotPrefix(a, x, y, n);
    } else if n == k + 1 {
      DotPrefix(a, x, y, k);
      ShiftedTerm(Dot(a, x, k), a[k], x[k], t);
    } else {
      DotShift(a, x, k, t, n - 1);
    }
  }

  lemma ShiftedTerm(rest: real, a: real, x: real, t: real)
    ensures rest + a * (x + t) == (rest + a * x) + Product(a, t)
  {
    calc {
      rest + a * (x + t);
    ==
      rest + (a * x + a * t);
    ==
      (rest + a * x) + Product(a, t);
    }
  }

  lemma {:induction false} DotZero(x: Vec, y: Vec, k: nat)
    requires k <= |x| && k <= |y| && forall i :: 0 <= i < k ==> x[i] == 0.0
    ensures Dot(x, y, k) == 0.0
  {
    if k > 0 {
      DotZero(x, y, k - 1);
    }
  }

  ghost function Column(a: Mat, k: nat, n: nat): (c: Vec)
    requires Square(a, n) && k < n
    ensures |c| == n && forall i :: 0 <= i < n ==> c[i] == a[i][k]
  {
    seq(n, i requires 0 <= i < n => a[i][k])
  }

  lemma ApplyShift(a: Mat, n: nat, x: Vec, k: nat, t: real)
    requires Square(a, n) && |x| == n && k < n
    ensures var y', c := Apply(a, x[k := x[k] + t], n), Column(a, k, n);
      forall i :: 0 <= i < n ==> y'[i] == Apply(a, x, n)[i] + t * c[i]
  {
    forall i | 0 <= i < n
      ensures Apply(a, x[k := x[k] + t], n)[i] == Apply(a, x, n)[i] + t * Column(a, k, n)[i]
    {
      DotShift(a[i], x, k, t, n);
    }
  }

  /** A vector moved by t along axis k, against any fixed vector. */
  lemma DotMoved(x: Vec, c: Vec, k: nat, t: real, n: nat)
    requires |x| == |c| == n && k < n
    ensures Dot(x[k := x[k] + t], c, n) == Dot(x, c, n) + Product(c[k], t)
  {
    DotSymmetric(x[k := x[k] + t], c, n);
    DotShift(c, x, k, t, n);
    DotSymmetric(x, c, n);
  }

  /** A symmetric matrix's column is its row. */
  lemma {:induction false} ColumnIsRow(a: Mat, n: nat, x: Vec, k: nat)
    requires Square(a, n) && Symmetric(a, n) && |x| == n && k < n
    ensures Dot(x, Column(a, k, n), n) == Dot(a[k], x, n)
  {
    DotPrefix(x, Column(a, k, n), a[k], n);
    DotSymmetric(x, a[k], n);
  }

  /** q + 2bt + ct^2 */
  ghost function Parabola(q: real, b: real, c: real, t: real): real {
    q + Product(b, t) + Product(t, b + Product(c, t))
  }

  /** Quad at x moved by t along axis k, for a symmetric matrix. */
  lemma QuadShift(a: Mat, n: nat, x: Vec, k: nat, t: real)
    requires Square(a, n) && Symmetric(a, n) && |x| == n && k < n
    ensures Quad(a, x[k := x[k] + t], n) == Parabola(Quad(a, x, n), Dot(a[k], x, n), a[k][k], t)
  {
    var y, c := Apply(a, x, n), Column(a, k, n);
    var x' := x[k := x[k] + t];
    ApplyShift(a, n, x, k, t);
    DotCombine(x', y, c, Apply(a, x', n), t, n);
    DotMoved(x, y, k, t, n);
    DotMoved(x, c, k, t, n);
    ColumnIsRow(a, n, x, k);
  }

  /** Positivity along axis k through x. */
  lemma {:induction false} QuadAtShift(a: Mat, n: nat, x: Vec, k: nat, t: real)
    requires Square(a, n) && Symmetric(a, n) && PositiveSemidefinite(a, n) && |x| == n && k < n
    ensures Parabola(Quad(a, x, n), Dot(a[k], x, n), a[k][k], t) >= 0.0
  {
    QuadShift(a, n, x, k, t);
    assert Quad(a, x[k := x[k] + t], n) >= 0.0;
  }

  /** A parabola that is non-negative at its minimum. */
  lemma Discriminant(q: real, b: real, c: real, t: real)
    requires c > 0.0 && t == -b / c && Parabola(q, b, c, t) >= 0.0
    ensures b * b <= q * c
  {
    assert c * t == -b;
    assert t * (b + c * t) == 0.0;
    assert (q + t * b) * c == q * c + b * (c * t);
  }

  lemma FlatParabola(q: real, b: real, t: real)
    requires b != 0.0 && t == -(q + 1.0) / (2.0 * b)
    ensures Parabola(q, b, 0.0, t) == -1.0
  {
    assert t * (2.0 * b) == -(q + 1.0);
    assert t * (b + 0.0 * t) == t * b;
  }

  /** The diagonal of a positive semidefinite matrix is non-negative. */
  lemma DiagonalNonNegative(a: Mat, n: nat, k: nat)
    requires Square(a, n) && Symmetric(a, n) && PositiveSemidefinite(a, n) && k < n
    ensures a[k][k] >= 0.0
  {
    var zero: Vec := seq(n, _ => 0.0);
    QuadAtShift(a, n, zero, k, 1.0);
    DotZero(zero, Apply(a, zero, n), n);
    DotSymmetric(a[k], zero, n);
    DotZero(zero, a[k], n);
    UnitParabola(a[k][k]);
  }

  lemma UnitParabola(c: real)
    ensures Parabola(0.0, 0.0, c, 1.0) == c
  {
  }

  lemma NonNegativeParabola(q: real, b: real, c: real)
    requires c >= 0.0 && forall t :: Parabola(q, b, c, t) >= 0.0
    ensures Product(b, b) <= Product(q, c)
  {
    if c > 0.0 {
      Discriminant(q, b, c, -b / c);
    } else if b != 0.0 {
      FlatParabola(q, b, -(q + 1.0) / (2.0 * b));
    }
  }

  /** Cauchy-Schwarz for a positive semidefinite form, against axis k. */
  lemma {:induction false} CauchySchwarz(a: Mat, n: nat, x: Vec, k: nat)
    requires Square(a, n) && Symmetric(a, n) && PositiveSemidefinite(a, n) && |x| == n && k < n
    ensures Product(Dot(a[k], x, n), Dot(a[k], x, n)) <= Product(Quad(a, x, n), a[k][k])
  {
    DiagonalNonNegative(a, n, k);
    forall t
      ensures Parabola(Quad(a, x, n), Dot(a[k], x, n), a[k][k], t) >= 0.0
    {
      QuadAtShift(a, n, x, k, t);
    }
    NonNegativeParabola(Quad(a, x, n), Dot(a[k], x, n), a[k][k]);
  }
}
