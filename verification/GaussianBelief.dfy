/** Gaussian beliefs conditioned on single noisy coordinates: the exact rank-one update and what every run of it
    keeps. */
module GaussianBelief {
  import opened LinearAlgebra
  import opened RealProducts
  import opened Folds

  datatype Belief = Belief(mean: Vec, cov: Mat)

  /** A sample `value` of coordinate k with noise variance `noise`. */
  datatype Observation = Observation(k: nat, value: real, noise: real)

  /** Below this total variance an observation says nothing. */
  const NO_UNCERTAINTY := 0.000000000000001

  /** a * b / g */
  function Share(a: real, b: real, g: real): real
    requires g != 0.0
  {
    a * b / g
  }

  ghost predicate Shaped(b: Belief, n: nat) {
    |b.mean| == n && Square(b.cov, n)
  }

  /** A belief with a covariance: symmetric and positive semidefinite. */
  ghost predicate Proper(b: Belief, n: nat) {
    Shaped(b, n) && Symmetric(b.cov, n) && PositiveSemidefinite(b.cov, n)
  }

  /** The covariance after conditioning on coordinate k at total variance g, before any clamping. */
  ghost function Reduced(cov: Mat, n: nat, k: nat, g: real): (r: Mat)
    requires Square(cov, n) && k < n && g != 0.0
    ensures Square(r, n)
    ensures forall i, j :: 0 <= i < n && 0 <= j < n ==> r[i][j] == cov[i][j] - Share(cov[i][k], cov[j][k], g)
  {
    seq(n, i requires 0 <= i < n => seq(n, j requires 0 <= j < n => cov[i][j] - Share(cov[i][k], cov[j][k], g)))
  }

  /** Negative diagonal entries are raised to zero. */
  ghost function Clamped(cov: Mat, n: nat): (r: Mat)
    requires Square(cov, n)
    ensures Square(r, n)
    ensures forall i, j :: 0 <= i < n && 0 <= j < n ==> r[i][j] == if i == j && cov[i][j] < 0.0 then 0.0 else cov[i][j]
  {
    seq(n, i requires 0 <= i < n =>
          seq(n, j requires 0 <= j < n => if i == j && cov[i][j] < 0.0 then 0.0 else cov[i][j]))
  }

  /** How far a sample is from the current mean. */
  function Surprise(b: Belief, o: Observation): real
    requires o.k < |b.mean|
  {
    o.value - b.mean[o.k]
  }

  ghost function Moved(b: Belief, n: nat, k: nat, surprise: real, g: real): (m: Vec)
    requires Shaped(b, n) && k < n && g != 0.0
    ensures |m| == n
    ensures forall i :: 0 <= i < n ==> m[i] == b.mean[i] + Share(b.cov[i][k], surprise, g)
  {
    seq(n, i requires 0 <= i < n => b.mean[i] + Share(b.cov[i][k], surprise, g))
  }

  /** Total variance of an observation: the marginal variance plus the noise. */
  function TotalVariance(b: Belief, o: Observation): real
    requires o.k < |b.cov| && o.k < |b.cov[o.k]|
  {
    b.cov[o.k][o.k] + o.noise
  }

  ghost function Conditioned(b: Belief, n: nat, o: Observation, g: real): (r: Belief)
    requires Shaped(b, n) && o.k < n && g != 0.0
    ensures Shaped(r, n)
  {
    Belief(Moved(b, n, o.k, Surprise(b, o), g), Clamped(Reduced(b.cov, n, o.k, g), n))
  }

  /** The update as the code performs it. */
  ghost function Updated(b: Belief, n: nat, o: Observation): (r: Belief)
    requires Shaped(b, n) && o.k < n
    ensures Shaped(r, n)
  {
    if TotalVariance(b, o) <= NO_UNCERTAINTY then b else Conditioned(b, n, o, TotalVariance(b, o))
  }

  /** The update without the clamp. */
  ghost function Unclamped(b: Belief, n: nat, o: Observation): (r: Belief)
    requires Shaped(b, n) && o.k < n
    ensures Shaped(r, n)
  {
    var g := TotalVariance(b, o);
    if g <= NO_UNCERTAINTY then b else Belief(Moved(b, n, o.k, Surprise(b, o), g), Reduced(b.cov, n, o.k, g))
  }

  // ---- The update in plain numbers ----

  /** m', scaled by g, is m moved by the product of a and b. */
  ghost predicate Drawn(m: real, a: real, b: real, g: real, m': real) {
    m' * g == m * g + a * b
  }

  /** c', scaled by g, is c less the product of a and b; if clamped, no less than zero. */
  ghost predicate Lowered(c: real, a: real, b: real, g: real, clamp: bool, c': real) {
    var t := c * g - a * b;
    c' * g == if clamp && t < 0.0 then 0.0 else t
  }

  lemma ShareTimes(a: real, b: real, g: real)
    requires g != 0.0
    ensures Share(a, b, g) * g == a * b
  {
  }

  lemma MeanReads(m: real, a: real, b: real, g: real, m': real)
    requires g > 0.0 && m' == m + Share(a, b, g)
    ensures Drawn(m, a, b, g, m')
  {
    ShareTimes(a, b, g);
    assert (m + Share(a, b, g)) * g == m * g + Share(a, b, g) * g;
  }

  lemma CovReads(c: real, a: real, b: real, g: real, c': real)
    requires g > 0.0 && c' == c - Share(a, b, g)
    ensures c' * g == c * g - a * b
    ensures c' < 0.0 <==> c * g - a * b < 0.0
  {
    ShareTimes(a, b, g);
    assert (c - Share(a, b, g)) * g == c * g - Share(a, b, g) * g;
    NegativeTimesPositive(c', g);
    if c' >= 0.0 {
      NonNegativeProduct(c', g);
    }
  }

  /** The new mean is as near the sample as the variance is large against the noise: coordinate i, scaled by v + s. */
  lemma UpdatedMeanReads(b: Belief, n: nat, o: Observation, i: nat)
    requires Shaped(b, n) && o.k < n && i < n && b.cov[o.k][o.k] + o.noise > 0.000000000000001
    ensures Drawn(b.mean[i], b.cov[i][o.k], o.value - b.mean[o.k], b.cov[o.k][o.k] + o.noise, Updated(b, n, o).mean[i])
  {
    var g := b.cov[o.k][o.k] + o.noise;
    MeanReads(b.mean[i], b.cov[i][o.k], o.value - b.mean[o.k], g, Updated(b, n, o).mean[i]);
  }

  lemma UpdatedEntry(b: Belief, n: nat, o: Observation, i: nat, j: nat)
    requires Shaped(b, n) && o.k < n && i < n && j < n && b.cov[o.k][o.k] + o.noise > 0.000000000000001
    ensures var c := b.cov[i][j] - Share(b.cov[i][o.k], b.cov[j][o.k], b.cov[o.k][o.k] + o.noise);
      Updated(b, n, o).cov[i][j] == if i == j && c < 0.0 then 0.0 else c
  {
  }

  lemma ClampReads(c: real, a: real, b: real, g: real, clamp: bool, c': real)
    requires g > 0.0 && c' == if clamp && c - Share(a, b, g) < 0.0 then 0.0 else c - Share(a, b, g)
    ensures Lowered(c, a, b, g, clamp, c')
  {
    CovReads(c, a, b, g, c - Share(a, b, g));
    ZeroFactor(0.0, g);
  }

  /** Entry (i, j) of the new covariance, scaled by v + s; on the diagonal no less than zero. */
  lemma UpdatedCovReads(b: Belief, n: nat, o: Observation, i: nat, j: nat)
    requires Shaped(b, n) && o.k < n && i < n && j < n && b.cov[o.k][o.k] + o.noise > 0.000000000000001
    ensures Lowered(b.cov[i][j], b.cov[i][o.k], b.cov[j][o.k], b.cov[o.k][o.k] + o.noise, i == j,
                    Updated(b, n, o).cov[i][j])
  {
    UpdatedEntry(b, n, o, i, j);
    ClampReads(b.cov[i][j], b.cov[i][o.k], b.cov[j][o.k], b.cov[o.k][o.k] + o.noise, i == j,
               Updated(b, n, o).cov[i][j]);
  }

  lemma NothingReads(b: Belief, n: nat, o: Observation)
    requires Shaped(b, n) && o.k < n && b.cov[o.k][o.k] + o.noise <= 0.000000000000001
    ensures Updated(b, n, o) == b
  {
  }

  lemma WeighSample(m: real, v: real, s: real, y: real, m': real)
    requires Drawn(m, v, y - m, v + s, m')
    ensures m' * (v + s) == s * m + v * y
  {
    assert m * (v + s) == m * v + s * m && v * (y - m) == v * y - m * v;
  }

  lemma WeighVariance(v: real, s: real, c': real)
    requires v >= 0.0 && s >= 0.0 && Lowered(v, v, v, v + s, true, c')
    ensures c' * (v + s) == v * s
  {
    NonNegativeProduct(v, s);
    assert v * (v + s) - v * v == v * s;
  }

  /** The sampled coordinate: of a variance v and a sample y with noise s, the new mean is the old one and the sample
      weighed by s and v, and the new variance is v * s, both over v + s. */
  lemma SampledCoordinate(b: Belief, n: nat, o: Observation)
    requires Shaped(b, n) && o.k < n && b.cov[o.k][o.k] >= 0.0 && o.noise >= 0.0
    ensures var v, s, b' := b.cov[o.k][o.k], o.noise, Updated(b, n, o);
      if v + s > 0.000000000000001
      then b'.mean[o.k] * (v + s) == s * b.mean[o.k] + v * o.value && b'.cov[o.k][o.k] * (v + s) == v * s
      else b' == b
  {
    var v, s := b.cov[o.k][o.k], o.noise;
    if v + s > 0.000000000000001 {
      UpdatedMeanReads(b, n, o, o.k);
      UpdatedCovReads(b, n, o, o.k, o.k);
      WeighSample(b.mean[o.k], v, s, o.value, Updated(b, n, o).mean[o.k]);
      WeighVariance(v, s, Updated(b, n, o).cov[o.k][o.k]);
    } else {
      NothingReads(b, n, o);
    }
  }

  // ---- One update ----

  lemma ShareCommutes(a: real, b: real, g: real)
    requires g != 0.0
    ensures Share(a, b, g) == Share(b, a, g)
  {
  }

  lemma ShareAdds(a: real, b: real, x: real, c: real, g: real)
    requires g != 0.0
    ensures Share(a, b + x * c, g) == Share(a, b, g) + x * Share(a, c, g)
  {
    var p, q, r := Share(a, b + x * c, g), Share(a, b, g), Share(a, c, g);
    assert p * g == a * (b + x * c) && q * g == a * b && r * g == a * c;
    assert (q + x * r) * g == q * g + x * (r * g);
    assert x * (a * c) == a * (x * c);
    Cancel(p, q + x * r, g);
  }

  lemma Cancel(x: real, y: real, g: real)
    requires g != 0.0 && x * g == y * g
    ensures x == y
  {
    assert (x - y) * g == 0.0;
  }

  /** Taking a share of z away from y takes the same share of the inner product away. */
  lemma {:induction false} DotShare(x: Vec, y: Vec, z: Vec, w: Vec, s: real, g: real, k: nat)
    requires k <= |x| && k <= |y| && k <= |z| && k <= |w| && g != 0.0
    requires forall i :: 0 <= i < k ==> w[i] == y[i] - Share(s, z[i], g)
    ensures Dot(x, w, k) == Dot(x, y, k) - Share(s, Dot(x, z, k), g)
  {
    if k > 0 {
      DotShare(x, y, z, w, s, g, k - 1);
      ShareAdds(s, Dot(x, z, k - 1), x[k - 1], z[k - 1], g);
      assert x[k - 1] * w[k - 1] == x[k - 1] * y[k - 1] - x[k - 1] * Share(s, z[k - 1], g);
    }
  }

  lemma {:induction false} RowReduced(cov: Mat, n: nat, k: nat, g: real, x: Vec, i: nat)
    requires Square(cov, n) && Symmetric(cov, n) && k < n && g != 0.0 && |x| == n && i < n
    ensures Dot(Reduced(cov, n, k, g)[i], x, n) == Dot(cov[i], x, n) - Share(cov[i][k], Dot(cov[k], x, n), g)
  {
    var row := Reduced(cov, n, k, g)[i];
    DotShare(x, cov[i], Column(cov, k, n), row, cov[i][k], g, n);
    DotSymmetric(x, row, n);
    DotSymmetric(x, cov[i], n);
    ColumnIsRow(cov, n, x, k);
  }

  /** Conditioning lowers the quadratic form by the square of its part along k. */
  lemma {:induction false} ReducedQuad(cov: Mat, n: nat, k: nat, g: real, x: Vec)
    requires Square(cov, n) && Symmetric(cov, n) && k < n && g != 0.0 && |x| == n
    ensures Quad(Reduced(cov, n, k, g), x, n) == Quad(cov, x, n) - Share(Dot(cov[k], x, n), Dot(cov[k], x, n), g)
  {
    var c, d := Column(cov, k, n), Dot(cov[k], x, n);
    var y, y' := Apply(cov, x, n), Apply(Reduced(cov, n, k, g), x, n);
    forall i | 0 <= i < n
      ensures y'[i] == y[i] - Share(d, c[i], g)
    {
      RowReduced(cov, n, k, g, x, i);
      ShareCommutes(d, c[i], g);
    }
    DotShare(x, y, c, y', d, g, n);
    ColumnIsRow(cov, n, x, k);
  }

  lemma ShareAtMost(d: real, q: real, c: real, g: real)
    requires Product(d, d) <= Product(q, c) && 0.0 <= c <= g && 0.0 < g && 0.0 <= q
    ensures Share(d, d, g) <= q
  {
    var s := Share(d, d, g);
    assert s * g == d * d;
    ScaledOrder(c, g, q);
    assert (q - s) * g == q * g - s * g;
    NegativeTimesPositive(q - s, g);
  }

  /** Conditioning keeps positive semidefiniteness. */
  lemma ReducedIsSemidefinite(cov: Mat, n: nat, k: nat, g: real)
    requires Square(cov, n) && Symmetric(cov, n) && PositiveSemidefinite(cov, n) && k < n
    requires g > 0.0 && g >= cov[k][k]
    ensures PositiveSemidefinite(Reduced(cov, n, k, g), n)
  {
    DiagonalNonNegative(cov, n, k);
    forall x: Vec | |x| == n
      ensures Quad(Reduced(cov, n, k, g), x, n) >= 0.0
    {
      ReducedQuad(cov, n, k, g, x);
      CauchySchwarz(cov, n, x, k);
      ShareAtMost(Dot(cov[k], x, n), Quad(cov, x, n), cov[k][k], g);
    }
  }

  lemma ReducedIsSymmetric(cov: Mat, n: nat, k: nat, g: real)
    requires Square(cov, n) && Symmetric(cov, n) && k < n && g != 0.0
    ensures Symmetric(Reduced(cov, n, k, g), n)
  {
    forall i, j | 0 <= i < n && 0 <= j < n
      ensures Share(cov[i][k], cov[j][k], g) == Share(cov[j][k], cov[i][k], g)
    {
      ShareCommutes(cov[i][k], cov[j][k], g);
    }
  }

  lemma ShareOfSquare(a: real, g: real)
    requires g > 0.0
    ensures Share(a, a, g) >= 0.0
  {
    assert Share(a, a, g) * g == a * a >= 0.0;
  }

  /** Every marginal variance is non-negative and at most what it was. */
  ghost predicate VariancesShrink(before: Mat, after: Mat, n: nat)
    requires Square(before, n) && Square(after, n)
  {
    forall i :: 0 <= i < n ==> 0.0 <= after[i][i] <= before[i][i]
  }

  lemma ReducedShrinks(cov: Mat, n: nat, k: nat, g: real)
    requires Square(cov, n) && k < n && g > 0.0
    ensures forall i :: 0 <= i < n ==> Reduced(cov, n, k, g)[i][i] <= cov[i][i]
  {
    forall i | 0 <= i < n
      ensures Reduced(cov, n, k, g)[i][i] <= cov[i][i]
    {
      ShareOfSquare(cov[i][k], g);
    }
  }

  lemma SemidefiniteNeedsNoClamp(r: Mat, n: nat)
    requires Square(r, n) && Symmetric(r, n) && PositiveSemidefinite(r, n)
    ensures Clamped(r, n) == r
    ensures forall i :: 0 <= i < n ==> 0.0 <= r[i][i]
  {
    forall i | 0 <= i < n
      ensures 0.0 <= r[i][i]
    {
      DiagonalNonNegative(r, n, i);
    }
    NothingToClamp(r, n);
  }

  lemma NothingToClamp(r: Mat, n: nat)
    requires Square(r, n) && forall i :: 0 <= i < n ==> 0.0 <= r[i][i]
    ensures Clamped(r, n) == r
  {
    forall i | 0 <= i < n
      ensures Clamped(r, n)[i] == r[i]
    {
    }
  }

  /** From a proper belief the clamp never fires and no marginal variance grows. */
  lemma ConditioningIsExact(cov: Mat, n: nat, k: nat, g: real)
    requires Square(cov, n) && Symmetric(cov, n) && PositiveSemidefinite(cov, n) && k < n
    requires g > 0.0 && g >= cov[k][k]
    ensures Symmetric(Reduced(cov, n, k, g), n) && PositiveSemidefinite(Reduced(cov, n, k, g), n)
    ensures Clamped(Reduced(cov, n, k, g), n) == Reduced(cov, n, k, g)
    ensures VariancesShrink(cov, Reduced(cov, n, k, g), n)
  {
    ReducedIsSemidefinite(cov, n, k, g);
    ReducedIsSymmetric(cov, n, k, g);
    SemidefiniteNeedsNoClamp(Reduced(cov, n, k, g), n);
    ReducedShrinks(cov, n, k, g);
  }

  /** An informative update of a proper belief is the unclamped conditioning. */
  lemma UpdateIsConditioning(b: Belief, n: nat, o: Observation)
    requires Proper(b, n) && o.k < n && o.noise >= 0.0 && TotalVariance(b, o) > NO_UNCERTAINTY
    ensures Updated(b, n, o).mean == Moved(b, n, o.k, Surprise(b, o), TotalVariance(b, o))
    ensures Updated(b, n, o).cov == Reduced(b.cov, n, o.k, TotalVariance(b, o))
  {
    ConditioningIsExact(b.cov, n, o.k, TotalVariance(b, o));
  }

  /** Every update of a proper belief is proper, raises no marginal variance, and clamps nothing. */
  lemma UpdateKeepsProper(b: Belief, n: nat, o: Observation)
    requires Proper(b, n) && o.k < n && o.noise >= 0.0
    ensures Proper(Updated(b, n, o), n) && Updated(b, n, o) == Unclamped(b, n, o)
    ensures VariancesShrink(b.cov, Updated(b, n, o).cov, n)
  {
    if TotalVariance(b, o) > NO_UNCERTAINTY {
      UpdateIsConditioning(b, n, o);
      ConditioningIsExact(b.cov, n, o.k, TotalVariance(b, o));
    } else {
      SemidefiniteNeedsNoClamp(b.cov, n);
    }
  }

  // ---- Two observations at once ----

  /** Determinant of the 2x2 total covariance of two observations. */
  function Determinant(g: real, h: real, c: real): real {
    g * h - c * c
  }

  /** [a1 a2] * inverse([[g, c], [c, h]]) * [b1 b2], the joint correction of two observations. */
  function JointShare(a1: real, a2: real, b1: real, b2: real, g: real, h: real, c: real): real
    requires Determinant(g, h, c) != 0.0
  {
    (h * (a1 * b1) - c * (a2 * b1 + a1 * b2) + g * (a2 * b2)) / Determinant(g, h, c)
  }

  lemma JointShareSwaps(a1: real, a2: real, b1: real, b2: real, g: real, h: real, c: real)
    requires Determinant(g, h, c) != 0.0
    ensures Determinant(h, g, c) == Determinant(g, h, c)
    ensures JointShare(a1, a2, b1, b2, g, h, c) == JointShare(a2, a1, b2, b1, h, g, c)
  {
    assert h * (a1 * b1) - c * (a2 * b1 + a1 * b2) + g * (a2 * b2)
      == g * (a2 * b2) - c * (a1 * b2 + a2 * b1) + h * (a1 * b1);
  }

  lemma ScaledDifference(x: real, y: real, c: real, g: real)
    requires g != 0.0
    ensures (x - Share(y, c, g)) * g == x * g - y * c
  {
    assert Share(y, c, g) * g == y * c;
  }

  /** (ag - bc)(eg - fc) + bf(gh - cc) = g (h bf - c(af + be) + g ae) */
  lemma Expand(a: real, b: real, e: real, f: real, g: real, h: real, c: real)
    ensures (a * g - b * c) * (e * g - f * c) + (b * f) * (g * h - c * c)
      == g * (h * (b * f) - c * (a * f + b * e) + g * (a * e))
  {
    assert (a * g - b * c) * (e * g - f * c)
      == g * (g * (a * e)) - g * (c * (a * f)) - g * (c * (b * e)) + c * c * (b * f);
    assert (b * f) * (g * h - c * c) == g * (h * (b * f)) - c * c * (b * f);
  }

  /** The second of two corrections acts on what the first one left; together they are the joint correction. */
  lemma TwoSteps(a1: real, a2: real, b1: real, b2: real, g: real, h: real, c: real, a2': real, b2': real, rest: real)
    requires g > 0.0 && rest > 0.0 && rest == h - Share(c, c, g)
    requires a2' == a2 - Share(a1, c, g) && b2' == b2 - Share(b1, c, g)
    ensures Determinant(g, h, c) > 0.0
    ensures Share(a1, b1, g) + Share(a2', b2', rest) == JointShare(a1, a2, b1, b2, g, h, c)
  {
    var d := Determinant(g, h, c);
    ScaledDifference(h, c, c, g);
    assert rest * g == d;
    ScaledDifference(a2, a1, c, g);
    ScaledDifference(b2, b1, c, g);
    var r1, r2, joint := Share(a1, b1, g), Share(a2', b2', rest), JointShare(a1, a2, b1, b2, g, h, c);
    FirstPart(a1, b1, g, d, r1);
    SecondPart(a2', b2', g, d, rest, r2);
    Expand(a2, a1, b2, b1, g, h, c);
    var numerator := h * (a1 * b1) - c * (a2 * b1 + a1 * b2) + g * (a2 * b2);
    assert joint * d == numerator;
    assert (r1 + r2) * (g * d) == r1 * (g * d) + r2 * (g * d);
    assert (r1 + r2) * (g * d) == g * numerator;
    assert joint * (g * d) == g * (joint * d);
    Cancel(r1 + r2, joint, g * d);
  }

  lemma FirstPart(a: real, b: real, g: real, d: real, r: real)
    requires g != 0.0 && r == Share(a, b, g)
    ensures r * (g * d) == (a * b) * d
  {
    assert r * g == a * b;
    assert r * (g * d) == (r * g) * d;
  }

  lemma SecondPart(a: real, b: real, g: real, d: real, rest: real, r: real)
    requires rest != 0.0 && r == Share(a, b, rest) && rest * g == d
    ensures r * (g * d) == (a * g) * (b * g)
  {
    assert r * rest == a * b;
    assert r * (g * d) == (r * rest) * (g * g);
    assert (a * g) * (b * g) == (a * b) * (g * g);
  }

  ghost predicate Applicable(o: Observation, n: nat) {
    o.k < n && o.noise > NO_UNCERTAINTY
  }

  /** Entry (i, j) of the covariance, and coordinate i of the mean, after both observations together. */
  ghost function JointCov(b: Belief, n: nat, o: Observation, o': Observation, i: nat, j: nat): real
    requires Shaped(b, n) && o.k < n && o'.k < n && i < n && j < n
    requires Determinant(TotalVariance(b, o), TotalVariance(b, o'), b.cov[o.k][o'.k]) != 0.0
  {
    b.cov[i][j] - JointShare(b.cov[i][o.k], b.cov[i][o'.k], b.cov[j][o.k], b.cov[j][o'.k],
                             TotalVariance(b, o), TotalVariance(b, o'), b.cov[o.k][o'.k])
  }

  ghost function JointMean(b: Belief, n: nat, o: Observation, o': Observation, i: nat): real
    requires Shaped(b, n) && o.k < n && o'.k < n && i < n
    requires Determinant(TotalVariance(b, o), TotalVariance(b, o'), b.cov[o.k][o'.k]) != 0.0
  {
    b.mean[i] + JointShare(b.cov[i][o.k], b.cov[i][o'.k], Surprise(b, o), Surprise(b, o'),
                           TotalVariance(b, o), TotalVariance(b, o'), b.cov[o.k][o'.k])
  }

  /** b' has the covariance of b conditioned on coordinate k at total variance g, entry by entry, unclamped. */
  ghost predicate CovFollows(b: Belief, n: nat, k: nat, g: real, b': Belief)
    requires Shaped(b, n) && Shaped(b', n) && k < n && g > 0.0
  {
    forall i, j :: 0 <= i < n && 0 <= j < n ==> b'.cov[i][j] == b.cov[i][j] - Share(b.cov[i][k], b.cov[j][k], g)
  }

  ghost predicate MeanFollows(b: Belief, n: nat, k: nat, surprise: real, g: real, b': Belief)
    requires Shaped(b, n) && Shaped(b', n) && k < n && g > 0.0
  {
    forall i :: 0 <= i < n ==> b'.mean[i] == b.mean[i] + Share(b.cov[i][k], surprise, g)
  }

  /** The observation is accepted, and its total variance is above the cut-off. */
  ghost predicate Telling(b: Belief, n: nat, o: Observation)
    requires Shaped(b, n)
  {
    o.k < n && o.noise >= 0.0 && TotalVariance(b, o) > NO_UNCERTAINTY
  }

  lemma ApplicableIsTelling(b: Belief, n: nat, o: Observation)
    requires Proper(b, n) && Applicable(o, n)
    ensures Telling(b, n, o)
  {
    DiagonalNonNegative(b.cov, n, o.k);
  }

  /** A telling observation is not cut off, and conditions the covariance exactly. */
  lemma UpdatedCovFollows(b: Belief, n: nat, o: Observation)
    requires Proper(b, n) && Telling(b, n, o)
    ensures TotalVariance(b, o) > 0.0 && CovFollows(b, n, o.k, TotalVariance(b, o), Updated(b, n, o))
  {
    UpdateIsConditioning(b, n, o);
  }

  lemma UpdatedMeanFollows(b: Belief, n: nat, o: Observation)
    requires Proper(b, n) && Telling(b, n, o)
    ensures TotalVariance(b, o) > 0.0 && MeanFollows(b, n, o.k, Surprise(b, o), TotalVariance(b, o), Updated(b, n, o))
  {
    UpdateIsConditioning(b, n, o);
  }

  /** What the first of two observations leaves of the second one's total variance. */
  lemma RestOfVariance(b: Belief, n: nat, o: Observation, o': Observation, g: real, b1: Belief)
    requires Shaped(b, n) && Symmetric(b.cov, n) && Shaped(b1, n) && o.k < n && o'.k < n && g > 0.0
    requires CovFollows(b, n, o.k, g, b1)
    ensures TotalVariance(b1, o') == TotalVariance(b, o') - Share(b.cov[o.k][o'.k], b.cov[o.k][o'.k], g)
  {
    assert b.cov[o'.k][o.k] == b.cov[o.k][o'.k];
    assert b1.cov[o'.k][o'.k] == b.cov[o'.k][o'.k] - Share(b.cov[o'.k][o.k], b.cov[o'.k][o.k], g);
  }

  /** One covariance entry after two conditionings in a row. */
  lemma TwoCovs(b: Belief, n: nat, o: Observation, o': Observation, g: real, b1: Belief, rest: real, b2: Belief, i: nat,
                j: nat)
    requires Shaped(b, n) && Symmetric(b.cov, n) && Shaped(b1, n) && Shaped(b2, n) && o.k < n && o'.k < n && i < n
    requires j < n
    requires g == TotalVariance(b, o) > 0.0 && CovFollows(b, n, o.k, g, b1)
    requires rest == TotalVariance(b1, o') > 0.0 && CovFollows(b1, n, o'.k, rest, b2)
    ensures Determinant(g, TotalVariance(b, o'), b.cov[o.k][o'.k]) > 0.0
    ensures b2.cov[i][j] == JointCov(b, n, o, o', i, j)
  {
    var k, l, c := o.k, o'.k, b.cov[o.k][o'.k];
    RestOfVariance(b, n, o, o', g, b1);
    assert b.cov[l][k] == c;
    assert b1.cov[i][l] == b.cov[i][l] - Share(b.cov[i][k], b.cov[l][k], g);
    assert b1.cov[j][l] == b.cov[j][l] - Share(b.cov[j][k], b.cov[l][k], g);
    TwoSteps(b.cov[i][k], b.cov[i][l], b.cov[j][k], b.cov[j][l], g, TotalVariance(b, o'), c, b1.cov[i][l],
             b1.cov[j][l], rest);
    assert b1.cov[i][j] == b.cov[i][j] - Share(b.cov[i][k], b.cov[j][k], g);
    assert b2.cov[i][j] == b1.cov[i][j] - Share(b1.cov[i][l], b1.cov[j][l], rest);
  }

  /** One coordinate of the mean after two conditionings in a row. */
  lemma TwoMeans(b: Belief, n: nat, o: Observation, o': Observation, g: real, b1: Belief, rest: real, b2: Belief,
                 i: nat)
    requires Shaped(b, n) && Symmetric(b.cov, n) && Shaped(b1, n) && Shaped(b2, n) && o.k < n && o'.k < n && i < n
    requires g == TotalVariance(b, o) > 0.0 && CovFollows(b, n, o.k, g, b1)
    requires rest == TotalVariance(b1, o') > 0.0
    requires MeanFollows(b, n, o.k, Surprise(b, o), g, b1) && MeanFollows(b1, n, o'.k, Surprise(b1, o'), rest, b2)
    ensures Determinant(g, TotalVariance(b, o'), b.cov[o.k][o'.k]) > 0.0
    ensures b2.mean[i] == JointMean(b, n, o, o', i)
  {
    var k, l, c := o.k, o'.k, b.cov[o.k][o'.k];
    var y, y' := Surprise(b, o), Surprise(b, o');
    RestOfVariance(b, n, o, o', g, b1);
    assert b.cov[l][k] == c;
    assert b1.cov[i][l] == b.cov[i][l] - Share(b.cov[i][k], b.cov[l][k], g);
    assert b1.mean[l] == b.mean[l] + Share(b.cov[l][k], y, g);
    ShareCommutes(c, y, g);
    TwoSteps(b.cov[i][k], b.cov[i][l], y, y', g, TotalVariance(b, o'), c, b1.cov[i][l], Surprise(b1, o'), rest);
    assert b1.mean[i] == b.mean[i] + Share(b.cov[i][k], y, g);
    assert b2.mean[i] == b1.mean[i] + Share(b1.cov[i][l], Surprise(b1, o'), rest);
  }

  /** b' is the belief after both observations together. */
  ghost predicate IsJoint(b: Belief, n: nat, o: Observation, o': Observation, b': Belief) {
    && Shaped(b, n) && Shaped(b', n) && o.k < n && o'.k < n
    && Determinant(TotalVariance(b, o), TotalVariance(b, o'), b.cov[o.k][o'.k]) != 0.0
    && (forall i, j :: 0 <= i < n && 0 <= j < n ==> b'.cov[i][j] == JointCov(b, n, o, o', i, j))
    && (forall i :: 0 <= i < n ==> b'.mean[i] == JointMean(b, n, o, o', i))
  }

  lemma TwoConditionings(b: Belief, n: nat, o: Observation, o': Observation, g: real, b1: Belief, rest: real,
                         b2: Belief)
    requires Shaped(b, n) && Symmetric(b.cov, n) && Shaped(b1, n) && Shaped(b2, n) && o.k < n && o'.k < n
    requires g == TotalVariance(b, o) > 0.0 && CovFollows(b, n, o.k, g, b1)
    requires rest == TotalVariance(b1, o') > 0.0 && CovFollows(b1, n, o'.k, rest, b2)
    requires MeanFollows(b, n, o.k, Surprise(b, o), g, b1) && MeanFollows(b1, n, o'.k, Surprise(b1, o'), rest, b2)
    ensures IsJoint(b, n, o, o', b2)
  {
    TwoCovs(b, n, o, o', g, b1, rest, b2, o.k, o.k);
    forall i, j | 0 <= i < n && 0 <= j < n
      ensures b2.cov[i][j] == JointCov(b, n, o, o', i, j)
    {
      TwoCovs(b, n, o, o', g, b1, rest, b2, i, j);
    }
    forall i | 0 <= i < n
      ensures b2.mean[i] == JointMean(b, n, o, o', i)
    {
      TwoMeans(b, n, o, o', g, b1, rest, b2, i);
    }
  }

  /** b' is b conditioned on o. */
  ghost predicate Conditions(b: Belief, n: nat, o: Observation, b': Belief) {
    && Shaped(b, n) && Shaped(b', n) && o.k < n && TotalVariance(b, o) > 0.0
    && CovFollows(b, n, o.k, TotalVariance(b, o), b')
    && MeanFollows(b, n, o.k, Surprise(b, o), TotalVariance(b, o), b')
  }

  lemma UpdateConditions(b: Belief, n: nat, o: Observation)
    requires Proper(b, n) && Telling(b, n, o)
    ensures Conditions(b, n, o, Updated(b, n, o))
  {
    UpdatedCovFollows(b, n, o);
    UpdatedMeanFollows(b, n, o);
  }

  lemma ConditionsAreJoint(b: Belief, n: nat, o: Observation, o': Observation, b1: Belief, b2: Belief)
    requires Shaped(b, n) && Symmetric(b.cov, n) && Conditions(b, n, o, b1) && Conditions(b1, n, o', b2)
    ensures IsJoint(b, n, o, o', b2)
  {
    TwoConditionings(b, n, o, o', TotalVariance(b, o), b1, TotalVariance(b1, o'), b2);
  }

  /** Two updates in a row give the joint posterior, when each is telling where it is made. */
  lemma TwoUpdatesAreJoint(b: Belief, n: nat, o: Observation, o': Observation)
    requires Proper(b, n) && Telling(b, n, o) && Telling(Updated(b, n, o), n, o')
    ensures IsJoint(b, n, o, o', Updated(Updated(b, n, o), n, o'))
  {
    UpdateKeepsProper(b, n, o);
    UpdateConditions(b, n, o);
    UpdateConditions(Updated(b, n, o), n, o');
    ConditionsAreJoint(b, n, o, o', Updated(b, n, o), Updated(Updated(b, n, o), n, o'));
  }

  lemma JointSwaps(b: Belief, n: nat, o: Observation, o': Observation, i: nat, j: nat)
    requires Shaped(b, n) && Symmetric(b.cov, n) && o.k < n && o'.k < n && i < n && j < n
    requires Determinant(TotalVariance(b, o), TotalVariance(b, o'), b.cov[o.k][o'.k]) != 0.0
    ensures Determinant(TotalVariance(b, o'), TotalVariance(b, o), b.cov[o'.k][o.k]) != 0.0
    ensures JointCov(b, n, o, o', i, j) == JointCov(b, n, o', o, i, j)
    ensures JointMean(b, n, o, o', i) == JointMean(b, n, o', o, i)
  {
    var g, h, c := TotalVariance(b, o), TotalVariance(b, o'), b.cov[o.k][o'.k];
    assert b.cov[o'.k][o.k] == c;
    JointShareSwaps(b.cov[i][o.k], b.cov[i][o'.k], b.cov[j][o.k], b.cov[j][o'.k], g, h, c);
    JointShareSwaps(b.cov[i][o.k], b.cov[i][o'.k], Surprise(b, o), Surprise(b, o'), g, h, c);
  }

  lemma BeliefsEqual(x: Belief, y: Belief, n: nat)
    requires Shaped(x, n) && Shaped(y, n)
    requires forall i :: 0 <= i < n ==> x.mean[i] == y.mean[i]
    requires forall i, j :: 0 <= i < n && 0 <= j < n ==> x.cov[i][j] == y.cov[i][j]
    ensures x == y
  {
    forall i | 0 <= i < n
      ensures x.cov[i] == y.cov[i]
    {
    }
    assert x.mean == y.mean && x.cov == y.cov;
  }

  lemma JointIsSymmetric(b: Belief, n: nat, o: Observation, o': Observation, x: Belief, y: Belief)
    requires Shaped(b, n) && Symmetric(b.cov, n) && IsJoint(b, n, o, o', x) && IsJoint(b, n, o', o, y)
    ensures x == y
  {
    forall i, j | 0 <= i < n && 0 <= j < n
      ensures x.cov[i][j] == y.cov[i][j]
    {
      JointSwaps(b, n, o, o', i, j);
    }
    forall i | 0 <= i < n
      ensures x.mean[i] == y.mean[i]
    {
      JointSwaps(b, n, o, o', i, i);
    }
    BeliefsEqual(x, y, n);
  }

  /** Two observations that stay telling after each other commute: in either order they give the joint posterior. */
  lemma UpdatesCommute(b: Belief, n: nat, o: Observation, o': Observation)
    requires Proper(b, n) && Telling(b, n, o) && Telling(b, n, o')
    requires Telling(Updated(b, n, o), n, o') && Telling(Updated(b, n, o'), n, o)
    ensures Updated(Updated(b, n, o), n, o') == Updated(Updated(b, n, o'), n, o)
  {
    TwoUpdatesAreJoint(b, n, o, o');
    TwoUpdatesAreJoint(b, n, o', o);
    JointIsSymmetric(b, n, o, o', Updated(Updated(b, n, o), n, o'), Updated(Updated(b, n, o'), n, o));
  }

  // ---- Below the cut-off ----

  ghost predicate Commute(b: Belief, n: nat, o: Observation, o': Observation)
    requires Shaped(b, n) && o.k < n && o'.k < n
  {
    Updated(Updated(b, n, o), n, o') == Updated(Updated(b, n, o'), n, o)
  }

  /** Coordinate k is uncorrelated with everything, itself included. */
  ghost predicate Settled(b: Belief, n: nat, k: nat)
    requires Shaped(b, n) && k < n
  {
    forall i :: 0 <= i < n ==> b.cov[i][k] == 0.0
  }

  /** What tells nothing at first tells nothing after another update either. */
  lemma UntellingCommutes(b: Belief, n: nat, o: Observation, o': Observation)
    requires Proper(b, n) && o.k < n && o'.k < n && o.noise >= 0.0 && o'.noise >= 0.0 && !Telling(b, n, o)
    ensures Commute(b, n, o, o')
  {
    UpdateKeepsProper(b, n, o');
    assert Updated(b, n, o').cov[o.k][o.k] <= b.cov[o.k][o.k];
  }

  lemma SquareShareIsZero(a: real, g: real)
    requires g > 0.0 && Share(a, a, g) == 0.0
    ensures a == 0.0
  {
    assert Share(a, a, g) * g == a * a;
    OneFactorIsZero(a, a);
  }

  lemma ShareOfZero(b: real, g: real)
    requires g > 0.0
    ensures Share(0.0, b, g) == 0.0
  {
  }

  /** Conditioning changes nothing exactly when the coordinate is settled. */
  lemma IdleIffSettled(b: Belief, n: nat, k: nat, surprise: real, g: real, b': Belief)
    requires Shaped(b, n) && Shaped(b', n) && k < n && g > 0.0
    requires CovFollows(b, n, k, g, b') && MeanFollows(b, n, k, surprise, g, b')
    ensures b' == b <==> Settled(b, n, k)
  {
    if b' == b {
      forall i | 0 <= i < n
        ensures b.cov[i][k] == 0.0
      {
        assert b'.cov[i][i] == b.cov[i][i] - Share(b.cov[i][k], b.cov[i][k], g);
        SquareShareIsZero(b.cov[i][k], g);
      }
    }
    if Settled(b, n, k) {
      forall i | 0 <= i < n
        ensures b'.mean[i] == b.mean[i]
      {
        ShareOfZero(surprise, g);
      }
      forall i, j | 0 <= i < n && 0 <= j < n
        ensures b'.cov[i][j] == b.cov[i][j]
      {
        ShareOfZero(b.cov[j][k], g);
      }
      BeliefsEqual(b', b, n);
    }
  }

  /** The first observation leaves the second some variance when, the other way round, both tell something. */
  lemma RestIsPositive(b: Belief, n: nat, o: Observation, o': Observation)
    requires Proper(b, n) && Telling(b, n, o) && Telling(b, n, o') && Telling(Updated(b, n, o'), n, o)
    ensures TotalVariance(Updated(b, n, o), o') > 0.0
  {
    var g, h, c := TotalVariance(b, o), TotalVariance(b, o'), b.cov[o.k][o'.k];
    UpdatedCovFollows(b, n, o);
    UpdatedCovFollows(b, n, o');
    RestOfVariance(b, n, o, o', g, Updated(b, n, o));
    RestOfVariance(b, n, o', o, h, Updated(b, n, o'));
    assert b.cov[o'.k][o.k] == c;
    RestsShareSign(g, h, c);
  }

  lemma RestsShareSign(g: real, h: real, c: real)
    requires g > 0.0 && h > 0.0 && g - Share(c, c, h) > 0.0
    ensures h - Share(c, c, g) > 0.0
  {
    var r, q := h - Share(c, c, g), g - Share(c, c, h);
    ScaledDifference(h, c, c, g);
    ScaledDifference(g, c, c, h);
    assert r * g == q * h;
    NegativeTimesPositive(-q, h);
    assert (-q) * h == -(q * h);
    NegativeTimesPositive(r, g);
    assert r == 0.0 ==> r * g == 0.0;
  }

  /** When o' tells nothing after o, but o still does after o', the orders agree exactly when o settles o'. */
  lemma OneSidedCommute(b: Belief, n: nat, o: Observation, o': Observation)
    requires Proper(b, n) && Telling(b, n, o) && Telling(b, n, o') && o.k < n && o'.k < n
    requires !Telling(Updated(b, n, o), n, o') && Telling(Updated(b, n, o'), n, o)
    ensures Commute(b, n, o, o') <==> Settled(Updated(b, n, o), n, o'.k)
  {
    var b1, y := Updated(b, n, o), Updated(Updated(b, n, o'), n, o);
    var g, rest := TotalVariance(b, o), TotalVariance(Updated(b, n, o), o');
    RestIsPositive(b, n, o, o');
    UpdateConditions(b, n, o);
    var b2 := Belief(Moved(b1, n, o'.k, Surprise(b1, o'), rest), Reduced(b1.cov, n, o'.k, rest));
    TwoConditionings(b, n, o, o', g, b1, rest, b2);
    TwoUpdatesAreJoint(b, n, o', o);
    JointIsSymmetric(b, n, o, o', b2, y);
    IdleIffSettled(b1, n, o'.k, Surprise(b1, o'), rest, b2);
  }

  /** Each observation alone moves every mean by as much as the other, and takes as much off every covariance: the
      shares of the two columns in the prior agree, entry by entry. */
  ghost predicate SameEffect(b: Belief, n: nat, o: Observation, o': Observation)
    requires Shaped(b, n) && o.k < n && o'.k < n && TotalVariance(b, o) != 0.0 && TotalVariance(b, o') != 0.0
  {
    && (forall i :: 0 <= i < n ==>
          Share(b.cov[i][o.k], Surprise(b, o), TotalVariance(b, o))
          == Share(b.cov[i][o'.k], Surprise(b, o'), TotalVariance(b, o')))
    && forall i, j :: 0 <= i < n && 0 <= j < n ==>
         Share(b.cov[i][o.k], b.cov[j][o.k], TotalVariance(b, o))
         == Share(b.cov[i][o'.k], b.cov[j][o'.k], TotalVariance(b, o'))
  }

  lemma SameUpdateIff(b: Belief, n: nat, o: Observation, o': Observation)
    requires Proper(b, n) && Telling(b, n, o) && Telling(b, n, o')
    ensures Updated(b, n, o) == Updated(b, n, o') <==> SameEffect(b, n, o, o')
  {
    var x, y := Updated(b, n, o), Updated(b, n, o');
    UpdateConditions(b, n, o);
    UpdateConditions(b, n, o');
    if SameEffect(b, n, o, o') {
      BeliefsEqual(x, y, n);
    }
  }

  /** Two observations of any noise commute exactly when one of them tells nothing to begin with, or both still do after
      the other, or the first one made settles what the other is about; and where neither tells anything after the
      other, when each alone has the same effect on every mean and covariance. */
  lemma UpdatesCommuteIff(b: Belief, n: nat, o: Observation, o': Observation)
    requires Proper(b, n) && o.k < n && o'.k < n && o.noise >= 0.0 && o'.noise >= 0.0
    ensures Commute(b, n, o, o') <==>
      || !Telling(b, n, o) || !Telling(b, n, o')
      || if Telling(Updated(b, n, o), n, o')
         then Telling(Updated(b, n, o'), n, o) || Settled(Updated(b, n, o'), n, o.k)
         else if Telling(Updated(b, n, o'), n, o) then Settled(Updated(b, n, o), n, o'.k)
         else SameEffect(b, n, o, o')
  {
    if !Telling(b, n, o) {
      UntellingCommutes(b, n, o, o');
    } else if !Telling(b, n, o') {
      UntellingCommutes(b, n, o', o);
    } else if Telling(Updated(b, n, o), n, o') {
      if Telling(Updated(b, n, o'), n, o) {
        UpdatesCommute(b, n, o, o');
      } else {
        OneSidedCommute(b, n, o', o);
      }
    } else if Telling(Updated(b, n, o'), n, o) {
      OneSidedCommute(b, n, o, o');
    } else {
      SameUpdateIff(b, n, o, o');
    }
  }

  // ---- Runs of updates ----

  /** The update of dimension n as a step; what it rejects leaves the belief alone. */
  ghost function Step(n: nat, b: Belief, o: Observation): Belief {
    if Shaped(b, n) && o.k < n && o.noise >= 0.0 then Updated(b, n, o) else b
  }

  ghost function Run(n: nat, b: Belief, obs: seq<Observation>): Belief {
    Fold((x: Belief, o: Observation) => Step(n, x, o), b, obs)
  }

  /** The same run without ever clamping. */
  ghost function UnclampedStep(n: nat, b: Belief, o: Observation): Belief {
    if Shaped(b, n) && o.k < n && o.noise >= 0.0 then Unclamped(b, n, o) else b
  }

  ghost function UnclampedRun(n: nat, b: Belief, obs: seq<Observation>): Belief {
    Fold((x: Belief, o: Observation) => UnclampedStep(n, x, o), b, obs)
  }

  /** b is proper and no marginal variance exceeds its prior one. */
  ghost predicate TighterThan(prior: Belief, n: nat, b: Belief) {
    && Proper(b, n) && Shaped(prior, n)
    && forall i :: 0 <= i < n ==> 0.0 <= b.cov[i][i] <= prior.cov[i][i]
  }

  lemma ShrinkTightens(prior: Belief, n: nat, b: Belief, b': Belief)
    requires TighterThan(prior, n, b) && Proper(b', n) && VariancesShrink(b.cov, b'.cov, n)
    ensures TighterThan(prior, n, b')
  {
  }

  lemma StepTightens(prior: Belief, n: nat, b: Belief, o: Observation)
    requires TighterThan(prior, n, b)
    ensures TighterThan(prior, n, Step(n, b, o))
  {
    if o.k < n && o.noise >= 0.0 {
      UpdateKeepsProper(b, n, o);
      ShrinkTightens(prior, n, b, Updated(b, n, o));
    }
  }

  /** Over any run of updates the belief stays proper and no marginal variance ever exceeds the prior's. */
  lemma RunKeepsProper(n: nat, prior: Belief, obs: seq<Observation>)
    requires Proper(prior, n)
    ensures TighterThan(prior, n, Run(n, prior, obs))
  {
    SemidefiniteNeedsNoClamp(prior.cov, n);
    forall b, o | TighterThan(prior, n, b)
      ensures TighterThan(prior, n, Step(n, b, o))
    {
      StepTightens(prior, n, b, o);
    }
    FoldKeeps((x: Belief, o: Observation) => Step(n, x, o), (x: Belief) => TighterThan(prior, n, x),
              (o: Observation) => true, prior, obs);
  }

  lemma StepKeepsProper(n: nat, b: Belief, o: Observation)
    requires Proper(b, n)
    ensures Proper(Step(n, b, o), n) && UnclampedStep(n, b, o) == Step(n, b, o)
  {
    if o.k < n && o.noise >= 0.0 {
      UpdateKeepsProper(b, n, o);
    }
  }

  /** Over any run the clamp never acts. */
  lemma RunNeedsNoClamp(n: nat, prior: Belief, obs: seq<Observation>)
    requires Proper(prior, n)
    ensures Run(n, prior, obs) == UnclampedRun(n, prior, obs)
  {
    forall b, o | Proper(b, n)
      ensures Proper(Step(n, b, o), n) && UnclampedStep(n, b, o) == Step(n, b, o)
    {
      StepKeepsProper(n, b, o);
    }
    FoldSame((x: Belief, o: Observation) => Step(n, x, o), (x: Belief, o: Observation) => UnclampedStep(n, x, o),
             (x: Belief) => Proper(x, n), prior, obs);
  }

  /** The belief after a run does not depend on the order of its observations. */
  lemma RunIgnoresOrder(n: nat, prior: Belief, obs: seq<Observation>, obs': seq<Observation>)
    requires Proper(prior, n) && multiset(obs) == multiset(obs') && forall o :: o in obs ==> Applicable(o, n)
    ensures Run(n, prior, obs) == Run(n, prior, obs')
  {
    var step := (x: Belief, o: Observation) => Step(n, x, o);
    var inv := (x: Belief) => Proper(x, n);
    var ok := (o: Observation) => Applicable(o, n);
    forall b, o | inv(b) && ok(o)
      ensures inv(step(b, o))
    {
      StepKeepsProper(n, b, o);
    }
    forall b, o, o' | inv(b) && ok(o) && ok(o')
      ensures step(step(b, o), o') == step(step(b, o'), o)
    {
      StepsCommute(n, b, o, o');
    }
    FoldIgnoresOrder(step, inv, ok, prior, obs, obs');
  }

  lemma StepsCommute(n: nat, b: Belief, o: Observation, o': Observation)
    requires Proper(b, n) && Applicable(o, n) && Applicable(o', n)
    ensures Step(n, Step(n, b, o), o') == Step(n, Step(n, b, o'), o)
  {
    UpdateKeepsProper(b, n, o);
    UpdateKeepsProper(b, n, o');
    ApplicableIsTelling(b, n, o);
    ApplicableIsTelling(b, n, o');
    ApplicableIsTelling(Updated(b, n, o), n, o');
    ApplicableIsTelling(Updated(b, n, o'), n, o);
    UpdatesCommute(b, n, o, o');
  }
}
