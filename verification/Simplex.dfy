/** The probability simplex: validation, normalization and Euclidean projection, over exact reals. */
module Simplex {
  import opened Wrappers
  import opened RealSums
  import opened Sorting
  import opened LinearAlgebra
  import opened GramMatrices
  import opened RealProducts

  datatype SimplexError = Empty | Negative(index: nat) | NoMass | SumMismatch

  const DEFAULT_TOLERANCE := 0.000000001
  const JITTER := 0.000000000000001

  ghost predicate NonNegative(p: Vec) {
    forall i :: 0 <= i < |p| ==> p[i] >= 0.0
  }

  ghost predicate OnSimplex(p: Vec) {
    NonNegative(p) && Sum(p) == 1.0
  }

  /** The running compensation recovers lost low-order bits; over exact reals none are lost. */
  method CompensatedSum(xs: Vec) returns (total: real)
    ensures total == Sum(xs)
  {
    if |xs| == 0 {
      return 0.0;
    }
    var sum, c := 0.0, 0.0;
    var i := 0;
    while i < |xs|
      invariant 0 <= i <= |xs|
      invariant sum + c == SumTo(xs, i)
    {
      var t := sum + xs[i];
      if Abs(sum) >= Abs(xs[i]) {
        c := c + ((sum - t) + xs[i]);
      } else {
        c := c + ((xs[i] - t) + sum);
      }
      sum := t;
      i := i + 1;
    }
    return sum + c;
  }

  function Tolerance(epsilon: real): real {
    if epsilon < 0.0 then DEFAULT_TOLERANCE else epsilon
  }

  ghost predicate NearSimplex(p: Vec, epsilon: real) {
    && |p| > 0
    && (forall i :: 0 <= i < |p| ==> p[i] >= -0.000000000000001)
    && (epsilon >= 0.0 ==> 1.0 - epsilon <= Sum(p) <= 1.0 + epsilon)
    && (epsilon < 0.0 ==> 1.0 - 0.000000001 <= Sum(p) <= 1.0 + 0.000000001)
  }

  /** None when p is a distribution up to jitter and tolerance, else the first violation in the order checked. */
  method ValidateSimplex(p: Vec, epsilon: real) returns (error: Option<SimplexError>)
    ensures error.None? <==> NearSimplex(p, epsilon)
    ensures error == Some(Empty) <==> p == []
    ensures error.Some? && error.value.Negative? ==>
      && error.value.index < |p| && p[error.value.index] < -0.000000000000001
      && forall i :: 0 <= i < error.value.index ==> p[i] >= -0.000000000000001
    ensures error == Some(SumMismatch) ==> forall i :: 0 <= i < |p| ==> p[i] >= -0.000000000000001
    ensures error != Some(NoMass)
  {
    if |p| == 0 {
      return Some(Empty);
    }
    var i := 0;
    while i < |p|
      invariant 0 <= i <= |p|
      invariant forall k :: 0 <= k < i ==> p[k] >= -JITTER
    {
      if p[i] < -JITTER {
        return Some(Negative(i));
      }
      i := i + 1;
    }
    var sum := CompensatedSum(p);
    if Abs(sum - 1.0) > Tolerance(epsilon) {
      return Some(SumMismatch);
    }
    return None;
  }

  // ---- Normalization ----

  /** p is v scaled to total one. */
  ghost predicate Normalized(p: Vec, v: Vec) {
    |p| == |v| && Sum(v) > 0.0 && forall i :: 0 <= i < |v| ==> p[i] == v[i] / Sum(v)
  }

  lemma {:induction false} SumOfQuotients(p: Vec, v: Vec, total: real, k: nat)
    requires |p| == |v| && k <= |v| && total > 0.0
    requires forall i :: 0 <= i < |v| ==> p[i] == v[i] / total
    ensures SumTo(p, k) == SumTo(v, k) / total
  {
    if k > 0 {
      SumOfQuotients(p, v, total, k - 1);
    }
  }

  lemma NormalizedIsOnSimplex(p: Vec, v: Vec)
    requires Normalized(p, v) && NonNegative(v)
    ensures OnSimplex(p)
  {
    SumOfQuotients(p, v, Sum(v), |v|);
    forall i | 0 <= i < |v|
      ensures p[i] >= 0.0
    {
      NonNegativeQuotient(v[i], Sum(v));
    }
  }

  lemma {:induction false} ZeroSum(v: Vec, k: nat)
    requires k <= |v| && NonNegative(v)
    ensures SumTo(v, k) == 0.0 <==> forall i :: 0 <= i < k ==> v[i] == 0.0
  {
    if k > 0 {
      ZeroSum(v, k - 1);
      SumToNonNegative(v, k - 1);
    }
  }

  method NormalizeSimplex(v: Vec) returns (r: Result<Vec, SimplexError>)
    ensures r == Err(Empty) <==> v == []
    ensures r.Err? && r.error.Negative? ==>
      && r.error.index < |v| && v[r.error.index] < 0.0
      && forall i :: 0 <= i < r.error.index ==> v[i] >= 0.0
    ensures r == Err(NoMass) <==> v != [] && forall i :: 0 <= i < |v| ==> v[i] == 0.0
    ensures r.Ok? <==> NonNegative(v) && exists i :: 0 <= i < |v| && v[i] > 0.0
    ensures r.Ok? ==> Normalized(r.value, v) && OnSimplex(r.value)
    ensures r != Err(SumMismatch)
  {
    if |v| == 0 {
      return Err(Empty);
    }
    var i := 0;
    while i < |v|
      invariant 0 <= i <= |v|
      invariant forall k :: 0 <= k < i ==> v[k] >= 0.0
    {
      if v[i] < 0.0 {
        return Err(Negative(i));
      }
      i := i + 1;
    }
    ZeroSum(v, |v|);
    SumToNonNegative(v, |v|);
    var sum := CompensatedSum(v);
    if sum <= 0.0 {
      return Err(NoMass);
    }
    var normalized := seq(|v|, k requires 0 <= k < |v| => v[k] / sum);
    NormalizedIsOnSimplex(normalized, v);
    return Ok(normalized);
  }

  // ---- Projection ----

  /** Squared Euclidean distance over the first k coordinates. */
  ghost function Distance(x: Vec, y: Vec, k: nat): real
    requires k <= |x| && k <= |y|
  {
    if k == 0 then 0.0 else Distance(x, y, k - 1) + Product(x[k - 1] - y[k - 1], x[k - 1] - y[k - 1])
  }

  /** p is the point of the simplex nearest to v, and being off p costs at least the squared distance to p. */
  ghost predicate IsProjection(p: Vec, v: Vec) {
    && |p| == |v|
    && OnSimplex(p)
    && forall q: Vec {:trigger OnSimplex(q)} :: OnSimplex(q) && |q| == |v| ==>
         Distance(q, v, |v|) >= Distance(p, v, |v|) + Distance(q, p, |v|)
  }

  function Clip(x: real, theta: real): real {
    if x - theta > 0.0 then x - theta else 0.0
  }

  function Clipped(v: Vec, theta: real): (p: Vec)
    ensures |p| == |v| && forall i :: 0 <= i < |v| ==> p[i] == Clip(v[i], theta)
  {
    MapSeq(v, x => Clip(x, theta))
  }

  /** (q - v)^2 >= (p - v)^2 + (q - p)^2 - 2 theta (q - p), one coordinate at a time. */
  lemma CoordinateStep(q: real, v: real, theta: real)
    requires q >= 0.0
    ensures var p := Clip(v, theta);
      Product(q - v, q - v) >= Product(p - v, p - v) + Product(q - p, q - p) - Product(2.0 * theta, q - p)
  {
    var p := Clip(v, theta);
    assert (q - v) * (q - v) == (p - v) * (p - v) + (q - p) * (q - p) + 2.0 * ((q - p) * (p - v));
    if v - theta > 0.0 {
      assert (q - p) * (p - v) == (q - p) * (-theta);
    } else {
      assert q * (theta - v) >= 0.0;
    }
  }

  lemma {:induction false} FartherThanClipped(q: Vec, v: Vec, theta: real, k: nat)
    requires |q| == |v| && k <= |v| && NonNegative(q)
    ensures var p := Clipped(v, theta);
      Distance(q, v, k) >= Distance(p, v, k) + Distance(q, p, k) - Product(2.0 * theta, SumTo(q, k) - SumTo(p, k))
  {
    var p, c := Clipped(v, theta), 2.0 * theta;
    if k == 0 {
      ZeroFactor(c, 0.0);
    } else {
      FartherThanClipped(q, v, theta, k - 1);
      CoordinateStep(q[k - 1], v[k - 1], theta);
      SplitFactor(c, SumTo(q, k - 1) - SumTo(p, k - 1), q[k - 1] - p[k - 1], SumTo(q, k) - SumTo(p, k));
    }
  }

  lemma SplitFactor(c: real, s: real, d: real, t: real)
    requires t == s + d
    ensures Product(c, t) == Product(c, s) + Product(c, d)
  {
    assert c * (s + d) == c * s + c * d;
  }

  lemma ClippedIsProjection(v: Vec, theta: real)
    requires Sum(Clipped(v, theta)) == 1.0
    ensures IsProjection(Clipped(v, theta), v)
  {
    var p := Clipped(v, theta);
    forall q: Vec | OnSimplex(q) && |q| == |v|
      ensures Distance(q, v, |v|) >= Distance(p, v, |v|) + Distance(q, p, |v|)
    {
      FartherThanClipped(q, v, theta, |v|);
      ZeroFactor(2.0 * theta, SumTo(q, |v|) - SumTo(p, |v|));
    }
  }

  predicate Descending(x: real, y: real) {
    x > y
  }

  /** The first k of u exceed theta and the rest do not; theta makes the excess total one. */
  ghost predicate Threshold(u: Vec, k: nat, theta: real) {
    && 0 < k <= |u|
    && Times(k, theta) == SumTo(u, k) - 1.0
    && (forall i :: 0 <= i < k ==> u[i] > theta)
    && forall i :: k <= i < |u| ==> u[i] <= theta
  }

  lemma {:induction false} ClippedPrefix(u: Vec, theta: real, k: nat)
    requires k <= |u| && forall i :: 0 <= i < k ==> u[i] > theta
    ensures SumTo(Clipped(u, theta), k) == SumTo(u, k) - Times(k, theta)
  {
    if k > 0 {
      ClippedPrefix(u, theta, k - 1);
    }
  }

  lemma {:induction false} ClippedSuffix(u: Vec, theta: real, k: nat, m: nat)
    requires k <= m <= |u| && forall i :: k <= i < m ==> u[i] <= theta
    ensures SumTo(Clipped(u, theta), m) == SumTo(Clipped(u, theta), k)
  {
    if k < m {
      ClippedSuffix(u, theta, k, m - 1);
    }
  }

  lemma ThresholdSumsToOne(v: Vec, u: Vec, k: nat, theta: real)
    requires multiset(u) == multiset(v) && Threshold(u, k, theta)
    ensures Sum(Clipped(v, theta)) == 1.0
  {
    ClippedPrefix(u, theta, k);
    ClippedSuffix(u, theta, k, |u|);
    MapKeepsMultiset(u, v, x => Clip(x, theta));
    SumIgnoresOrder(Clipped(u, theta), Clipped(v, theta));
  }

  /** Entry k does not clear the threshold of the first k + 1 entries. */
  ghost predicate Rejected(u: Vec, k: nat)
    requires k < |u|
  {
    Times(k + 1, u[k]) <= SumTo(u, k + 1) - 1.0
  }

  /** What the threshold loop knows after j entries. */
  ghost predicate Scanned(u: Vec, j: nat, rho: nat, theta: real) {
    && rho < j <= |u|
    && Times(rho + 1, theta) == SumTo(u, rho + 1) - 1.0
    && u[rho] > theta
    && forall k :: rho < k < j ==> Rejected(u, k)
  }

  lemma {:induction false} TimesStrict(n: nat, x: real, y: real)
    requires x < y && n > 0
    ensures Times(n, x) < Times(n, y)
  {
    if n > 1 {
      TimesStrict(n - 1, x, y);
    }
  }

  lemma ScannedIsThreshold(u: Vec, rho: nat, theta: real)
    requires Sorted(u, Descending) && Scanned(u, |u|, rho, theta)
    ensures Threshold(u, rho + 1, theta)
  {
    if rho + 1 < |u| && u[rho + 1] > theta {
      assert Rejected(u, rho + 1);
      TimesStrict(rho + 1, theta, u[rho + 1]);
    }
    forall i | 0 <= i < rho
      ensures u[i] > theta
    {
      assert !Descending(u[rho], u[i]);
    }
    forall i | rho + 1 < i < |u|
      ensures u[i] <= u[rho + 1]
    {
      assert !Descending(u[i], u[rho + 1]);
    }
  }

  lemma DecideEntry(u: Vec, j: nat, t: real)
    requires j < |u| && t == (SumTo(u, j + 1) - 1.0) / (j + 1) as real
    ensures Times(j + 1, t) == SumTo(u, j + 1) - 1.0
    ensures u[j] - t <= 0.0 ==> Rejected(u, j)
    ensures j == 0 ==> u[0] > t
  {
    TimesIsProduct(j + 1, t);
    if u[j] < t {
      TimesStrict(j + 1, u[j], t);
    }
  }

  method ThresholdOf(u: Vec) returns (theta: real)
    requires |u| > 0 && Sorted(u, Descending)
    ensures exists count: nat :: Threshold(u, count, theta)
  {
    var cumsum := 0.0;
    var rho := 0;
    theta := 0.0;
    var j := 0;
    while j < |u|
      invariant 0 <= j <= |u|
      invariant cumsum == SumTo(u, j)
      invariant j > 0 ==> Scanned(u, j, rho, theta)
    {
      cumsum := cumsum + u[j];
      var t := (cumsum - 1.0) / (j + 1) as real;
      DecideEntry(u, j, t);
      if u[j] - t > 0.0 {
        rho := j;
        theta := t;
      }
      j := j + 1;
    }
    ScannedIsThreshold(u, rho, theta);
  }

  lemma OneDimension(v: Vec)
    requires |v| == 1
    ensures IsProjection([1.0], v)
  {
    var p: Vec := [1.0];
    assert SumTo(p, 1) == 1.0;
    forall q: Vec | OnSimplex(q) && |q| == |v|
      ensures Distance(q, v, |v|) >= Distance(p, v, |v|) + Distance(q, p, |v|)
    {
      assert SumTo(q, 1) == q[0];
      assert q == p;
      assert Distance(q, p, 1) == 0.0;
    }
  }

  method ProjectToSimplex(v: Vec) returns (p: Vec)
    ensures v == [] ==> p == []
    ensures v != [] ==> IsProjection(p, v)
  {
    if |v| == 0 {
      return [];
    }
    if |v| == 1 {
      OneDimension(v);
      return [1.0];
    }
    var u := Sort(v, Descending);
    assert |u| == |multiset(u)| == |multiset(v)| == |v|;
    var theta := ThresholdOf(u);
    ghost var count: nat :| Threshold(u, count, theta);
    ThresholdSumsToOne(v, u, count, theta);
    ClippedIsProjection(v, theta);
    p := Clipped(v, theta);
  }

  lemma {:induction false} DistanceZero(x: Vec, y: Vec, k: nat)
    requires k <= |x| && k <= |y|
    ensures Distance(x, y, k) >= 0.0
    ensures Distance(x, y, k) == 0.0 <==> forall i :: 0 <= i < k ==> x[i] == y[i]
  {
    if k > 0 {
      DistanceZero(x, y, k - 1);
      SquareIsZero(x[k - 1] - y[k - 1]);
    }
  }

  lemma SquareIsZero(x: real)
    ensures Product(x, x) >= 0.0 && (Product(x, x) == 0.0 <==> x == 0.0)
  {
    SquareSign(x);
    if x == 0.0 {
      ZeroFactor(x, x);
    }
  }

  /** There is only one projection. */
  lemma ProjectionIsUnique(p: Vec, q: Vec, v: Vec)
    requires IsProjection(p, v) && IsProjection(q, v)
    ensures p == q
  {
    DistanceZero(q, p, |v|);
    DistanceZero(p, q, |v|);
  }

  /** A point already on the simplex is its own projection. */
  lemma ProjectionFixesSimplex(p: Vec, v: Vec)
    requires IsProjection(p, v) && OnSimplex(v)
    ensures p == v
  {
    DistanceZero(v, v, |v|);
    DistanceZero(p, v, |v|);
    DistanceZero(v, p, |v|);
  }
}
