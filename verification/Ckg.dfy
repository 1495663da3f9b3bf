/** The correlated knowledge-gradient model: an immutable Gaussian belief over regions. */
module Ckg {
  import opened Wrappers
  import opened LinearAlgebra
  import opened GramMatrices
  import opened RealProducts
  import opened GaussianBelief
  import opened DenseMatrix

  datatype CkgError = NotSquare | DimensionMismatch | NegativeVariance

  method Copy(x: array<real>) returns (y: array<real>)
    ensures fresh(y) && y[..] == x[..]
  {
    y := new real[x.Length](i requires 0 <= i < x.Length reads x => x[i]);
    assert y[..] == x[..];
  }

  method Clone(m: Matrix) returns (c: Matrix)
    requires m.Valid()
    ensures fresh(c) && fresh(c.data) && c.Valid() && c.rows == m.rows && c.cols == m.cols && c.Entries() == m.Entries()
  {
    c := new Matrix(m.rows, m.cols);
    forall i | 0 <= i < c.data.Length {
      c.data[i] := m.data[i];
    }
    assert c.data[..] == m.data[..];
  }

  lemma QuotientTimes(x: real, d: real)
    requires d != 0.0
    ensures x / d * d == x
  {
  }

  /** Coordinate i of the new mean: the old one moved by the sample's distance times the column of k over v + s. */
  ghost predicate MeanWeighs(b: Belief, n: nat, k: nat, y: real, s: real, b': Belief, i: nat)
    requires Shaped(b, n) && Shaped(b', n) && k < n && i < n
  {
    Drawn(b.mean[i], b.cov[i][k], y - b.mean[k], b.cov[k][k] + s, b'.mean[i])
  }

  /** Entry (i, j) of the new covariance: the old one less the product of the columns of k over v + s; on the diagonal
      no less than zero. */
  ghost predicate CovWeighs(b: Belief, n: nat, k: nat, s: real, b': Belief, i: nat, j: nat)
    requires Shaped(b, n) && Shaped(b', n) && k < n && i < n && j < n
  {
    Lowered(b.cov[i][j], b.cov[i][k], b.cov[j][k], b.cov[k][k] + s, i == j, b'.cov[i][j])
  }

  /** b' is b after a sample y of coordinate k with noise s, in terms of these numbers alone. */
  ghost predicate Learns(b: Belief, n: nat, k: nat, y: real, s: real, b': Belief) {
    && Shaped(b, n) && Shaped(b', n) && k < n
    && if b.cov[k][k] + s <= 0.000000000000001 then b' == b
       else
         && (forall i :: 0 <= i < n ==> MeanWeighs(b, n, k, y, s, b', i))
         && forall i, j :: 0 <= i < n && 0 <= j < n ==> CovWeighs(b, n, k, s, b', i, j)
  }

  lemma UpdateLearns(b: Belief, n: nat, o: Observation)
    requires Shaped(b, n) && o.k < n
    ensures Learns(b, n, o.k, o.value, o.noise, Updated(b, n, o))
  {
    if b.cov[o.k][o.k] + o.noise <= 0.000000000000001 {
      NothingReads(b, n, o);
    } else {
      forall i | 0 <= i < n
        ensures MeanWeighs(b, n, o.k, o.value, o.noise, Updated(b, n, o), i)
      {
        UpdatedMeanReads(b, n, o, i);
      }
      forall i, j | 0 <= i < n && 0 <= j < n
        ensures CovWeighs(b, n, o.k, o.noise, Updated(b, n, o), i, j)
      {
        UpdatedCovReads(b, n, o, i, j);
      }
    }
  }

  /** The column of k over the root of its total variance v + s, or zero where that root is at the cut-off. */
  ghost predicate Promises(b: Belief, n: nat, k: nat, s: real, root: real -> real, revision: seq<real>)
    requires Shaped(b, n) && k < n
  {
    && |revision| == n
    && forall i :: 0 <= i < n ==>
         if root(b.cov[k][k] + s) > 0.000000000000001
         then revision[i] * root(b.cov[k][k] + s) == b.cov[i][k] else revision[i] == 0.0
  }

  lemma RevisionPromises(b: Belief, n: nat, o: Observation, root: real -> real, revision: seq<real>)
    requires Shaped(b, n) && o.k < n && IsRevision(b, n, o, root, revision)
    ensures Promises(b, n, o.k, o.noise, root, revision)
  {
    forall i | 0 <= i < n && root(b.cov[o.k][o.k] + o.noise) > 0.000000000000001
      ensures revision[i] * root(b.cov[o.k][o.k] + o.noise) == b.cov[i][o.k]
    {
      QuotientTimes(b.cov[i][o.k], root(b.cov[o.k][o.k] + o.noise));
    }
  }

  class CorrelatedKnowledgeGradient {
    const dim: nat
    const mean: array<real>
    const covariance: Matrix

    ghost predicate Valid() {
      0 < dim && mean.Length == dim && covariance.Valid() && covariance.rows == covariance.cols == dim
    }

    /** The belief this model stands for. */
    ghost function Value(): (b: Belief)
      requires Valid()
      reads mean, covariance.data
      ensures Shaped(b, dim)
    {
      Belief(mean[..], covariance.Entries())
    }

    constructor (mean: array<real>, covariance: Matrix)
      requires covariance.Valid() && covariance.rows == covariance.cols == mean.Length
      ensures Valid() && this.mean == mean && this.covariance == covariance && dim == mean.Length
    {
      this.dim := mean.Length;
      this.mean := mean;
      this.covariance := covariance;
    }

    /** A model with its own copies of the prior. */
    static method New(priorMean: array<real>, priorCovariance: Matrix)
      returns (r: Result<CorrelatedKnowledgeGradient, CkgError>)
      requires priorCovariance.Valid()
      ensures r == Err(NotSquare) <==> priorCovariance.rows != priorCovariance.cols
      ensures r == Err(DimensionMismatch) <==>
        priorCovariance.rows == priorCovariance.cols && priorMean.Length != priorCovariance.rows
      ensures r.Err? ==> r.error != NegativeVariance
      ensures r.Ok? ==>
        && r.value.Valid() && fresh(r.value) && fresh(r.value.mean) && fresh(r.value.covariance.data)
        && r.value.dim == priorMean.Length && r.value.Value() == Belief(priorMean[..], priorCovariance.Entries())
    {
      if priorCovariance.rows != priorCovariance.cols {
        return Err(NotSquare);
      }
      if priorMean.Length != priorCovariance.rows {
        return Err(DimensionMismatch);
      }
      var mean := Copy(priorMean);
      var cov := Clone(priorCovariance);
      var model := new CorrelatedKnowledgeGradient(mean, cov);
      return Ok(model);
    }

    /** Condition on one sample, into a new model; this one is left as it is. */
    method UpdateBayesian(k: int, observedValue: real, observationVariance: real)
      returns (r: Result<CorrelatedKnowledgeGradient, CkgError>)
      requires Valid()
      ensures r == Err(DimensionMismatch) <==> !(0 <= k < dim)
      ensures r == Err(NegativeVariance) <==> 0 <= k < dim && observationVariance < 0.0
      ensures r.Err? ==> r.error != NotSquare
      ensures r.Ok? ==>
        && r.value.Valid() && fresh(r.value) && fresh(r.value.mean) && fresh(r.value.covariance.data)
        && r.value.dim == dim
        && r.value.Value() == Updated(Value(), dim, Observation(k, observedValue, observationVariance))
      ensures r.Ok? ==> Learns(Value(), dim, k, observedValue, observationVariance, r.value.Value())
    {
      if !(0 <= k < dim) {
        return Err(DimensionMismatch);
      }
      if observationVariance < 0.0 {
        return Err(NegativeVariance);
      }
      var gammaSq := covariance.At(k, k) + observationVariance;
      UpdateLearns(Value(), dim, Observation(k, observedValue, observationVariance));
      if gammaSq <= NO_UNCERTAINTY {
        var same := Unchanged();
        return Ok(same);
      }
      var model := Condition(k, observedValue, gammaSq, observationVariance);
      return Ok(model);
    }

    /** The informative case, at total variance gammaSq. */
    method Condition(k: nat, observedValue: real, gammaSq: real, ghost noise: real)
      returns (model: CorrelatedKnowledgeGradient)
      requires Valid() && k < dim && gammaSq == covariance.At(k, k) + noise && gammaSq > NO_UNCERTAINTY && noise >= 0.0
      ensures model.Valid() && fresh(model) && fresh(model.mean) && fresh(model.covariance.data)
      ensures model.dim == dim && model.Value() == Updated(Value(), dim, Observation(k, observedValue, noise))
    {
      var newMean := UpdateMean(k, observedValue, gammaSq);
      var newCov := UpdateCovariance(k, gammaSq);
      model := new CorrelatedKnowledgeGradient(newMean, newCov);
      ghost var b, o := Value(), Observation(k, observedValue, noise);
      assert TotalVariance(b, o) == gammaSq && Surprise(b, o) == observedValue - mean[k];
      assert model.Value() == Conditioned(b, dim, o, gammaSq);
    }

    /** A model of its own with the same belief. */
    method Unchanged() returns (same: CorrelatedKnowledgeGradient)
      requires Valid()
      ensures same.Valid() && fresh(same) && fresh(same.mean) && fresh(same.covariance.data)
      ensures same.dim == dim && same.Value() == Value()
    {
      var mean' := Copy(mean);
      var cov' := Clone(covariance);
      same := new CorrelatedKnowledgeGradient(mean', cov');
    }

    method UpdateMean(k: nat, observedValue: real, gammaSq: real) returns (newMean: array<real>)
      requires Valid() && k < dim && gammaSq > 0.0
      ensures fresh(newMean) && newMean[..] == Moved(Value(), dim, k, observedValue - mean[k], gammaSq)
    {
      var innovation := observedValue - mean[k];
      ghost var goal := Moved(Value(), dim, k, innovation, gammaSq);
      newMean := new real[dim](_ => 0.0);
      var i := 0;
      while i < dim
        invariant 0 <= i <= dim
        invariant forall a :: 0 <= a < i ==> newMean[a] == goal[a]
      {
        var gain := covariance.At(i, k) / gammaSq;
        GainIsShare(covariance.At(i, k), innovation, gammaSq);
        newMean[i] := mean[i] + gain * innovation;
        i := i + 1;
      }
    }

    method UpdateCovariance(k: nat, gammaSq: real) returns (newCov: Matrix)
      requires Valid() && k < dim && gammaSq > 0.0
      ensures fresh(newCov) && fresh(newCov.data) && newCov.Valid() && newCov.rows == newCov.cols == dim
      ensures newCov.Entries() == Clamped(Reduced(covariance.Entries(), dim, k, gammaSq), dim)
    {
      newCov := new Matrix(dim, dim);
      ghost var goal := Clamped(Reduced(covariance.Entries(), dim, k, gammaSq), dim);
      var i := 0;
      while i < dim
        invariant 0 <= i <= dim && FilledTo(newCov.Entries(), goal, dim, dim, i, 0)
      {
        var j := 0;
        while j < dim
          invariant 0 <= j <= dim && FilledTo(newCov.Entries(), goal, dim, dim, i, j)
        {
          FillCell(newCov.Entries(), goal, dim, dim, i, j);
          var priorVal := covariance.At(i, j);
          var reduction := Share(covariance.At(i, k), covariance.At(j, k), gammaSq);
          var postVal := priorVal - reduction;
          if i == j && postVal < 0.0 {
            postVal := 0.0;
          }
          assert postVal == goal[i][j];
          newCov.Set(i, j, postVal);
          j := j + 1;
        }
        NextRow(newCov.Entries(), goal, dim, dim, i);
        i := i + 1;
      }
      AllFilled(newCov.Entries(), goal, dim, dim);
    }

    /** Column k over denom, or zero where denom is at the cut-off. */
    method ScaledColumn(k: nat, denom: real) returns (tilde: seq<real>)
      requires Valid() && k < dim
      ensures |tilde| == dim
      ensures forall i :: 0 <= i < dim ==>
        tilde[i] == if denom > NO_UNCERTAINTY then covariance.At(i, k) / denom else 0.0
    {
      var out := new real[dim](_ => 0.0);
      if denom > NO_UNCERTAINTY {
        var i := 0;
        while i < dim
          invariant 0 <= i <= dim
          invariant forall a :: 0 <= a < i ==> out[a] == covariance.At(a, k) / denom
        {
          out[i] := covariance.At(i, k) / denom;
          i := i + 1;
        }
      }
      tilde := out[..];
    }

    /** The change of mean that one sample of coordinate k is expected to cause; None stands for a vector of NaN, from
        the square root of a negative number. */
    method ValueOfInformation(k: int, observationVariance: real, root: real -> real)
      returns (r: Result<Option<seq<real>>, CkgError>)
      requires Valid() && IsSquareRoot(root)
      ensures r == Err(DimensionMismatch) <==> !(0 <= k < dim)
      ensures r.Err? ==> r.error == DimensionMismatch
      ensures r.Ok? ==> (r.value.None? <==> Value().cov[k][k] + observationVariance < 0.0)
      ensures r.Ok? && r.value.Some? ==>
        IsRevision(Value(), dim, Observation(k, 0.0, observationVariance), root, r.value.value)
      ensures r.Ok? && r.value.Some? ==> Promises(Value(), dim, k, observationVariance, root, r.value.value)
    {
      if !(0 <= k < dim) {
        return Err(DimensionMismatch);
      }
      if covariance.At(k, k) + observationVariance < 0.0 {
        return Ok(None);
      }
      var denom := root(covariance.At(k, k) + observationVariance);
      var tilde := ScaledColumn(k, denom);
      RevisionPromises(Value(), dim, Observation(k, 0.0, observationVariance), root, tilde);
      return Ok(Some(tilde));
    }
  }

  /** The revision vector: the scaled column k, or zero when the scale is below the cut-off. */
  ghost predicate IsRevision(b: Belief, n: nat, o: Observation, root: real -> real, revision: Vec)
    requires Shaped(b, n) && o.k < n
  {
    && |revision| == n
    && var denom := root(TotalVariance(b, o));
       if denom > NO_UNCERTAINTY then forall i :: 0 <= i < n ==> revision[i] == b.cov[i][o.k] / denom
       else forall i :: 0 <= i < n ==> revision[i] == 0.0
  }

  lemma RootShare(a: real, b: real, g: real, d: real)
    requires d > 0.0 && g == d * d && g != 0.0
    ensures (a / d) * (b / d) == Share(a, b, g)
  {
    var p, q := a / d, b / d;
    assert p * d == a && q * d == b;
    assert (p * q) * g == (p * d) * (q * d);
    Cancel(p * q, Share(a, b, g), g);
  }

  ghost predicate ExplainedAt(b: Belief, n: nat, o: Observation, revision: Vec, i: nat, j: nat)
    requires Shaped(b, n) && o.k < n && |revision| == n && i < n && j < n
  {
    b.cov[i][j] - Updated(b, n, o).cov[i][j] == Product(revision[i], revision[j])
  }

  /** The covariance reduction is the outer product of the revision vector with itself. */
  ghost predicate Explains(b: Belief, n: nat, o: Observation, revision: Vec)
    requires Shaped(b, n) && o.k < n && |revision| == n
  {
    forall i, j :: 0 <= i < n && 0 <= j < n ==> ExplainedAt(b, n, o, revision, i, j)
  }

  /** For an informative observation the revision vector explains the whole covariance reduction:
      prior minus posterior is its outer product with itself. */
  lemma RevisionExplainsReduction(b: Belief, n: nat, o: Observation, root: real -> real, revision: Vec, i: nat, j: nat)
    requires Proper(b, n) && o.k < n && o.noise >= 0.0 && TotalVariance(b, o) > NO_UNCERTAINTY
    requires IsSquareRoot(root) && IsRevision(b, n, o, root, revision) && i < n && j < n
    ensures ExplainedAt(b, n, o, revision, i, j)
  {
    var d, g := root(TotalVariance(b, o)), TotalVariance(b, o);
    assert d * d == g && d >= 0.0;
    assert NO_UNCERTAINTY * NO_UNCERTAINTY < NO_UNCERTAINTY;
    RootAbove(d, g, NO_UNCERTAINTY);
    RootShare(b.cov[i][o.k], b.cov[j][o.k], g, d);
    UpdateIsConditioning(b, n, o);
  }

  lemma TellingIsExplained(b: Belief, n: nat, o: Observation, root: real -> real, revision: Vec)
    requires Proper(b, n) && o.k < n && o.noise >= 0.0 && TotalVariance(b, o) > NO_UNCERTAINTY
    requires IsSquareRoot(root) && IsRevision(b, n, o, root, revision)
    ensures Explains(b, n, o, revision)
  {
    forall i, j | 0 <= i < n && 0 <= j < n
      ensures ExplainedAt(b, n, o, revision, i, j)
    {
      RevisionExplainsReduction(b, n, o, root, revision, i, j);
    }
  }

  /** It is so exactly when the two cut-offs, one on the variance and one on its root, decide alike, or when coordinate
      k is uncorrelated with everything, itself included. */
  lemma RevisionExplainsExactly(b: Belief, n: nat, o: Observation, root: real -> real, revision: Vec)
    requires Proper(b, n) && o.k < n && o.noise >= 0.0 && IsSquareRoot(root) && IsRevision(b, n, o, root, revision)
    ensures Explains(b, n, o, revision) <==>
      || TotalVariance(b, o) > NO_UNCERTAINTY
      || root(TotalVariance(b, o)) <= NO_UNCERTAINTY
      || forall i :: 0 <= i < n ==> b.cov[i][o.k] == 0.0
  {
    if TotalVariance(b, o) > NO_UNCERTAINTY {
      TellingIsExplained(b, n, o, root, revision);
    } else {
      UnchangedIsExplained(b, n, o, revision);
      RevisionIsZero(b, n, o, root, revision);
    }
  }

  /** Where nothing is updated, only the zero revision explains it. */
  lemma UnchangedIsExplained(b: Belief, n: nat, o: Observation, revision: Vec)
    requires Shaped(b, n) && o.k < n && |revision| == n && TotalVariance(b, o) <= NO_UNCERTAINTY
    ensures Explains(b, n, o, revision) <==> forall i :: 0 <= i < n ==> revision[i] == 0.0
  {
    assert Updated(b, n, o) == b;
    if Explains(b, n, o, revision) {
      forall i | 0 <= i < n
        ensures revision[i] == 0.0
      {
        assert ExplainedAt(b, n, o, revision, i, i);
        SquareSign(revision[i]);
      }
    }
    if forall i :: 0 <= i < n ==> revision[i] == 0.0 {
      forall i, j | 0 <= i < n && 0 <= j < n
        ensures ExplainedAt(b, n, o, revision, i, j)
      {
        ZeroFactor(revision[i], revision[j]);
      }
    }
  }

  lemma RevisionIsZero(b: Belief, n: nat, o: Observation, root: real -> real, revision: Vec)
    requires Shaped(b, n) && o.k < n && IsRevision(b, n, o, root, revision)
    ensures (forall i :: 0 <= i < n ==> revision[i] == 0.0) <==>
      root(TotalVariance(b, o)) <= NO_UNCERTAINTY || forall i :: 0 <= i < n ==> b.cov[i][o.k] == 0.0
  {
    var d := root(TotalVariance(b, o));
    if d > NO_UNCERTAINTY {
      forall i | 0 <= i < n
        ensures revision[i] == 0.0 <==> b.cov[i][o.k] == 0.0
      {
        QuotientIsZero(b.cov[i][o.k], d);
      }
    }
  }

  lemma QuotientIsZero(x: real, d: real)
    requires d > 0.0
    ensures x / d == 0.0 <==> x == 0.0
  {
    var q := x / d;
    assert q * d == x;
    if q == 0.0 {
      ZeroFactor(q, d);
    }
  }

  lemma SquareOrder(d: real, c: real)
    requires 0.0 <= d <= c
    ensures d * d <= c * c
  {
    assert (c - d) * (c + d) >= 0.0;
    assert (c - d) * (c + d) == c * c - d * d;
  }

  lemma RootAbove(d: real, g: real, c: real)
    requires d >= 0.0 && c >= 0.0 && d * d == g > c * c
    ensures d > c
  {
    if d <= c {
      SquareOrder(d, c);
    }
  }

  /** The one-region belief with variance g. */
  ghost function OneRegion(g: real): Belief {
    Belief([0.0], [[g]])
  }

  lemma OneRegionIsProper(g: real)
    requires g >= 0.0
    ensures Proper(OneRegion(g), 1)
  {
    var cov := OneRegion(g).cov;
    forall x: Vec | |x| == 1
      ensures Quad(cov, x, 1) >= 0.0
    {
      assert Dot(cov[0], x, 1) == Dot(cov[0], x, 0) + g * x[0];
      assert Quad(cov, x, 1) == Dot(x, Apply(cov, x, 1), 0) + x[0] * (g * x[0]);
      NonNegativeSquare(g, x[0]);
    }
  }

  lemma NonNegativeSquare(g: real, x: real)
    requires g >= 0.0
    ensures x * (g * x) >= 0.0
  {
    assert x * x >= 0.0;
    assert x * (g * x) == g * (x * x);
  }

  /** Between the two cut-offs they disagree: a positive total variance of at most the cut-off, but above its square,
      leaves the belief unchanged, yet the revision vector promises a change. */
  lemma RevisionWithoutUpdate(g: real, root: real -> real, revision: Vec)
    requires NO_UNCERTAINTY * NO_UNCERTAINTY < g <= NO_UNCERTAINTY && IsSquareRoot(root)
    requires IsRevision(OneRegion(g), 1, Observation(0, 0.0, 0.0), root, revision)
    ensures Proper(OneRegion(g), 1)
    ensures Updated(OneRegion(g), 1, Observation(0, 0.0, 0.0)) == OneRegion(g)
    ensures revision[0] * revision[0] > 0.0
  {
    var d := root(g);
    OneRegionIsProper(g);
    assert TotalVariance(OneRegion(g), Observation(0, 0.0, 0.0)) == g;
    assert d >= 0.0 && d * d == g;
    RootAbove(d, g, NO_UNCERTAINTY);
    assert revision[0] * d == g;
  }

  lemma WholeShare(a: real, g: real)
    requires g > 0.0
    ensures Share(g, a, g) == a
  {
    assert a * g == Share(g, a, g) * g;
    Cancel(Share(g, a, g), a, g);
  }

  /** A sample without noise is believed as it is. */
  lemma ExactSample(g: real, y: real)
    requires g > NO_UNCERTAINTY
    ensures var b := Updated(OneRegion(g), 1, Observation(0, y, 0.0)); b.mean[0] == y && b.cov[0][0] == 0.0
  {
    WholeShare(y, g);
    WholeShare(g, g);
  }

  /** Without noise the order matters: of two different exact samples of one region the first one counts. */
  lemma NoiselessOrderMatters(g: real, x: real, y: real)
    requires g > NO_UNCERTAINTY && x != y
    ensures Proper(OneRegion(g), 1) && !Commute(OneRegion(g), 1, Observation(0, x, 0.0), Observation(0, y, 0.0))
  {
    OneRegionIsProper(g);
    ExactSample(g, x);
    ExactSample(g, y);
  }

  lemma GainIsShare(a: real, b: real, g: real)
    requires g != 0.0
    ensures (a / g) * b == Share(a, b, g)
  {
    assert (a / g) * b * g == a * b;
  }
}
