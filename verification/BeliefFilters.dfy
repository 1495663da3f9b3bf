/** Recursive Bayesian estimation of the hidden market posture. */
module BeliefFilters {
  import opened Wrappers
  import opened RealSums
  import opened Pigeonhole
  import opened Sorting
  import opened LinearAlgebra
  import opened GramMatrices
  import opened Simplex
  import opened Beliefs
  import opened TransitionMatrices
  import opened HiddenPaths
  import opened RealProducts

  datatype Scale = Monopolistic | Aggregated | Multi(count: int) {
    function CompetitorDimension(): int {
      match this
      case Monopolistic => 0
      case Aggregated => 1
      case Multi(count) => count
    }
  }

  /** How likely an observation is in each posture that has a profile. */
  datatype ObservationModel<!O> = ObservationModel(profiles: set<string>, likelihood: (O, string) -> real)

  ghost predicate NonNegativeLikelihoods<O(!new)>(m: ObservationModel<O>) {
    forall o, key :: m.likelihood(o, key) >= 0.0
  }

  datatype FilterError =
    | NilPrior
    | NilObservation
    | NoModel
    | MissingProfile(key: string)
    | DegenerateObservation
    | RejectedBelief(cause: BeliefError)

  // ---- The Bayes rule on unnormalised weights ----

  /** Weight of state j: predicted mass, when positive, times likelihood. */
  ghost function Weight(a: Mat, prior: Vec, likelihood: Vec, j: nat): real
    requires Square(a, |prior|) && |likelihood| == |prior| && j < |prior|
  {
    if Flow(a, prior, j) <= 0.0 then 0.0 else Product(Flow(a, prior, j), likelihood[j])
  }

  ghost function Weights(a: Mat, prior: Vec, likelihood: Vec): (w: Vec)
    requires Square(a, |prior|) && |likelihood| == |prior|
    ensures |w| == |prior| && forall j :: 0 <= j < |w| ==> w[j] == Weight(a, prior, likelihood, j)
  {
    seq(|prior|, j requires 0 <= j < |prior| => Weight(a, prior, likelihood, j))
  }

  lemma WeightsNonNegative(a: Mat, prior: Vec, likelihood: Vec)
    requires Square(a, |prior|) && |likelihood| == |prior| && NonNegative(likelihood)
    ensures NonNegative(Weights(a, prior, likelihood))
  {
    forall j | 0 <= j < |prior|
      ensures Weight(a, prior, likelihood, j) >= 0.0
    {
    }
  }

  ghost function Likelihoods<O>(m: ObservationModel<O>, o: O, keys: seq<string>): (l: Vec)
    ensures |l| == |keys| && forall j :: 0 <= j < |l| ==> l[j] == m.likelihood(o, keys[j])
  {
    seq(|keys|, j requires 0 <= j < |keys| => m.likelihood(o, keys[j]))
  }

  lemma KeyOrderIsFixed(keys: seq<string>, probs: Vec, b: Belief)
    requires |keys| == |probs| && Sorted(keys, IdLess) && Distinct(keys) && ValidBelief(b)
    requires multiset(b.keys) == multiset(keys) && multiset(Pairs(b.keys, b.probs)) == multiset(Pairs(keys, probs))
    ensures b.keys == keys && b.probs == probs
  {
    SortedKeysAreUnique(b.keys, keys);
    forall i | 0 <= i < |keys|
      ensures b.probs[i] == probs[i]
    {
      MassesAreKept(b, keys, probs, i);
    }
  }

  lemma OnSimplexIsNear(p: Vec)
    requires p != [] && OnSimplex(p)
    ensures NearSimplex(p, -1.0)
  {
  }

  class BeliefFilter<!O(!new)> {
    const scale: Scale
    const transition: Option<TransitionMatrix>
    const model: Option<ObservationModel<O>>

    ghost predicate Valid() {
      && (transition.Some? ==> ValidTransition(transition.value))
      && (model.Some? ==> NonNegativeLikelihoods(model.value))
    }

    constructor Monopolist()
      ensures Valid() && scale == Monopolistic && transition == None && model == None
    {
      scale := Monopolistic;
      transition := None;
      model := None;
    }

    constructor Competitor(scale: Scale, transition: TransitionMatrix, model: ObservationModel<O>)
      ensures this.scale == scale && this.transition == Some(transition) && this.model == Some(model)
    {
      this.scale := scale;
      this.transition := Some(transition);
      this.model := Some(model);
    }

    /** Both models must be present, with a profile for every state of the transition matrix. */
    static method NewCompetitive(scale: Scale, transition: Option<TransitionMatrix>, model: Option<ObservationModel<O>>)
      returns (r: Result<BeliefFilter<O>, FilterError>)
      requires transition.Some? ==> ValidTransition(transition.value)
      requires model.Some? ==> NonNegativeLikelihoods(model.value)
      ensures r == Err(NoModel) <==> transition.None? || model.None?
      ensures r.Ok? <==> transition.Some? && model.Some? && transition.value.Covered(model.value.profiles)
      ensures r.Ok? ==> r.value.Equipped() && fresh(r.value)
      ensures r.Ok? ==> r.value.scale == scale && r.value.transition == transition && r.value.model == model
      ensures r.Err? && r.error.MissingProfile? ==>
        transition.Some? && model.Some? && r.error.key in transition.value.keys && r.error.key !in model.value.profiles
    {
      if transition.None? || model.None? {
        return Err(NoModel);
      }
      var keys := transition.value.keys;
      var i := 0;
      while i < |keys|
        invariant 0 <= i <= |keys|
        invariant forall k :: 0 <= k < i ==> keys[k] in model.value.profiles
      {
        if keys[i] !in model.value.profiles {
          return Err(MissingProfile(keys[i]));
        }
        i := i + 1;
      }
      var filter := new BeliefFilter.Competitor(scale, transition.value, model.value);
      return Ok(filter);
    }

    /** Both models, present and covering every state. */
    ghost predicate Equipped() {
      Valid() && transition.Some? && model.Some?
    }

    /** The unnormalised posterior of one step. */
    ghost function Step(prior: Vec, o: O): (w: Vec)
      requires Equipped() && |prior| == |transition.value.keys|
      ensures |w| == |prior| && NonNegative(w)
    {
      var l := Likelihoods(model.value, o, transition.value.keys);
      WeightsNonNegative(transition.value.rows, prior, l);
      Weights(transition.value.rows, prior, l)
    }

    /** The error names a state of the matrix for which the observation model has no profile. */
    ghost predicate Uncovered(e: FilterError)
      requires Equipped()
    {
      e.MissingProfile? && e.key in transition.value.keys && e.key !in model.value.profiles
    }

    method CollectWeights(predicted: Vec, o: O, ghost prior: Vec) returns (r: Result<(Vec, bool), FilterError>)
      requires Equipped() && |prior| == |transition.value.keys| && predicted == Flows(transition.value.rows, prior)
      ensures r.Ok? ==> r.value.0 == Step(prior, o)
      ensures r.Err? ==> Uncovered(r.error)
      ensures r.Ok? ==> (r.value.1 <==> forall i :: 0 <= i < |r.value.0| ==> r.value.0[i] == 0.0)
    {
      var keys := transition.value.keys;
      var weights: Vec, allZero := [], true;
      ghost var w := Step(prior, o);
      var j := 0;
      while j < |keys|
        invariant 0 <= j <= |keys| && |weights| == j
        invariant forall k :: 0 <= k < j ==> weights[k] == w[k]
        invariant allZero ==> forall k :: 0 <= k < j ==> weights[k] == 0.0
        invariant !allZero ==> exists k :: 0 <= k < j && weights[k] != 0.0
      {
        if predicted[j] <= 0.0 {
          weights := weights + [0.0];
        } else {
          if keys[j] !in model.value.profiles {
            return Err(MissingProfile(keys[j]));
          }
          var weight := Product(predicted[j], model.value.likelihood(o, keys[j]));
          weights := weights + [weight];
          assert weights[j] == weight;
          if weight != 0.0 {
            allZero := false;
          }
        }
        j := j + 1;
      }
      return Ok((weights, allZero));
    }

    /** The mass that arrives in state j, when it is positive, times the likelihood of the observation there. */
    ghost predicate Weighed(prior: Vec, o: O, j: nat, weight: real)
      requires Equipped() && |prior| == |transition.value.keys| && j < |prior|
    {
      var mass := Sum(Products(prior, Column(transition.value.rows, j, |prior|)));
      weight == if mass <= 0.0 then 0.0 else mass * model.value.likelihood(o, transition.value.keys[j])
    }

    /** Bayes' rule: the posterior of each state is in proportion to that. */
    ghost predicate BayesRule(prior: Vec, o: O, posterior: Vec)
      requires Equipped() && |prior| == |transition.value.keys|
    {
      exists w: Vec :: Posteriors(prior, o, w, posterior)
    }

    ghost predicate Posteriors(prior: Vec, o: O, w: Vec, posterior: Vec)
      requires Equipped() && |prior| == |transition.value.keys|
    {
      && |w| == |posterior| == |prior| && Sum(w) > 0.0
      && (forall j :: 0 <= j < |prior| ==> Weighed(prior, o, j, w[j]))
      && forall j :: 0 <= j < |prior| ==> posterior[j] == w[j] / Sum(w)
    }

    lemma WeightReads(prior: Vec, o: O, j: nat)
      requires Equipped() && |prior| == |transition.value.keys| && j < |prior|
      ensures Weighed(prior, o, j, Step(prior, o)[j])
    {
      DotIsSum(prior, Column(transition.value.rows, j, |prior|), |prior|);
    }

    lemma StepReads(prior: Vec, o: O, posterior: Vec)
      requires Equipped() && |prior| == |transition.value.keys| && Normalized(posterior, Step(prior, o))
      ensures BayesRule(prior, o, posterior)
    {
      forall j | 0 <= j < |prior|
        ensures Weighed(prior, o, j, Step(prior, o)[j])
      {
        WeightReads(prior, o, j);
      }
      assert Posteriors(prior, o, Step(prior, o), posterior);
    }

    /** Posterior over the market postures after one observation. The prior's own state names are not consulted:
        masses are matched to states by position, and a prior of another dimension is refused by a panic, as is
        the monopolistic belief in a filter of another scale type. */
    method Filter(prior: Option<Belief>, observation: Option<O>) returns (r: Result<Belief, FilterError>)
      requires Valid() && scale != Multi(0)
      requires scale != Monopolistic && prior.Some? && transition.Some? && model.Some? ==>
        |prior.value.probs| == transition.value.Dimension()
      ensures prior.None? ==> r == Err(NilPrior)
      ensures prior.Some? && scale == Monopolistic ==> r == Ok(MonopolisticBelief())
      ensures prior.Some? && scale != Monopolistic && observation.None? ==> r == Err(NilObservation)
      ensures prior.Some? && scale != Monopolistic && observation.Some? && !Equipped() ==> r == Err(NoModel)
      ensures prior.Some? && scale != Monopolistic && observation.Some? && Equipped() ==>
        var w := Step(prior.value.probs, observation.value);
        && (r.Ok? ==> r.value.keys == transition.value.keys && Normalized(r.value.probs, w) && ValidBelief(r.value))
        && (r.Ok? ==> BayesRule(prior.value.probs, observation.value, r.value.probs))
        && (r.Err? ==> (r.error == DegenerateObservation && Sum(w) == 0.0) || Uncovered(r.error))
    {
      if prior.None? {
        return Err(NilPrior);
      }
      if scale.CompetitorDimension() == 0 {
        return Ok(MonopolisticBelief());
      }
      if observation.None? {
        return Err(NilObservation);
      }
      if transition.None? || model.None? {
        return Err(NoModel);
      }
      var predicted := Predict(transition.value, prior.value.probs);
      var collected := CollectWeights(predicted, observation.value, prior.value.probs);
      if collected.Err? {
        return Err(collected.error);
      }
      var weights := collected.value.0;
      ZeroSum(weights, |weights|);
      SumToNonNegative(weights, |weights|);
      if collected.value.1 {
        return Err(DegenerateObservation);
      }
      r := PosteriorBelief(weights);
      StepReads(prior.value.probs, observation.value, r.value.probs);
    }

    /** Normalizes in log space, projects away rounding, and wraps the result. */
    method PosteriorBelief(weights: Vec) returns (r: Result<Belief, FilterError>)
      requires Equipped() && |weights| == |transition.value.keys| && NonNegative(weights) && Sum(weights) > 0.0
      ensures r.Ok? && r.value.keys == transition.value.keys && Normalized(r.value.probs, weights)
      ensures ValidBelief(r.value)
    {
      var total := Sum(weights);
      var posterior := seq(|weights|, i requires 0 <= i < |weights| => weights[i] / total);
      NormalizedIsOnSimplex(posterior, weights);
      var projected := ProjectToSimplex(posterior);
      ProjectionFixesSimplex(projected, posterior);
      OnSimplexIsNear(projected);
      var belief := NewBelief(transition.value.keys, projected);
      KeyOrderIsFixed(transition.value.keys, projected, belief.value);
      return Ok(belief.value);
    }

    // ---- Runs ----

    /** One step of the filter on the masses alone: None when the observation is impossible. */
    ghost function Posterior(prior: Vec, o: O): (p: Option<Vec>)
      requires Equipped() && |prior| == |transition.value.keys|
      ensures p.Some? <==> Sum(Step(prior, o)) > 0.0
      ensures p.Some? ==> Normalized(p.value, Step(prior, o))
    {
      var w := Step(prior, o);
      if Sum(w) > 0.0 then Some(seq(|w|, i requires 0 <= i < |w| => w[i] / Sum(w))) else None
    }

    /** The filter after a whole sequence of observations; None once one of them was impossible. */
    ghost function Filtered(prior: Vec, observations: seq<O>): (p: Option<Vec>)
      requires Equipped() && |prior| == |transition.value.keys|
      ensures p.Some? ==> |p.value| == |prior|
      decreases |observations|
    {
      if observations == [] then Some(prior)
      else
        var p := Posterior(prior, observations[0]);
        if p.None? then None else Filtered(p.value, observations[1..])
    }

    /** The forward algorithm: the same recursion, never normalised. */
    ghost function Forward(prior: Vec, observations: seq<O>): (w: Vec)
      requires Equipped() && |prior| == |transition.value.keys|
      ensures |w| == |prior|
      decreases |observations|
    {
      if observations == [] then prior else Forward(Step(prior, observations[0]), observations[1..])
    }

    /** Scaling the prior scales the weights. */
    lemma StepScales(prior: Vec, scaled: Vec, c: real, o: O)
      requires Equipped() && |prior| == |scaled| == |transition.value.keys| && c > 0.0
      requires Scaled(scaled, prior, c)
      ensures Scaled(Step(scaled, o), Step(prior, o), c)
    {
      var n, a := |prior|, transition.value.rows;
      var l := Likelihoods(model.value, o, transition.value.keys);
      forall j | 0 <= j < n
        ensures Weight(a, scaled, l, j) == Product(Weight(a, prior, l, j), c)
      {
        ScaledDot(prior, scaled, Column(a, j, n), c, n);
        ScaledWeight(Flow(a, prior, j), Flow(a, scaled, j), c, l[j]);
      }
    }

    lemma {:induction false} ForwardScales(prior: Vec, scaled: Vec, c: real, observations: seq<O>)
      requires Equipped() && |prior| == |scaled| == |transition.value.keys| && c > 0.0
      requires Scaled(scaled, prior, c)
      ensures Scaled(Forward(scaled, observations), Forward(prior, observations), c)
      decreases |observations|
    {
      if observations != [] {
        StepScales(prior, scaled, c, observations[0]);
        ForwardScales(Step(prior, observations[0]), Step(scaled, observations[0]), c, observations[1..]);
      }
    }

    lemma StepOfZero(prior: Vec, o: O)
      requires Equipped() && |prior| == |transition.value.keys| && forall i :: 0 <= i < |prior| ==> prior[i] == 0.0
      ensures forall i :: 0 <= i < |prior| ==> Step(prior, o)[i] == 0.0
    {
      var n, a := |prior|, transition.value.rows;
      forall j | 0 <= j < n
        ensures Flow(a, prior, j) == 0.0
      {
        DotZero(prior, Column(a, j, n), n);
      }
    }

    lemma {:induction false} ForwardOfZero(prior: Vec, observations: seq<O>)
      requires Equipped() && |prior| == |transition.value.keys| && forall i :: 0 <= i < |prior| ==> prior[i] == 0.0
      ensures forall i :: 0 <= i < |prior| ==> Forward(prior, observations)[i] == 0.0
      decreases |observations|
    {
      if observations != [] {
        StepOfZero(prior, observations[0]);
        ForwardOfZero(Step(prior, observations[0]), observations[1..]);
      }
    }

    lemma {:induction false} ForwardNonNegative(prior: Vec, observations: seq<O>)
      requires Equipped() && |prior| == |transition.value.keys| && NonNegative(prior)
      ensures NonNegative(Forward(prior, observations))
      decreases |observations|
    {
      if observations != [] {
        ForwardNonNegative(Step(prior, observations[0]), observations[1..]);
      }
    }

    /** From here on the run of the filter and the run of the forward recursion say the same. */
    ghost predicate Agree(p: Option<Vec>, w: Vec) {
      (p.Some? <==> Sum(w) > 0.0) && (p.Some? ==> Normalized(p.value, w))
    }

    lemma {:induction false} RunScales(w: Vec, p: Vec, rest: seq<O>)
      requires Equipped() && |w| == |p| == |transition.value.keys| && Normalized(p, w)
      ensures Scaled(Forward(w, rest), Forward(p, rest), Sum(w))
    {
      InverseScale(w, p, Sum(w));
      ForwardScales(p, w, Sum(w), rest);
    }

    lemma {:induction false} AgreeAfterStep(w: Vec, p: Vec, rest: seq<O>)
      requires Equipped() && |w| == |p| == |transition.value.keys| && Normalized(p, w)
      requires Agree(Filtered(p, rest), Forward(p, rest))
      ensures Agree(Filtered(p, rest), Forward(w, rest))
    {
      RunScales(w, p, rest);
      NormalizedOfScaled(Forward(p, rest), Forward(w, rest), Sum(w), Filtered(p, rest));
    }

    lemma {:induction false} NothingLeft(w: Vec, rest: seq<O>)
      requires Equipped() && |w| == |transition.value.keys| && NonNegative(w) && Sum(w) <= 0.0
      ensures Sum(Forward(w, rest)) == 0.0
    {
      SumToNonNegative(w, |w|);
      ZeroSum(w, |w|);
      ForwardOfZero(w, rest);
      ForwardNonNegative(w, rest);
      ZeroSum(Forward(w, rest), |w|);
    }

    /** Normalising at every step is normalising once at the end, and the run fails exactly when nothing is left, from
        any prior at all once something was observed. */
    lemma {:induction false} FilterIsForward(prior: Vec, observations: seq<O>)
      requires Equipped() && |prior| == |transition.value.keys| && (observations == [] ==> OnSimplex(prior))
      ensures Agree(Filtered(prior, observations), Forward(prior, observations))
      decreases |observations|
    {
      if observations != [] {
        var o, rest := observations[0], observations[1..];
        var w := Step(prior, o);
        if Sum(w) > 0.0 {
          var p := Posterior(prior, o).value;
          NormalizedIsOnSimplex(p, w);
          FilterIsForward(p, rest);
          AgreeAfterStep(w, p, rest);
        } else {
          NothingLeft(w, rest);
        }
      }
    }

    // ---- Hidden paths ----

    /** The backward recursion: for each start state, what the paths from it that end in state j weigh together. */
    ghost function PathWeights(n: nat, observations: seq<O>, j: nat): (w: Vec)
      requires Equipped() && n == |transition.value.keys|
      ensures |w| == n
      decreases |observations|
    {
      if observations == [] then seq(n, i => if i == j then 1.0 else 0.0)
      else
        var rest := PathWeights(n, observations[1..], j);
        Apply(transition.value.rows, Weighted(n, observations[0], rest), n)
    }

    /** The likelihoods of the observations, state by state. */
    ghost function Evidence(observations: seq<O>): (ls: seq<Vec>)
      requires Equipped()
      ensures |ls| == |observations|
      ensures forall t :: 0 <= t < |ls| ==> ls[t] == Likelihoods(model.value, observations[t], transition.value.keys)
    {
      seq(|observations|, t requires 0 <= t < |observations| =>
            Likelihoods(model.value, observations[t], transition.value.keys))
    }

    /** The backward recursion sums over the paths. */
    lemma {:induction false} PathWeightsSumPaths(n: nat, observations: seq<O>, i: nat, j: nat)
      requires Equipped() && n == |transition.value.keys| && i < n && j < n
      ensures PathWeights(n, observations, j)[i]
           == TotalAlong(transition.value.rows, Evidence(observations), PathsFrom(n, i, |observations|, j))
      decreases |observations|
    {
      var a := transition.value.rows;
      if observations == [] {
        assert TotalAlong(a, [], [[i]]) == TotalAlong(a, [], [[i]][..0]) + Along(a, [], [i]);
        assert TotalAlong(a, [], [[i]][..0]) == 0.0;
      } else {
        var ls, rest := Evidence(observations), PathWeights(n, observations[1..], j);
        assert ls[1..] == Evidence(observations[1..]);
        forall s | 0 <= s < n
          ensures rest[s] == TotalAlong(a, ls[1..], PathsFrom(n, s, |ls[1..]|, j))
        {
          PathWeightsSumPaths(n, observations[1..], s, j);
        }
        TotalVia(a, ls, n, i, j, rest, Weighted(n, observations[0], rest));
      }
    }

    ghost function Weighted(n: nat, o: O, rest: Vec): (y: Vec)
      requires Equipped() && n == |transition.value.keys| == |rest|
      ensures |y| == n
    {
      var l := Likelihoods(model.value, o, transition.value.keys);
      seq(n, k requires 0 <= k < n => Product(l[k], rest[k]))
    }

    // ---- Hidden paths against clamped steps ----

    /** The step without cutting off negative predicted masses. */
    ghost function LinearStep(prior: Vec, o: O): (w: Vec)
      requires Equipped() && |prior| == |transition.value.keys|
      ensures |w| == |prior|
    {
      var l := Likelihoods(model.value, o, transition.value.keys);
      seq(|prior|, j requires 0 <= j < |prior| => Product(Flow(transition.value.rows, prior, j), l[j]))
    }

    ghost function LinearForward(prior: Vec, observations: seq<O>): (w: Vec)
      requires Equipped() && |prior| == |transition.value.keys|
      ensures |w| == |prior|
      decreases |observations|
    {
      if observations == [] then prior else LinearForward(LinearStep(prior, observations[0]), observations[1..])
    }

    lemma {:induction false} PathStep(prior: Vec, o: O, rest: Vec)
      requires Equipped() && |prior| == |rest| == |transition.value.keys|
      ensures Dot(LinearStep(prior, o), rest, |prior|)
           == Dot(prior, Apply(transition.value.rows, Weighted(|prior|, o, rest), |prior|), |prior|)
    {
      var n, a := |prior|, transition.value.rows;
      var l := Likelihoods(model.value, o, transition.value.keys);
      var y := Weighted(n, o, rest);
      WeightsMove(Flows(a, prior), l, rest, LinearStep(prior, o), y, n);
      FlowIsTranspose(a, prior, y);
    }

    /** The linear recursion by the backward one. */
    lemma {:induction false} ForwardIsBackward(prior: Vec, observations: seq<O>, j: nat)
      requires Equipped() && |prior| == |transition.value.keys| && j < |prior|
      ensures LinearForward(prior, observations)[j] == Dot(prior, PathWeights(|prior|, observations, j), |prior|)
      decreases |observations|
    {
      var n := |prior|;
      if observations == [] {
        SingleTerm(prior, PathWeights(n, [], j), j, n);
      } else {
        var rest := PathWeights(n, observations[1..], j);
        ForwardIsBackward(LinearStep(prior, observations[0]), observations[1..], j);
        PathStep(prior, observations[0], rest);
      }
    }

    /** Sum, over every sequence of hidden states that ends in j, of the prior mass of the first state times the
        transition probabilities and likelihoods along the sequence. */
    ghost function PathSum(prior: Vec, observations: seq<O>, j: nat): real
      requires Equipped()
    {
      var paths := PathsTo(|prior|, |observations|, j, |prior|);
      SumOverPaths(prior, transition.value.rows, Evidence(observations), paths)
    }

    lemma {:induction false} LinearSumsPaths(prior: Vec, observations: seq<O>, j: nat)
      requires Equipped() && |prior| == |transition.value.keys| && j < |prior|
      ensures LinearForward(prior, observations)[j] == PathSum(prior, observations, j)
    {
      var n := |prior|;
      ForwardIsBackward(prior, observations, j);
      var starts := PathWeights(n, observations, j);
      forall i | 0 <= i < n
        ensures starts[i]
             == TotalAlong(transition.value.rows, Evidence(observations), PathsFrom(n, i, |observations|, j))
      {
        PathWeightsSumPaths(n, observations, i, j);
      }
      SumOfStarts(prior, transition.value.rows, Evidence(observations), j, starts);
    }

    /** Every negative predicted mass meets a likelihood of zero, so that nothing is lost by cutting it off. */
    ghost predicate NothingCut(prior: Vec, o: O)
      requires Equipped() && |prior| == |transition.value.keys|
    {
      forall j :: 0 <= j < |prior| ==>
        Flow(transition.value.rows, prior, j) >= 0.0 || model.value.likelihood(o, transition.value.keys[j]) == 0.0
    }

    ghost predicate NothingEverCut(prior: Vec, observations: seq<O>)
      requires Equipped() && |prior| == |transition.value.keys|
      decreases |observations|
    {
      observations == []
      || (NothingCut(prior, observations[0]) && NothingEverCut(Step(prior, observations[0]), observations[1..]))
    }

    lemma CutStep(prior: Vec, o: O)
      requires Equipped() && |prior| == |transition.value.keys|
      ensures Step(prior, o) == LinearStep(prior, o) <==> NothingCut(prior, o)
    {
      var l := Likelihoods(model.value, o, transition.value.keys);
      forall j | 0 <= j < |prior|
        ensures Step(prior, o)[j] == LinearStep(prior, o)[j]
           <==> Flow(transition.value.rows, prior, j) >= 0.0 || l[j] == 0.0
      {
        CutWeight(Flow(transition.value.rows, prior, j), l[j]);
      }
    }

    /** After each of the observations the weights are those of the linear recursion. */
    ghost predicate Tracks(prior: Vec, observations: seq<O>)
      requires Equipped() && |prior| == |transition.value.keys|
    {
      forall t :: 0 <= t <= |observations| ==> TracksAt(prior, observations, t)
    }

    ghost predicate TracksAt(prior: Vec, observations: seq<O>, t: nat)
      requires Equipped() && |prior| == |transition.value.keys| && t <= |observations|
    {
      Forward(prior, observations[..t]) == LinearForward(prior, observations[..t])
    }

    lemma TracksNext(prior: Vec, observations: seq<O>, t: nat)
      requires Equipped() && |prior| == |transition.value.keys| && 0 < t <= |observations|
      requires Step(prior, observations[0]) == LinearStep(prior, observations[0])
      ensures TracksAt(prior, observations, t)
         <==> TracksAt(Step(prior, observations[0]), observations[1..], t - 1)
    {
      assert observations[..t][1..] == observations[1..][..t - 1];
    }

    lemma {:induction false} TracksIff(prior: Vec, observations: seq<O>)
      requires Equipped() && |prior| == |transition.value.keys|
      ensures Tracks(prior, observations) <==> NothingEverCut(prior, observations)
      decreases |observations|
    {
      if observations == [] {
        assert observations[..0] == [];
      } else {
        var o, rest := observations[0], observations[1..];
        CutStep(prior, o);
        OneStep(prior, observations);
        if NothingCut(prior, o) {
          TracksIff(Step(prior, o), rest);
          forall t | 0 < t <= |observations|
            ensures TracksAt(prior, observations, t) <==> TracksAt(Step(prior, o), rest, t - 1)
          {
            TracksNext(prior, observations, t);
          }
          assert observations[..0] == [];
          if Tracks(prior, observations) {
            forall t | 0 <= t <= |rest|
              ensures TracksAt(Step(prior, o), rest, t)
            {
              assert TracksAt(prior, observations, t + 1);
            }
          }
        }
      }
    }

    lemma OneStep(prior: Vec, observations: seq<O>)
      requires Equipped() && |prior| == |transition.value.keys| && observations != []
      ensures TracksAt(prior, observations, 1) <==> Step(prior, observations[0]) == LinearStep(prior, observations[0])
    {
      var one := [observations[0]];
      assert observations[..1] == one && one[1..] == [];
      assert Forward(prior, one) == Forward(Step(prior, one[0]), []);
      assert LinearForward(prior, one) == LinearForward(LinearStep(prior, one[0]), []);
    }

    /** After every number of observations the forward weight of every state is the sum over the hidden paths, exactly
        when no predicted mass that mattered was negative and cut off. */
    lemma {:induction false} ForwardSumsPathsIff(prior: Vec, observations: seq<O>)
      requires Equipped() && |prior| == |transition.value.keys|
      ensures (forall t, j :: 0 <= t <= |observations| && 0 <= j < |prior| ==>
                 Forward(prior, observations[..t])[j] == PathSum(prior, observations[..t], j))
         <==> NothingEverCut(prior, observations)
    {
      forall t, j | 0 <= t <= |observations| && 0 <= j < |prior|
        ensures LinearForward(prior, observations[..t])[j] == PathSum(prior, observations[..t], j)
      {
        LinearSumsPaths(prior, observations[..t], j);
      }
      TracksIff(prior, observations);
      if forall t, j :: 0 <= t <= |observations| && 0 <= j < |prior| ==>
          Forward(prior, observations[..t])[j] == PathSum(prior, observations[..t], j) {
        forall t | 0 <= t <= |observations|
          ensures TracksAt(prior, observations, t)
        {
        }
      } else {
        var t, j :| 0 <= t <= |observations| && 0 <= j < |prior|
          && Forward(prior, observations[..t])[j] != PathSum(prior, observations[..t], j);
        assert !TracksAt(prior, observations, t);
      }
    }

    ghost predicate NonNegativeMatrix()
      requires Equipped()
    {
      forall i :: 0 <= i < |transition.value.rows| ==> NonNegative(transition.value.rows[i])
    }

    lemma {:induction false} NonNegativeIsNeverCut(prior: Vec, observations: seq<O>)
      requires Equipped() && |prior| == |transition.value.keys| && NonNegativeMatrix() && NonNegative(prior)
      ensures NothingEverCut(prior, observations)
      decreases |observations|
    {
      if observations != [] {
        forall j | 0 <= j < |prior|
          ensures Flow(transition.value.rows, prior, j) >= 0.0
        {
          DotNonNegative(prior, Column(transition.value.rows, j, |prior|), |prior|);
        }
        NonNegativeIsNeverCut(Step(prior, observations[0]), observations[1..]);
      }
    }

    /** In particular from proper probabilities: the forward weight of a state sums over all hidden paths to it. */
    lemma {:induction false} ForwardSumsPaths(prior: Vec, observations: seq<O>, j: nat)
      requires Equipped() && |prior| == |transition.value.keys| && j < |prior|
      requires NonNegativeMatrix() && NonNegative(prior)
      ensures Forward(prior, observations)[j] == PathSum(prior, observations, j)
    {
      NonNegativeIsNeverCut(prior, observations);
      ForwardSumsPathsIff(prior, observations);
      assert observations[..|observations|] == observations;
    }
  }

  ghost predicate Scaled(y: Vec, x: Vec, c: real) {
    |y| == |x| && forall i :: 0 <= i < |x| ==> y[i] == Product(x[i], c)
  }

  lemma {:induction false} ScaledDot(x: Vec, x': Vec, y: Vec, c: real, k: nat)
    requires k <= |x| && k <= |y| && Scaled(x', x, c)
    ensures Dot(x', y, k) == Product(Dot(x, y, k), c)
  {
    if k > 0 {
      ScaledDot(x, x', y, c, k - 1);
      assert x[k - 1] * c * y[k - 1] == x[k - 1] * y[k - 1] * c;
    }
  }

  /** An entry of minus the jitter is accepted in a transition matrix, and what it predicts is cut off. */
  lemma JitterIsCut()
    ensures var a := [[1.0 + JITTER, -JITTER], [0.0, 1.0]];
      && Square(a, 2) && NearSimplex(a[0], DEFAULT_TOLERANCE) && NearSimplex(a[1], DEFAULT_TOLERANCE)
      && Flow(a, [1.0, 0.0], 1) == -JITTER && Weights(a, [1.0, 0.0], [1.0, 1.0])[1] == 0.0
  {
    var a := [[1.0 + JITTER, -JITTER], [0.0, 1.0]];
    assert SumTo(a[0], 1) == SumTo(a[0], 0) + a[0][0] && SumTo(a[1], 1) == SumTo(a[1], 0) + a[1][0];
    var p: Vec, c := [1.0, 0.0], Column(a, 1, 2);
    assert Dot(p, c, 1) == Dot(p, c, 0) + p[0] * c[0];
    assert Dot(p, c, 2) == Dot(p, c, 1) + p[1] * c[1];
  }

  lemma CutWeight(f: real, l: real)
    ensures (if f <= 0.0 then 0.0 else Product(f, l)) == Product(f, l) <==> f >= 0.0 || l == 0.0
  {
    if f < 0.0 && l != 0.0 {
      if l > 0.0 {
        NegativeTimesPositive(f, l);
      } else {
        NegativeTimesPositive(l, -f);
        assert f * l == -(l * -f);
      }
    }
  }

  lemma ScaledWeight(f: real, f': real, c: real, l: real)
    requires c > 0.0 && f' == Product(f, c)
    ensures f' <= 0.0 <==> f <= 0.0
    ensures Product(f', l) == Product(Product(f, l), c)
  {
    assert f * c * l == f * l * c;
  }

  lemma InverseScale(w: Vec, p: Vec, s: real)
    requires Normalized(p, w) && s == Sum(w)
    ensures Scaled(w, p, s)
  {
  }

  lemma {:induction false} ScaledSum(x: Vec, y: Vec, c: real, k: nat)
    requires Scaled(y, x, c) && k <= |x|
    ensures SumTo(y, k) == Product(SumTo(x, k), c)
  {
    if k > 0 {
      ScaledSum(x, y, c, k - 1);
    }
  }

  lemma ScaledQuotient(x: real, s: real, c: real)
    requires s > 0.0 && c > 0.0
    ensures Product(s, c) > 0.0 && Product(x, c) / Product(s, c) == x / s
  {
  }

  /** Normalizing does not see a common positive factor. */
  lemma NormalizedOfScaled(x: Vec, y: Vec, c: real, p: Option<Vec>)
    requires Scaled(y, x, c) && c > 0.0
    ensures Sum(x) > 0.0 <==> Sum(y) > 0.0
    ensures p.Some? && Normalized(p.value, x) ==> Normalized(p.value, y)
  {
    ScaledSum(x, y, c, |x|);
    if Sum(x) > 0.0 {
      forall i | 0 <= i < |x|
        ensures y[i] / Sum(y) == x[i] / Sum(x)
      {
        ScaledQuotient(x[i], Sum(x), c);
      }
    }
  }

  /** Likelihoods can be counted with the state reached or with the path that leaves it. */
  lemma {:induction false} WeightsMove(f: Vec, l: Vec, rest: Vec, w: Vec, y: Vec, k: nat)
    requires k <= |f| && k <= |l| && k <= |rest| && k <= |w| && k <= |y|
    requires forall i :: 0 <= i < k ==> y[i] == Product(l[i], rest[i]) && w[i] == Product(f[i], l[i])
    ensures Dot(w, rest, k) == Dot(f, y, k)
  {
    if k > 0 {
      WeightsMove(f, l, rest, w, y, k - 1);
      assert f[k - 1] * l[k - 1] * rest[k - 1] == f[k - 1] * (l[k - 1] * rest[k - 1]);
    }
  }
}
