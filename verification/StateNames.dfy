/** What the filter makes of a prior whose states are not the transition matrix's own: masses go by position. */
module StateNames {
  import opened Pigeonhole
  import opened Sorting
  import opened RealSums
  import opened LinearAlgebra
  import opened Simplex
  import opened Beliefs
  import opened TransitionMatrices
  import opened BeliefFilters

  /** The belief's masses, read by name, in the order of the matrix's states. */
  ghost function ByName(b: Belief, keys: seq<string>): (p: Vec)
    ensures |p| == |keys| && forall j :: 0 <= j < |p| ==> p[j] == b.Probability(keys[j])
  {
    seq(|keys|, j requires 0 <= j < |keys| => b.Probability(keys[j]))
  }

  /** Every state with mass has the same position in the matrix as in the belief. */
  ghost predicate InPlace(b: Belief, keys: seq<string>)
    requires |b.keys| == |b.probs| == |keys|
  {
    forall j :: 0 <= j < |keys| && b.probs[j] != 0.0 ==> keys[j] == b.keys[j]
  }

  ghost predicate Names(keys: seq<string>) {
    Sorted(keys, IdLess) && Distinct(keys)
  }

  lemma NamesRise(keys: seq<string>, i: nat, j: nat)
    requires Names(keys) && i < j < |keys|
    ensures IdLess(keys[i], keys[j])
  {
    IdTotal(keys[i], keys[j]);
  }

  lemma LaterNameLaterPlace(keys: seq<string>, i: nat, j: nat)
    requires Names(keys) && i < |keys| && j < |keys| && IdLess(keys[i], keys[j])
    ensures i < j
  {
    IdNotBelowItself(keys[i]);
  }

  /** A mass read at position j under a later name of the belief is read again there, under a still later name. */
  lemma {:induction false} NoMassAhead(b: Belief, keys: seq<string>, j: nat)
    requires ValidBelief(b) && Names(keys) && |keys| == |b.keys| && b.probs == ByName(b, keys)
    requires j < |keys| && IdLess(b.keys[j], keys[j])
    ensures b.probs[j] == 0.0
    decreases |keys| - j
  {
    if keys[j] in b.index {
      var k := b.index[keys[j]];
      LaterNameLaterPlace(b.keys, j, k);
      NamesRise(keys, j, k);
      NoMassAhead(b, keys, k);
    }
  }

  lemma {:induction false} NoMassBehind(b: Belief, keys: seq<string>, j: nat)
    requires ValidBelief(b) && Names(keys) && |keys| == |b.keys| && b.probs == ByName(b, keys)
    requires j < |keys| && IdLess(keys[j], b.keys[j])
    ensures b.probs[j] == 0.0
  {
    if keys[j] in b.index {
      var k := b.index[keys[j]];
      LaterNameLaterPlace(b.keys, k, j);
      NamesRise(keys, k, j);
      NoMassBehind(b, keys, k);
    }
  }

  /** Position and name agree on every mass exactly when all states with mass are in place. */
  lemma ReadingsAgreeIff(b: Belief, keys: seq<string>)
    requires ValidBelief(b) && Names(keys) && |keys| == |b.keys|
    ensures b.probs == ByName(b, keys) <==> InPlace(b, keys)
  {
    if b.probs == ByName(b, keys) {
      forall j | 0 <= j < |keys| && b.probs[j] != 0.0
        ensures keys[j] == b.keys[j]
      {
        IdTotal(keys[j], b.keys[j]);
        if IdLess(b.keys[j], keys[j]) {
          NoMassAhead(b, keys, j);
        } else if IdLess(keys[j], b.keys[j]) {
          NoMassBehind(b, keys, j);
        }
      }
    }
    if InPlace(b, keys) {
      forall j | 0 <= j < |keys|
        ensures b.probs[j] == b.Probability(keys[j])
      {
        if keys[j] in b.index {
          var k := b.index[keys[j]];
          assert b.keys[k] == keys[j];
          assert b.probs[k] != 0.0 ==> keys[k] == keys[j];
        }
      }
    }
  }

  // ---- Seen from the filter ----

  /** What the transition matrix of a filter must satisfy. */
  ghost predicate Stochastic(a: Mat, n: nat) {
    Square(a, n) && forall i :: 0 <= i < n ==> NearSimplex(a[i], DEFAULT_TOLERANCE)
  }

  /** No filter can tell p from q: whatever its matrix and its likelihoods, the unnormalised posterior is the same. */
  ghost predicate Alike(p: Vec, q: Vec)
    requires |p| == |q|
  {
    forall a: Mat, l: Vec {:trigger Weights(a, p, l)} :: Stochastic(a, |p|) && |l| == |p| && NonNegative(l) ==>
      Weights(a, p, l) == Weights(a, q, l)
  }

  /** From state j to the first state; from every other state there with probability share, else to the second. */
  ghost function Funnel(n: nat, j: nat, share: real): (a: Mat)
    requires n > 0 && 0.0 <= share <= 1.0 && (share == 1.0 || n > 1)
    ensures |a| == n && forall i :: 0 <= i < n ==> a[i] == FunnelRow(n, if i == j then 1.0 else share)
    ensures Square(a, n)
  {
    seq(n, i requires 0 <= i < n => FunnelRow(n, if i == j then 1.0 else share))
  }

  ghost function FunnelRow(n: nat, share: real): (r: Vec)
    requires n > 0
    ensures |r| == n && forall k :: 0 <= k < n ==> r[k] == if k == 0 then share else if k == 1 then 1.0 - share else 0.0
  {
    seq(n, k => if k == 0 then share else if k == 1 then 1.0 - share else 0.0)
  }

  lemma {:induction false} FunnelRowSum(n: nat, share: real, k: nat)
    requires 0 < k <= n
    ensures SumTo(FunnelRow(n, share), k) == if k == 1 then share else 1.0
  {
    if k > 1 {
      FunnelRowSum(n, share, k - 1);
    }
  }

  lemma FunnelIsStochastic(n: nat, j: nat, share: real)
    requires n > 0 && 0.0 <= share <= 1.0 && (share == 1.0 || n > 1)
    ensures Stochastic(Funnel(n, j, share), n)
  {
    FunnelRowSum(n, share, n);
    FunnelRowSum(n, 1.0, n);
  }

  /** What reaches the first state is the given share of everything, and all of state j. */
  lemma {:induction false} FunnelDot(p: Vec, c: Vec, j: nat, share: real, k: nat)
    requires k <= |p| == |c| && forall i :: 0 <= i < |c| ==> c[i] == if i == j then 1.0 else share
    ensures Dot(p, c, k) == Product(share, SumTo(p, k)) + (if j < k then Product(1.0 - share, p[j]) else 0.0)
  {
    if k > 0 {
      FunnelDot(p, c, j, share, k - 1);
      Shares(share, SumTo(p, k - 1), p[k - 1]);
    }
  }

  lemma Shares(share: real, rest: real, mass: real)
    ensures share * (rest + mass) == share * rest + share * mass
    ensures mass * share == share * mass && mass == Product(share, mass) + Product(1.0 - share, mass)
  {
    assert (1.0 - share) * mass == mass - share * mass;
  }

  lemma FunnelFlow(p: Vec, j: nat, share: real)
    requires j < |p| && 0.0 <= share <= 1.0 && (share == 1.0 || |p| > 1)
    ensures Flow(Funnel(|p|, j, share), p, 0) == Product(share, Sum(p)) + Product(1.0 - share, p[j])
  {
    FunnelDot(p, Column(Funnel(|p|, j, share), 0, |p|), j, share, |p|);
  }

  lemma FirstWeight(p: Vec, q: Vec, j: nat, share: real)
    requires j < |p| == |q| && 0.0 <= share <= 1.0 && (share == 1.0 || |p| > 1) && Alike(p, q)
    requires Product(share, Sum(p)) + Product(1.0 - share, p[j]) > 0.0
    ensures Product(share, Sum(p)) + Product(1.0 - share, p[j]) == Product(share, Sum(q)) + Product(1.0 - share, q[j])
  {
    var n := |p|;
    var a, l: Vec := Funnel(n, j, share), seq(n, _ => 1.0);
    FunnelIsStochastic(n, j, share);
    FunnelFlow(p, j, share);
    FunnelFlow(q, j, share);
    assert Weights(a, p, l)[0] == Weights(a, q, l)[0];
  }

  lemma AlikeMeansEqual(p: Vec, q: Vec)
    requires |p| == |q| && NearSimplex(p, -1.0) && Alike(p, q)
    ensures p == q
  {
    forall j | 0 <= j < |p|
      ensures p[j] == q[j]
    {
      FirstWeight(p, q, j, 1.0);
      if |p| == 1 {
        assert SumTo(p, 1) == SumTo(p, 0) + p[0] && SumTo(q, 1) == SumTo(q, 0) + q[0];
      } else {
        FirstWeight(p, q, j, 0.5);
      }
    }
  }

  /** All filters over the states keys give a prior the posterior of its masses read by name exactly when the states
      with mass are in place. */
  lemma NamesAreHonouredIff(b: Belief, keys: seq<string>)
    requires ValidBelief(b) && Names(keys) && |keys| == |b.keys|
    ensures Alike(b.probs, ByName(b, keys)) <==> InPlace(b, keys)
  {
    ReadingsAgreeIff(b, keys);
    if Alike(b.probs, ByName(b, keys)) {
      AlikeMeansEqual(b.probs, ByName(b, keys));
    }
  }

  /** Sure of state "b". */
  const SURE: Belief := Belief(["a", "b"], [0.0, 1.0], map["a" := 0, "b" := 1])

  lemma SureIsValid()
    ensures ValidBelief(SURE)
  {
    TwoSum(SURE.probs);
  }

  /** They need not be: a prior that is sure of state "b" is taken, by a matrix on "b" and "c" in which nothing moves,
      for one that is sure of "c". */
  lemma MassesGoByPosition()
    ensures var keys, still, even := ["b", "c"], [[1.0, 0.0], [0.0, 1.0]], [1.0, 1.0];
      && ValidBelief(SURE) && Names(keys) && Stochastic(still, 2)
      && Weights(still, ByName(SURE, keys), even) == [1.0, 0.0] && Weights(still, SURE.probs, even) == [0.0, 1.0]
  {
    SureIsValid();
    StillIsStochastic();
    assert ByName(SURE, ["b", "c"]) == [1.0, 0.0];
    StillWeights([1.0, 0.0]);
    StillWeights(SURE.probs);
  }

  lemma StillIsStochastic()
    ensures Stochastic([[1.0, 0.0], [0.0, 1.0]], 2)
  {
    TwoSum([1.0, 0.0]);
    TwoSum([0.0, 1.0]);
  }

  lemma TwoSum(p: Vec)
    requires |p| == 2
    ensures Sum(p) == p[0] + p[1]
  {
    assert SumTo(p, 1) == SumTo(p, 0) + p[0];
  }

  lemma StillWeights(p: Vec)
    requires |p| == 2 && NonNegative(p)
    ensures Weights([[1.0, 0.0], [0.0, 1.0]], p, [1.0, 1.0]) == p
  {
    var still: Mat := [[1.0, 0.0], [0.0, 1.0]];
    forall j | 0 <= j < 2
      ensures Flow(still, p, j) == p[j]
    {
      var c := Column(still, j, 2);
      assert Dot(p, c, 1) == Dot(p, c, 0) + p[0] * c[0];
      assert Dot(p, c, 2) == Dot(p, c, 1) + p[1] * c[1];
    }
  }
}
