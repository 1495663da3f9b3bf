/** Distributions over named latent states, stored in key order. */
module Beliefs {
  import opened Wrappers
  import opened Pigeonhole
  import opened RealSums
  import opened Sorting
  import opened LinearAlgebra
  import opened Simplex

  datatype BeliefError = NoStates | DimensionMismatch | NotOnSimplex(cause: SimplexError) | DuplicateKey(key: string)

  datatype Belief = Belief(keys: seq<string>, probs: Vec, index: map<string, nat>) {

    /** Mass of a state; 0 for a state the belief does not know. */
    function Probability(key: string): real {
      if key in index && index[key] < |probs| then probs[index[key]] else 0.0
    }
  }

  /** index is the position map of keys. */
  ghost predicate Indexes(index: map<string, nat>, keys: seq<string>) {
    && (forall i :: 0 <= i < |keys| ==> keys[i] in index && index[keys[i]] == i)
    && forall key :: key in index ==> index[key] < |keys| && keys[index[key]] == key
  }

  ghost predicate ValidBelief(b: Belief) {
    && |b.keys| == |b.probs| && Sorted(b.keys, IdLess) && Distinct(b.keys) && Indexes(b.index, b.keys)
    && NearSimplex(b.probs, -1.0)
  }

  type Entry = (string, real)

  function KeyOf(p: Entry): string {
    p.0
  }

  function MassOf(p: Entry): real {
    p.1
  }

  predicate ByKey(a: Entry, b: Entry) {
    IdLess(a.0, b.0)
  }

  lemma ByKeyOrder()
    ensures StrictWeakOrder(ByKey)
  {
    IdOrder();
    forall x, y, z
      ensures ByKey(x, z) ==> ByKey(x, y) || ByKey(y, z)
    {
      IdWeak(x.0, y.0, z.0);
    }
  }

  function Pairs(keys: seq<string>, probs: Vec): (p: seq<Entry>)
    requires |keys| == |probs|
    ensures |p| == |keys| && forall i :: 0 <= i < |p| ==> p[i] == (keys[i], probs[i])
  {
    seq(|keys|, i requires 0 <= i < |keys| => (keys[i], probs[i]))
  }

  lemma KeysOfPermutation(a: seq<Entry>, b: seq<Entry>)
    requires multiset(a) == multiset(b)
    ensures multiset(MapSeq(a, KeyOf)) == multiset(MapSeq(b, KeyOf))
    ensures multiset(MapSeq(a, MassOf)) == multiset(MapSeq(b, MassOf))
  {
    MapKeepsMultiset(a, b, KeyOf);
    MapKeepsMultiset(a, b, MassOf);
  }

  /** Position map of the keys, or the first key seen twice. */
  method IndexKeys(keys: seq<string>) returns (r: Result<map<string, nat>, string>)
    ensures r.Ok? <==> Distinct(keys)
    ensures r.Ok? ==> Indexes(r.value, keys)
    ensures r.Err? ==> multiset(keys)[r.error] >= 2
  {
    var index: map<string, nat> := map[];
    var i := 0;
    while i < |keys|
      invariant 0 <= i <= |keys|
      invariant Distinct(keys[..i]) && Indexes(index, keys[..i])
    {
      if keys[i] in index {
        TwiceMeansTwo(keys, index[keys[i]], i);
        return Err(keys[i]);
      }
      assert keys[..i + 1] == keys[..i] + [keys[i]];
      index := index[keys[i] := i];
      i := i + 1;
    }
    assert keys[..|keys|] == keys;
    return Ok(index);
  }

  lemma NearSimplexIgnoresOrder(probs: Vec, sorted: Vec, epsilon: real)
    requires multiset(probs) == multiset(sorted) && NearSimplex(probs, epsilon)
    ensures NearSimplex(sorted, epsilon)
  {
    SumIgnoresOrder(probs, sorted);
    PermutationKeepsElements(sorted, probs);
    forall i | 0 <= i < |sorted|
      ensures sorted[i] >= -JITTER
    {
      assert sorted[i] in probs;
    }
  }

  lemma SidesOfPairs(keys: seq<string>, probs: Vec)
    requires |keys| == |probs|
    ensures MapSeq(Pairs(keys, probs), KeyOf) == keys
    ensures MapSeq(Pairs(keys, probs), MassOf) == probs
  {
  }

  method SortByKey(keys: seq<string>, probs: Vec) returns (sortedKeys: seq<string>, sortedProbs: Vec)
    requires |keys| == |probs|
    ensures |sortedKeys| == |sortedProbs| && Sorted(sortedKeys, IdLess)
    ensures multiset(Pairs(sortedKeys, sortedProbs)) == multiset(Pairs(keys, probs))
  {
    ByKeyOrder();
    var pairs := Sort(Pairs(keys, probs), ByKey);
    sortedKeys, sortedProbs := MapSeq(pairs, KeyOf), MapSeq(pairs, MassOf);
    assert Pairs(sortedKeys, sortedProbs) == pairs;
    forall i, j | 0 <= i < j < |sortedKeys|
      ensures !IdLess(sortedKeys[j], sortedKeys[i])
    {
      assert !ByKey(pairs[j], pairs[i]);
    }
  }

  lemma SortedSides(keys: seq<string>, probs: Vec, sortedKeys: seq<string>, sortedProbs: Vec)
    requires |keys| == |probs| && |sortedKeys| == |sortedProbs|
    requires multiset(Pairs(sortedKeys, sortedProbs)) == multiset(Pairs(keys, probs))
    ensures multiset(sortedKeys) == multiset(keys) && multiset(sortedProbs) == multiset(probs)
    ensures |sortedKeys| == |keys| && (Distinct(sortedKeys) <==> Distinct(keys))
  {
    KeysOfPermutation(Pairs(sortedKeys, sortedProbs), Pairs(keys, probs));
    SidesOfPairs(keys, probs);
    SidesOfPairs(sortedKeys, sortedProbs);
    PermutationKeepsElements(sortedKeys, keys);
    PermutationKeepsElements(keys, sortedKeys);
  }

  /** Validates a distribution and puts it in canonical key order. */
  method NewBelief(keys: seq<string>, probs: Vec) returns (r: Result<Belief, BeliefError>)
    ensures r == Err(NoStates) <==> keys == []
    ensures r == Err(DimensionMismatch) <==> keys != [] && |keys| != |probs|
    ensures r.Err? && r.error.NotOnSimplex? <==> keys != [] && |keys| == |probs| && !NearSimplex(probs, -1.0)
    ensures r.Err? && r.error.DuplicateKey? ==> multiset(keys)[r.error.key] >= 2
    ensures r.Ok? <==> |keys| == |probs| && NearSimplex(probs, -1.0) && Distinct(keys)
    ensures r.Ok? ==> ValidBelief(r.value) && multiset(r.value.keys) == multiset(keys)
    ensures r.Ok? ==> multiset(Pairs(r.value.keys, r.value.probs)) == multiset(Pairs(keys, probs))
  {
    if |keys| == 0 {
      return Err(NoStates);
    }
    if |keys| != |probs| {
      return Err(DimensionMismatch);
    }
    var invalid := ValidateSimplex(probs, -1.0);
    if invalid.Some? {
      return Err(NotOnSimplex(invalid.value));
    }
    var sortedKeys, sortedProbs := SortByKey(keys, probs);
    SortedSides(keys, probs, sortedKeys, sortedProbs);
    NearSimplexIgnoresOrder(probs, sortedProbs, -1.0);
    var index := IndexKeys(sortedKeys);
    if index.Err? {
      return Err(DuplicateKey(index.error));
    }
    return Ok(Belief(sortedKeys, sortedProbs, index.value));
  }

  /** Every state keeps the mass it was given. */
  lemma MassesAreKept(b: Belief, keys: seq<string>, probs: Vec, i: nat)
    requires ValidBelief(b) && |keys| == |probs| && i < |keys|
    requires multiset(Pairs(b.keys, b.probs)) == multiset(Pairs(keys, probs))
    ensures b.Probability(keys[i]) == probs[i]
  {
    var p := Pairs(keys, probs)[i];
    assert p in multiset(Pairs(keys, probs));
    assert p in Pairs(b.keys, b.probs);
  }

  /** Sorted lists of the same keys are the same list. */
  lemma SortedKeysAreUnique(a: seq<string>, b: seq<string>)
    requires Sorted(a, IdLess) && Sorted(b, IdLess) && multiset(a) == multiset(b)
    ensures a == b
  {
    IdOrder();
    SortedIsUnique(a, b, IdLess);
  }

  lemma IndexIsDetermined(a: map<string, nat>, b: map<string, nat>, keys: seq<string>)
    requires Indexes(a, keys) && Indexes(b, keys)
    ensures a == b
  {
    forall key
      ensures key in a <==> key in b
      ensures key in a ==> a[key] == b[key]
    {
      if key in a {
        assert keys[a[key]] == key;
      }
      if key in b {
        assert keys[b[key]] == key;
      }
    }
  }

  /** The order in which states are listed does not matter: one distribution, one representation. */
  lemma RepresentationIsCanonical(a: Belief, b: Belief)
    requires ValidBelief(a) && ValidBelief(b)
    requires multiset(Pairs(a.keys, a.probs)) == multiset(Pairs(b.keys, b.probs))
    ensures a == b
  {
    KeysOfPermutation(Pairs(a.keys, a.probs), Pairs(b.keys, b.probs));
    SidesOfPairs(a.keys, a.probs);
    SidesOfPairs(b.keys, b.probs);
    SortedKeysAreUnique(a.keys, b.keys);
    forall i | 0 <= i < |a.probs|
      ensures a.probs[i] == b.probs[i]
    {
      MassesAreKept(b, a.keys, a.probs, i);
      assert b.keys[i] in b.index;
    }
    IndexIsDetermined(a.index, b.index, a.keys);
  }

  const MONOPOLISTIC_KEY := "theta_empty"

  /** All mass on the state in which there is no competitor. */
  function MonopolisticBelief(): (b: Belief)
    ensures b.Probability("theta_empty") == 1.0
    ensures forall key :: key != "theta_empty" ==> b.Probability(key) == 0.0
  {
    Belief([MONOPOLISTIC_KEY], [1.0], map[MONOPOLISTIC_KEY := 0])
  }
}
