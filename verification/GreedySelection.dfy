/** Greedy selection of non-conflicting candidates, best first, and how much any rival selection can gain on it.
    Two candidates conflict when they share a key. */
module GreedySelection {
  import opened RealSums
  import opened Pigeonhole
  import opened Sorting

  ghost predicate Compatible<T, K>(b: set<T>, keys: T -> set<K>) {
    forall x, y :: x in b && y in b && x != y ==> keys(x) !! keys(y)
  }

  /** What the greedy pass selects once the keys in used are taken. */
  ghost function Greedy<T, K>(cands: seq<T>, used: set<K>, keys: T -> set<K>): (picked: seq<T>)
    ensures forall x :: x in picked ==> x in cands
  {
    if cands == [] then []
    else if keys(cands[0]) !! used then [cands[0]] + Greedy(cands[1..], used + keys(cands[0]), keys)
    else Greedy(cands[1..], used, keys)
  }

  ghost function Total<T>(b: set<T>, weight: T -> real): real {
    if b == {} then 0.0 else var x :| x in b; weight(x) + Total(b - {x}, weight)
  }

  ghost function TotalOf<T>(s: seq<T>, weight: T -> real): real {
    if s == [] then 0.0 else weight(s[0]) + TotalOf(s[1..], weight)
  }

  lemma {:induction false} TotalWithout<T>(b: set<T>, x: T, weight: T -> real)
    requires x in b
    ensures Total(b, weight) == weight(x) + Total(b - {x}, weight)
    decreases b
  {
    var y :| y in b && Total(b, weight) == weight(y) + Total(b - {y}, weight);
    if x != y {
      TotalWithout(b - {y}, x, weight);
      TotalWithout(b - {x}, y, weight);
      assert b - {y} - {x} == b - {x} - {y};
    }
  }

  lemma {:induction false} TotalOfAppend<T>(s: seq<T>, x: T, weight: T -> real)
    ensures TotalOf(s + [x], weight) == TotalOf(s, weight) + weight(x)
  {
    if s == [] {
      assert s + [x] == [x] && [x][1..] == [];
    } else {
      TotalOfAppend(s[1..], x, weight);
      assert (s + [x])[1..] == s[1..] + [x];
    }
  }

  lemma {:induction false} TotalOfIsSum<T>(s: seq<T>, weight: T -> real)
    ensures TotalOf(s, weight) == Sum(MapSeq(s, weight))
  {
    if s != [] {
      var front, last := s[..|s| - 1], s[|s| - 1];
      TotalOfIsSum(front, weight);
      assert s == front + [last];
      TotalOfAppend(front, last, weight);
      SumToPrefix(MapSeq(s, weight), MapSeq(front, weight), |front|);
    }
  }

  lemma {:induction false} TotalOfElements<T>(s: seq<T>, weight: T -> real)
    requires Distinct(s)
    ensures Total(Elements(s), weight) == TotalOf(s, weight)
  {
    if s != [] {
      var front, last := s[..|s| - 1], s[|s| - 1];
      assert s == front + [last];
      TotalOfElements(front, weight);
      TotalOfAppend(front, last, weight);
      assert Elements(s) - {last} == Elements(front);
      TotalWithout(Elements(s), last, weight);
    }
  }

  /** Keys that the candidates of b need. */
  ghost function KeysOf<T, K>(b: set<T>, keys: T -> set<K>): set<K> {
    set x, k | x in b && k in keys(x) :: k
  }

  lemma KeysOfWithout<T, K>(b: set<T>, c: T, keys: T -> set<K>)
    requires c in b && Compatible(b, keys)
    ensures KeysOf(b, keys) == KeysOf(b - {c}, keys) + keys(c)
    ensures KeysOf(b - {c}, keys) !! keys(c)
  {
  }

  /** Taking candidate c blocks at most its own keys more. */
  lemma BlockedAfterTaking<K>(used: set<K>, more: set<K>, need: set<K>)
    ensures |(used + more) * need| <= |used * need| + |more|
  {
    SubsetCard((used + more) * need, used * need + more);
    assert used * need + more == used * need + (more - used * need);
    SubsetCard(more - used * need, more);
  }

  /** Candidate c is blocked: losing it frees b from at least one taken key. */
  lemma BlockedCandidate<T, K>(used: set<K>, b: set<T>, c: T, keys: T -> set<K>)
    requires c in b && Compatible(b, keys) && !(keys(c) !! used)
    ensures |used * KeysOf(b, keys)| >= |used * KeysOf(b - {c}, keys)| + 1
  {
    KeysOfWithout(b, c, keys);
    var k :| k in keys(c) && k in used;
    assert used * KeysOf(b, keys) == used * KeysOf(b - {c}, keys) + used * keys(c);
    assert k in used * keys(c);
    SubsetCard({k}, used * keys(c));
  }

  /** Candidate c is taken and belongs to b: the rest of b needs none of its keys. */
  lemma SharedCandidate<T, K>(used: set<K>, b: set<T>, c: T, keys: T -> set<K>)
    requires c in b && Compatible(b, keys)
    ensures |(used + keys(c)) * KeysOf(b - {c}, keys)| <= |used * KeysOf(b, keys)|
  {
    KeysOfWithout(b, c, keys);
    assert (used + keys(c)) * KeysOf(b - {c}, keys) == used * KeysOf(b - {c}, keys);
    SubsetCard(used * KeysOf(b - {c}, keys), used * KeysOf(b, keys));
  }

  /** The bound below for one list of candidates: what b gains beyond r times the greedy total is at most
      one top weight per taken key that b needs. */
  ghost predicate Bounded<T, K>(gain: real, collected: real, used: set<K>, b: set<T>, keys: T -> set<K>, r: nat,
                                top: real) {
    gain <= Times(r, collected) + Times(|used * KeysOf(b, keys)|, top)
  }

  lemma BlockedStep<T, K>(gain: real, collected: real, used: set<K>, b: set<T>, c: T, keys: T -> set<K>, w: real,
                          r: nat, top: real)
    requires c in b && Compatible(b, keys) && !(keys(c) !! used) && 0.0 <= w <= top
    requires Bounded(gain, collected, used, b - {c}, keys, r, top)
    ensures Bounded(gain + w, collected, used, b, keys, r, top)
  {
    var n := |used * KeysOf(b - {c}, keys)|;
    BlockedCandidate(used, b, c, keys);
    TimesMonotone(n + 1, |used * KeysOf(b, keys)|, top, top);
  }

  lemma SharedStep<T, K>(gain: real, collected: real, used: set<K>, b: set<T>, c: T, keys: T -> set<K>, w: real, r: nat,
                         top: real)
    requires c in b && Compatible(b, keys) && 0.0 <= w <= top && 1 <= r
    requires Bounded(gain, collected, used + keys(c), b - {c}, keys, r, w)
    ensures Bounded(gain + w, w + collected, used, b, keys, r, top)
  {
    SharedCandidate(used, b, c, keys);
    TimesMonotone(|(used + keys(c)) * KeysOf(b - {c}, keys)|, |used * KeysOf(b, keys)|, w, top);
    TimesOfSum(r, w, collected);
    TimesMonotone(1, r, w, w);
    assert Times(1, w) == Times(0, w) + w;
  }

  lemma RivalStep<T, K>(gain: real, collected: real, used: set<K>, b: set<T>, c: T, keys: T -> set<K>, w: real, r: nat,
                        top: real)
    requires |keys(c)| <= r && 0.0 <= w <= top
    requires Bounded(gain, collected, used + keys(c), b, keys, r, w)
    ensures Bounded(gain, w + collected, used, b, keys, r, top)
  {
    var n := |used * KeysOf(b, keys)|;
    BlockedAfterTaking(used, keys(c), KeysOf(b, keys));
    TimesMonotone(|(used + keys(c)) * KeysOf(b, keys)|, n + r, w, w);
    TimesSum(n, r, w);
    TimesMonotone(n, n, w, top);
    TimesOfSum(r, w, collected);
  }

  lemma {:induction false} TakenTotal<T, K>(cands: seq<T>, used: set<K>, keys: T -> set<K>, weight: T -> real)
    requires cands != [] && keys(cands[0]) !! used
    ensures TotalOf(Greedy(cands, used, keys), weight)
         == weight(cands[0]) + TotalOf(Greedy(cands[1..], used + keys(cands[0]), keys), weight)
  {
    var tail := Greedy(cands[1..], used + keys(cands[0]), keys);
    assert ([cands[0]] + tail)[1..] == tail;
  }

  /** Candidates come best first, with weights up to top and at most r keys each. */
  ghost predicate Ranked<T, K>(cands: seq<T>, keys: T -> set<K>, weight: T -> real, r: nat, top: real) {
    && (forall x :: x in cands ==> |keys(x)| <= r && 0.0 <= weight(x) <= top)
    && (forall i, j :: 0 <= i < j < |cands| ==> weight(cands[i]) >= weight(cands[j]))
  }

  lemma RankedRest<T, K>(cands: seq<T>, keys: T -> set<K>, weight: T -> real, r: nat, top: real)
    requires cands != [] && Ranked(cands, keys, weight, r, top)
    ensures |keys(cands[0])| <= r && 0.0 <= weight(cands[0]) <= top
    ensures Ranked(cands[1..], keys, weight, r, weight(cands[0])) && Ranked(cands[1..], keys, weight, r, top)
  {
    assert cands[0] in cands;
  }

  /** The bound with c taken: by the rival too, or only by the greedy pass. */
  lemma {:induction false} RivalTaken<T, K>(rest: real, collected: real, all: real, used: set<K>, b: set<T>, c: T,
                                            keys: T -> set<K>, weight: T -> real, r: nat, top: real)
    requires Compatible(b, keys) && |keys(c)| <= r && 0.0 <= weight(c) <= top && 1 <= r
    requires rest == Total(b - {c}, weight) && all == weight(c) + collected
    requires Bounded(rest, collected, used + keys(c), b - {c}, keys, r, weight(c))
    ensures Bounded(Total(b, weight), all, used, b, keys, r, top)
  {
    if c in b {
      TotalWithout(b, c, weight);
      SharedStep(rest, collected, used, b, c, keys, weight(c), r, top);
    } else {
      assert b - {c} == b;
      RivalStep(rest, collected, used, b, c, keys, weight(c), r, top);
    }
  }

  lemma {:induction false} RivalBlocked<T, K>(rest: real, collected: real, used: set<K>, b: set<T>, c: T,
                                              keys: T -> set<K>, weight: T -> real, r: nat, top: real)
    requires Compatible(b, keys) && !(keys(c) !! used) && 0.0 <= weight(c) <= top
    requires rest == Total(b - {c}, weight) && Bounded(rest, collected, used, b - {c}, keys, r, top)
    ensures Bounded(Total(b, weight), collected, used, b, keys, r, top)
  {
    if c in b {
      TotalWithout(b, c, weight);
      BlockedStep(rest, collected, used, b, c, keys, weight(c), r, top);
    } else {
      assert b - {c} == b;
    }
  }

  lemma NothingToGain<T, K>(used: set<K>, b: set<T>, keys: T -> set<K>, r: nat, top: real)
    requires 0.0 <= top
    ensures Bounded(0.0, 0.0, used, b, keys, r, top)
  {
    TimesMonotone(0, r, 0.0, 0.0);
    TimesMonotone(0, |used * KeysOf(b, keys)|, top, top);
  }

  /** b gains at most r times what the greedy pass collects, plus one top weight per key that was taken before. */
  lemma {:induction false} RivalBound<T, K>(cands: seq<T>, used: set<K>, b: set<T>, keys: T -> set<K>,
                                            weight: T -> real,
                                            r: nat, top: real)
    requires 1 <= r && 0.0 <= top && Ranked(cands, keys, weight, r, top)
    requires Compatible(b, keys) && forall x :: x in b ==> x in cands
    ensures Bounded(Total(b, weight), TotalOf(Greedy(cands, used, keys), weight), used, b, keys, r, top)
    decreases |cands|
  {
    if cands == [] {
      assert b == {} && Greedy(cands, used, keys) == [];
      NothingToGain(used, b, keys, r, top);
    } else {
      var c, rest := cands[0], cands[1..];
      assert cands == [c] + rest;
      RankedRest(cands, keys, weight, r, top);
      if keys(c) !! used {
        RivalBound(rest, used + keys(c), b - {c}, keys, weight, r, weight(c));
        TakenTotal(cands, used, keys, weight);
        RivalTaken(Total(b - {c}, weight), TotalOf(Greedy(rest, used + keys(c), keys), weight),
                   TotalOf(Greedy(cands, used, keys), weight), used, b, c, keys, weight, r, top);
      } else {
        RivalBound(rest, used, b - {c}, keys, weight, r, top);
        RivalBlocked(Total(b - {c}, weight), TotalOf(Greedy(rest, used, keys), weight), used, b, c, keys,
                     weight, r, top);
      }
    }
  }

  /** Best first, non-negative weights, at most r keys each: the greedy pass collects at least 1/r of any
      compatible selection. */
  lemma {:induction false} GreedyRatio<T, K>(cands: seq<T>, b: set<T>, keys: T -> set<K>, weight: T -> real, r: nat)
    requires 1 <= r && forall x :: x in cands ==> |keys(x)| <= r && 0.0 <= weight(x)
    requires forall i, j :: 0 <= i < j < |cands| ==> weight(cands[i]) >= weight(cands[j])
    requires Compatible(b, keys) && forall x :: x in b ==> x in cands
    ensures Total(b, weight) <= Times(r, TotalOf(Greedy(cands, {}, keys), weight))
  {
    var top := if cands == [] then 0.0 else weight(cands[0]);
    RivalBound(cands, {}, b, keys, weight, r, top);
    assert {} * KeysOf(b, keys) == {};
  }

  ghost predicate Clear<T, K>(s: seq<T>, used: set<K>, keys: T -> set<K>) {
    forall x :: x in s ==> keys(x) !! used
  }
  ghost predicate PairwiseClear<T, K>(s: seq<T>, keys: T -> set<K>) {
    forall i, j :: 0 <= i < j < |s| ==> keys(s[i]) !! keys(s[j])
  }

  /** No key is used twice, and none of the keys in used. */
  lemma {:induction false} GreedyIsCompatible<T, K>(cands: seq<T>, used: set<K>, keys: T -> set<K>)
    ensures Clear(Greedy(cands, used, keys), used, keys)
    ensures PairwiseClear(Greedy(cands, used, keys), keys)
    decreases |cands|
  {
    if cands == [] {
    } else if keys(cands[0]) !! used {
      var c := cands[0];
      var tail := Greedy(cands[1..], used + keys(c), keys);
      GreedyIsCompatible(cands[1..], used + keys(c), keys);
      forall x | x in tail
        ensures keys(x) !! used && keys(c) !! keys(x)
      {
        assert keys(x) !! (used + keys(c));
      }
      assert Greedy(cands, used, keys) == [c] + tail;
    } else {
      GreedyIsCompatible(cands[1..], used, keys);
    }
  }

  /** Every candidate left out conflicts with a picked one of at least its weight, or with a key taken before. */
  lemma {:induction false} GreedyIsMaximal<T, K>(cands: seq<T>, used: set<K>, keys: T -> set<K>, weight: T -> real,
                                                 c: T)
    requires c in cands && keys(c) != {}
    requires forall i, j :: 0 <= i < j < |cands| ==> weight(cands[i]) >= weight(cands[j])
    ensures !(keys(c) !! used)
      || exists x :: x in Greedy(cands, used, keys) && !(keys(c) !! keys(x)) && weight(x) >= weight(c)
    decreases |cands|
  {
    var head, rest := cands[0], cands[1..];
    assert cands == [head] + rest;
    var picked := Greedy(cands, used, keys);
    if keys(head) !! used {
      assert picked[0] == head && head in picked;
      if c != head && keys(c) !! keys(head) {
        GreedyIsMaximal(rest, used + keys(head), keys, weight, c);
        assert forall x :: x in Greedy(rest, used + keys(head), keys) ==> x in picked;
      } else {
        var k := if c == head then 0 else 1;
        assert weight(head) >= weight(c);
      }
    } else if c != head {
      GreedyIsMaximal(rest, used, keys, weight, c);
    }
  }

  /** The pass depends on its candidates only through what their slots are computed from. */
  lemma {:induction false} GreedyFollowsKeys<T, I, K>(a: seq<T>, b: seq<T>, used: set<K>, keys: T -> set<K>, id: T -> I)
    requires MapSeq(a, id) == MapSeq(b, id)
    requires forall x, y :: x in a && y in b && id(x) == id(y) ==> keys(x) == keys(y)
    ensures MapSeq(Greedy(a, used, keys), id) == MapSeq(Greedy(b, used, keys), id)
    decreases |a|
  {
    assert |a| == |MapSeq(a, id)| == |b|;
    if a != [] {
      assert MapSeq(a, id)[0] == MapSeq(b, id)[0];
      assert a[0] in a && b[0] in b;
      assert MapSeq(a[1..], id) == MapSeq(a, id)[1..] && MapSeq(b[1..], id) == MapSeq(b, id)[1..];
      GreedyFollowsKeys(a[1..], b[1..], used + keys(a[0]), keys, id);
      GreedyFollowsKeys(a[1..], b[1..], used, keys, id);
      HeadMap(Greedy(a[1..], used + keys(a[0]), keys), a[0], id);
      HeadMap(Greedy(b[1..], used + keys(b[0]), keys), b[0], id);
    }
  }

  lemma HeadMap<T, I>(s: seq<T>, x: T, id: T -> I)
    ensures MapSeq([x] + s, id) == [id(x)] + MapSeq(s, id)
  {
  }

  ghost function Occupied<T, K>(s: seq<T>, used: set<K>, keys: T -> set<K>): set<K> {
    if s == [] then used else Occupied(s[1..], used + keys(s[0]), keys)
  }

  /** A pass over a prefix, then over the rest with what the prefix occupied. */
  lemma {:induction false} GreedySplit<T, K>(x: seq<T>, y: seq<T>, used: set<K>, keys: T -> set<K>)
    ensures Greedy(x + y, used, keys)
       == Greedy(x, used, keys) + Greedy(y, Occupied(Greedy(x, used, keys), used, keys), keys)
    decreases |x|
  {
    if x == [] {
      assert x + y == y;
    } else {
      assert (x + y)[1..] == x[1..] + y;
      GreedySplit(x[1..], y, used, keys);
      GreedySplit(x[1..], y, used + keys(x[0]), keys);
      var tail := Greedy(x[1..], used + keys(x[0]), keys);
      assert ([x[0]] + tail)[1..] == tail;
    }
  }
}
