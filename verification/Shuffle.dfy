/** The Fisher-Yates shuffle as a function of its draws. */
module Shuffle {
  import opened Pigeonhole
  import opened Sorting

  /** One draw for each suffix longer than one: draw number d chooses among the first m - d places. */
  ghost predicate ValidDraws(draws: seq<nat>, m: nat) {
    |draws| == (if m == 0 then 0 else m - 1) && forall d :: 0 <= d < |draws| ==> draws[d] < m - d
  }

  function Swapped<T>(a: seq<T>, i: nat, j: nat): (b: seq<T>)
    requires i < |a| && j < |a|
    ensures |b| == |a|
  {
    a[i := a[j]][j := a[i]]
  }

  /** Settle the last place with the first draw, then shuffle what is before it. */
  function Shuffled<T>(a: seq<T>, draws: seq<nat>): (p: seq<T>)
    requires ValidDraws(draws, |a|)
    ensures |p| == |a|
    decreases |a|
  {
    if |a| <= 1 then a
    else
      var b := Swapped(a, |a| - 1, draws[0]);
      Shuffled(b[..|a| - 1], draws[1..]) + [b[|a| - 1]]
  }

  lemma {:induction false} ShuffledNext<T>(a: seq<T>, draws: seq<nat>)
    requires ValidDraws(draws, |a|) && |a| > 1
    ensures var b := Swapped(a, |a| - 1, draws[0]);
      Shuffled(a, draws) == Shuffled(b[..|a| - 1], draws[1..]) + [b[|a| - 1]]
  {
  }

  lemma SwapPermutes<T>(a: seq<T>, i: nat, j: nat)
    requires i < |a| && j < |a|
    ensures multiset(Swapped(a, i, j)) == multiset(a)
  {
  }

  lemma SplitLast<T>(b: seq<T>)
    requires |b| > 0
    ensures multiset(b) == multiset(b[..|b| - 1]) + multiset{b[|b| - 1]}
  {
    assert b == b[..|b| - 1] + [b[|b| - 1]];
  }

  lemma {:induction false} ShufflePermutes<T>(a: seq<T>, draws: seq<nat>)
    requires ValidDraws(draws, |a|)
    ensures multiset(Shuffled(a, draws)) == multiset(a)
    decreases |a|
  {
    if |a| > 1 {
      var b := Swapped(a, |a| - 1, draws[0]);
      SwapPermutes(a, |a| - 1, draws[0]);
      SplitLast(b);
      ShufflePermutes(b[..|a| - 1], draws[1..]);
    }
  }

  lemma PermutationOfDistinct<T>(a: seq<T>, p: seq<T>)
    requires multiset(a) == multiset(p) && Distinct(a)
    ensures |p| == |a| && Distinct(p)
    ensures forall x :: x in p <==> x in a
  {
    PermutationKeepsElements(p, a);
  }

  /** Different draws, different arrangements. */
  lemma {:induction false} DrawsAreDetermined<T>(a: seq<T>, draws: seq<nat>, draws': seq<nat>)
    requires ValidDraws(draws, |a|) && ValidDraws(draws', |a|) && Distinct(a)
    requires Shuffled(a, draws) == Shuffled(a, draws')
    ensures draws == draws'
    decreases |a|
  {
    if |a| > 1 {
      var m := |a| - 1;
      var b, b' := Swapped(a, m, draws[0]), Swapped(a, m, draws'[0]);
      assert Shuffled(a, draws)[m] == b[m] == a[draws[0]];
      assert Shuffled(a, draws')[m] == b'[m] == a[draws'[0]];
      assert draws[0] == draws'[0];
      assert Shuffled(b[..m], draws[1..]) == Shuffled(a, draws)[..m];
      assert Shuffled(b[..m], draws'[1..]) == Shuffled(a, draws')[..m];
      SwapPermutes(a, m, draws[0]);
      PermutationOfDistinct(a, b);
      DrawsAreDetermined(b[..m], draws[1..], draws'[1..]);
      assert draws == [draws[0]] + draws[1..] && draws' == [draws'[0]] + draws'[1..];
    }
  }

  lemma {:induction false} PrependDraw<T>(a: seq<T>, p: seq<T>, j: nat, rest: seq<nat>)
    requires |a| == |p| > 1 && j < |a| && p[|a| - 1] == a[j] && ValidDraws(rest, |a| - 1)
    requires Shuffled(Swapped(a, |a| - 1, j)[..|a| - 1], rest) == p[..|a| - 1]
    ensures ValidDraws([j] + rest, |a|) && Shuffled(a, [j] + rest) == p
  {
    assert ([j] + rest)[1..] == rest;
    assert p == p[..|a| - 1] + [p[|a| - 1]];
  }

  lemma AtMostOne<T>(a: seq<T>, p: seq<T>)
    requires |a| <= 1 && multiset(p) == multiset(a)
    ensures p == a
  {
    assert |p| == |multiset(p)| == |multiset(a)| == |a|;
    if |a| == 1 {
      assert p[0] in multiset(a);
    }
  }

  /** The draw that puts p's last item last, and leaves an arrangement of the rest of p. */
  lemma LastDraw<T>(a: seq<T>, p: seq<T>) returns (j: nat)
    requires |a| > 1 && Distinct(a) && multiset(p) == multiset(a)
    ensures |p| == |a| && j < |a| && a[j] == p[|a| - 1]
    ensures var b := Swapped(a, |a| - 1, j);
      |b| == |a| && Distinct(b[..|a| - 1]) && multiset(b[..|a| - 1]) == multiset(p[..|a| - 1])
  {
    var m := |a| - 1;
    PermutationOfDistinct(a, p);
    assert p[m] in a;
    j :| 0 <= j < |a| && a[j] == p[m];
    var b := Swapped(a, m, j);
    SwapPermutes(a, m, j);
    PermutationOfDistinct(a, b);
    SplitLast(b);
    SplitLast(p);
    CancelOne(multiset(b[..m]), multiset(p[..m]), p[m]);
  }

  /** Every arrangement is reached. */
  lemma {:induction false} DrawsExist<T>(a: seq<T>, p: seq<T>) returns (draws: seq<nat>)
    requires Distinct(a) && multiset(p) == multiset(a)
    ensures ValidDraws(draws, |a|) && Shuffled(a, draws) == p
    decreases |a|
  {
    if |a| <= 1 {
      AtMostOne(a, p);
      draws := [];
    } else {
      var m := |a| - 1;
      var j := LastDraw(a, p);
      var rest := DrawsExist(Swapped(a, m, j)[..m], p[..m]);
      draws := [j] + rest;
      PrependDraw(a, p, j, rest);
    }
  }

  /** The arrangements of distinct items and the valid draw sequences correspond one to one. */
  lemma {:induction false} ShuffleIsBijective<T>(a: seq<T>, p: seq<T>)
    requires Distinct(a)
    ensures multiset(p) == multiset(a) <==> exists draws :: ValidDraws(draws, |a|) && Shuffled(a, draws) == p
    ensures forall d, d' :: ValidDraws(d, |a|) && ValidDraws(d', |a|) && Shuffled(a, d) == p == Shuffled(a, d') ==>
      d == d'
  {
    if multiset(p) == multiset(a) {
      var draws := DrawsExist(a, p);
    }
    forall draws | ValidDraws(draws, |a|) && Shuffled(a, draws) == p
      ensures multiset(p) == multiset(a)
    {
      ShufflePermutes(a, draws);
    }
    forall d, d' | ValidDraws(d, |a|) && ValidDraws(d', |a|) && Shuffled(a, d) == p == Shuffled(a, d')
      ensures d == d'
    {
      DrawsAreDetermined(a, d, d');
    }
  }
}
