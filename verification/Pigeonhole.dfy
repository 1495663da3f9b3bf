/** Counting distinct indices: n distinct numbers below k need n <= k, and fill 0..k-1 when n == k. */
module Pigeonhole {

  ghost predicate Distinct<T>(s: seq<T>) {
    forall i, j :: 0 <= i < j < |s| ==> s[i] != s[j]
  }

  ghost function Below(k: nat): (r: set<int>)
    ensures |r| == k
    ensures forall x :: x in r <==> 0 <= x < k
  {
    if k == 0 then {} else Below(k - 1) + {k - 1}
  }

  ghost function Elements<T>(s: seq<T>): set<T> {
    set x | x in s
  }

  lemma {:induction false} DistinctCard<T>(s: seq<T>)
    requires Distinct(s)
    ensures |Elements(s)| == |s|
  {
    if s != [] {
      var front := s[..|s| - 1];
      DistinctCard(front);
      assert s == front + [s[|s| - 1]];
      assert Elements(s) == Elements(front) + {s[|s| - 1]};
    }
  }

  lemma SubsetCard<T>(a: set<T>, b: set<T>)
    requires a <= b
    ensures |a| <= |b|
    ensures |a| == |b| ==> a == b
  {
    assert b == a + (b - a);
  }

  lemma AtMost(s: seq<int>, k: nat)
    requires Distinct(s) && forall i :: 0 <= i < |s| ==> 0 <= s[i] < k
    ensures |s| <= k
    ensures |s| == k ==> forall x :: 0 <= x < k ==> x in s
  {
    DistinctCard(s);
    SubsetCard(Elements(s), Below(k));
    forall x | |s| == k && 0 <= x < k
      ensures x in s
    {
      assert x in Below(k);
      assert x in Elements(s);
    }
  }
}
