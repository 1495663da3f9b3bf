/** What the library sort promises: a rearrangement with no element placed before a smaller one. */
module Sorting {
  import opened Pigeonhole

  /** less is a strict weak order, as `sort.Slice` demands of its comparison. */
  ghost predicate StrictWeakOrder<T(!new)>(less: (T, T) -> bool) {
    && (forall x, y :: less(x, y) ==> !less(y, x))
    && (forall x, y, z :: less(x, z) ==> less(x, y) || less(y, z))
  }

  ghost predicate Sorted<T>(s: seq<T>, less: (T, T) -> bool) {
    forall i, j :: 0 <= i < j < |s| ==> !less(s[j], s[i])
  }

  /** Position of x among the sorted elements of s: after everything that is not greater. */
  function InsertionPoint<T>(s: seq<T>, x: T, less: (T, T) -> bool): (k: nat)
    ensures k <= |s|
    ensures k < |s| ==> less(x, s[k])
    ensures k > 0 ==> !less(x, s[k - 1])
  {
    if s == [] then 0
    else if less(x, s[|s| - 1]) then InsertionPoint(s[..|s| - 1], x, less)
    else |s|
  }

  function Insert<T>(s: seq<T>, x: T, k: nat): seq<T>
    requires k <= |s|
  {
    s[..k] + [x] + s[k..]
  }

  lemma {:induction false} InsertSorted<T(!new)>(s: seq<T>, x: T, less: (T, T) -> bool)
    requires StrictWeakOrder(less) && Sorted(s, less)
    ensures Sorted(Insert(s, x, InsertionPoint(s, x, less)), less)
  {
    var k := InsertionPoint(s, x, less);
    var r := Insert(s, x, k);
    forall i, j | 0 <= i < j < |r|
      ensures !less(r[j], r[i])
    {
      if j == k && i < k - 1 {
        assert !less(s[k - 1], s[i]);
      } else if i == k && j > k + 1 {
        assert !less(s[j - 1], s[k]);
      }
    }
  }

  lemma InsertMultiset<T>(s: seq<T>, x: T, k: nat)
    requires k <= |s|
    ensures multiset(Insert(s, x, k)) == multiset(s) + multiset{x}
  {
    assert s == s[..k] + s[k..];
  }

  lemma {:induction false} InsertNext<T(!new)>(r: seq<T>, s: seq<T>, i: nat, less: (T, T) -> bool)
    requires StrictWeakOrder(less) && i < |s| && Sorted(r, less) && multiset(r) == multiset(s[..i])
    ensures var next := Insert(r, s[i], InsertionPoint(r, s[i], less));
      Sorted(next, less) && multiset(next) == multiset(s[..i + 1])
  {
    InsertSorted(r, s[i], less);
    InsertMultiset(r, s[i], InsertionPoint(r, s[i], less));
    assert s[..i + 1] == s[..i] + [s[i]];
  }

  method Sort<T(!new)>(s: seq<T>, less: (T, T) -> bool) returns (r: seq<T>)
    requires StrictWeakOrder(less)
    ensures Sorted(r, less) && multiset(r) == multiset(s)
  {
    r := [];
    var i := 0;
    while i < |s|
      invariant 0 <= i <= |s|
      invariant Sorted(r, less) && multiset(r) == multiset(s[..i])
    {
      InsertNext(r, s, i, less);
      r := Insert(r, s[i], InsertionPoint(r, s[i], less));
      i := i + 1;
    }
    assert s[..|s|] == s;
  }

  // ---- Sorting by a total order leaves no choice ----

  ghost predicate Decides<T(!new)>(less: (T, T) -> bool) {
    forall x, y :: less(x, y) || less(y, x) || x == y
  }

  lemma {:induction false} SortedIsUnique<T(!new)>(a: seq<T>, b: seq<T>, less: (T, T) -> bool)
    requires StrictWeakOrder(less) && Decides(less)
    requires Sorted(a, less) && Sorted(b, less) && multiset(a) == multiset(b)
    ensures a == b
  {
    assert |a| == |multiset(a)| == |multiset(b)| == |b|;
    if a != [] {
      SameFirst(a, b, less);
      assert a == [a[0]] + a[1..] && b == [b[0]] + b[1..];
      SameRest(a, b);
      SortedIsUnique(a[1..], b[1..], less);
    }
  }

  lemma SameFirst<T(!new)>(a: seq<T>, b: seq<T>, less: (T, T) -> bool)
    requires Decides(less) && Sorted(a, less) && Sorted(b, less) && multiset(a) == multiset(b) && |a| > 0 && |b| > 0
    ensures a[0] == b[0]
  {
    assert a[0] in multiset(b) && b[0] in multiset(a);
    var i :| 0 <= i < |b| && b[i] == a[0];
    var j :| 0 <= j < |a| && a[j] == b[0];
  }

  lemma SameRest<T>(a: seq<T>, b: seq<T>)
    requires |a| > 0 && |b| > 0 && a[0] == b[0] && multiset(a) == multiset(b)
    ensures multiset(a[1..]) == multiset(b[1..])
  {
    assert a == [a[0]] + a[1..] && b == [b[0]] + b[1..];
    assert multiset(a[1..]) == multiset(a) - multiset{a[0]};
    assert multiset(b[1..]) == multiset(b) - multiset{b[0]};
  }

  function MapSeq<T, U>(s: seq<T>, f: T -> U): (r: seq<U>)
    ensures |r| == |s| && forall i :: 0 <= i < |s| ==> r[i] == f(s[i])
  {
    seq(|s|, i requires 0 <= i < |s| => f(s[i]))
  }

  function Without<T>(t: seq<T>, i: nat): seq<T>
    requires i < |t|
  {
    t[..i] + t[i + 1..]
  }

  lemma TakeOut<T>(t: seq<T>, i: nat)
    requires i < |t|
    ensures multiset(t) == multiset(Without(t, i)) + multiset{t[i]}
  {
    assert t == t[..i] + [t[i]] + t[i + 1..];
  }

  lemma CancelOne<T>(a: multiset<T>, b: multiset<T>, x: T)
    requires a + multiset{x} == b + multiset{x}
    ensures a == b
  {
    assert a == a + multiset{x} - multiset{x} && b == b + multiset{x} - multiset{x};
  }

  lemma MapTakeOut<T, U>(t: seq<T>, i: nat, f: T -> U)
    requires i < |t|
    ensures multiset(MapSeq(t, f)) == multiset(MapSeq(Without(t, i), f)) + multiset{f(t[i])}
  {
    var m := MapSeq(t, f);
    TakeOut(m, i);
    assert MapSeq(Without(t, i), f) == Without(m, i);
  }

  lemma {:induction false} MapKeepsMultiset<T, U>(s: seq<T>, t: seq<T>, f: T -> U)
    requires multiset(s) == multiset(t)
    ensures multiset(MapSeq(s, f)) == multiset(MapSeq(t, f))
    decreases |s|
  {
    if s == [] {
      assert |multiset(t)| == 0;
    } else {
      assert s[0] in multiset(t);
      var i :| 0 <= i < |t| && t[i] == s[0];
      TakeOut(s, 0);
      TakeOut(t, i);
      CancelOne(multiset(Without(s, 0)), multiset(Without(t, i)), s[0]);
      MapKeepsMultiset(Without(s, 0), Without(t, i), f);
      MapTakeOut(s, 0, f);
      MapTakeOut(t, i, f);
    }
  }

  /** Two sorted arrangements of the same elements agree, position by position, on everything the order looks at. */
  lemma SortedKeysAgree<T, K(!new)>(a: seq<T>, b: seq<T>, key: T -> K, less: (K, K) -> bool)
    requires multiset(a) == multiset(b) && StrictWeakOrder(less) && Decides(less)
    requires Sorted(MapSeq(a, key), less) && Sorted(MapSeq(b, key), less)
    ensures MapSeq(a, key) == MapSeq(b, key)
  {
    MapKeepsMultiset(a, b, key);
    SortedIsUnique(MapSeq(a, key), MapSeq(b, key), less);
  }

  // ---- Identifiers ----

  /** Lexicographic order of identifiers. */
  predicate IdLess(a: string, b: string) {
    b != [] && (a == [] || a[0] < b[0] || (a[0] == b[0] && IdLess(a[1..], b[1..])))
  }

  /** The first place where two identifiers differ decides, or the shorter one is a proper prefix. */
  lemma {:induction false} IdLessIff(a: string, b: string)
    ensures IdLess(a, b) <==> exists k ::
      0 <= k <= |a| && k < |b| && a[..k] == b[..k] && (k < |a| ==> a[k] < b[k])
  {
    if a != [] && b != [] && a[0] == b[0] {
      IdLessIff(a[1..], b[1..]);
      if IdLess(a[1..], b[1..]) {
        var k :| 0 <= k <= |a| - 1 && k < |b| - 1 && a[1..][..k] == b[1..][..k]
               && (k < |a| - 1 ==> a[1..][k] < b[1..][k]);
        assert a[..k + 1] == [a[0]] + a[1..][..k] && b[..k + 1] == [b[0]] + b[1..][..k];
      }
      if k :| 0 <= k <= |a| && k < |b| && a[..k] == b[..k] && (k < |a| ==> a[k] < b[k]) {
        assert k > 0;
        assert a[1..][..k - 1] == a[..k][1..] == b[..k][1..] == b[1..][..k - 1];
        assert IdLess(a[1..], b[1..]);
      }
    } else if a == [] && b != [] {
      assert a[..0] == b[..0];
    } else if b != [] {
      assert a[..0] == b[..0];
      assert forall k :: 0 < k <= |a| && k < |b| && a[..k] == b[..k] ==> a[..k][0] == a[0] && b[..k][0] == b[0];
    }
  }

  lemma {:induction false} IdNotBelowItself(a: string)
    ensures !IdLess(a, a)
  {
    if a != [] {
      IdNotBelowItself(a[1..]);
    }
  }

  lemma {:induction false} IdTotal(a: string, b: string)
    ensures IdLess(a, b) || IdLess(b, a) || a == b
  {
    if a != [] && b != [] && a[0] == b[0] {
      IdTotal(a[1..], b[1..]);
      assert a == [a[0]] + a[1..] && b == [b[0]] + b[1..];
    }
  }

  lemma {:induction false} IdTransitive(a: string, b: string, c: string)
    ensures IdLess(a, b) && IdLess(b, c) ==> IdLess(a, c)
  {
    if a != [] && b != [] && c != [] {
      IdTransitive(a[1..], b[1..], c[1..]);
    }
  }

  lemma {:induction false} IdWeak(a: string, b: string, c: string)
    ensures IdLess(a, c) ==> IdLess(a, b) || IdLess(b, c)
  {
    IdTotal(a, b);
    if b != a && IdLess(b, a) {
      IdTransitive(b, a, c);
    }
  }

  lemma IdOrder()
    ensures StrictWeakOrder(IdLess)
    ensures forall x, y :: IdLess(x, y) || IdLess(y, x) || x == y
  {
    forall x, y
      ensures IdLess(x, y) ==> !IdLess(y, x)
      ensures IdLess(x, y) || IdLess(y, x) || x == y
    {
      IdTransitive(x, y, x);
      IdNotBelowItself(x);
      IdTotal(x, y);
    }
    forall x, y, z
      ensures IdLess(x, z) ==> IdLess(x, y) || IdLess(y, z)
    {
      IdWeak(x, y, z);
    }
  }

  /** The keys of a set in increasing order, as `sort.Strings` leaves them. */
  method SortedIds(ids: set<string>) returns (r: seq<string>)
    ensures Distinct(r) && Sorted(r, IdLess)
    ensures forall id :: id in r <==> id in ids
  {
    var listed: seq<string> := [];
    var left := ids;
    while left != {}
      invariant left <= ids && Distinct(listed)
      invariant forall id :: id in listed <==> id in ids - left
      decreases left
    {
      var id :| id in left;
      assert id !in listed;
      listed := listed + [id];
      left := left - {id};
    }
    IdOrder();
    r := Sort(listed, IdLess);
    PermutationKeepsElements(r, listed);
  }

  lemma PermutationKeepsElements<T>(r: seq<T>, s: seq<T>)
    requires multiset(r) == multiset(s)
    ensures |r| == |s|
    ensures forall x :: x in r <==> x in s
    ensures Distinct(s) ==> Distinct(r)
  {
    assert |multiset(r)| == |multiset(s)|;
    forall x
      ensures x in r <==> x in s
    {
      assert x in r <==> x in multiset(r);
      assert x in s <==> x in multiset(s);
    }
    if Distinct(s) {
      DistinctMeansOnce(s);
      forall i, j | 0 <= i < j < |r|
        ensures r[i] != r[j]
      {
        if r[i] == r[j] {
          TwiceMeansTwo(r, i, j);
        }
      }
    }
  }

  lemma {:induction false} DistinctMeansOnce<T>(s: seq<T>)
    requires Distinct(s)
    ensures forall x :: multiset(s)[x] <= 1
  {
    if s != [] {
      var front := s[..|s| - 1];
      DistinctMeansOnce(front);
      assert s == front + [s[|s| - 1]];
      assert s[|s| - 1] !in front;
      assert s[|s| - 1] !in multiset(front);
    }
  }

  lemma TwiceMeansTwo<T>(s: seq<T>, i: nat, j: nat)
    requires i < j < |s| && s[i] == s[j]
    ensures multiset(s)[s[i]] >= 2
  {
    assert s == s[..j] + [s[j]] + s[j + 1..];
    assert s[i] in s[..j];
    assert s[i] in multiset(s[..j]);
  }
}
