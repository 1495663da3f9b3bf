/** Finite sums of reals, indexed by how many leading terms they take. */
module RealSums {
  import opened Sorting

  function SumTo(x: seq<real>, k: nat): real
    requires k <= |x|
  {
    if k == 0 then 0.0 else SumTo(x, k - 1) + x[k - 1]
  }

  function Sum(x: seq<real>): real {
    SumTo(x, |x|)
  }

  lemma {:induction false} SumToPrefix(x: seq<real>, y: seq<real>, k: nat)
    requires k <= |x| && k <= |y|
    requires forall i :: 0 <= i < k ==> x[i] == y[i]
    ensures SumTo(x, k) == SumTo(y, k)
  {
    if k > 0 {
      SumToPrefix(x, y, k - 1);
    }
  }

  lemma {:induction false} SumConcat(x: seq<real>, y: seq<real>)
    ensures Sum(x + y) == Sum(x) + Sum(y)
  {
    if y == [] {
      assert x + y == x;
    } else {
      var front := y[..|y| - 1];
      SumConcat(x, front);
      SumToPrefix(x + y, x + front, |x| + |front|);
      SumToPrefix(y, front, |front|);
    }
  }

  lemma {:induction false} SumToNonNegative(x: seq<real>, k: nat)
    requires k <= |x|
    requires forall i :: 0 <= i < k ==> x[i] >= 0.0
    ensures SumTo(x, k) >= 0.0
    ensures forall i :: 0 <= i < k ==> x[i] <= SumTo(x, k)
  {
    if k > 0 {
      SumToNonNegative(x, k - 1);
    }
  }

  lemma SumWithout(x: seq<real>, i: nat)
    requires i < |x|
    ensures Sum(x) == Sum(Without(x, i)) + x[i]
  {
    assert x == (x[..i] + [x[i]]) + x[i + 1..];
    SumConcat(x[..i] + [x[i]], x[i + 1..]);
    SumConcat(x[..i], [x[i]]);
    SumConcat(x[..i], x[i + 1..]);
    assert SumTo([x[i]], 1) == SumTo([x[i]], 0) + x[i];
  }

  /** The sum does not depend on the order of the terms. */
  lemma {:induction false} SumIgnoresOrder(x: seq<real>, y: seq<real>)
    requires multiset(x) == multiset(y)
    ensures Sum(x) == Sum(y)
    decreases |x|
  {
    if x == [] {
      assert |multiset(y)| == 0;
    } else {
      assert x[0] in multiset(y);
      var i :| 0 <= i < |y| && y[i] == x[0];
      TakeOut(x, 0);
      TakeOut(y, i);
      CancelOne(multiset(Without(x, 0)), multiset(Without(y, i)), x[0]);
      SumIgnoresOrder(Without(x, 0), Without(y, i));
      SumWithout(x, 0);
      SumWithout(y, i);
    }
  }

  /** n amounts of x each. */
  ghost function Times(n: nat, x: real): real {
    if n == 0 then 0.0 else Times(n - 1, x) + x
  }

  lemma {:induction false} TimesIsProduct(n: nat, x: real)
    ensures Times(n, x) == n as real * x
  {
    if n > 0 {
      TimesIsProduct(n - 1, x);
      var a := (n - 1) as real;
      assert n as real == a + 1.0;
      assert (a + 1.0) * x == a * x + x;
    }
  }

  lemma {:induction false} TimesMonotone(n: nat, k: nat, x: real, y: real)
    requires n <= k && 0.0 <= x <= y
    ensures 0.0 <= Times(n, x) <= Times(k, y)
  {
    if n > 0 {
      TimesMonotone(n - 1, k - 1, x, y);
    } else if k > 0 {
      TimesMonotone(n, k - 1, x, y);
    }
  }

  lemma {:induction false} TimesSum(n: nat, k: nat, x: real)
    ensures Times(n + k, x) == Times(n, x) + Times(k, x)
  {
    if k > 0 {
      TimesSum(n, k - 1, x);
    }
  }

  lemma {:induction false} TimesOfSum(n: nat, x: real, y: real)
    ensures Times(n, x + y) == Times(n, x) + Times(n, y)
  {
    if n > 0 {
      TimesOfSum(n - 1, x, y);
    }
  }
}
