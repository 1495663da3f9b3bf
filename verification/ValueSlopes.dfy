/** Piecewise-linear concave values of having drivers in a region, and the level-clearing update of their slopes. */
module ValueSlopes {
  import opened Wrappers
  import opened RealProducts
  import opened RealSums

  type Slopes = seq<real>

  datatype SlopesError = NotConcave(index: nat)

  const TOLERANCE := 0.000000001

  ghost predicate NonIncreasing(s: Slopes) {
    forall i, j :: 0 <= i <= j < |s| ==> s[i] >= s[j]
  }

  datatype RegionSlopes = RegionSlopes(regionID: string, slopes: Slopes) {

    /** Value of one more driver when there are already resourceLevel; the last slope continues for ever. */
    function MarginalValue(resourceLevel: int): real {
      if |slopes| == 0 then 0.0
      else if resourceLevel < 0 then slopes[0]
      else if resourceLevel >= |slopes| then slopes[|slopes| - 1]
      else slopes[resourceLevel]
    }

    /** Value of having resourceCount drivers, as a sum. */
    ghost function Value(resourceCount: int): real
      decreases resourceCount
    {
      if resourceCount <= 0 then 0.0 else Value(resourceCount - 1) + MarginalValue(resourceCount - 1)
    }

    lemma {:induction false} NothingKnown(resourceCount: int)
      requires slopes == []
      ensures Value(resourceCount) == 0.0
      decreases resourceCount
    {
      if resourceCount > 0 {
        NothingKnown(resourceCount - 1);
      }
    }

    method TotalValue(resourceCount: int) returns (sum: real)
      ensures sum == Value(resourceCount)
    {
      if resourceCount <= 0 || |slopes| == 0 {
        if |slopes| == 0 {
          NothingKnown(resourceCount);
        }
        return 0.0;
      }
      sum := 0.0;
      var i := 0;
      while i < resourceCount
        invariant 0 <= i <= resourceCount
        invariant sum == Value(i)
      {
        sum := sum + MarginalValue(i);
        i := i + 1;
      }
    }

    /** The value of count drivers is the sum of the slopes of the first count levels, the last one repeated beyond the
        known ones, and zero where nothing is known. */
    lemma {:induction false} ValueAddsSlopes(count: nat, terms: seq<real>)
      requires |terms| >= count
      requires forall i :: 0 <= i < count ==>
        (terms[i] == if |slopes| == 0 then 0.0 else if i < |slopes| then slopes[i] else slopes[|slopes| - 1])
      ensures Value(count) == SumTo(terms, count)
    {
      if count > 0 {
        ValueAddsSlopes(count - 1, terms);
      }
    }

    /** Diminishing returns: every further driver adds no more than the one before. */
    ghost predicate Concave() {
      forall r :: r >= 0 ==> Value(r + 2) - Value(r + 1) <= Value(r + 1) - Value(r)
    }

    /** The value is concave exactly when the slopes do not increase. */
    lemma ConcaveIffNonIncreasing()
      ensures Concave() <==> NonIncreasing(slopes)
    {
      if NonIncreasing(slopes) {
        forall r | r >= 0
          ensures Value(r + 2) - Value(r + 1) <= Value(r + 1) - Value(r)
        {
          assert MarginalValue(r + 1) <= MarginalValue(r);
        }
      }
      if Concave() {
        forall i | 0 <= i < |slopes| - 1
          ensures slopes[i + 1] <= slopes[i]
        {
          assert Value(i + 2) - Value(i + 1) <= Value(i + 1) - Value(i);
        }
        AdjacentSuffices(slopes);
      }
    }
  }

  lemma AdjacentSuffices(s: Slopes)
    requires forall i :: 0 <= i < |s| - 1 ==> s[i + 1] <= s[i]
    ensures NonIncreasing(s)
  {
    forall i, j | 0 <= i <= j < |s|
      ensures s[i] >= s[j]
    {
      Chain(s, i, j);
    }
  }

  lemma {:induction false} Chain(s: Slopes, i: nat, j: nat)
    requires (forall k :: 0 <= k < |s| - 1 ==> s[k + 1] <= s[k]) && i <= j < |s|
    ensures s[i] >= s[j]
  {
    if i < j {
      Chain(s, i, j - 1);
      assert s[(j - 1) + 1] <= s[j - 1];
    }
  }

  /** Accepts slopes that rise by at most the tolerance from one level to the next. */
  method NewRegionSlopes(regionID: string, slopes: Slopes) returns (r: Result<RegionSlopes, SlopesError>)
    ensures r.Ok? <==> forall i :: 0 < i < |slopes| ==> slopes[i] <= slopes[i - 1] + 0.000000001
    ensures r.Ok? ==> r.value == RegionSlopes(regionID, slopes)
    ensures r.Err? ==>
      && 0 < r.error.index < |slopes| && slopes[r.error.index] > slopes[r.error.index - 1] + 0.000000001
      && forall i :: 0 < i < r.error.index ==> slopes[i] <= slopes[i - 1] + 0.000000001
    ensures NonIncreasing(slopes) ==> r.Ok?
  {
    var i := 1;
    while i < |slopes|
      invariant 1 <= i
      invariant forall k :: 0 < k < i && k < |slopes| ==> slopes[k] <= slopes[k - 1] + TOLERANCE
    {
      if slopes[i] > slopes[i - 1] + TOLERANCE {
        return Err(NotConcave(i));
      }
      i := i + 1;
    }
    return Ok(RegionSlopes(regionID, slopes));
  }

  // ---- The slopes an update starts from ----

  /** 0.9^i */
  function Decay(i: nat): real {
    if i == 0 then 1.0 else 0.9 * Decay(i - 1)
  }

  function Fresh(dual: real, n: nat): (s: Slopes)
    ensures |s| == n && forall i :: 0 <= i < n ==> s[i] == dual * Decay(i)
  {
    seq(n, i requires 0 <= i < n => dual * Decay(i))
  }

  /** s extended to n levels, each new one 0.9 of the one before. */
  function Padded(s: Slopes, n: nat): (p: Slopes)
    requires |s| > 0
    ensures |p| == (if |s| < n then n else |s|) && s <= p
    decreases n - |s|
  {
    if |s| >= n then s else Padded(s + [0.9 * s[|s| - 1]], n)
  }

  lemma FreshReads(dual: real, n: nat, i: nat)
    requires i < n
    ensures Fresh(dual, n)[i] == if i == 0 then dual else 0.9 * Fresh(dual, n)[i - 1]
  {
    if i > 0 {
      assert dual * (0.9 * Decay(i - 1)) == 0.9 * (dual * Decay(i - 1));
    }
  }

  lemma {:induction false} PaddedReads(s: Slopes, n: nat, i: nat)
    requires 0 < |s| <= i < |Padded(s, n)|
    ensures Padded(s, n)[i] == 0.9 * Padded(s, n)[i - 1]
    decreases n - |s|
  {
    var t := s + [0.9 * s[|s| - 1]];
    if i > |s| {
      PaddedReads(t, n, i);
    } else {
      assert Padded(s, n)[|s|] == t[|s|] && Padded(s, n)[|s| - 1] == t[|s| - 1];
    }
  }

  /** Padding keeps the slopes from rising exactly when there is nothing to pad or the last slope is not negative. */
  lemma {:induction false} PaddedNonIncreasing(s: Slopes, n: nat)
    requires |s| > 0
    ensures NonIncreasing(Padded(s, n)) <==> NonIncreasing(s) && (|s| >= n || s[|s| - 1] >= 0.0)
    decreases n - |s|
  {
    if |s| < n {
      var last := s[|s| - 1];
      var t := s + [0.9 * last];
      PaddedNonIncreasing(t, n);
      assert t[|s| - 1] == last && t[|s|] == 0.9 * last;
      if NonIncreasing(t) {
        assert s[|s| - 1] >= t[|s|];
        forall i, j | 0 <= i <= j < |s|
          ensures s[i] >= s[j]
        {
          assert t[i] >= t[j];
        }
      }
    }
  }

  lemma {:induction false} DecayFalls(i: nat, j: nat)
    requires i <= j
    ensures Decay(i) >= Decay(j) > 0.0
  {
    if i < j {
      DecayFalls(i, j - 1);
    } else if j > 0 {
      DecayFalls(j - 1, j - 1);
    }
  }

  lemma {:induction false} DecayFallsStrictly(i: nat, j: nat)
    requires i < j
    ensures Decay(i) > Decay(j)
  {
    DecayFalls(i, j - 1);
    DecayFalls(j - 1, j - 1);
  }

  /** With a negative dual the fresh slopes rise at every level. */
  lemma NegativeRises(dual: real, i: nat, j: nat, n: nat)
    requires dual < 0.0 && i < j < n
    ensures Fresh(dual, n)[i] < Fresh(dual, n)[j]
  {
    DecayFallsStrictly(i, j);
    assert dual * (Decay(i) - Decay(j)) < 0.0;
  }

  /** A region first seen with a negative dual starts from rising slopes. */
  lemma FreshNonIncreasing(dual: real, n: nat)
    ensures NonIncreasing(Fresh(dual, n)) <==> n <= 1 || dual >= 0.0
  {
    if dual >= 0.0 {
      forall i, j | 0 <= i <= j < n
        ensures Fresh(dual, n)[i] >= Fresh(dual, n)[j]
      {
        DecayFalls(i, j);
        assert dual * (Decay(i) - Decay(j)) >= 0.0;
      }
    } else if n > 1 {
      var s := Fresh(dual, n);
      assert Decay(1) == 0.9 * Decay(0);
      assert s[0] == dual && s[1] == dual * Decay(1);
    }
  }

  // ---- Clearing ----

  /** Smallest of the slopes at levels k..j. */
  ghost function LowestFrom(s: Slopes, k: nat, j: nat): real
    requires k <= j < |s|
  {
    if j == k then s[k]
    else if s[j] > LowestFrom(s, k, j - 1) then LowestFrom(s, k, j - 1) else s[j]
  }

  /** Largest of the slopes at levels j..k. */
  ghost function HighestTo(s: Slopes, j: nat, k: nat): real
    requires j <= k < |s|
    decreases k - j
  {
    if j == k then s[k]
    else if s[j] < HighestTo(s, j + 1, k) then HighestTo(s, j + 1, k) else s[j]
  }

  /** The slopes with level k left alone, lowered to the right of it and raised to the left of it. */
  ghost function Cleared(s: Slopes, k: nat): (r: Slopes)
    requires k < |s|
    ensures |r| == |s|
    ensures forall j :: k <= j < |s| ==> r[j] == LowestFrom(s, k, j)
    ensures forall j :: 0 <= j < k ==> r[j] == HighestTo(s, j, k)
  {
    seq(|s|, j requires 0 <= j < |s| => if j >= k then LowestFrom(s, k, j) else HighestTo(s, j, k))
  }

  /** Clearing, neighbour by neighbour: away from level k each slope is the one before it or its own, whichever keeps
      the slopes from rising. */
  lemma ClearedReads(s: Slopes, k: nat, j: nat)
    requires k < |s| && j < |s|
    ensures var r := Cleared(s, k);
      && (j == k ==> r[j] == s[j])
      && (j > k ==> r[j] == if s[j] > r[j - 1] then r[j - 1] else s[j])
      && (j < k ==> r[j] == if s[j] < r[j + 1] then r[j + 1] else s[j])
  {
    var r := Cleared(s, k);
    assert r[k] == LowestFrom(s, k, k) == s[k] == HighestTo(s, k, k);
    assert j < k ==> r[j] == HighestTo(s, j, k) && r[j + 1] == HighestTo(s, j + 1, k);
  }

  /** Clearing restores concavity from any slopes at all. */
  lemma ClearedNonIncreasing(s: Slopes, k: nat)
    requires k < |s|
    ensures NonIncreasing(Cleared(s, k)) && Cleared(s, k)[k] == s[k]
  {
    var r := Cleared(s, k);
    forall j | 0 <= j < |s| - 1
      ensures r[j + 1] <= r[j]
    {
      if j + 1 < k {
        assert r[j] == HighestTo(s, j, k) && r[j + 1] == HighestTo(s, j + 1, k);
      } else if j + 1 == k {
        assert r[j] == HighestTo(s, j, k) && r[k] == LowestFrom(s, k, k) == HighestTo(s, k, k);
      } else {
        assert r[j] == LowestFrom(s, k, j) && r[j + 1] == LowestFrom(s, k, j + 1);
      }
    }
    AdjacentSuffices(r);
  }

  lemma {:induction false} LowestIsGreatest(s: Slopes, k: nat, w: Slopes, j: nat)
    requires k <= j < |s| == |w| && NonIncreasing(w) && w[k] == s[k] && forall i :: k < i <= j ==> w[i] <= s[i]
    ensures w[j] <= LowestFrom(s, k, j) <= s[j]
  {
    if j > k {
      LowestIsGreatest(s, k, w, j - 1);
      assert w[j - 1] >= w[j];
    }
  }

  lemma {:induction false} HighestIsLeast(s: Slopes, k: nat, w: Slopes, j: nat)
    requires j <= k < |s| == |w| && NonIncreasing(w) && w[k] == s[k] && forall i :: j <= i < k ==> w[i] >= s[i]
    ensures w[j] >= HighestTo(s, j, k) >= s[j]
    decreases k - j
  {
    if j < k {
      HighestIsLeast(s, k, w, j + 1);
      assert w[j] >= w[j + 1];
    }
  }

  /** From any slopes: right of the level clearing is the highest concave continuation below s, left of it the lowest
      concave one above s. */
  lemma ClearedIsExtremal(s: Slopes, k: nat, w: Slopes)
    requires k < |s| == |w| && NonIncreasing(w) && w[k] == s[k]
    ensures (forall i :: k < i < |s| ==> w[i] <= s[i]) ==> forall i :: k <= i < |s| ==> w[i] <= Cleared(s, k)[i]
    ensures (forall i :: 0 <= i < k ==> w[i] >= s[i]) ==> forall i :: 0 <= i <= k ==> w[i] >= Cleared(s, k)[i]
  {
    if forall i :: k < i < |s| ==> w[i] <= s[i] {
      forall i | k <= i < |s|
        ensures w[i] <= Cleared(s, k)[i]
      {
        LowestIsGreatest(s, k, w, i);
      }
    }
    if forall i :: 0 <= i < k ==> w[i] >= s[i] {
      forall i | 0 <= i <= k
        ensures w[i] >= Cleared(s, k)[i]
      {
        HighestIsLeast(s, k, w, i);
      }
    }
  }

  /** r is at least as close to v as w is, at every level. */
  ghost predicate NoFarther(r: Slopes, w: Slopes, v: Slopes)
    requires |r| == |w| == |v|
  {
    forall j :: 0 <= j < |v| ==> Abs(r[j] - v[j]) <= Abs(w[j] - v[j])
  }

  ghost predicate ConcaveThrough(w: Slopes, n: nat, k: nat, x: real) {
    |w| == n && k < n && NonIncreasing(w) && w[k] == x
  }

  /** r does not increase, and no sequence with that property and the same value at level k is closer to v anywhere. */
  ghost predicate Closest(r: Slopes, v: Slopes, k: nat)
    requires k < |r| == |v|
  {
    && NonIncreasing(r)
    && forall w: Slopes {:trigger NoFarther(r, w, v)} :: ConcaveThrough(w, |v|, k, r[k]) ==> NoFarther(r, w, v)
  }

  /** No slope right of level k rises from below s[k], and none left of it rises to above s[k]. */
  ghost predicate NoRiseAcross(s: Slopes, k: nat)
    requires k < |s|
  {
    && (forall i, j :: k < i < j < |s| ==> s[i] >= s[j] || s[i] >= s[k])
    && (forall i, j :: 0 <= i < j < k ==> s[i] >= s[j] || s[j] <= s[k])
  }

  lemma {:induction false} LowestWithoutRise(s: Slopes, k: nat, j: nat)
    requires k <= j < |s| && NoRiseAcross(s, k)
    ensures LowestFrom(s, k, j) == if s[k] < s[j] then s[k] else s[j]
  {
    if j > k {
      LowestWithoutRise(s, k, j - 1);
    }
  }

  lemma {:induction false} HighestWithoutRise(s: Slopes, k: nat, j: nat)
    requires j <= k < |s| && NoRiseAcross(s, k)
    ensures HighestTo(s, j, k) == if s[k] > s[j] then s[k] else s[j]
    decreases k - j
  {
    if j < k {
      HighestWithoutRise(s, k, j + 1);
    }
  }

  lemma {:induction false} LowestBelow(s: Slopes, k: nat, i: nat, j: nat)
    requires k <= i <= j < |s|
    ensures LowestFrom(s, k, j) <= s[i]
  {
    if i < j {
      LowestBelow(s, k, i, j - 1);
    }
  }

  lemma {:induction false} HighestAbove(s: Slopes, i: nat, j: nat, k: nat)
    requires i <= j <= k < |s|
    ensures HighestTo(s, i, k) >= s[j]
    decreases k - i
  {
    if i < j {
      HighestAbove(s, i + 1, j, k);
    }
  }

  /** s[k] everywhere, except that level j keeps as much of its distance as a sequence constant on either side can. */
  ghost function Tail(s: Slopes, k: nat, j: nat): (w: Slopes)
    requires k < |s| && j < |s|
    ensures ConcaveThrough(w, |s|, k, s[k])
    ensures j > k ==> w[j] == if s[k] < s[j] then s[k] else s[j]
    ensures j < k ==> w[j] == if s[k] > s[j] then s[k] else s[j]
  {
    var y := if j > k then (if s[k] < s[j] then s[k] else s[j]) else if s[k] > s[j] then s[k] else s[j];
    seq(|s|, i => if (j > k && i > k) || (j < k && i < k) then y else s[k])
  }

  /** When the slopes v had level k moved to x, clearing yields the closest concave sequence through x exactly when no
      rise among the other slopes crosses x. */
  lemma ClearedIsClosestIff(v: Slopes, k: nat, x: real)
    requires k < |v|
    ensures Closest(Cleared(v[k := x], k), v, k) <==> NoRiseAcross(v[k := x], k)
  {
    var s := v[k := x];
    var r := Cleared(s, k);
    ClearedNonIncreasing(s, k);
    if NoRiseAcross(s, k) {
      forall w: Slopes | ConcaveThrough(w, |v|, k, r[k])
        ensures NoFarther(r, w, v)
      {
        NoRiseIsClosest(v, k, x, w);
      }
    } else if i, j :| k < i < j < |s| && s[i] < s[j] && s[i] < x {
      LowestBelow(s, k, i, j);
      assert !NoFarther(r, Tail(s, k, j), v);
    } else {
      var i, j :| 0 <= i < j < k && s[i] < s[j] && s[j] > x;
      HighestAbove(s, i, j, k);
      assert !NoFarther(r, Tail(s, k, i), v);
    }
  }

  lemma NoRiseIsClosest(v: Slopes, k: nat, x: real, w: Slopes)
    requires k < |v| && NoRiseAcross(v[k := x], k) && ConcaveThrough(w, |v|, k, x)
    ensures NoFarther(Cleared(v[k := x], k), w, v)
  {
    var s := v[k := x];
    forall j | 0 <= j < |v|
      ensures Abs(Cleared(s, k)[j] - v[j]) <= Abs(w[j] - v[j])
    {
      if j >= k {
        LowestWithoutRise(s, k, j);
        assert w[k] >= w[j];
      } else {
        HighestWithoutRise(s, k, j);
        assert w[j] >= w[k];
      }
    }
  }

  /** In particular when the slopes were concave before the level was moved. */
  lemma ClearedIsClosest(v: Slopes, k: nat, x: real)
    requires k < |v| && NonIncreasing(v)
    ensures Closest(Cleared(v[k := x], k), v, k)
  {
    ClearedIsClosestIff(v, k, x);
  }

  // ---- The sweeps, in place ----

  method SweepRight(a: array<real>, k: nat)
    requires k < a.Length
    modifies a
    ensures forall j :: 0 <= j < k ==> a[j] == old(a[j])
    ensures forall j :: k <= j < a.Length ==> a[j] == LowestFrom(old(a[..]), k, j)
  {
    ghost var s := a[..];
    var j := k + 1;
    while j < a.Length
      invariant k < j <= a.Length
      invariant forall i :: 0 <= i < k || j <= i < a.Length ==> a[i] == s[i]
      invariant forall i :: k <= i < j ==> a[i] == LowestFrom(s, k, i)
    {
      if a[j] > a[j - 1] {
        a[j] := a[j - 1];
      }
      j := j + 1;
    }
  }

  method SweepLeft(a: array<real>, k: nat)
    requires k < a.Length
    modifies a
    ensures forall j :: k < j < a.Length ==> a[j] == old(a[j])
    ensures forall j :: 0 <= j <= k ==> a[j] == HighestTo(old(a[..]), j, k)
  {
    ghost var s := a[..];
    var j := k - 1;
    while j >= 0
      invariant -1 <= j < k
      invariant forall i :: 0 <= i <= j || k < i < a.Length ==> a[i] == s[i]
      invariant forall i :: j < i <= k ==> a[i] == HighestTo(s, i, k)
    {
      if a[j] < a[j + 1] {
        a[j] := a[j + 1];
      }
      j := j - 1;
    }
  }

  lemma {:induction false} HighestSame(s: Slopes, t: Slopes, j: nat, k: nat)
    requires j <= k < |s| == |t| && forall i :: 0 <= i <= k ==> s[i] == t[i]
    ensures HighestTo(s, j, k) == HighestTo(t, j, k)
    decreases k - j
  {
    if j < k {
      HighestSame(s, t, j + 1, k);
    }
  }

  method Clear(a: array<real>, k: nat)
    requires k < a.Length
    modifies a
    ensures a[..] == Cleared(old(a[..]), k)
  {
    ghost var s := a[..];
    SweepRight(a, k);
    ghost var t := a[..];
    SweepLeft(a, k);
    forall j | 0 <= j <= k
      ensures HighestTo(t, j, k) == HighestTo(s, j, k)
    {
      HighestSame(s, t, j, k);
    }
  }
}
