/** The splittable generator object: its draws, its shuffle and its children. */
module Generator {
  import opened Pigeonhole
  import opened Rng
  import opened Shuffle
  import opened ChildSeeds

  const TWO_32 := 0x1_0000_0000
  const TWO_64 := 0x1_0000_0000_0000_0000

  type Half = h: nat | h < 0x1_0000_0000

  /** The upper half of a word. */
  function High(x: Word): Half {
    ((x >> 32) as bv32) as nat
  }

  /** Multiply-shift reduction in 64-bit arithmetic, wrap-around included. */
  function Reduced(high: Half, n: nat): nat {
    high * n % TWO_64 / TWO_32
  }

  /** Every bound yields an index below it, also where the product wraps. */
  lemma ReducedInRange(high: Half, n: nat)
    requires n > 0
    ensures Reduced(high, n) < n
  {
    if n < TWO_32 {
      ProductBound(high, TWO_32 - 1, n);
      assert high * n < TWO_64;
    } else {
      assert high * n % TWO_64 < TWO_64;
    }
  }

  lemma ProductBound(a: nat, b: nat, n: nat)
    requires a <= b
    ensures a * n <= b * n
  {
  }

  lemma NoWrap(high: Half, n: nat)
    requires n <= TWO_32
    ensures Reduced(high, n) == high * n / TWO_32
  {
    ProductBound(high, TWO_32 - 1, n);
  }

  /** For bounds up to 2^32 every index below the bound is drawn from some upper half. */
  lemma ReducedIsOnto(v: nat, n: nat) returns (half: Half)
    requires v < n <= TWO_32
    ensures Reduced(half, n) == v
  {
    var high := (v * TWO_32 + n - 1) / n;
    var r := v * TWO_32 + n - 1 - high * n;
    assert v * TWO_32 <= high * n <= v * TWO_32 + n - 1;
    if high >= TWO_32 {
      ProductBound(TWO_32, high, n);
    }
    half := high;
    NoWrap(half, n);
  }

  // ---- How even the draws are ----

  /** The least upper half that is drawn at v or above: v * 2^32 / n, rounded up. */
  function First(v: nat, n: nat): nat
    requires n > 0
  {
    (v * TWO_32 + n - 1) / n
  }

  lemma FirstBounds(v: nat, n: nat)
    requires n > 0
    ensures v * TWO_32 <= First(v, n) * n <= v * TWO_32 + n - 1
  {
    var f := First(v, n);
    var r := v * TWO_32 + n - 1 - f * n;
    assert 0 <= r < n;
  }

  lemma AtLeastFirst(half: nat, v: nat, n: nat)
    requires n > 0
    ensures half >= First(v, n) <==> half * n >= v * TWO_32
  {
    var f := First(v, n);
    FirstBounds(v, n);
    if half >= f {
      ProductBound(f, half, n);
    } else {
      ProductBound(half, f - 1, n);
      assert (f - 1) * n == f * n - n;
    }
  }

  /** Index v is drawn from one stretch of upper halves. */
  lemma DrawnFromStretch(half: Half, v: nat, n: nat)
    requires 0 < n <= TWO_32
    ensures Reduced(half, n) == v <==> First(v, n) <= half < First(v + 1, n)
  {
    NoWrap(half, n);
    AtLeastFirst(half, v, n);
    AtLeastFirst(half, v + 1, n);
  }

  /** The upper halves from which index v is drawn. */
  ghost function DrawnFrom(v: nat, n: nat): set<int> {
    set half | 0 <= half < TWO_32 && Reduced(half, n) == v
  }

  lemma StretchesMeet(v: nat, n: nat)
    requires n > 0
    ensures First(v, n) <= First(v + 1, n)
    ensures First(0, n) == 0 && First(n, n) == TWO_32
  {
    FirstBounds(v, n);
    AtLeastFirst(First(v + 1, n), v, n);
    FirstBounds(v + 1, n);
    AtLeastFirst(0, 0, n);
    AtLeastFirst(TWO_32, n, n);
    AtLeastFirst(TWO_32 - 1, n, n);
  }

  lemma {:induction false} FirstRises(v: nat, w: nat, n: nat)
    requires n > 0 && v <= w
    ensures First(v, n) <= First(w, n)
  {
    if v < w {
      FirstRises(v, w - 1, n);
      StretchesMeet(w - 1, n);
    }
  }

  lemma {:induction false} StretchCard(a: nat, b: nat)
    requires a <= b
    ensures |Below(b) - Below(a)| == b - a
  {
    assert Below(b) == Below(a) + (Below(b) - Below(a));
  }

  /** Out of 2^32, index v is drawn from as many upper halves as the stretch is long. */
  lemma DrawCount(v: nat, n: nat)
    requires v < n <= TWO_32
    ensures |DrawnFrom(v, n)| == First(v + 1, n) - First(v, n)
  {
    var a, b := First(v, n), First(v + 1, n);
    StretchesMeet(v, n);
    FirstRises(v + 1, n, n);
    forall half: int | 0 <= half < TWO_32
      ensures half in DrawnFrom(v, n) <==> a <= half < b
    {
      DrawnFromStretch(half, v, n);
    }
    assert DrawnFrom(v, n) == Below(b) - Below(a);
    StretchCard(a, b);
  }

  ghost predicate Even(n: nat) {
    forall v, w :: 0 <= v < n && 0 <= w < n ==> |DrawnFrom(v, n)| == |DrawnFrom(w, n)|
  }

  lemma {:induction false} EvenStretches(v: nat, n: nat)
    requires v <= n && 0 < n <= TWO_32 && Even(n)
    ensures First(v, n) == v * |DrawnFrom(0, n)|
  {
    StretchesMeet(0, n);
    if v > 0 {
      var c := |DrawnFrom(0, n)|;
      EvenStretches(v - 1, n);
      DrawCount(v - 1, n);
      assert |DrawnFrom(v - 1, n)| == c;
      assert (v - 1) * c + c == v * c;
    }
  }

  lemma FirstOfDivisor(v: nat, n: nat, q: nat)
    requires n > 0 && TWO_32 == n * q
    ensures First(v, n) == v * q
  {
    FirstBounds(v, n);
    assert v * TWO_32 == v * q * n;
    AtLeastFirst(v * q, v, n);
    if First(v, n) < v * q {
      ProductBound(First(v, n) + 1, v * q, n);
    }
  }

  /** All indices are drawn from equally many upper halves exactly when the bound divides 2^32. */
  lemma EvenIffDivides(n: nat)
    requires 0 < n <= TWO_32
    ensures Even(n) <==> TWO_32 % n == 0
  {
    if Even(n) {
      EvenStretches(n, n);
      StretchesMeet(0, n);
      assert TWO_32 == n * |DrawnFrom(0, n)|;
      DividesProduct(n, |DrawnFrom(0, n)|);
    }
    if TWO_32 % n == 0 {
      var q := TWO_32 / n;
      forall v | 0 <= v < n
        ensures |DrawnFrom(v, n)| == q
      {
        DrawCount(v, n);
        FirstOfDivisor(v, n, q);
        FirstOfDivisor(v + 1, n, q);
        assert (v + 1) * q == v * q + q;
      }
    }
  }

  lemma DividesProduct(n: nat, q: nat)
    requires n > 0
    ensures n * q % n == 0
  {
    var r := n * q % n;
    var d := n * q / n;
    assert n * q == n * d + r;
    assert r == n * (q - d);
    if q - d >= 1 {
      ProductBound(1, q - d, n);
    } else if q - d <= -1 {
      ProductBound(1, d - q, n);
    }
  }

  /** A bound of 3 is not even: index 0 is drawn once more often than the others. */
  lemma ThreeIsUneven()
    ensures |DrawnFrom(0, 3)| == |DrawnFrom(1, 3)| + 1 == |DrawnFrom(2, 3)| + 1
  {
    DrawCount(0, 3);
    DrawCount(1, 3);
    DrawCount(2, 3);
  }

  /** The upper halves of the first n outputs after a seed. */
  ghost function Halves(seed: Word, n: nat): (h: seq<Half>)
    ensures |h| == n
  {
    seq(n, k requires 0 <= k < n => High(Output(seed, k)))
  }

  /** The draws of a shuffle of m items that consumes the given halves. */
  ghost function Draws(halves: seq<Half>, m: nat): (draws: seq<nat>)
    requires m <= |halves| + 1
    ensures ValidDraws(draws, m)
    decreases m
  {
    if m <= 1 then []
    else
      ReducedInRange(halves[0], m);
      [Reduced(halves[0], m)] + Draws(halves[1..], m - 1)
  }

  /** Exchanging places m - 1 down to 1, one half for each, leads from s to goal. */
  ghost predicate Pending(s: seq<nat>, halves: seq<Half>, m: nat, goal: seq<nat>)
    requires m <= |s| && m <= |halves| + 1
    decreases m
  {
    if m <= 1 then s == goal
    else
      ReducedInRange(halves[0], m);
      Pending(Swapped(s, m - 1, Reduced(halves[0], m)), halves[1..], m - 1, goal)
  }

  /** Exchanging two of the first i + 1 items, seen from those items and from the whole. */
  lemma SwapInFront(s: seq<nat>, i: nat, j: nat)
    requires j <= i < |s|
    ensures var after, b := Swapped(s, i, j), Swapped(s[..i + 1], i, j);
      after[..i] == b[..i] && after[i..] == [b[i]] + s[i + 1..]
  {
  }

  lemma DrawsNext(halves: seq<Half>, m: nat)
    requires 1 < m <= |halves| + 1
    ensures Draws(halves, m)[0] == Reduced(halves[0], m) && Draws(halves, m)[1..] == Draws(halves[1..], m - 1)
  {
  }

  lemma Reassociate(x: seq<nat>, y: nat, z: seq<nat>)
    ensures (x + [y]) + z == x + ([y] + z)
  {
  }

  /** What m items are shuffled to, and the rest behind them. */
  ghost function Goal(s: seq<nat>, halves: seq<Half>, m: nat): seq<nat>
    requires m <= |s| && m <= |halves| + 1
  {
    Shuffled(s[..m], Draws(halves, m)) + s[m..]
  }

  lemma GoalNext(s: seq<nat>, halves: seq<Half>, m: nat, j: nat)
    requires 1 < m <= |s| && m <= |halves| + 1 && j == Reduced(halves[0], m) && j < m
    ensures Goal(Swapped(s, m - 1, j), halves[1..], m - 1) == Goal(s, halves, m)
  {
    var i := m - 1;
    var b, rest := Swapped(s[..m], i, j), Draws(halves[1..], i);
    SwapInFront(s, i, j);
    DrawsNext(halves, m);
    ShuffledNext(s[..m], Draws(halves, m));
    Reassociate(Shuffled(b[..i], rest), b[i], s[m..]);
  }

  lemma GoalReached(s: seq<nat>, halves: seq<Half>, m: nat)
    requires m <= 1 && m <= |s| && m <= |halves| + 1
    ensures Goal(s, halves, m) == s
  {
    assert s[..m] + s[m..] == s;
  }

  /** The exchanges shuffle the first m items with their draws and leave the rest. */
  lemma {:induction false} PendingShuffle(s: seq<nat>, halves: seq<Half>, m: nat, goal: seq<nat>)
    requires m <= |s| && m <= |halves| + 1 && goal == Goal(s, halves, m)
    ensures Pending(s, halves, m, goal)
    decreases m
  {
    if m <= 1 {
      GoalReached(s, halves, m);
    } else {
      var j := Reduced(halves[0], m);
      ReducedInRange(halves[0], m);
      GoalNext(s, halves, m, j);
      PendingShuffle(Swapped(s, m - 1, j), halves[1..], m - 1, goal);
    }
  }

  lemma {:induction false} PendingNext(s: seq<nat>, halves: seq<Half>, i: nat, j: nat, goal: seq<nat>)
    requires 0 < i < |s| && |halves| == i && Pending(s, halves, i + 1, goal)
    requires j == Reduced(halves[0], i + 1)
    ensures j <= i && Pending(Swapped(s, i, j), halves[1..], i, goal)
  {
    ReducedInRange(halves[0], i + 1);
  }

  /** Settles place i by its draw. */
  method Settle(result: array<nat>, i: nat, j: nat, ghost halves: seq<Half>, ghost goal: seq<nat>)
    requires 0 < i < result.Length && |halves| == i && j == Reduced(halves[0], i + 1)
    requires Pending(result[..], halves, i + 1, goal)
    modifies result
    ensures Pending(result[..], halves[1..], i, goal)
  {
    ghost var s := result[..];
    PendingNext(s, halves, i, j, goal);
    result[i], result[j] := result[j], result[i];
    assert result[..] == Swapped(s, i, j);
  }

  lemma Whole(s: seq<nat>, t: seq<nat>)
    ensures s[..|s|] == s && t + s[|s|..] == t
  {
  }

  lemma {:induction false} AllPending(s: seq<nat>, halves: seq<Half>)
    requires |s| <= |halves| + 1
    ensures Pending(s, halves, |s|, Shuffled(s, Draws(halves, |s|)))
  {
    Whole(s, Shuffled(s, Draws(halves, |s|)));
    PendingShuffle(s, halves, |s|, Shuffled(s, Draws(halves, |s|)));
  }

  /** The generator is k steps past the seed. */
  ghost predicate Reached(state: Word, seed: Word, k: nat) {
    state == State(seed, k)
  }

  lemma {:induction false} StateShift(seed: Word, k: nat)
    ensures State(seed, k + 1) == State(Plus(seed, GAMMA), k)
  {
    if k > 0 {
      StateShift(seed, k - 1);
    } else {
      assert State(seed, 1) == Plus(State(seed, 0), GAMMA);
    }
  }

  /** The upper half of the next output. */
  function FirstHalf(seed: Word): Half {
    High(Mix(Plus(seed, GAMMA)))
  }

  /** One output further on, the halves are the rest. */
  lemma HalvesNext(seed: Word, n: nat)
    requires n > 0
    ensures Halves(seed, n)[0] == FirstHalf(seed) && Halves(seed, n)[1..] == Halves(Plus(seed, GAMMA), n - 1)
  {
    StateShift(seed, 0);
    forall k | 0 <= k < n - 1
      ensures Output(seed, k + 1) == Output(Plus(seed, GAMMA), k)
    {
      StateShift(seed, k + 1);
    }
  }

  /** The halves are those of the next outputs. */
  ghost predicate Upcoming(seed: Word, halves: seq<Half>)
    decreases |halves|
  {
    halves != [] ==> halves[0] == FirstHalf(seed) && Upcoming(Plus(seed, GAMMA), halves[1..])
  }

  lemma {:induction false} HalvesAreUpcoming(seed: Word, n: nat)
    ensures Upcoming(seed, Halves(seed, n))
    decreases n
  {
    if n > 0 {
      HalvesNext(seed, n);
      HalvesAreUpcoming(Plus(seed, GAMMA), n - 1);
    }
  }

  /** A shuffle before place i is settled: it ends in the goal, k outputs after the seed and one more for each half. */
  ghost predicate Underway(s: seq<nat>, i: int, state: Word, seed: Word, k: nat, halves: seq<Half>, goal: seq<nat>) {
    && -1 <= i < |s| && |halves| == (if i < 0 then 0 else i)
    && Reached(state, seed, k) && Upcoming(state, halves) && Pending(s, halves, i + 1, goal)
  }

  function Identity(n: nat): (p: seq<nat>)
    ensures |p| == n && forall i :: 0 <= i < n ==> p[i] == i
  {
    seq(n, i => i)
  }

  // ---- Known draws ----

  lemma KnownHalves()
    ensures High(0xe220a8397b1dcdaf) == 0xe220a839 && High(0x6e789e6aa1b965f4) == 0x6e789e6a
    ensures High(0x6c45d188009454f) == 0x6c45d18
  {
  }

  /** From seed 0 the first draw below 10 is 8. */
  lemma KnownDraw()
    ensures Reduced(High(Output(0, 0)), 10) == 8
  {
    KnownOutputs();
    KnownHalves();
  }

  lemma ThreeHalves()
    ensures Halves(0, 3) == [0xe220a839, 0x6e789e6a, 0x6c45d18]
  {
    KnownOutputs();
    KnownHalves();
  }

  lemma KnownDraws()
    ensures Draws(Halves(0, 3), 4) == [3, 1, 0]
  {
    ThreeHalves();
    var h: seq<Half> := [0xe220a839, 0x6e789e6a, 0x6c45d18];
    assert h[1..] == [0x6e789e6a, 0x6c45d18] && h[1..][1..] == [0x6c45d18];
    assert Draws(h[1..][1..][1..], 1) == [];
    assert Draws(h[1..][1..], 2) == [0];
    assert Draws(h[1..], 3) == [1, 0];
  }

  /** One step: the first draw settles the last place with x and leaves the places of front. */
  lemma {:induction false} Settled(a: seq<nat>, draws: seq<nat>, front: seq<nat>, x: nat)
    requires ValidDraws(draws, |a|) && |a| > 1
    requires a[|a| - 1 := a[draws[0]]][draws[0] := a[|a| - 1]] == front + [x]
    ensures ValidDraws(draws[1..], |front|) && Shuffled(a, draws) == Shuffled(front, draws[1..]) + [x]
  {
    ShuffledNext(a, draws);
    assert (front + [x])[..|a| - 1] == front;
  }

  lemma {:induction false} ShuffleOfTwo(a: seq<nat>, draws: seq<nat>)
    requires a == [0, 2] && draws == [0]
    ensures Shuffled(a, draws) == [2, 0]
  {
    Settled(a, draws, [2], 0);
  }

  lemma {:induction false} ShuffleOfThree(a: seq<nat>, draws: seq<nat>)
    requires a == [0, 1, 2] && draws == [1, 0]
    ensures Shuffled(a, draws) == [2, 0, 1]
  {
    Settled(a, draws, [0, 2], 1);
    ShuffleOfTwo([0, 2], draws[1..]);
  }

  lemma {:induction false} ShuffleOfFour(a: seq<nat>, draws: seq<nat>)
    requires a == [0, 1, 2, 3] && draws == [3, 1, 0]
    ensures Shuffled(a, draws) == [2, 0, 1, 3]
  {
    Settled(a, draws, [0, 1, 2], 3);
    ShuffleOfThree([0, 1, 2], draws[1..]);
  }

  /** From seed 0 the shuffle of 0, 1, 2, 3 is 2, 0, 1, 3. */
  lemma KnownShuffle()
    ensures Shuffled(Identity(4), Draws(Halves(0, 3), 4)) == [2, 0, 1, 3]
  {
    KnownDraws();
    ShuffleOfFour(Identity(4), Draws(Halves(0, 3), 4));
  }

  class RNG {
    var state: Word

    constructor (seed: Word)
      ensures state == seed
    {
      state := seed;
    }

    method NextUint64() returns (x: Word)
      modifies this
      ensures state == Plus(old(state), GAMMA) && x == Mix(state)
    {
      state := state + GAMMA;
      x := Mix(state);
    }

    /** A draw below n; other bounds are refused by a panic. */
    method Intn(n: nat) returns (r: nat)
      requires n > 0
      modifies this
      ensures state == Plus(old(state), GAMMA) && r == Reduced(High(Mix(state)), n) && r < n
    {
      var x := NextUint64();
      r := High(x) * n % TWO_64 / TWO_32;
      ReducedInRange(High(x), n);
    }

    /** A shuffle of 0..n-1 in place: always a permutation, the one its draws stand for. */
    method Perm(n: nat) returns (result: array<nat>)
      modifies this
      ensures var m := if n == 0 then 0 else n - 1;
        && fresh(result) && result[..] == Shuffled(Identity(n), Draws(Halves(old(state), m), n))
        && Reached(state, old(state), m)
      ensures multiset(result[..]) == multiset(Identity(n))
    {
      result := new nat[n](i => i);
      ghost var start, m := Identity(n), if n == 0 then 0 else n - 1;
      ghost var draws := Draws(Halves(state, m), n);
      assert result[..] == start;
      AllPending(start, Halves(state, m));
      HalvesAreUpcoming(state, m);
      ShufflePermutes(start, draws);
      ShuffleInPlace(result, Halves(state, m), Shuffled(start, draws));
    }

    /** One exchange of the shuffle: draw a place up to i and settle place i. */
    method SettleNext(result: array<nat>, i: nat, ghost seed: Word, ghost k: nat, ghost halves: seq<Half>,
                      ghost goal: seq<nat>)
      requires 0 < i && Underway(result[..], i, state, seed, k, halves, goal)
      modifies this, result
      ensures Underway(result[..], i - 1, state, seed, k + 1, halves[1..], goal)
    {
      var j := Intn(i + 1);
      Settle(result, i, j, halves, goal);
    }

    /** Exchanges the places of the array from the last one down to the second. */
    method ShuffleInPlace(result: array<nat>, ghost halves: seq<Half>, ghost goal: seq<nat>)
      requires |halves| == (if result.Length == 0 then 0 else result.Length - 1) && Upcoming(state, halves)
      requires Pending(result[..], halves, result.Length, goal)
      modifies this, result
      ensures result[..] == goal && Reached(state, old(state), |halves|)
    {
      ghost var seed, k, rest := state, 0, halves;
      var i := result.Length - 1;
      while i > 0
        invariant k + |rest| == |halves| && Underway(result[..], i, state, seed, k, rest, goal)
      {
        SettleNext(result, i, seed, k, rest, goal);
        k, rest, i := k + 1, rest[1..], i - 1;
      }
    }

    /** An independent child; the parent advances by one output. */
    method Split(epoch: Word, branchID: Word, goroutineID: Word) returns (child: RNG)
      modifies this
      ensures fresh(child) && state == Plus(old(state), GAMMA)
      ensures child.state == ChildSeed(Mix(state), epoch, branchID, goroutineID)
    {
      var output := NextUint64();
      child := new RNG(ChildSeed(output, epoch, branchID, goroutineID));
    }
  }
}
