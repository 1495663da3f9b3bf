/** The table of regional value slopes and its concave adaptive update. */
module VfaTables {
  import opened LinearAlgebra
  import opened RealProducts
  import opened ValueSlopes

  datatype VfaTable = VfaTable(slopes: map<string, RegionSlopes>) {

    function MarginalValue(regionID: string, resourceCount: int): real {
      if regionID in slopes then slopes[regionID].MarginalValue(resourceCount) else 0.0
    }

    /** The slopes an update of a region starts from: its own, or fresh ones scaled from the observed dual. */
    function StartingSlopes(regionID: string, dual: real, levels: nat): (s: Slopes)
      requires levels > 0
      ensures |s| >= levels
    {
      var base :=
        if regionID in slopes && |slopes[regionID].slopes| > 0 then slopes[regionID].slopes else Fresh(dual, levels);
      Padded(base, levels)
    }

    /** The slopes an update starts from, with the level moved towards the dual. */
    ghost function Moved(regionID: string, level: nat, dual: real, alpha: real, levels: nat): (s: Slopes)
      requires level < levels
    {
      var start := StartingSlopes(regionID, dual, levels);
      start[level := Smoothed(start[level], dual, alpha)]
    }

    /** The slopes of a region after one observation: level moved towards the dual, the others cleared around it. */
    ghost function Learned(regionID: string, level: nat, dual: real, alpha: real, levels: nat): (s: Slopes)
      requires level < levels
    {
      Cleared(Moved(regionID, level, dual, alpha, levels), level)
    }

    ghost function Updated(regionID: string, level: nat, dual: real, alpha: real, levels: nat): VfaTable
      requires level < levels
    {
      VfaTable(slopes[regionID := RegionSlopes(regionID, Learned(regionID, level, dual, alpha, levels))])
    }

    /** Where an update starts: at the stored slopes, followed or, where there are none, replaced by the dual and 0.9 of
        the slope before. */
    lemma StartReads(regionID: string, dual: real, levels: nat)
      requires levels > 0
      ensures var stored, start := Stored(regionID), StartingSlopes(regionID, dual, levels);
        && |start| == (if |stored| > levels then |stored| else levels)
        && forall i :: 0 <= i < |start| ==>
             (start[i] == if i < |stored| then stored[i] else if i == 0 then dual else 0.9 * start[i - 1])
    {
      var stored, start := Stored(regionID), StartingSlopes(regionID, dual, levels);
      forall i | |stored| <= i < |start|
        ensures start[i] == if i == 0 then dual else 0.9 * start[i - 1]
      {
        if stored == [] {
          FreshReads(dual, levels, i);
        } else {
          PaddedReads(stored, levels, i);
        }
      }
    }

    /** What the table knows of a region. */
    ghost function Stored(regionID: string): (s: Slopes)
      ensures regionID in slopes ==> s == slopes[regionID].slopes
      ensures regionID !in slopes ==> s == []
    {
      if regionID in slopes then slopes[regionID].slopes else []
    }

    lemma LearnedReads(regionID: string, level: nat, dual: real, alpha: real, levels: nat)
      requires level < levels
      ensures var start, after := StartingSlopes(regionID, dual, levels), Learned(regionID, level, dual, alpha, levels);
        && |after| == |start| && after[level] == (1.0 - alpha) * start[level] + alpha * dual
        && (forall i :: level < i < |start| ==> after[i] == if start[i] > after[i - 1] then after[i - 1] else start[i])
        && (forall i :: 0 <= i < level ==> after[i] == if start[i] < after[i + 1] then after[i + 1] else start[i])
    {
      var start, moved := StartingSlopes(regionID, dual, levels), Moved(regionID, level, dual, alpha, levels);
      var after := Learned(regionID, level, dual, alpha, levels);
      ClearedReads(moved, level, level);
      forall i | level < i < |start|
        ensures after[i] == if start[i] > after[i - 1] then after[i - 1] else start[i]
      {
        ClearedReads(moved, level, i);
      }
      forall i | 0 <= i < level
        ensures after[i] == if start[i] < after[i + 1] then after[i + 1] else start[i]
      {
        ClearedReads(moved, level, i);
      }
    }

    lemma UpdateLearns(regionID: string, level: nat, dual: real, alpha: real, levels: nat)
      requires level < levels
      ensures LearnsFrom(Stored(regionID), StartingSlopes(regionID, dual, levels),
                         Updated(regionID, level, dual, alpha, levels).slopes[regionID].slopes, level, dual, alpha,
                         levels)
    {
      StartReads(regionID, dual, levels);
      LearnedReads(regionID, level, dual, alpha, levels);
    }

    /** Concave adaptive value estimation: a new table, this one unchanged. Out-of-range parameters are replaced. */
    method UpdateCAVE(regionID: string, resourceLevel: int, observedDual: real, stepSize: real, maxSlopes: int)
      returns (t: VfaTable, ghost start: Slopes)
      ensures t == Updated(regionID, EffectiveLevel(resourceLevel, EffectiveMax(maxSlopes)), observedDual,
                           EffectiveStep(stepSize), EffectiveMax(maxSlopes))
      ensures regionID in t.slopes && t.slopes[regionID].regionID == regionID
      ensures forall r :: r != regionID ==>
        (r in t.slopes <==> r in slopes) && (r in slopes ==> t.slopes[r] == slopes[r])
      ensures var alpha := if stepSize <= 0.0 then 0.1 else if stepSize > 1.0 then 1.0 else stepSize;
        var levels := if maxSlopes <= 0 then 10 else maxSlopes;
        var level := if resourceLevel < 0 then 0 else if resourceLevel >= levels then levels - 1 else resourceLevel;
        var stored := if regionID in slopes then slopes[regionID].slopes else [];
        LearnsFrom(stored, start, t.slopes[regionID].slopes, level, observedDual, alpha, levels)
    {
      var alpha, levels := EffectiveStep(stepSize), EffectiveMax(maxSlopes);
      var level := EffectiveLevel(resourceLevel, levels);
      var current := StartingSlopes(regionID, observedDual, levels);
      var a := new real[|current|](i requires 0 <= i < |current| => current[i]);
      assert a[..] == current;
      a[level] := Smoothed(a[level], observedDual, alpha);
      assert a[..] == current[level := Smoothed(current[level], observedDual, alpha)];
      Clear(a, level);
      UpdateLearns(regionID, level, observedDual, alpha, levels);
      return VfaTable(slopes[regionID := RegionSlopes(regionID, a[..])]), current;
    }

    ghost predicate ConcaveAt(regionID: string) {
      regionID in slopes && slopes[regionID].Concave()
    }

    /** Whatever the table held before, the updated region is concave afterwards and no other region changed. */
    lemma UpdateRestoresConcavity(regionID: string, level: nat, dual: real, alpha: real, levels: nat)
      requires level < levels
      ensures Updated(regionID, level, dual, alpha, levels).ConcaveAt(regionID)
      ensures forall r :: r != regionID ==>
        && (r in Updated(regionID, level, dual, alpha, levels).slopes <==> r in slopes)
        && (r in slopes ==> Updated(regionID, level, dual, alpha, levels).slopes[r] == slopes[r])
    {
      ClearedNonIncreasing(Moved(regionID, level, dual, alpha, levels), level);
      Updated(regionID, level, dual, alpha, levels).slopes[regionID].ConcaveIffNonIncreasing();
    }

    /** The result is the closest concave sequence to the starting slopes through the smoothed value. */
    ghost predicate LearnsClosest(regionID: string, level: nat, dual: real, alpha: real, levels: nat)
      requires level < levels
    {
      Closest(Learned(regionID, level, dual, alpha, levels), StartingSlopes(regionID, dual, levels), level)
    }

    /** Exactly when no rise among the other starting slopes crosses the smoothed value. */
    lemma UpdateIsClosestIff(regionID: string, level: nat, dual: real, alpha: real, levels: nat)
      requires level < levels
      ensures LearnsClosest(regionID, level, dual, alpha, levels)
         <==> NoRiseAcross(Moved(regionID, level, dual, alpha, levels), level)
    {
      var start := StartingSlopes(regionID, dual, levels);
      ClearedIsClosestIff(start, level, Smoothed(start[level], dual, alpha));
    }

    /** From concave starting slopes it always is. */
    lemma UpdateIsClosest(regionID: string, level: nat, dual: real, alpha: real, levels: nat)
      requires level < levels && NonIncreasing(StartingSlopes(regionID, dual, levels))
      ensures LearnsClosest(regionID, level, dual, alpha, levels)
    {
      var start := StartingSlopes(regionID, dual, levels);
      ClearedIsClosest(start, level, Smoothed(start[level], dual, alpha));
    }

    /** A region first seen with a negative dual: at levels 0 and 1 it is, at a higher level exactly when the value
        learned is no lower than the starting slope of the level before. */
    lemma FreshNegativeIsClosestIff(regionID: string, level: nat, dual: real, alpha: real, levels: nat)
      requires regionID !in slopes && level < levels && dual < 0.0 && 0.0 < alpha <= 1.0
      ensures LearnsClosest(regionID, level, dual, alpha, levels) <==>
        level <= 1 || Fresh(dual, levels)[level - 1] <= Smoothed(Fresh(dual, levels)[level], dual, alpha)
    {
      var start := StartingSlopes(regionID, dual, levels);
      var s := Moved(regionID, level, dual, alpha, levels);
      assert start == Fresh(dual, levels);
      forall i, j | 0 <= i < j < levels
        ensures start[i] < start[j]
      {
        NegativeRises(dual, i, j, levels);
      }
      assert dual <= start[level] by {
        assert start[0] == dual * Decay(0) == dual;
      }
      SmoothedBetween(start[level], dual, alpha);
      UpdateIsClosestIff(regionID, level, dual, alpha, levels);
      if level > 1 {
        assert s[level - 2] == start[level - 2] && s[level - 1] == start[level - 1];
      }
    }

    /** It need not be: an empty table, a first dual of -1 at level 2, taken over in full. */
    lemma UpdateIsNotAlwaysClosest(regionID: string)
      requires slopes == map[]
      ensures !LearnsClosest(regionID, 2, -1.0, 1.0, 3)
    {
      var start := Fresh(-1.0, 3);
      assert Decay(2) == 0.9 * Decay(1) && Decay(1) == 0.9 * Decay(0);
      assert start[1] == -0.9 && start[2] == -0.81;
      SmoothedBetween(start[2], -1.0, 1.0);
      assert Smoothed(start[2], -1.0, 1.0) == -1.0;
      FreshNegativeIsClosestIff(regionID, 2, -1.0, 1.0, 3);
    }

    /** When the starting slopes are concave, in terms of the table and the call alone. */
    lemma StartIsConcave(regionID: string, dual: real, levels: nat)
      requires levels > 0
      ensures NonIncreasing(StartingSlopes(regionID, dual, levels)) <==>
        if regionID in slopes && |slopes[regionID].slopes| > 0
        then
          var s := slopes[regionID].slopes;
          NonIncreasing(s) && (|s| >= levels || s[|s| - 1] >= 0.0)
        else levels <= 1 || dual >= 0.0
    {
      if regionID in slopes && |slopes[regionID].slopes| > 0 {
        PaddedNonIncreasing(slopes[regionID].slopes, levels);
      } else {
        FreshNonIncreasing(dual, levels);
        PaddedNonIncreasing(Fresh(dual, levels), levels);
      }
    }
  }

  /** The slopes after an observation of the dual at the level: start is what is stored, followed or, where nothing is,
      begun by the dual, each further slope 0.9 of the one before; the level takes the share alpha of the dual; away
      from it every slope is its own or its neighbour's, whichever keeps the slopes from rising. */
  ghost predicate LearnsFrom(stored: Slopes, start: Slopes, after: Slopes, level: nat, dual: real, alpha: real,
                             levels: nat)
  {
    && level < levels <= |start| == |after| && (|start| == levels || |start| == |stored|)
    && (forall i :: 0 <= i < |start| ==>
          (start[i] == if i < |stored| then stored[i] else if i == 0 then dual else 0.9 * start[i - 1]))
    && after[level] == (1.0 - alpha) * start[level] + alpha * dual
    && (forall i :: level < i < |start| ==> after[i] == if start[i] > after[i - 1] then after[i - 1] else start[i])
    && (forall i :: 0 <= i < level ==> after[i] == if start[i] < after[i + 1] then after[i + 1] else start[i])
  }

  function EffectiveStep(stepSize: real): (alpha: real)
    ensures 0.0 < alpha <= 1.0
  {
    if stepSize <= 0.0 then 0.1 else if stepSize > 1.0 then 1.0 else stepSize
  }

  function EffectiveMax(maxSlopes: int): (levels: nat)
    ensures levels > 0
  {
    if maxSlopes <= 0 then 10 else maxSlopes
  }

  function EffectiveLevel(resourceLevel: int, levels: nat): (level: nat)
    requires levels > 0
    ensures level < levels
  {
    if resourceLevel < 0 then 0 else if resourceLevel >= levels then levels - 1 else resourceLevel
  }

  /** The weighted mean of a slope and the observed dual. */
  function Smoothed(x: real, dual: real, alpha: real): real {
    Product(1.0 - alpha, x) + Product(alpha, dual)
  }

  /** Smoothing never overshoots. */
  lemma SmoothedBetween(x: real, dual: real, alpha: real)
    requires 0.0 < alpha <= 1.0
    ensures x <= dual ==> x <= Smoothed(x, dual, alpha) <= dual
    ensures dual <= x ==> dual <= Smoothed(x, dual, alpha) <= x
  {
    if x <= dual {
      Weigh(x, dual, 1.0 - alpha, alpha);
    } else {
      Weigh(dual, x, alpha, 1.0 - alpha);
    }
  }

  lemma Weigh(x: real, y: real, a: real, b: real)
    requires x <= y && a >= 0.0 && b >= 0.0 && a + b == 1.0
    ensures Product(a, x) <= Product(a, y) && Product(b, x) <= Product(b, y)
    ensures Product(a, x) + Product(b, x) == x && Product(a, y) + Product(b, y) == y
  {
    ScaledProducts(x, y, a);
    ScaledProducts(x, y, b);
    Whole(x, a, b);
    Whole(y, a, b);
  }

  lemma ScaledProducts(x: real, y: real, f: real)
    requires x <= y && f >= 0.0
    ensures Product(f, x) <= Product(f, y)
  {
    ScaledOrder(x, y, f);
  }

  lemma Whole(x: real, a: real, b: real)
    requires a + b == 1.0
    ensures Product(a, x) + Product(b, x) == x
  {
    assert (a + b) * x == a * x + b * x;
  }
}
