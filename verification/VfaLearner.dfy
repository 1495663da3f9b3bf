/** Learning regional slopes, and optionally a spatial belief, from the duals of solved matchings. */
module VfaLearner {
  import opened Wrappers
  import opened Sorting
  import opened Dispatch
  import opened Fleet
  import opened Folds
  import opened RealProducts
  import opened GaussianBelief
  import opened Ckg
  import opened ValueSlopes
  import opened VfaTables

  datatype LearningConfig = LearningConfig(stepSize: real, harmonicStepSize: bool, harmonicA: real, maxSlopes: int,
                                           useCKG: bool, ckgObservationVar: real)

  datatype LearnerError = BadStepSize | BadHarmonic | BadMaxSlopes | CkgFailed(region: string, cause: CkgError)

  ghost predicate ValidConfig(c: LearningConfig) {
    c.stepSize > 0.0 && c.harmonicA > 0.0 && c.maxSlopes > 0
  }

  /** One solved epoch: its matches, the loads on offer, the driver duals, and how places map to regions. */
  datatype Epoch = Epoch(matches: seq<DriverLoadMatch>, loads: seq<Load>, duals: map<string, real>,
                         regionOf: Location -> string)

  /** The load with an identifier; the last one wins. */
  ghost function LoadNamed(loads: seq<Load>, id: string): Option<Load> {
    if loads == [] then None
    else if loads[|loads| - 1].id == id then Some(loads[|loads| - 1])
    else LoadNamed(loads[..|loads| - 1], id)
  }

  /** Region a match delivers to, when its load is known. */
  ghost function Destination(e: Epoch, m: DriverLoadMatch): Option<string> {
    var l := LoadNamed(e.loads, m.loadID);
    if l.None? then None else Some(e.regionOf(l.value.destination))
  }

  /** Number of the first n matches that deliver to the region. */
  ghost function Arrivals(e: Epoch, n: nat, region: string): nat
    requires n <= |e.matches|
  {
    if n == 0 then 0
    else Arrivals(e, n - 1, region) + (if Destination(e, e.matches[n - 1]) == Some(region) then 1 else 0)
  }

  /** The match teaches the table something: its load and its driver's dual are known. */
  ghost predicate Teaches(e: Epoch, m: DriverLoadMatch) {
    Destination(e, m).Some? && m.driverID in e.duals
  }

  /** The table after the first n matches. */
  ghost function TableAfter(t: VfaTable, e: Epoch, alpha: real, levels: nat, n: nat): VfaTable
    requires n <= |e.matches| && levels > 0
  {
    if n == 0 then t
    else
      var before := TableAfter(t, e, alpha, levels, n - 1);
      var m := e.matches[n - 1];
      if !Teaches(e, m) then before
      else
        var region := Destination(e, m).value;
        before.Updated(region, EffectiveLevel(Arrivals(e, n - 1, region), levels), e.duals[m.driverID], alpha, levels)
  }

  /** Some of the first n matches taught the table about the region. */
  ghost predicate Taught(e: Epoch, n: nat, region: string)
    requires n <= |e.matches|
  {
    exists i :: 0 <= i < n && Teaches(e, e.matches[i]) && Destination(e, e.matches[i]) == Some(region)
  }

  ghost predicate SameAt(t: VfaTable, u: VfaTable, region: string) {
    (region in t.slopes <==> region in u.slopes) && (region in t.slopes ==> t.slopes[region] == u.slopes[region])
  }

  /** A region becomes concave the first time it is taught and stays so; a region never taught stays as it was. */
  lemma {:induction false} EpochRestoresConcavity(t: VfaTable, e: Epoch, alpha: real, levels: nat, n: nat,
                                                  region: string)
    requires n <= |e.matches| && levels > 0
    ensures Taught(e, n, region) || t.ConcaveAt(region) ==> TableAfter(t, e, alpha, levels, n).ConcaveAt(region)
    ensures !Taught(e, n, region) ==> SameAt(TableAfter(t, e, alpha, levels, n), t, region)
  {
    if n > 0 {
      EpochRestoresConcavity(t, e, alpha, levels, n - 1, region);
      var before := TableAfter(t, e, alpha, levels, n - 1);
      var m := e.matches[n - 1];
      if Teaches(e, m) {
        var r := Destination(e, m).value;
        before.UpdateRestoresConcavity(r, EffectiveLevel(Arrivals(e, n - 1, r), levels), e.duals[m.driverID], alpha,
                                       levels);
        assert r == region ==> Taught(e, n, region);
      }
      assert Taught(e, n - 1, region) ==> Taught(e, n, region);
      assert Taught(e, n, region) && !Taught(e, n - 1, region) ==> Teaches(e, m) && Destination(e, m) == Some(region);
    }
  }

  /** The table after a run of epochs, each with its own step size. */
  ghost function TableAfterRun(t: VfaTable, epochs: seq<Epoch>, alphas: seq<real>, levels: nat): VfaTable
    requires |alphas| == |epochs| && levels > 0
  {
    if epochs == [] then t
    else
      var k := |epochs| - 1;
      TableAfter(TableAfterRun(t, epochs[..k], alphas[..k], levels), epochs[k], alphas[k], levels, |epochs[k].matches|)
  }

  ghost predicate EverTaught(epochs: seq<Epoch>, region: string) {
    exists i :: 0 <= i < |epochs| && Taught(epochs[i], |epochs[i].matches|, region)
  }

  /** Over any run, every region that was ever taught has a concave value; the others are as they began. */
  lemma {:induction false} RunRestoresConcavity(t: VfaTable, epochs: seq<Epoch>, alphas: seq<real>, levels: nat,
                                                region: string)
    requires |alphas| == |epochs| && levels > 0
    ensures EverTaught(epochs, region) || t.ConcaveAt(region) ==>
      TableAfterRun(t, epochs, alphas, levels).ConcaveAt(region)
    ensures !EverTaught(epochs, region) ==> SameAt(TableAfterRun(t, epochs, alphas, levels), t, region)
    decreases |epochs|
  {
    if epochs != [] {
      var k := |epochs| - 1;
      var front := epochs[..k];
      RunRestoresConcavity(t, front, alphas[..k], levels, region);
      var before := TableAfterRun(t, front, alphas[..k], levels);
      EpochRestoresConcavity(before, epochs[k], alphas[k], levels, |epochs[k].matches|, region);
      assert Taught(epochs[k], |epochs[k].matches|, region) ==> EverTaught(epochs, region);
      if EverTaught(front, region) {
        var i :| 0 <= i < k && Taught(front[i], |front[i].matches|, region);
        assert epochs[i] == front[i];
      }
      if EverTaught(epochs, region) && !Taught(epochs[k], |epochs[k].matches|, region) {
        var i :| 0 <= i < |epochs| && Taught(epochs[i], |epochs[i].matches|, region);
        assert front[i] == epochs[i];
      }
    }
  }

  // ---- What the spatial belief sees ----

  /** Index of the region that the match samples, when it samples one. */
  ghost function SampledIndex(e: Epoch, index: map<string, int>, m: DriverLoadMatch): Option<int> {
    if Teaches(e, m) && Destination(e, m).value in index then Some(index[Destination(e, m).value]) else None
  }

  /** The observation a match contributes, if its region has a usable coordinate. */
  ghost function SampleOf(e: Epoch, index: map<string, int>, noise: real, m: DriverLoadMatch): Option<Observation> {
    var k := SampledIndex(e, index, m);
    if k.Some? && k.value >= 0 then Some(Observation(k.value, e.duals[m.driverID], noise)) else None
  }

  ghost function Samples(e: Epoch, index: map<string, int>, noise: real,
                         matches: seq<DriverLoadMatch>): seq<Observation> {
    if matches == [] then []
    else
      var n := |matches| - 1;
      var o := SampleOf(e, index, noise, matches[n]);
      Samples(e, index, noise, matches[..n]) + (if o.Some? then [o.value] else [])
  }

  lemma {:induction false} SamplesNext(e: Epoch, index: map<string, int>, noise: real, n: nat)
    requires n < |e.matches|
    ensures var o := SampleOf(e, index, noise, e.matches[n]);
      Samples(e, index, noise, e.matches[..n + 1])
        == if o.Some? then Samples(e, index, noise, e.matches[..n]) + [o.value]
           else Samples(e, index, noise, e.matches[..n])
  {
    assert e.matches[..n + 1][..n] == e.matches[..n];
  }

  lemma {:induction false} SamplesConcat(e: Epoch, index: map<string, int>, noise: real, a: seq<DriverLoadMatch>,
                                         b: seq<DriverLoadMatch>)
    ensures Samples(e, index, noise, a + b) == Samples(e, index, noise, a) + Samples(e, index, noise, b)
    decreases |b|
  {
    if b == [] {
      assert a + b == a;
    } else {
      var n := |b| - 1;
      SamplesConcat(e, index, noise, a, b[..n]);
      assert (a + b)[..|a + b| - 1] == a + b[..n] && (a + b)[|a + b| - 1] == b[n];
      var o := SampleOf(e, index, noise, b[n]);
      var last := if o.Some? then [o.value] else [];
      assert (Samples(e, index, noise, a) + Samples(e, index, noise, b[..n])) + last
          == Samples(e, index, noise, a) + (Samples(e, index, noise, b[..n]) + last);
    }
  }

  lemma {:induction false} SamplesWithout(e: Epoch, index: map<string, int>, noise: real, t: seq<DriverLoadMatch>,
                                          i: nat)
    requires i < |t|
    ensures multiset(Samples(e, index, noise, t))
         == multiset(Samples(e, index, noise, Without(t, i))) + multiset(Samples(e, index, noise, [t[i]]))
  {
    assert t == t[..i] + ([t[i]] + t[i + 1..]);
    SamplesConcat(e, index, noise, t[..i], [t[i]] + t[i + 1..]);
    SamplesConcat(e, index, noise, [t[i]], t[i + 1..]);
    SamplesConcat(e, index, noise, t[..i], t[i + 1..]);
  }

  lemma {:induction false} SamplesIgnoreOrder(e: Epoch, index: map<string, int>, noise: real,
                                              s: seq<DriverLoadMatch>, t: seq<DriverLoadMatch>)
    requires multiset(s) == multiset(t)
    ensures multiset(Samples(e, index, noise, s)) == multiset(Samples(e, index, noise, t))
    decreases |s|
  {
    if s == [] {
      assert |multiset(t)| == 0;
    } else {
      assert s[0] in multiset(t);
      var i :| 0 <= i < |t| && t[i] == s[0];
      TakeOut(s, 0);
      TakeOut(t, i);
      CancelOne(multiset(Without(s, 0)), multiset(Without(t, i)), s[0]);
      SamplesIgnoreOrder(e, index, noise, Without(s, 0), Without(t, i));
      SamplesWithout(e, index, noise, s, 0);
      SamplesWithout(e, index, noise, t, i);
    }
  }

  lemma {:induction false} SamplesApplicable(e: Epoch, index: map<string, int>, noise: real, s: seq<DriverLoadMatch>,
                                             n: nat)
    requires noise > NO_UNCERTAINTY && forall r :: r in index ==> index[r] < n
    ensures forall o :: o in Samples(e, index, noise, s) ==> Applicable(o, n)
  {
    if s != [] {
      SamplesApplicable(e, index, noise, s[..|s| - 1], n);
    }
  }

  /** The spatial belief after an epoch does not depend on the order of its matches. */
  lemma {:induction false} BeliefIgnoresMatchOrder(n: nat, prior: Belief, e: Epoch, index: map<string, int>,
                                                   noise: real, s: seq<DriverLoadMatch>, t: seq<DriverLoadMatch>)
    requires Proper(prior, n) && noise > NO_UNCERTAINTY && multiset(s) == multiset(t)
    requires forall r :: r in index ==> index[r] < n
    ensures Run(n, prior, Samples(e, index, noise, s)) == Run(n, prior, Samples(e, index, noise, t))
  {
    SamplesIgnoreOrder(e, index, noise, s, t);
    SamplesApplicable(e, index, noise, s, n);
    RunIgnoresOrder(n, prior, Samples(e, index, noise, s), Samples(e, index, noise, t));
  }

  /** With a single level and whole steps an update leaves the dual itself. */
  lemma OneLevelTakesDual(t: VfaTable, region: string, dual: real)
    requires region in t.slopes ==> |t.slopes[region].slopes| == 1
    ensures t.Updated(region, 0, dual, 1.0, 1) == VfaTable(t.slopes[region := RegionSlopes(region, [dual])])
  {
    var start := t.StartingSlopes(region, dual, 1);
    assert |start| == 1;
    assert Smoothed(start[0], dual, 1.0) == dual;
    assert t.Learned(region, 0, dual, 1.0, 1) == [dual];
  }

  lemma {:induction false} LastDualWins(e: Epoch, region: string)
    requires |e.matches| == 2
    requires forall i :: 0 <= i < 2 ==> Teaches(e, e.matches[i]) && Destination(e, e.matches[i]) == Some(region)
    ensures TableAfter(VfaTable(map[]), e, 1.0, 1, |e.matches|)
         == VfaTable(map[region := RegionSlopes(region, [e.duals[e.matches[1].driverID]])])
  {
    var t0, x, y := VfaTable(map[]), e.duals[e.matches[0].driverID], e.duals[e.matches[1].driverID];
    OneLevelTakesDual(t0, region, x);
    var t1 := VfaTable(map[region := RegionSlopes(region, [x])]);
    var n := |e.matches|;
    assert TableAfter(t0, e, 1.0, 1, n - 2) == t0 && TableAfter(t0, e, 1.0, 1, n - 1) == t1;
    OneLevelTakesDual(t1, region, y);
    assert t1.slopes[region := RegionSlopes(region, [y])] == map[region := RegionSlopes(region, [y])];
  }

  const LOW := DriverLoadMatch("d0", "l0", 0, 0.0)
  const HIGH := DriverLoadMatch("d1", "l1", 0, 0.0)

  /** Two loads to one region, and drivers with duals 0 and 1. */
  ghost function TwoDeliveries(place: Location, matches: seq<DriverLoadMatch>): Epoch {
    var l0 := Load("l0", place, place, 0, 0, 0, 0, "VAN_53", [], 0.0, 0);
    Epoch(matches, [l0, l0.(id := "l1")], map["d0" := 0.0, "d1" := 1.0], _ => "r")
  }

  lemma DeliveryTeaches(place: Location, matches: seq<DriverLoadMatch>, m: DriverLoadMatch)
    requires m == LOW || m == HIGH
    ensures var e := TwoDeliveries(place, matches); Teaches(e, m) && Destination(e, m) == Some("r")
  {
    var loads := TwoDeliveries(place, matches).loads;
    assert loads[..1] == [loads[0]];
    assert LoadNamed([loads[0]], "l0") == Some(loads[0]);
    assert LoadNamed(loads, "l0") == Some(loads[0]) && LoadNamed(loads, "l1") == Some(loads[1]);
  }

  /** What an empty table learns from the matches, with one level per region and whole steps. */
  ghost function TaughtTable(place: Location, matches: seq<DriverLoadMatch>): VfaTable {
    TableAfter(VfaTable(map[]), TwoDeliveries(place, matches), 1.0, 1, |matches|)
  }

  lemma TwoDeliveriesLeave(place: Location, first: DriverLoadMatch, second: DriverLoadMatch)
    requires (first == LOW || first == HIGH) && (second == LOW || second == HIGH)
    ensures TaughtTable(place, [first, second]).MarginalValue("r", 0) == if second == LOW then 0.0 else 1.0
  {
    var ms := [first, second];
    DeliveryTeaches(place, ms, first);
    DeliveryTeaches(place, ms, second);
    LastDualWins(TwoDeliveries(place, ms), "r");
  }

  /** The slope table does depend on it: the same two matches in either order. */
  lemma TableDependsOnMatchOrder(place: Location)
    ensures TaughtTable(place, [LOW, HIGH]).MarginalValue("r", 0) == 1.0
    ensures TaughtTable(place, [HIGH, LOW]).MarginalValue("r", 0) == 0.0
  {
    TwoDeliveriesLeave(place, LOW, HIGH);
    TwoDeliveriesLeave(place, HIGH, LOW);
  }

  // ---- One match in plain words ----

  /** loads[l] is the last load with the identifier. */
  ghost predicate LastNamed(loads: seq<Load>, l: nat, id: string) {
    l < |loads| && loads[l].id == id && forall k :: l < k < |loads| ==> loads[k].id != id
  }

  lemma {:induction false} LoadNamedReads(loads: seq<Load>, id: string)
    ensures LoadNamed(loads, id).None? <==> forall l :: 0 <= l < |loads| ==> loads[l].id != id
    ensures LoadNamed(loads, id).Some? ==>
      exists l: nat :: LastNamed(loads, l, id) && LoadNamed(loads, id).value == loads[l]
    ensures forall l: nat :: LastNamed(loads, l, id) ==> LoadNamed(loads, id) == Some(loads[l])
  {
    if loads != [] {
      var n := |loads| - 1;
      LoadNamedReads(loads[..n], id);
      if loads[n].id == id {
        assert LastNamed(loads, n, id);
      } else {
        forall l: nat
          ensures LastNamed(loads, l, id) <==> LastNamed(loads[..n], l, id)
        {
        }
      }
    }
  }

  /** The load the match names, the last one where several have the name, goes to a place in the region. */
  ghost predicate DeliversTo(e: Epoch, m: DriverLoadMatch, region: string) {
    exists l: nat :: LastNamed(e.loads, l, m.loadID) && e.regionOf(e.loads[l].destination) == region
  }

  lemma DestinationReads(e: Epoch, m: DriverLoadMatch, region: string)
    ensures Destination(e, m) == Some(region) <==> DeliversTo(e, m, region)
  {
    LoadNamedReads(e.loads, m.loadID);
  }

  /** The matches among the first n that deliver to the region. */
  ghost function Deliveries(e: Epoch, n: nat, region: string): (s: set<int>)
    requires n <= |e.matches|
    ensures forall k :: k in s <==> 0 <= k < n && DeliversTo(e, e.matches[k], region)
  {
    set k | 0 <= k < n && DeliversTo(e, e.matches[k], region)
  }

  lemma DeliveriesGrow(e: Epoch, n: nat, region: string)
    requires 0 < n <= |e.matches|
    ensures n - 1 !in Deliveries(e, n - 1, region)
    ensures Deliveries(e, n, region)
         == Deliveries(e, n - 1, region) + (if DeliversTo(e, e.matches[n - 1], region) then {n - 1} else {})
  {
  }

  lemma {:induction false} ArrivalsReads(e: Epoch, n: nat, region: string)
    requires n <= |e.matches|
    ensures Arrivals(e, n, region) == |Deliveries(e, n, region)|
  {
    if n == 0 {
      assert Deliveries(e, 0, region) == {};
    } else {
      ArrivalsReads(e, n - 1, region);
      DestinationReads(e, e.matches[n - 1], region);
      DeliveriesGrow(e, n, region);
    }
  }

  /** What match n teaches: its region learns the dual of its driver, at the level that counts the earlier deliveries
      there but is no higher than the last one; other regions learn nothing. */
  lemma MatchTeachesRegion(t: VfaTable, e: Epoch, alpha: real, levels: nat, n: nat, region: string)
    requires n < |e.matches| && levels > 0 && DeliversTo(e, e.matches[n], region) && e.matches[n].driverID in e.duals
    ensures var before, after := TableAfter(t, e, alpha, levels, n), TableAfter(t, e, alpha, levels, n + 1);
      var earlier := |Deliveries(e, n, region)|;
      && region in after.slopes
      && (forall r :: r != region ==> SameAt(after, before, r))
      && LearnsFrom(if region in before.slopes then before.slopes[region].slopes else [],
                    before.StartingSlopes(region, e.duals[e.matches[n].driverID], levels),
                    after.slopes[region].slopes, if earlier < levels then earlier else levels - 1,
                    e.duals[e.matches[n].driverID], alpha, levels)
  {
    var before, dual := TableAfter(t, e, alpha, levels, n), e.duals[e.matches[n].driverID];
    DestinationReads(e, e.matches[n], region);
    ArrivalsReads(e, n, region);
    before.UpdateLearns(region, EffectiveLevel(Arrivals(e, n, region), levels), dual, alpha, levels);
    assert before.Stored(region) == if region in before.slopes then before.slopes[region].slopes else [];
  }

  /** A match whose load or whose driver's dual is unknown teaches nothing. */
  lemma UnknownTeachesNothing(t: VfaTable, e: Epoch, alpha: real, levels: nat, n: nat)
    requires n < |e.matches| && levels > 0
    requires e.matches[n].driverID !in e.duals || forall region :: !DeliversTo(e, e.matches[n], region)
    ensures TableAfter(t, e, alpha, levels, n + 1) == TableAfter(t, e, alpha, levels, n)
  {
    if Destination(e, e.matches[n]).Some? {
      DestinationReads(e, e.matches[n], Destination(e, e.matches[n]).value);
    }
  }

  /** A match samples the index of its region with its driver's dual and the given noise, where all three are known. */
  lemma SampleReads(e: Epoch, index: map<string, int>, noise: real, m: DriverLoadMatch, region: string)
    requires DeliversTo(e, m, region)
    ensures SampleOf(e, index, noise, m)
         == if m.driverID in e.duals && region in index && index[region] >= 0
            then Some(Observation(index[region], e.duals[m.driverID], noise)) else None
  {
    DestinationReads(e, m, region);
  }

  // ---- Which orders the table does not see ----

  /** What the first n matches bring to a region, in order: the driver's dual, or nothing when it is unknown. */
  ghost function Visits(e: Epoch, n: nat, region: string): seq<Option<real>>
    requires n <= |e.matches|
  {
    if n == 0 then []
    else
      var m := e.matches[n - 1];
      if Destination(e, m) != Some(region) then Visits(e, n - 1, region)
      else Visits(e, n - 1, region) + [if m.driverID in e.duals then Some(e.duals[m.driverID]) else None]
  }

  lemma {:induction false} VisitsCountArrivals(e: Epoch, n: nat, region: string)
    requires n <= |e.matches|
    ensures |Visits(e, n, region)| == Arrivals(e, n, region)
  {
    if n > 0 {
      VisitsCountArrivals(e, n - 1, region);
    }
  }

  lemma UpdatesAgree(t: VfaTable, u: VfaTable, region: string, level: nat, dual: real, alpha: real, levels: nat)
    requires level < levels && SameAt(t, u, region)
    ensures SameAt(t.Updated(region, level, dual, alpha, levels), u.Updated(region, level, dual, alpha, levels), region)
  {
    assert t.StartingSlopes(region, dual, levels) == u.StartingSlopes(region, dual, levels);
    assert t.Moved(region, level, dual, alpha, levels) == u.Moved(region, level, dual, alpha, levels);
  }

  /** A match that goes elsewhere leaves a region alone. */
  lemma ElsewhereStays(t: VfaTable, e: Epoch, alpha: real, levels: nat, n: nat, region: string)
    requires 0 < n <= |e.matches| && levels > 0 && Destination(e, e.matches[n - 1]) != Some(region)
    ensures SameAt(TableAfter(t, e, alpha, levels, n), TableAfter(t, e, alpha, levels, n - 1), region)
    ensures Visits(e, n, region) == Visits(e, n - 1, region)
  {
  }

  /** The slopes that a visit leaves in its region. */
  ghost function Visited(t: VfaTable, region: string, visit: Option<real>, earlier: nat, alpha: real,
                         levels: nat): VfaTable
    requires levels > 0
  {
    if visit.None? then t else t.Updated(region, EffectiveLevel(earlier, levels), visit.value, alpha, levels)
  }

  lemma VisitTeaches(t: VfaTable, e: Epoch, alpha: real, levels: nat, n: nat, region: string)
    requires 0 < n <= |e.matches| && levels > 0 && Destination(e, e.matches[n - 1]) == Some(region)
    ensures var visits := Visits(e, n, region);
      && visits != [] && visits[..|visits| - 1] == Visits(e, n - 1, region)
      && TableAfter(t, e, alpha, levels, n)
         == Visited(TableAfter(t, e, alpha, levels, n - 1), region, visits[|visits| - 1], |visits| - 1, alpha, levels)
  {
    VisitsCountArrivals(e, n - 1, region);
  }

  /** What a region learns depends on its own visits alone. */
  lemma {:induction false} VisitsDecide(t: VfaTable, e: Epoch, n: nat, u: VfaTable, f: Epoch, k: nat, alpha: real,
                                        levels: nat, region: string)
    requires n <= |e.matches| && k <= |f.matches| && levels > 0
    requires SameAt(t, u, region) && Visits(e, n, region) == Visits(f, k, region)
    ensures SameAt(TableAfter(t, e, alpha, levels, n), TableAfter(u, f, alpha, levels, k), region)
    decreases n + k
  {
    if n > 0 && Destination(e, e.matches[n - 1]) != Some(region) {
      ElsewhereStays(t, e, alpha, levels, n, region);
      VisitsDecide(t, e, n - 1, u, f, k, alpha, levels, region);
    } else if k > 0 && Destination(f, f.matches[k - 1]) != Some(region) {
      ElsewhereStays(u, f, alpha, levels, k, region);
      VisitsDecide(t, e, n, u, f, k - 1, alpha, levels, region);
    } else if n > 0 {
      BothVisit(t, e, n, u, f, k, alpha, levels, region);
    } else if k > 0 {
      VisitTeaches(u, f, alpha, levels, k, region);
    }
  }

  lemma {:induction false} BothVisit(t: VfaTable, e: Epoch, n: nat, u: VfaTable, f: Epoch, k: nat, alpha: real,
                                     levels: nat, region: string)
    requires 0 < n <= |e.matches| && k <= |f.matches| && levels > 0
    requires SameAt(t, u, region) && Visits(e, n, region) == Visits(f, k, region)
    requires Destination(e, e.matches[n - 1]) == Some(region)
    requires k == 0 || Destination(f, f.matches[k - 1]) == Some(region)
    ensures SameAt(TableAfter(t, e, alpha, levels, n), TableAfter(u, f, alpha, levels, k), region)
    decreases n + k, 0
  {
    VisitTeaches(t, e, alpha, levels, n, region);
    VisitTeaches(u, f, alpha, levels, k, region);
    VisitsDecide(t, e, n - 1, u, f, k - 1, alpha, levels, region);
    var visits := Visits(e, n, region);
    var visit := visits[|visits| - 1];
    if visit.Some? {
      UpdatesAgree(TableAfter(t, e, alpha, levels, n - 1), TableAfter(u, f, alpha, levels, k - 1), region,
                   EffectiveLevel(|visits| - 1, levels), visit.value, alpha, levels);
    }
  }

  /** Any two orders of an epoch in which each region is visited in the same order leave the same table. */
  lemma {:induction false} TableIgnoresInterleaving(t: VfaTable, e: Epoch, f: Epoch, alpha: real, levels: nat)
    requires levels > 0
    requires forall region :: Visits(e, |e.matches|, region) == Visits(f, |f.matches|, region)
    ensures TableAfter(t, e, alpha, levels, |e.matches|) == TableAfter(t, f, alpha, levels, |f.matches|)
  {
    var after, after' := TableAfter(t, e, alpha, levels, |e.matches|), TableAfter(t, f, alpha, levels, |f.matches|);
    forall region
      ensures SameAt(after, after', region)
    {
      VisitsDecide(t, e, |e.matches|, t, f, |f.matches|, alpha, levels, region);
    }
    SameEverywhere(after, after');
  }

  lemma SameEverywhere(t: VfaTable, u: VfaTable)
    requires forall region :: SameAt(t, u, region)
    ensures t == u
  {
    forall region
      ensures region in t.slopes <==> region in u.slopes
      ensures region in t.slopes ==> t.slopes[region] == u.slopes[region]
    {
      assert SameAt(t, u, region);
    }
    assert t.slopes == u.slopes;
  }

  /** The epoch with matches i and i + 1 exchanged. */
  ghost function Exchanged(e: Epoch, i: nat): Epoch
    requires i + 1 < |e.matches|
  {
    e.(matches := e.matches[i := e.matches[i + 1]][i + 1 := e.matches[i]])
  }

  lemma {:induction false} ExchangeKeepsVisits(e: Epoch, i: nat, n: nat, region: string)
    requires i + 1 < |e.matches| && n <= |e.matches| && n != i + 1
    requires Destination(e, e.matches[i]) != Some(region) || Destination(e, e.matches[i + 1]) != Some(region)
    ensures Visits(Exchanged(e, i), n, region) == Visits(e, n, region)
  {
    var f := Exchanged(e, i);
    if n == i + 2 {
      ExchangeKeepsVisits(e, i, i, region);
      assert f.matches[i] == e.matches[i + 1] && f.matches[i + 1] == e.matches[i];
      assert Visits(e, n - 1, region) == Visits(e, i + 1, region);
      assert Visits(f, n - 1, region) == Visits(f, i + 1, region);
    } else if n > 0 {
      ExchangeKeepsVisits(e, i, n - 1, region);
    }
  }

  /** Neighbouring matches into different regions can be exchanged, and so can a match whose load is unknown. */
  lemma {:induction false} DifferentRegionsCommute(t: VfaTable, e: Epoch, i: nat, alpha: real, levels: nat)
    requires levels > 0 && i + 1 < |e.matches|
    requires Destination(e, e.matches[i]).None? || Destination(e, e.matches[i]) != Destination(e, e.matches[i + 1])
    ensures TableAfter(t, Exchanged(e, i), alpha, levels, |e.matches|) == TableAfter(t, e, alpha, levels, |e.matches|)
  {
    forall region
      ensures Visits(Exchanged(e, i), |e.matches|, region) == Visits(e, |e.matches|, region)
    {
      ExchangeKeepsVisits(e, i, |e.matches|, region);
    }
    TableIgnoresInterleaving(t, Exchanged(e, i), e, alpha, levels);
  }

  // ---- The learner ----

  lemma {:induction false} FoldAppend<S, O>(step: (S, O) -> S, s: S, events: seq<O>, o: O)
    ensures Fold(step, s, events + [o]) == step(Fold(step, s, events), o)
    decreases |events|
  {
    if events == [] {
      assert events + [o] == [o];
      assert Fold(step, step(s, o), []) == step(s, o);
    } else {
      assert (events + [o])[1..] == events[1..] + [o];
      FoldAppend(step, step(s, events[0]), events[1..], o);
    }
  }

  lemma RunAppend(n: nat, b: Belief, obs: seq<Observation>, o: Observation)
    ensures Run(n, b, obs + [o]) == GaussianBelief.Step(n, Run(n, b, obs), o)
  {
    FoldAppend((x: Belief, q: Observation) => GaussianBelief.Step(n, x, q), b, obs, o);
  }

  /** A sample that the belief update refuses. */
  ghost predicate Refused(e: Epoch, index: map<string, int>, noise: real, dim: nat, m: DriverLoadMatch) {
    SampledIndex(e, index, m).Some? && (!(0 <= SampledIndex(e, index, m).value < dim) || noise < 0.0)
  }

  ghost predicate Counted(e: Epoch, n: nat, arrivals: map<string, nat>)
    requires n <= |e.matches|
  {
    forall g :: Arrivals(e, n, g) == if g in arrivals then arrivals[g] else 0
  }

  lemma CountNext(e: Epoch, n: nat, arrivals: map<string, nat>, region: string)
    requires n < |e.matches| && Counted(e, n, arrivals) && Destination(e, e.matches[n]) == Some(region)
    ensures Counted(e, n + 1, arrivals[region := (if region in arrivals then arrivals[region] else 0) + 1])
  {
  }

  lemma CountSkip(e: Epoch, n: nat, arrivals: map<string, nat>)
    requires n < |e.matches| && Counted(e, n, arrivals) && Destination(e, e.matches[n]) == None
    ensures Counted(e, n + 1, arrivals)
  {
  }

  lemma HarmonicStep(a: real, t: real)
    requires a > 0.0 && t >= 0.0
    ensures 0.0 < a / (a + t) <= 1.0 && a / (a + t) * (a + t) == a
  {
    var q := a / (a + t);
    assert q * (a + t) == a;
    NonNegativeQuotient(a, a + t);
    NonNegativeQuotient(t, a + t);
    var r := t / (a + t);
    assert r * (a + t) == t;
    assert (q + r) * (a + t) == a + t;
  }

  ghost predicate Finds(loadMap: map<string, Load>, loads: seq<Load>) {
    forall id :: LoadNamed(loads, id) == if id in loadMap then Some(loadMap[id]) else None
  }

  method IndexLoads(loads: seq<Load>) returns (loadMap: map<string, Load>)
    ensures Finds(loadMap, loads)
  {
    loadMap := map[];
    var i := 0;
    while i < |loads|
      invariant 0 <= i <= |loads|
      invariant Finds(loadMap, loads[..i])
    {
      assert loads[..i + 1][..i] == loads[..i];
      loadMap := loadMap[loads[i].id := loads[i]];
      i := i + 1;
    }
    assert loads[..|loads|] == loads;
  }

  class PiecewiseVFALearner {
    const table: VfaTable
    const ckg: Option<CorrelatedKnowledgeGradient>
    const regionOf: Location -> string
    const regionIndex: map<string, int>
    const config: LearningConfig
    const epochCount: nat

    ghost predicate Valid() {
      ValidConfig(config) && (ckg.Some? ==> ckg.value.Valid())
    }

    constructor (table: VfaTable, ckg: Option<CorrelatedKnowledgeGradient>, regionOf: Location -> string,
                 regionIndex: map<string, int>, config: LearningConfig, epochCount: nat)
      requires ValidConfig(config) && (ckg.Some? ==> ckg.value.Valid())
      ensures Valid() && this.table == table && this.ckg == ckg && this.regionOf == regionOf
      ensures this.regionIndex == regionIndex && this.config == config && this.epochCount == epochCount
    {
      this.table := table;
      this.ckg := ckg;
      this.regionOf := regionOf;
      this.regionIndex := regionIndex;
      this.config := config;
      this.epochCount := epochCount;
    }

    static method New(table: VfaTable, ckg: Option<CorrelatedKnowledgeGradient>, regionOf: Location -> string,
                      regionIndex: map<string, int>, config: LearningConfig)
      returns (r: Result<PiecewiseVFALearner, LearnerError>)
      requires ckg.Some? ==> ckg.value.Valid()
      ensures r.Ok? <==> ValidConfig(config)
      ensures r == Err(BadStepSize) <==> config.stepSize <= 0.0
      ensures r == Err(BadHarmonic) <==> config.stepSize > 0.0 && config.harmonicA <= 0.0
      ensures r == Err(BadMaxSlopes) <==> config.stepSize > 0.0 && config.harmonicA > 0.0 && config.maxSlopes <= 0
      ensures r.Ok? ==> r.value.Valid() && fresh(r.value) && r.value.table == table && r.value.epochCount == 0
      ensures r.Ok? ==> r.value.config == config && r.value.ckg == ckg && r.value.regionIndex == regionIndex
      ensures r.Ok? ==> r.value.regionOf == regionOf
    {
      if config.stepSize <= 0.0 {
        return Err(BadStepSize);
      }
      if config.harmonicA <= 0.0 {
        return Err(BadHarmonic);
      }
      if config.maxSlopes <= 0 {
        return Err(BadMaxSlopes);
      }
      var learner := new PiecewiseVFALearner(table, ckg, regionOf, regionIndex, config, 0);
      return Ok(learner);
    }

    /** a / (a + epochs so far) in harmonic mode: a step in (0, 1], whose inverse grows by 1 / a each epoch. */
    function StepSize(): (alpha: real)
      requires Valid()
      ensures alpha > 0.0
      ensures !config.harmonicStepSize ==> alpha == config.stepSize
      ensures config.harmonicStepSize ==>
        alpha <= 1.0 && alpha * (config.harmonicA + epochCount as real) == config.harmonicA
    {
      HarmonicStep(config.harmonicA, epochCount as real);
      if !config.harmonicStepSize then config.stepSize
      else
        var t := (epochCount + 1) as real;
        config.harmonicA / (config.harmonicA + t - 1.0)
    }

    ghost predicate Sampling() {
      config.useCKG && ckg.Some?
    }

    /** One of the first n samples is one the belief update refuses. */
    ghost predicate AnyRefused(e: Epoch, n: nat)
      requires Valid() && n <= |e.matches|
    {
      && Sampling()
      && exists i :: 0 <= i < n && Refused(e, regionIndex, config.ckgObservationVar, ckg.value.dim, e.matches[i])
    }

    /** Match i is the first whose sample is refused, and the error names its region and why. */
    ghost predicate FailsAt(e: Epoch, i: nat, error: LearnerError)
      requires Valid()
    {
      && i < |e.matches| && !AnyRefused(e, i) && AnyRefused(e, i + 1)
      && Destination(e, e.matches[i]).Some?
      && var region := Destination(e, e.matches[i]).value;
      && region in regionIndex
      && var known := 0 <= regionIndex[region] < ckg.value.dim;
      && error == CkgFailed(region, if known then NegativeVariance else DimensionMismatch)
    }

    /** The belief held now follows from the first n samples of the epoch. */
    ghost predicate Follows(current: Option<CorrelatedKnowledgeGradient>, e: Epoch, n: nat)
      requires Valid() && n <= |e.matches|
      reads if ckg.Some? then {ckg.value.mean, ckg.value.covariance.data} else {}
      reads if current.Some? then {current.value.mean, current.value.covariance.data} else {}
    {
      if Sampling() then
        && current.Some? && current.value.Valid() && current.value.dim == ckg.value.dim
        && current.value.Value()
           == Run(ckg.value.dim, ckg.value.Value(), Samples(e, regionIndex, config.ckgObservationVar, e.matches[..n]))
      else current == ckg
    }

    /** Feed one match's dual to the spatial belief, if it is in use and knows the region. */
    method Sample(current: Option<CorrelatedKnowledgeGradient>, ghost e: Epoch, ghost n: nat, region: string,
                  dual: real)
      returns (r: Result<Option<CorrelatedKnowledgeGradient>, LearnerError>)
      requires Valid() && n < |e.matches| && Follows(current, e, n)
      requires Teaches(e, e.matches[n]) && Destination(e, e.matches[n]) == Some(region)
      requires dual == e.duals[e.matches[n].driverID]
      ensures r.Err? <==> Sampling() && Refused(e, regionIndex, config.ckgObservationVar, ckg.value.dim, e.matches[n])
      ensures r.Err? && !AnyRefused(e, n) ==> FailsAt(e, n, r.error)
      ensures r.Ok? ==> Follows(r.value, e, n + 1)
    {
      SamplesNext(e, regionIndex, config.ckgObservationVar, n);
      if !config.useCKG || current.None? || region !in regionIndex {
        return Ok(current);
      }
      ghost var obs := Samples(e, regionIndex, config.ckgObservationVar, e.matches[..n]);
      var k := regionIndex[region];
      var updated := current.value.UpdateBayesian(k, dual, config.ckgObservationVar);
      if updated.Err? {
        return Err(CkgFailed(region, updated.error));
      }
      RunAppend(ckg.value.dim, ckg.value.Value(), obs, Observation(k, dual, config.ckgObservationVar));
      return Ok(Some(updated.value));
    }

    ghost function TableSoFar(e: Epoch, n: nat): VfaTable
      requires Valid() && n <= |e.matches|
    {
      TableAfter(table, e, EffectiveStep(StepSize()), config.maxSlopes, n)
    }

    method Learn(currentTable: VfaTable, currentCKG: Option<CorrelatedKnowledgeGradient>, region: string,
                 arrivalIdx: nat,
                 dual: real, ghost e: Epoch, ghost n: nat)
      returns (r: Result<(VfaTable, Option<CorrelatedKnowledgeGradient>), LearnerError>)
      requires Valid() && n < |e.matches| && Follows(currentCKG, e, n) && !AnyRefused(e, n)
      requires Teaches(e, e.matches[n]) && Destination(e, e.matches[n]) == Some(region)
      requires currentTable == TableSoFar(e, n) && arrivalIdx == Arrivals(e, n, region)
      requires dual == e.duals[e.matches[n].driverID]
      ensures r.Err? ==> FailsAt(e, n, r.error)
      ensures r.Ok? ==> !AnyRefused(e, n + 1) && r.value.0 == TableSoFar(e, n + 1) && Follows(r.value.1, e, n + 1)
    {
      var t, _ := currentTable.UpdateCAVE(region, arrivalIdx, dual, StepSize(), config.maxSlopes);
      var sampled := Sample(currentCKG, e, n, region, dual);
      if sampled.Err? {
        return Err(sampled.error);
      }
      return Ok((t, sampled.value));
    }

    lemma NothingLearned(current: Option<CorrelatedKnowledgeGradient>, e: Epoch, n: nat)
      requires Valid() && n < |e.matches| && Follows(current, e, n) && !AnyRefused(e, n) && !Teaches(e, e.matches[n])
      ensures Follows(current, e, n + 1) && !AnyRefused(e, n + 1) && TableSoFar(e, n + 1) == TableSoFar(e, n)
    {
      SamplesNext(e, regionIndex, config.ckgObservationVar, n);
    }

    /** What is carried from match to match: table, spatial belief, and arrivals so far per region. */
    ghost predicate Carried(e: Epoch, n: nat, t: VfaTable, current: Option<CorrelatedKnowledgeGradient>,
                            arrivals: map<string, nat>)
      requires Valid() && n <= |e.matches|
      reads if ckg.Some? then {ckg.value.mean, ckg.value.covariance.data} else {}
      reads if current.Some? then {current.value.mean, current.value.covariance.data} else {}
    {
      t == TableSoFar(e, n) && Follows(current, e, n) && Counted(e, n, arrivals) && !AnyRefused(e, n)
    }

    method VisitMatch(t: VfaTable, current: Option<CorrelatedKnowledgeGradient>, arrivals: map<string, nat>,
                      loadMap: map<string, Load>, duals: map<string, real>, m: DriverLoadMatch, ghost e: Epoch,
                      ghost n: nat)
      returns (r: Result<(VfaTable, Option<CorrelatedKnowledgeGradient>), LearnerError>, arrivals': map<string, nat>)
      requires Valid() && n < |e.matches| && Carried(e, n, t, current, arrivals)
      requires m == e.matches[n] && duals == e.duals && regionOf == e.regionOf && Finds(loadMap, e.loads)
      ensures r.Err? ==> FailsAt(e, n, r.error)
      ensures r.Ok? ==> Carried(e, n + 1, r.value.0, r.value.1, arrivals')
    {
      arrivals' := arrivals;
      if m.loadID !in loadMap {
        CountSkip(e, n, arrivals);
        NothingLearned(current, e, n);
        return Ok((t, current)), arrivals';
      }
      var region := regionOf(loadMap[m.loadID].destination);
      var arrivalIdx := if region in arrivals then arrivals[region] else 0;
      CountNext(e, n, arrivals, region);
      arrivals' := arrivals[region := arrivalIdx + 1];
      if m.driverID !in duals {
        NothingLearned(current, e, n);
        return Ok((t, current)), arrivals';
      }
      r := Learn(t, current, region, arrivalIdx, duals[m.driverID], e, n);
    }

    lemma NothingCarried(e: Epoch)
      requires Valid()
      ensures Carried(e, 0, table, ckg, map[])
    {
      assert e.matches[..0] == [];
    }

    lemma RefusalsStay(e: Epoch, n: nat, k: nat)
      requires Valid() && n <= k <= |e.matches| && AnyRefused(e, n)
      ensures AnyRefused(e, k)
    {
    }

    /** Feed the duals of a solved matching to the table, match by match, and to the spatial belief when it is in use.
        The result is a new learner; this one is left as it is. */
    method UpdateFromMatching(sol: MatchingSolution, loads: seq<Load>)
      returns (r: Result<PiecewiseVFALearner, LearnerError>)
      requires Valid()
      ensures var e := Epoch(sol.matches, loads, sol.driverDualValues, regionOf);
        && (r.Err? <==> AnyRefused(e, |e.matches|))
        && (r.Err? ==> exists i :: FailsAt(e, i, r.error))
        && (r.Ok? ==>
              && fresh(r.value) && r.value.Valid()
              && r.value.table == TableAfter(table, e, EffectiveStep(StepSize()), config.maxSlopes, |e.matches|)
              && Follows(r.value.ckg, e, |e.matches|)
              && r.value.config == config && r.value.epochCount == epochCount + 1
              && r.value.regionOf == regionOf && r.value.regionIndex == regionIndex)
    {
      ghost var e := Epoch(sol.matches, loads, sol.driverDualValues, regionOf);
      var loadMap := IndexLoads(loads);
      var currentTable, currentCKG := table, ckg;
      var regionArrivals: map<string, nat> := map[];
      NothingCarried(e);
      var i := 0;
      while i < |sol.matches|
        invariant 0 <= i <= |sol.matches|
        invariant Carried(e, i, currentTable, currentCKG, regionArrivals)
      {
        var visited;
        visited, regionArrivals := VisitMatch(currentTable, currentCKG, regionArrivals, loadMap, sol.driverDualValues,
                                              sol.matches[i], e, i);
        if visited.Err? {
          RefusalsStay(e, i + 1, |e.matches|);
          return Err(visited.error);
        }
        currentTable, currentCKG := visited.value.0, visited.value.1;
        i := i + 1;
      }
      var learner := new PiecewiseVFALearner(currentTable, currentCKG, regionOf, regionIndex, config, epochCount + 1);
      return Ok(learner);
    }
  }
}
