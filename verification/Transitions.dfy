/** Dispatching matched drivers: the physical state transition and what every run of transitions keeps. */
module Transitions {
  import opened Wrappers
  import opened Pigeonhole
  import opened Sorting
  import opened Dispatch
  import opened Fleet
  import opened Keyed
  import opened Resources

  datatype TransitionError =
    | DuplicateDriver(id: string)
    | DuplicateLoad(id: string)
    | DriverNotFound(id: string)
    | DriverAlreadyAssigned(id: string)
    | LoadNotFound(id: string)

  /** How the hours-of-service clocks advance over a trip; None when they stay as they are. */
  type Advance = (Driver, Load) -> Option<Clocks>

  function MatchDriver(m: DriverLoadMatch): string {
    m.driverID
  }

  function MatchLoad(m: DriverLoadMatch): string {
    m.loadID
  }

  /** The match names an idle driver and a load of the state. */
  ghost predicate MatchOk(rs: ResourceState, m: DriverLoadMatch) {
    && rs.GetDriver(m.driverID).Some? && rs.GetDriver(m.driverID).value.IsIdle()
    && rs.GetLoad(m.loadID).Some?
  }

  ghost predicate AllOk(rs: ResourceState, matches: seq<DriverLoadMatch>) {
    forall i :: 0 <= i < |matches| ==> MatchOk(rs, matches[i])
  }

  ghost predicate MatchesOk(rs: ResourceState, matches: seq<DriverLoadMatch>) {
    && Distinct(MapSeq(matches, MatchDriver)) && Distinct(MapSeq(matches, MatchLoad))
    && AllOk(rs, matches)
  }

  /** Pairwise different drivers and loads, all of them known, and the drivers without a load. */
  ghost predicate Dispatchable(rs: ResourceState, matches: seq<DriverLoadMatch>) {
    && (forall i, j :: 0 <= i < j < |matches| ==>
          matches[i].driverID != matches[j].driverID && matches[i].loadID != matches[j].loadID)
    && forall i :: 0 <= i < |matches| ==>
         && rs.GetDriver(matches[i].driverID).Some?
         && rs.GetDriver(matches[i].driverID).value.assignedLoadID == ""
         && rs.GetLoad(matches[i].loadID).Some?
  }

  lemma MatchesOkReads(rs: ResourceState, matches: seq<DriverLoadMatch>)
    ensures MatchesOk(rs, matches) <==> Dispatchable(rs, matches)
  {
    var ds, ls := MapSeq(matches, MatchDriver), MapSeq(matches, MatchLoad);
    if MatchesOk(rs, matches) {
      forall i, j | 0 <= i < j < |matches|
        ensures matches[i].driverID != matches[j].driverID && matches[i].loadID != matches[j].loadID
      {
        assert ds[i] != ds[j] && ls[i] != ls[j];
      }
      forall i | 0 <= i < |matches|
        ensures rs.GetDriver(matches[i].driverID).Some? && rs.GetLoad(matches[i].loadID).Some?
        ensures rs.GetDriver(matches[i].driverID).value.assignedLoadID == ""
      {
        assert MatchOk(rs, matches[i]);
      }
    }
  }

  function Less(x: real, hours: int): real {
    if x - hours as real > 0.0 then x - hours as real else 0.0
  }

  /** The driver after delivering a load. */
  function Delivered(d: Driver, l: Load, m: DriverLoadMatch, advance: Advance): Driver {
    var moved := d.(currentLocation := l.destination, availableEpoch := m.dispatchEpoch + l.estimatedTransitEpochs,
                    assignedLoadID := "",
                    driveHoursRemaining := Less(d.driveHoursRemaining, l.estimatedTransitEpochs),
                    dutyHoursRemaining := Less(d.dutyHoursRemaining, l.estimatedTransitEpochs));
    if d.clocks.Some? && advance(d, l).Some? then moved.(clocks := advance(d, l)) else moved
  }

  /** The fleet after the first n matches, position by position. */
  ghost function FleetAfter(rs: ResourceState, matches: seq<DriverLoadMatch>, advance: Advance,
                            n: nat): (f: seq<Driver>)
    requires n <= |matches| && AllOk(rs, matches)
    ensures |f| == |rs.drivers|
  {
    if n == 0 then rs.drivers
    else
      var before, m := FleetAfter(rs, matches, advance, n - 1), matches[n - 1];
      var at := rs.driverIndex[m.driverID];
      before[at := Delivered(before[at], rs.GetLoad(m.loadID).value, m, advance)]
  }

  /** The loads whose identifiers are not among ids. */
  function Outstanding(loads: seq<Load>, ids: set<string>): seq<Load> {
    if loads == [] then []
    else
      var n := |loads| - 1;
      Outstanding(loads[..n], ids) + (if loads[n].id in ids then [] else [loads[n]])
  }

  function TakenIDs(matches: seq<DriverLoadMatch>): set<string> {
    set i | 0 <= i < |matches| :: matches[i].loadID
  }

  /** rs' is the state after the matches and the arrival of newLoads. */
  ghost predicate Follows(rs: ResourceState, matches: seq<DriverLoadMatch>, newLoads: seq<Load>, advance: Advance,
                          rs': ResourceState)
    requires MatchesOk(rs, matches)
  {
    && ValidResource(rs')
    && multiset(rs'.drivers) == multiset(FleetAfter(rs, matches, advance, |matches|))
    && multiset(rs'.loads) == multiset(Outstanding(rs.loads, TakenIDs(matches)) + newLoads)
  }

  // ---- The transition ----

  ghost predicate SeenUpTo(seen: set<string>, ids: seq<string>, k: nat)
    requires k <= |ids|
  {
    forall id :: id in seen <==> id in ids[..k]
  }

  /** The error names what is wrong with the match itself: the driver is judged before the load. */
  ghost predicate Unfit(rs: ResourceState, m: DriverLoadMatch, e: TransitionError) {
    match e
    case DriverNotFound(id) => id == m.driverID && rs.GetDriver(id).None?
    case DriverAlreadyAssigned(id) => id == m.driverID && rs.GetDriver(id).Some? && !rs.GetDriver(id).value.IsIdle()
    case LoadNotFound(id) =>
      && id == m.loadID && rs.GetLoad(id).None?
      && rs.GetDriver(m.driverID).Some? && rs.GetDriver(m.driverID).value.IsIdle()
    case _ => false
  }

  /** One match: driver known, driver idle, load known, in this order. */
  method CheckMatch(rs: ResourceState, m: DriverLoadMatch) returns (error: Option<TransitionError>)
    ensures error.None? <==> MatchOk(rs, m)
    ensures error.Some? ==> Unfit(rs, m, error.value)
  {
    var d := rs.GetDriver(m.driverID);
    if d.None? {
      return Some(DriverNotFound(m.driverID));
    }
    if !d.value.IsIdle() {
      return Some(DriverAlreadyAssigned(m.driverID));
    }
    if rs.GetLoad(m.loadID).None? {
      return Some(LoadNotFound(m.loadID));
    }
    return None;
  }

  ghost predicate FirstOk(rs: ResourceState, matches: seq<DriverLoadMatch>, n: nat)
    requires n <= |matches|
  {
    forall k :: 0 <= k < n ==> MatchOk(rs, matches[k])
  }

  lemma OneMoreOk(rs: ResourceState, matches: seq<DriverLoadMatch>, n: nat)
    requires n < |matches| && FirstOk(rs, matches, n) && MatchOk(rs, matches[n])
    ensures FirstOk(rs, matches, n + 1)
  {
  }

  /** Match i is the first that cannot be carried out, and e says why: a driver or a load used before, judged in this
      order, or else what is wrong with the match itself. */
  ghost predicate Refused(rs: ResourceState, matches: seq<DriverLoadMatch>, i: nat, e: TransitionError) {
    && i < |matches| && FirstOk(rs, matches, i)
    && var ds, ls, m := MapSeq(matches, MatchDriver), MapSeq(matches, MatchLoad), matches[i];
    && Distinct(ds[..i]) && Distinct(ls[..i])
    && if m.driverID in ds[..i] then e == DuplicateDriver(m.driverID)
       else if m.loadID in ls[..i] then e == DuplicateLoad(m.loadID)
       else Unfit(rs, m, e)
  }

  /** The first n matches pass, and the sets hold their drivers and loads. */
  ghost predicate CheckedTo(rs: ResourceState, matches: seq<DriverLoadMatch>, n: nat, drivers: set<string>,
                            loads: set<string>) {
    && n <= |matches| && FirstOk(rs, matches, n)
    && var ds, ls := MapSeq(matches, MatchDriver), MapSeq(matches, MatchLoad);
    && SeenUpTo(drivers, ds, n) && SeenUpTo(loads, ls, n) && Distinct(ds[..n]) && Distinct(ls[..n])
  }

  lemma OneMoreChecked(rs: ResourceState, matches: seq<DriverLoadMatch>, n: nat, drivers: set<string>,
                       loads: set<string>)
    requires n < |matches| && CheckedTo(rs, matches, n, drivers, loads) && MatchOk(rs, matches[n])
    requires matches[n].driverID !in drivers && matches[n].loadID !in loads
    ensures CheckedTo(rs, matches, n + 1, drivers + {matches[n].driverID}, loads + {matches[n].loadID})
  {
    var ds, ls := MapSeq(matches, MatchDriver), MapSeq(matches, MatchLoad);
    assert ds[..n + 1] == ds[..n] + [ds[n]] && ls[..n + 1] == ls[..n] + [ls[n]];
    OneMoreOk(rs, matches, n);
  }

  lemma RefusedIsNotOk(rs: ResourceState, matches: seq<DriverLoadMatch>, i: nat, e: TransitionError)
    requires Refused(rs, matches, i, e)
    ensures !MatchesOk(rs, matches)
  {
    var ds, ls := MapSeq(matches, MatchDriver), MapSeq(matches, MatchLoad);
    if ds[i] in ds[..i] {
      Repeated(ds, i);
    } else if ls[i] in ls[..i] {
      Repeated(ls, i);
    } else {
      assert !MatchOk(rs, matches[i]);
    }
  }

  lemma AllChecked(rs: ResourceState, matches: seq<DriverLoadMatch>, drivers: set<string>, loads: set<string>)
    requires CheckedTo(rs, matches, |matches|, drivers, loads)
    ensures MatchesOk(rs, matches)
  {
    var ds, ls := MapSeq(matches, MatchDriver), MapSeq(matches, MatchLoad);
    assert ds[..|ds|] == ds && ls[..|ls|] == ls;
  }

  /** One match: its driver new, its load new, then the match itself. */
  method CheckNext(rs: ResourceState, matches: seq<DriverLoadMatch>, i: nat, drivers: set<string>, loads: set<string>)
    returns (error: Option<TransitionError>)
    requires i < |matches| && CheckedTo(rs, matches, i, drivers, loads)
    ensures error.None? ==> MatchOk(rs, matches[i]) && matches[i].driverID !in drivers && matches[i].loadID !in loads
    ensures error.Some? ==> Refused(rs, matches, i, error.value)
  {
    var m := matches[i];
    if m.driverID in drivers {
      return Some(DuplicateDriver(m.driverID));
    }
    if m.loadID in loads {
      return Some(DuplicateLoad(m.loadID));
    }
    error := CheckMatch(rs, m);
  }

  method CheckMatches(rs: ResourceState, matches: seq<DriverLoadMatch>) returns (error: Option<TransitionError>)
    requires ValidResource(rs)
    ensures error.None? <==> MatchesOk(rs, matches)
    ensures error.None? <==> Dispatchable(rs, matches)
    ensures error.Some? ==> exists i :: Refused(rs, matches, i, error.value)
  {
    var seenDrivers: set<string>, seenLoads: set<string> := {}, {};
    var i := 0;
    while i < |matches|
      invariant 0 <= i <= |matches| && CheckedTo(rs, matches, i, seenDrivers, seenLoads)
    {
      error := CheckNext(rs, matches, i, seenDrivers, seenLoads);
      if error.Some? {
        RefusedIsNotOk(rs, matches, i, error.value);
        MatchesOkReads(rs, matches);
        return;
      }
      OneMoreChecked(rs, matches, i, seenDrivers, seenLoads);
      seenDrivers := seenDrivers + {matches[i].driverID};
      seenLoads := seenLoads + {matches[i].loadID};
      i := i + 1;
    }
    AllChecked(rs, matches, seenDrivers, seenLoads);
    MatchesOkReads(rs, matches);
    return None;
  }

  lemma Repeated(ids: seq<string>, i: nat)
    requires i < |ids| && ids[i] in ids[..i]
    ensures !Distinct(ids)
  {
    var k :| 0 <= k < i && ids[..i][k] == ids[i];
    assert ids[k] == ids[i];
  }

  method DeliverAll(rs: ResourceState, matches: seq<DriverLoadMatch>, advance: Advance) returns (next: seq<Driver>)
    requires AllOk(rs, matches)
    ensures next == FleetAfter(rs, matches, advance, |matches|)
  {
    next := rs.drivers;
    var i := 0;
    while i < |matches|
      invariant 0 <= i <= |matches|
      invariant next == FleetAfter(rs, matches, advance, i)
    {
      var m := matches[i];
      assert MatchOk(rs, m);
      var at := rs.driverIndex[m.driverID];
      next := next[at := Delivered(next[at], rs.loads[rs.loadIndex[m.loadID]], m, advance)];
      i := i + 1;
    }
  }

  method Unmatched(loads: seq<Load>, taken: set<string>) returns (left: seq<Load>)
    ensures left == Outstanding(loads, taken)
  {
    left := [];
    var i := 0;
    while i < |loads|
      invariant 0 <= i <= |loads|
      invariant left == Outstanding(loads[..i], taken)
    {
      assert loads[..i + 1][..i] == loads[..i];
      if loads[i].id !in taken {
        left := left + [loads[i]];
      }
      i := i + 1;
    }
    assert loads[..|loads|] == loads;
  }

  /** Delivers every match or rejects all of them; the state itself is never changed. */
  method Transition(rs: ResourceState, matches: seq<DriverLoadMatch>, newLoads: seq<Load>, advance: Advance)
    returns (r: Result<ResourceState, TransitionError>)
    requires ValidResource(rs)
    ensures r.Ok? <==> MatchesOk(rs, matches)
    ensures r.Ok? <==> Dispatchable(rs, matches)
    ensures r.Ok? ==> Follows(rs, matches, newLoads, advance, r.value)
    ensures r.Err? ==> exists i :: Refused(rs, matches, i, r.error)
  {
    var invalid := CheckMatches(rs, matches);
    if invalid.Some? {
      return Err(invalid.value);
    }
    var next := DeliverAll(rs, matches, advance);
    var left := Unmatched(rs.loads, TakenIDs(matches));
    var state := NewResourceState(next, left + newLoads);
    return Ok(state);
  }

  // ---- What one transition keeps ----

  /** Delivering changes no identifier, leaves the driver idle, and never raises the hours nor makes them negative. */
  ghost predicate Descends(before: Driver, after: Driver) {
    && after.id == before.id
    && (before.driveHoursRemaining >= 0.0 ==> 0.0 <= after.driveHoursRemaining <= before.driveHoursRemaining)
    && (before.dutyHoursRemaining >= 0.0 ==> 0.0 <= after.dutyHoursRemaining <= before.dutyHoursRemaining)
    && (before.IsIdle() ==> after.IsIdle())
  }

  ghost predicate SensibleLoads(loads: seq<Load>) {
    forall i :: 0 <= i < |loads| ==> loads[i].estimatedTransitEpochs >= 0
  }

  /** A trip that takes no negative time, or hours that are negative already. */
  ghost predicate HoursHold(d: Driver, l: Load) {
    l.estimatedTransitEpochs >= 0 || (d.driveHoursRemaining < 0.0 && d.dutyHoursRemaining < 0.0)
  }

  lemma DeliveredDescendsIff(d: Driver, l: Load, m: DriverLoadMatch, advance: Advance)
    ensures Descends(d, Delivered(d, l, m, advance)) <==> HoursHold(d, l)
  {
  }

  ghost predicate FleetDescends(before: seq<Driver>, after: seq<Driver>) {
    |before| == |after| && forall i :: 0 <= i < |before| ==> Descends(before[i], after[i])
  }

  lemma {:induction false} OutstandingConcat(a: seq<Load>, b: seq<Load>, ids: set<string>)
    ensures Outstanding(a + b, ids) == Outstanding(a, ids) + Outstanding(b, ids)
    decreases |b|
  {
    if b == [] {
      assert a + b == a;
    } else {
      var n := |b| - 1;
      OutstandingConcat(a, b[..n], ids);
      assert (a + b)[..|a + b| - 1] == a + b[..n] && (a + b)[|a + b| - 1] == b[n];
      var last := if b[n].id in ids then [] else [b[n]];
      assert (Outstanding(a, ids) + Outstanding(b[..n], ids)) + last
          == Outstanding(a, ids) + (Outstanding(b[..n], ids) + last);
    }
  }

  lemma {:induction false} NothingTaken(loads: seq<Load>)
    ensures Outstanding(loads, {}) == loads
  {
    if loads != [] {
      NothingTaken(loads[..|loads| - 1]);
      assert loads == loads[..|loads| - 1] + [loads[|loads| - 1]];
    }
  }

  lemma {:induction false} OutstandingSame(loads: seq<Load>, ids: set<string>, id: string)
    requires forall i :: 0 <= i < |loads| ==> loads[i].id != id
    ensures Outstanding(loads, ids + {id}) == Outstanding(loads, ids)
  {
    if loads != [] {
      OutstandingSame(loads[..|loads| - 1], ids, id);
    }
  }

  lemma {:induction false} OutstandingAround(a: seq<Load>, l: Load, b: seq<Load>, ids: set<string>)
    ensures Outstanding(a + ([l] + b), ids)
         == Outstanding(a, ids) + ((if l.id in ids then [] else [l]) + Outstanding(b, ids))
  {
    OutstandingConcat(a, [l] + b, ids);
    OutstandingConcat([l], b, ids);
    assert [l][..0] == [];
    assert Outstanding([l], ids) == if l.id in ids then [] else [l];
  }

  /** No other load has the identifier of the one at position k. */
  lemma OthersDiffer(loads: seq<Load>, k: nat)
    requires k < |loads| && Distinct(LoadIDs(loads))
    ensures forall i :: 0 <= i < |loads| && i != k ==> loads[i].id != loads[k].id
  {
    forall i | 0 <= i < |loads| && i != k
      ensures loads[i].id != loads[k].id
    {
      assert LoadIDs(loads)[i] != LoadIDs(loads)[k];
    }
  }

  /** Taking one more identifier takes exactly the load that has it. */
  lemma {:induction false} TakeOneMore(loads: seq<Load>, ids: set<string>, k: nat)
    requires k < |loads| && loads[k].id !in ids && Distinct(LoadIDs(loads))
    ensures multiset(Outstanding(loads, ids)) == multiset(Outstanding(loads, ids + {loads[k].id})) + multiset{loads[k]}
  {
    var a, b, l := loads[..k], loads[k + 1..], loads[k];
    assert loads == a + ([l] + b);
    OthersDiffer(loads, k);
    OutstandingSame(a, ids, l.id);
    OutstandingSame(b, ids, l.id);
    OutstandingAround(a, l, b, ids);
    OutstandingAround(a, l, b, ids + {l.id});
    MovedOut(Outstanding(a, ids), l, Outstanding(b, ids));
  }

  lemma MovedOut(a: seq<Load>, l: Load, b: seq<Load>)
    ensures multiset(a + ([l] + b)) == multiset(a + ([] + b)) + multiset{l}
  {
    assert a + ([] + b) == a + b;
  }

  ghost function LoadOf(rs: ResourceState, m: DriverLoadMatch): Load
    requires MatchOk(rs, m)
  {
    rs.GetLoad(m.loadID).value
  }

  /** The loads the matches deliver, in match order. */
  ghost function MatchedLoads(rs: ResourceState, matches: seq<DriverLoadMatch>): (l: seq<Load>)
    requires AllOk(rs, matches)
    ensures |l| == |matches|
  {
    if matches == [] then []
    else
      var n := |matches| - 1;
      MatchedLoads(rs, matches[..n]) + [LoadOf(rs, matches[n])]
  }

  lemma TakenNext(matches: seq<DriverLoadMatch>)
    requires matches != [] && Distinct(MapSeq(matches, MatchLoad))
    ensures var n := |matches| - 1;
      && matches[n].loadID !in TakenIDs(matches[..n])
      && TakenIDs(matches) == TakenIDs(matches[..n]) + {matches[n].loadID}
  {
    var n := |matches| - 1;
    forall i | 0 <= i < n
      ensures matches[..n][i].loadID != matches[n].loadID
    {
      assert MapSeq(matches, MatchLoad)[i] != MapSeq(matches, MatchLoad)[n];
    }
    assert forall i :: 0 <= i < n ==> matches[..n][i] == matches[i];
  }

  lemma {:induction false} LoadsSplit(rs: ResourceState, matches: seq<DriverLoadMatch>)
    requires ValidResource(rs) && UniqueIDs(rs) && MatchesOk(rs, matches)
    ensures multiset(rs.loads)
       == multiset(Outstanding(rs.loads, TakenIDs(matches))) + multiset(MatchedLoads(rs, matches))
    decreases |matches|
  {
    if matches == [] {
      NothingTaken(rs.loads);
      assert TakenIDs(matches) == {};
    } else {
      var n := |matches| - 1;
      FrontOk(rs, matches);
      LoadsSplit(rs, matches[..n]);
      TakenNext(matches);
      assert MatchOk(rs, matches[n]);
      LoadAt(rs, matches[n]);
      TakeOneMore(rs.loads, TakenIDs(matches[..n]), rs.loadIndex[matches[n].loadID]);
      SplitNext(rs, matches);
    }
  }

  lemma {:induction false} SplitNext(rs: ResourceState, matches: seq<DriverLoadMatch>)
    requires matches != [] && AllOk(rs, matches)
    requires var n := |matches| - 1;
      && multiset(rs.loads)
         == multiset(Outstanding(rs.loads, TakenIDs(matches[..n]))) + multiset(MatchedLoads(rs, matches[..n]))
      && multiset(Outstanding(rs.loads, TakenIDs(matches[..n])))
         == multiset(Outstanding(rs.loads, TakenIDs(matches))) + multiset{LoadOf(rs, matches[n])}
    ensures multiset(rs.loads)
       == multiset(Outstanding(rs.loads, TakenIDs(matches))) + multiset(MatchedLoads(rs, matches))
  {
    var n := |matches| - 1;
    var one := multiset{LoadOf(rs, matches[n])};
    var left, matched := multiset(Outstanding(rs.loads, TakenIDs(matches))), multiset(MatchedLoads(rs, matches[..n]));
    assert (left + one) + matched == left + (matched + one);
  }

  lemma LoadAt(rs: ResourceState, m: DriverLoadMatch)
    requires ValidResource(rs) && MatchOk(rs, m)
    ensures m.loadID in rs.loadIndex && rs.loadIndex[m.loadID] < |rs.loads|
    ensures var l := rs.loads[rs.loadIndex[m.loadID]]; l == LoadOf(rs, m) && l.id == m.loadID
  {
    assert LoadIDs(rs.loads)[rs.loadIndex[m.loadID]] == m.loadID;
  }

  lemma FrontOk(rs: ResourceState, matches: seq<DriverLoadMatch>)
    requires MatchesOk(rs, matches) && matches != []
    ensures MatchesOk(rs, matches[..|matches| - 1])
  {
    var front := matches[..|matches| - 1];
    assert MapSeq(front, MatchDriver) == MapSeq(matches, MatchDriver)[..|front|];
    assert MapSeq(front, MatchLoad) == MapSeq(matches, MatchLoad)[..|front|];
  }

  /** No load appears from nowhere or disappears: the loads there were and the arrivals are exactly the loads still
      outstanding and the loads delivered. */
  lemma {:induction false} LoadsConserved(rs: ResourceState, matches: seq<DriverLoadMatch>, newLoads: seq<Load>,
                                          advance: Advance, rs': ResourceState)
    requires ValidResource(rs) && UniqueIDs(rs) && MatchesOk(rs, matches)
    requires Follows(rs, matches, newLoads, advance, rs')
    ensures multiset(rs.loads) + multiset(newLoads) == multiset(rs'.loads) + multiset(MatchedLoads(rs, matches))
  {
    LoadsSplit(rs, matches);
  }

  lemma IndexOfMatch(rs: ResourceState, m: DriverLoadMatch)
    requires ValidResource(rs) && MatchOk(rs, m)
    ensures m.driverID in rs.driverIndex && rs.driverIndex[m.driverID] < |rs.drivers|
    ensures rs.drivers[rs.driverIndex[m.driverID]].id == m.driverID
    ensures rs.GetDriver(m.driverID) == Some(rs.drivers[rs.driverIndex[m.driverID]])
  {
    assert DriverIDs(rs.drivers)[rs.driverIndex[m.driverID]] == m.driverID;
  }

  /** Where the driver of match k stands in the list. */
  ghost function Place(rs: ResourceState, m: DriverLoadMatch): nat
    requires MatchOk(rs, m)
  {
    rs.driverIndex[m.driverID]
  }

  lemma PlacesDiffer(rs: ResourceState, matches: seq<DriverLoadMatch>, j: nat, k: nat)
    requires ValidResource(rs) && MatchesOk(rs, matches) && j < |matches| && k < |matches| && j != k
    ensures MatchOk(rs, matches[j]) && MatchOk(rs, matches[k]) && Place(rs, matches[j]) != Place(rs, matches[k])
  {
    assert MatchOk(rs, matches[j]) && MatchOk(rs, matches[k]);
    IndexOfMatch(rs, matches[j]);
    IndexOfMatch(rs, matches[k]);
    assert MapSeq(matches, MatchDriver)[j] != MapSeq(matches, MatchDriver)[k];
  }

  /** Matches of other drivers leave place i alone. */
  lemma {:induction false} UnmatchedStays(rs: ResourceState, matches: seq<DriverLoadMatch>, advance: Advance, from: nat,
                                          n: nat, i: nat)
    requires AllOk(rs, matches) && from <= n <= |matches| && i < |rs.drivers|
    requires forall k :: from <= k < n ==> MatchOk(rs, matches[k]) && Place(rs, matches[k]) != i
    ensures FleetAfter(rs, matches, advance, n)[i] == FleetAfter(rs, matches, advance, from)[i]
  {
    if from < n {
      UnmatchedStays(rs, matches, advance, from, n - 1, i);
      assert Place(rs, matches[n - 1]) != i;
    }
  }

  /** After n matches the driver of match k has delivered its load. */
  ghost predicate HasDelivered(rs: ResourceState, matches: seq<DriverLoadMatch>, advance: Advance, n: nat, k: nat)
    requires AllOk(rs, matches) && n <= |matches|
  {
    && k < n && MatchOk(rs, matches[k]) && Place(rs, matches[k]) < |rs.drivers|
    && var i := Place(rs, matches[k]);
       FleetAfter(rs, matches, advance, n)[i] == Delivered(rs.drivers[i], LoadOf(rs, matches[k]), matches[k], advance)
  }

  lemma JustDelivered(rs: ResourceState, matches: seq<DriverLoadMatch>, advance: Advance, k: nat)
    requires ValidResource(rs) && MatchesOk(rs, matches) && k < |matches|
    ensures HasDelivered(rs, matches, advance, k + 1, k)
  {
    assert MatchOk(rs, matches[k]);
    IndexOfMatch(rs, matches[k]);
    forall j | 0 <= j < k
      ensures MatchOk(rs, matches[j]) && Place(rs, matches[j]) != Place(rs, matches[k])
    {
      PlacesDiffer(rs, matches, j, k);
    }
    UnmatchedStays(rs, matches, advance, 0, k, Place(rs, matches[k]));
  }

  lemma MatchedDelivers(rs: ResourceState, matches: seq<DriverLoadMatch>, advance: Advance, k: nat)
    requires ValidResource(rs) && MatchesOk(rs, matches) && k < |matches|
    ensures HasDelivered(rs, matches, advance, |matches|, k)
  {
    JustDelivered(rs, matches, advance, k);
    forall j | k < j < |matches|
      ensures MatchOk(rs, matches[j]) && Place(rs, matches[j]) != Place(rs, matches[k])
    {
      PlacesDiffer(rs, matches, j, k);
    }
    UnmatchedStays(rs, matches, advance, k + 1, |matches|, Place(rs, matches[k]));
  }

  lemma {:induction false} FleetAfterKeepsIDs(rs: ResourceState, matches: seq<DriverLoadMatch>, advance: Advance,
                                              n: nat)
    requires n <= |matches| && AllOk(rs, matches)
    ensures DriverIDs(FleetAfter(rs, matches, advance, n)) == DriverIDs(rs.drivers)
  {
    if n > 0 {
      FleetAfterKeepsIDs(rs, matches, advance, n - 1);
      assert MatchOk(rs, matches[n - 1]);
    }
  }

  lemma {:induction false} FleetIsNext(rs: ResourceState, matches: seq<DriverLoadMatch>, newLoads: seq<Load>,
                                       advance: Advance, rs': ResourceState)
    requires ValidResource(rs) && UniqueIDs(rs) && MatchesOk(rs, matches)
    requires Follows(rs, matches, newLoads, advance, rs')
    ensures rs'.drivers == FleetAfter(rs, matches, advance, |matches|)
    ensures DriverIDs(rs'.drivers) == DriverIDs(rs.drivers)
    ensures rs'.driverIndex == rs.driverIndex
  {
    var fleet := FleetAfter(rs, matches, advance, |matches|);
    FleetAfterKeepsIDs(rs, matches, advance, |matches|);
    SameOrder(fleet, rs'.drivers, DriverID);
    SamePositions(rs.driverIndex, rs'.driverIndex, DriverIDs(rs.drivers));
  }

  lemma {:induction false} OthersStay(rs: ResourceState, matches: seq<DriverLoadMatch>, advance: Advance, id: string)
    requires ValidResource(rs) && MatchesOk(rs, matches)
    requires forall k :: 0 <= k < |matches| ==> matches[k].driverID != id
    ensures id in rs.driverIndex ==> rs.driverIndex[id] < |rs.drivers|
    ensures id in rs.driverIndex ==>
      FleetAfter(rs, matches, advance, |matches|)[rs.driverIndex[id]] == rs.drivers[rs.driverIndex[id]]
  {
    if id in rs.driverIndex {
      var i := rs.driverIndex[id];
      assert DriverIDs(rs.drivers)[i] == id;
      forall k | 0 <= k < |matches|
        ensures MatchOk(rs, matches[k]) && Place(rs, matches[k]) != i
      {
        assert MatchOk(rs, matches[k]);
        IndexOfMatch(rs, matches[k]);
      }
      UnmatchedStays(rs, matches, advance, 0, |matches|, i);
    }
  }

  /** The matched driver after its trip, field by field. */
  ghost predicate ArrivedFor(rs: ResourceState, m: DriverLoadMatch, advance: Advance, rs': ResourceState) {
    && rs.GetDriver(m.driverID).Some? && rs.GetLoad(m.loadID).Some? && rs'.GetDriver(m.driverID).Some?
    && var before, l, d := rs.GetDriver(m.driverID).value, rs.GetLoad(m.loadID).value, rs'.GetDriver(m.driverID).value;
       var hours := l.estimatedTransitEpochs as real;
       var drive, duty := before.driveHoursRemaining - hours, before.dutyHoursRemaining - hours;
       && d.id == before.id && d.currentLocation == l.destination && d.assignedLoadID == ""
       && d.availableEpoch == m.dispatchEpoch + l.estimatedTransitEpochs
       && d.driveHoursRemaining == (if drive > 0.0 then drive else 0.0)
       && d.dutyHoursRemaining == (if duty > 0.0 then duty else 0.0)
       && d.homeLocation == before.homeLocation && d.equipment == before.equipment
       && d.endorsements == before.endorsements && d.policySpecs == before.policySpecs
       && d.clocks == (if before.clocks.Some? && advance(before, l).Some? then advance(before, l) else before.clocks)
  }

  lemma {:induction false} MatchArrives(rs: ResourceState, matches: seq<DriverLoadMatch>, advance: Advance, k: nat,
                                        rs': ResourceState)
    requires ValidResource(rs) && MatchesOk(rs, matches) && k < |matches|
    requires rs'.drivers == FleetAfter(rs, matches, advance, |matches|) && rs'.driverIndex == rs.driverIndex
    ensures ArrivedFor(rs, matches[k], advance, rs')
  {
    MatchedDelivers(rs, matches, advance, k);
  }

  /** After a transition every matched driver is where its load went, idle, available when the trip is over; every other
      driver is as it was. */
  lemma DriversDeliver(rs: ResourceState, matches: seq<DriverLoadMatch>, newLoads: seq<Load>, advance: Advance,
                       rs': ResourceState, id: string)
    requires ValidResource(rs) && UniqueIDs(rs) && MatchesOk(rs, matches)
    requires Follows(rs, matches, newLoads, advance, rs')
    ensures (forall k :: 0 <= k < |matches| ==> matches[k].driverID != id) ==> rs'.GetDriver(id) == rs.GetDriver(id)
    ensures forall k :: 0 <= k < |matches| && matches[k].driverID == id ==> ArrivedFor(rs, matches[k], advance, rs')
  {
    FleetIsNext(rs, matches, newLoads, advance, rs');
    forall k | 0 <= k < |matches| && matches[k].driverID == id
      ensures ArrivedFor(rs, matches[k], advance, rs')
    {
      MatchArrives(rs, matches, advance, k, rs');
    }
    if forall k :: 0 <= k < |matches| ==> matches[k].driverID != id {
      OthersStay(rs, matches, advance, id);
    }
  }

  /** The hours of every matched driver hold. */
  ghost predicate TripsHold(rs: ResourceState, matches: seq<DriverLoadMatch>)
    requires AllOk(rs, matches)
  {
    forall k :: 0 <= k < |matches| ==>
      MatchOk(rs, matches[k]) && HoursHold(rs.GetDriver(matches[k].driverID).value, LoadOf(rs, matches[k]))
  }

  lemma {:induction false} MatchedDescendsIff(rs: ResourceState, matches: seq<DriverLoadMatch>, advance: Advance,
                                              k: nat)
    requires ValidResource(rs) && MatchesOk(rs, matches) && k < |matches|
    ensures MatchOk(rs, matches[k]) && Place(rs, matches[k]) < |rs.drivers|
    ensures var i := Place(rs, matches[k]);
      Descends(rs.drivers[i], FleetAfter(rs, matches, advance, |matches|)[i])
      <==> HoursHold(rs.GetDriver(matches[k].driverID).value, LoadOf(rs, matches[k]))
  {
    MatchedDelivers(rs, matches, advance, k);
    IndexOfMatch(rs, matches[k]);
    DeliveredDescendsIff(rs.drivers[Place(rs, matches[k])], LoadOf(rs, matches[k]), matches[k], advance);
  }

  /** The driver of match k descends exactly when its hours hold. */
  ghost predicate DescendsByTrip(rs: ResourceState, matches: seq<DriverLoadMatch>, after: seq<Driver>, k: nat)
    requires k < |matches| && |after| == |rs.drivers|
  {
    && MatchOk(rs, matches[k]) && Place(rs, matches[k]) < |rs.drivers|
    && (Descends(rs.drivers[Place(rs, matches[k])], after[Place(rs, matches[k])])
        <==> HoursHold(rs.GetDriver(matches[k].driverID).value, LoadOf(rs, matches[k])))
  }

  ghost predicate Untouched(rs: ResourceState, matches: seq<DriverLoadMatch>, i: nat)
    requires AllOk(rs, matches)
  {
    forall k :: 0 <= k < |matches| ==> MatchOk(rs, matches[k]) && Place(rs, matches[k]) != i
  }

  lemma DescendsTripByTrip(rs: ResourceState, matches: seq<DriverLoadMatch>, after: seq<Driver>)
    requires AllOk(rs, matches) && |after| == |rs.drivers|
    requires forall k :: 0 <= k < |matches| ==> DescendsByTrip(rs, matches, after, k)
    requires forall i :: 0 <= i < |after| && Untouched(rs, matches, i) ==> after[i] == rs.drivers[i]
    ensures FleetDescends(rs.drivers, after) <==> TripsHold(rs, matches)
  {
    if TripsHold(rs, matches) {
      forall i | 0 <= i < |after|
        ensures Descends(rs.drivers[i], after[i])
      {
        if !Untouched(rs, matches, i) {
          var k :| 0 <= k < |matches| && Place(rs, matches[k]) == i;
          assert DescendsByTrip(rs, matches, after, k);
        }
      }
    }
    if FleetDescends(rs.drivers, after) {
      forall k | 0 <= k < |matches|
        ensures MatchOk(rs, matches[k])
        ensures HoursHold(rs.GetDriver(matches[k].driverID).value, LoadOf(rs, matches[k]))
      {
        assert DescendsByTrip(rs, matches, after, k);
      }
    }
  }

  lemma {:induction false} FleetDescendsIff(rs: ResourceState, matches: seq<DriverLoadMatch>, advance: Advance)
    requires ValidResource(rs) && MatchesOk(rs, matches)
    ensures FleetDescends(rs.drivers, FleetAfter(rs, matches, advance, |matches|)) <==> TripsHold(rs, matches)
  {
    var after := FleetAfter(rs, matches, advance, |matches|);
    forall k | 0 <= k < |matches|
      ensures DescendsByTrip(rs, matches, after, k)
    {
      MatchedDescendsIff(rs, matches, advance, k);
    }
    forall i | 0 <= i < |rs.drivers| && Untouched(rs, matches, i)
      ensures after[i] == rs.drivers[i]
    {
      UnmatchedStays(rs, matches, advance, 0, |matches|, i);
    }
    DescendsTripByTrip(rs, matches, after);
  }

  /** After a transition: the same drivers by identifier, with hours that did not rise exactly when every trip takes no
      negative time, but for drivers out of hours already. */
  lemma DriversKept(rs: ResourceState, matches: seq<DriverLoadMatch>, newLoads: seq<Load>, advance: Advance,
                    rs': ResourceState)
    requires ValidResource(rs) && UniqueIDs(rs) && MatchesOk(rs, matches)
    requires Follows(rs, matches, newLoads, advance, rs')
    ensures DriverIDs(rs'.drivers) == DriverIDs(rs.drivers)
    ensures FleetDescends(rs.drivers, rs'.drivers) <==> TripsHold(rs, matches)
  {
    FleetIsNext(rs, matches, newLoads, advance, rs');
    FleetDescendsIff(rs, matches, advance);
  }

  // ---- Runs ----

  /** One epoch: what was dispatched and what arrived. */
  datatype Turn = Turn(matches: seq<DriverLoadMatch>, newLoads: seq<Load>)

  /** states[i + 1] follows states[i] by turns[i]. */
  ghost predicate IsRun(states: seq<ResourceState>, turns: seq<Turn>, advance: Advance) {
    && |states| == |turns| + 1
    && (forall i :: 0 <= i < |states| ==> ValidResource(states[i]))
    && forall i :: 0 <= i < |turns| ==>
         && MatchesOk(states[i], turns[i].matches)
         && Follows(states[i], turns[i].matches, turns[i].newLoads, advance, states[i + 1])
  }

  /** Every load that was there at the start or arrived during the first n turns. */
  ghost function Offered(first: ResourceState, turns: seq<Turn>, n: nat): seq<Load>
    requires n <= |turns|
  {
    if n == 0 then first.loads else Offered(first, turns, n - 1) + turns[n - 1].newLoads
  }

  ghost function DeliveredLoads(states: seq<ResourceState>, turns: seq<Turn>, advance: Advance, n: nat): seq<Load>
    requires IsRun(states, turns, advance) && n <= |turns|
  {
    if n == 0 then []
    else DeliveredLoads(states, turns, advance, n - 1) + MatchedLoads(states[n - 1], turns[n - 1].matches)
  }

  /** No identifier is ever used for two loads. */
  ghost predicate FreshArrivals(first: ResourceState, turns: seq<Turn>) {
    Distinct(LoadIDs(Offered(first, turns, |turns|)))
  }

  /** No load that was there or arrived takes a negative time. */
  ghost predicate SensibleArrivals(first: ResourceState, turns: seq<Turn>) {
    SensibleLoads(Offered(first, turns, |turns|))
  }

  lemma {:induction false} OfferedGrows(first: ResourceState, turns: seq<Turn>, n: nat, k: nat)
    requires n <= k <= |turns|
    ensures Offered(first, turns, n) <= Offered(first, turns, k)
  {
    if n < k {
      OfferedGrows(first, turns, n, k - 1);
    }
  }

  lemma DistinctPart(all: seq<Load>, part: seq<Load>, rest: seq<Load>)
    requires Distinct(LoadIDs(all)) && multiset(all) == multiset(part) + multiset(rest)
    ensures Distinct(LoadIDs(part)) && (SensibleLoads(all) ==> SensibleLoads(part))
  {
    var joined := part + rest;
    assert multiset(joined) == multiset(all);
    MapKeepsMultiset(all, joined, LoadID);
    PermutationKeepsElements(LoadIDs(joined), LoadIDs(all));
    PermutationKeepsElements(joined, all);
    forall i, j | 0 <= i < j < |part|
      ensures LoadIDs(part)[i] != LoadIDs(part)[j]
    {
      assert LoadIDs(joined)[i] != LoadIDs(joined)[j];
    }
    forall i | 0 <= i < |part|
      ensures SensibleLoads(all) ==> part[i].estimatedTransitEpochs >= 0
    {
      assert joined[i] in all;
    }
  }

  /** Over any run with unique identifiers and fresh arrivals: identifiers stay unique, the fleet keeps its drivers, and
      every load ever offered is either outstanding or was delivered exactly once. Hours never rise when no load takes a
      negative time. */
  lemma {:induction false} RunKeepsEverything(states: seq<ResourceState>, turns: seq<Turn>, advance: Advance, n: nat)
    requires IsRun(states, turns, advance) && n <= |turns|
    requires UniqueIDs(states[0]) && FreshArrivals(states[0], turns)
    ensures UniqueIDs(states[n])
    ensures DriverIDs(states[n].drivers) == DriverIDs(states[0].drivers)
    ensures SensibleArrivals(states[0], turns) ==>
      SensibleLoads(states[n].loads) && FleetDescends(states[0].drivers, states[n].drivers)
    ensures Balanced(states, turns, advance, n)
  {
    if n == 0 {
      OfferedDistinct(states[0], turns, 0);
      assert Offered(states[0], turns, 0) == states[0].loads;
    } else {
      RunKeepsEverything(states, turns, advance, n - 1);
      OneTurn(states, turns, advance, n);
      if SensibleArrivals(states[0], turns) {
        DescentComposes(states[0].drivers, states[n - 1].drivers, states[n].drivers);
      }
    }
  }

  lemma {:induction false} OfferedDistinct(first: ResourceState, turns: seq<Turn>, n: nat)
    requires FreshArrivals(first, turns) && n <= |turns|
    ensures Distinct(LoadIDs(Offered(first, turns, n)))
    ensures SensibleArrivals(first, turns) ==> SensibleLoads(Offered(first, turns, n))
  {
    OfferedGrows(first, turns, n, |turns|);
    var all, offered := Offered(first, turns, |turns|), Offered(first, turns, n);
    assert all == offered + all[|offered|..];
    DistinctPart(all, offered, all[|offered|..]);
  }

  /** The books after n turns: everything offered is outstanding or delivered. */
  ghost predicate Balanced(states: seq<ResourceState>, turns: seq<Turn>, advance: Advance, n: nat)
    requires IsRun(states, turns, advance) && n <= |turns|
  {
    multiset(Offered(states[0], turns, n))
    == multiset(states[n].loads) + multiset(DeliveredLoads(states, turns, advance, n))
  }

  lemma BooksStayBalanced(states: seq<ResourceState>, turns: seq<Turn>, advance: Advance, n: nat)
    requires IsRun(states, turns, advance) && 0 < n <= |turns|
    requires UniqueIDs(states[n - 1]) && Balanced(states, turns, advance, n - 1)
    ensures Balanced(states, turns, advance, n)
  {
    var s, t := states[n - 1], turns[n - 1];
    LoadsConserved(s, t.matches, t.newLoads, advance, states[n]);
    Regroup(multiset(Offered(states[0], turns, n - 1)), multiset(s.loads),
            multiset(DeliveredLoads(states, turns, advance, n - 1)), multiset(t.newLoads), multiset(states[n].loads),
            multiset(MatchedLoads(s, t.matches)));
  }

  lemma Regroup<T>(o: multiset<T>, l: multiset<T>, d: multiset<T>, a: multiset<T>, l': multiset<T>, m: multiset<T>)
    requires o == l + d && l + a == l' + m
    ensures o + a == l' + (d + m)
  {
    assert o + a == (l + a) + d;
  }

  lemma DescentComposes(a: seq<Driver>, b: seq<Driver>, c: seq<Driver>)
    requires FleetDescends(a, b) && FleetDescends(b, c)
    ensures FleetDescends(a, c)
  {
  }

  lemma SensibleTrips(rs: ResourceState, matches: seq<DriverLoadMatch>)
    requires ValidResource(rs) && AllOk(rs, matches) && SensibleLoads(rs.loads)
    ensures TripsHold(rs, matches)
  {
    forall k | 0 <= k < |matches|
      ensures MatchOk(rs, matches[k]) && LoadOf(rs, matches[k]).estimatedTransitEpochs >= 0
    {
      assert MatchOk(rs, matches[k]);
    }
  }

  lemma OneTurn(states: seq<ResourceState>, turns: seq<Turn>, advance: Advance, n: nat)
    requires IsRun(states, turns, advance) && 0 < n <= |turns| && FreshArrivals(states[0], turns)
    requires UniqueIDs(states[n - 1]) && Balanced(states, turns, advance, n - 1)
    requires DriverIDs(states[n - 1].drivers) == DriverIDs(states[0].drivers)
    ensures UniqueIDs(states[n]) && Balanced(states, turns, advance, n)
    ensures DriverIDs(states[n].drivers) == DriverIDs(states[0].drivers)
    ensures SensibleArrivals(states[0], turns) ==> SensibleLoads(states[n].loads)
    ensures SensibleLoads(states[n - 1].loads) ==> FleetDescends(states[n - 1].drivers, states[n].drivers)
  {
    var s, t := states[n - 1], turns[n - 1];
    BooksStayBalanced(states, turns, advance, n);
    OfferedDistinct(states[0], turns, n);
    DistinctPart(Offered(states[0], turns, n), states[n].loads, DeliveredLoads(states, turns, advance, n));
    DriversKept(s, t.matches, t.newLoads, advance, states[n]);
    if SensibleLoads(s.loads) {
      SensibleTrips(s, t.matches);
    }
  }

  /** In such a run no load identifier is delivered twice, and nothing delivered is still outstanding. */
  lemma {:induction false} DeliveredOnce(states: seq<ResourceState>, turns: seq<Turn>, advance: Advance, n: nat)
    requires IsRun(states, turns, advance) && n <= |turns|
    requires UniqueIDs(states[0]) && FreshArrivals(states[0], turns)
    ensures Distinct(LoadIDs(states[n].loads + DeliveredLoads(states, turns, advance, n)))
  {
    RunKeepsEverything(states, turns, advance, n);
    OfferedDistinct(states[0], turns, n);
    var offered := Offered(states[0], turns, n);
    var joined := states[n].loads + DeliveredLoads(states, turns, advance, n);
    MapKeepsMultiset(offered, joined, LoadID);
    PermutationKeepsElements(LoadIDs(joined), LoadIDs(offered));
  }
}
