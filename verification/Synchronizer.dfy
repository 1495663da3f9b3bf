/** Merging drained stream updates into a new fleet state. */
module Synchronizer {
  import opened Wrappers
  import opened Sorting
  import opened Fleet
  import opened Keyed
  import opened Resources
  import opened StreamBuffers

  /** Text and clock services the merge calls on: node names from coordinates, trimming and upper-casing, and the
      clocks of a driver first seen now. */
  datatype Services = Services(gpsNode: (real, real) -> string, originNode: (real, real) -> string,
                               destinationNode: (real, real) -> string, normalize: string -> string,
                               newClocks: int -> Clocks)

  datatype SyncReport = SyncReport(driversUpdated: nat, driversAdded: nat, loadsAdded: nat, loadsCanceled: nat,
                                   totalDrivers: nat, totalLoads: nat, syncTimestamp: int)

  function ParseEquipment(s: Services, name: string): string {
    var n := s.normalize(name);
    if n in {"REEFER", "REEFER_53", "R"} then "REEFER_53"
    else if n in {"FLATBED", "FLATBED_53", "FB"} then "FLATBED_53"
    else if n == "TANKER" then "TANKER"
    else "VAN_53"
  }

  function Normalized(s: Services, names: seq<string>): seq<string> {
    MapSeq(names, s.normalize)
  }

  function Refreshed(s: Services, d: Driver, p: Ping, epoch: int): Driver {
    var location := Location(if p.nodeID != "" then p.nodeID else d.currentLocation.nodeID, p.lat, p.lon);
    var available :=
      if p.ptaEpoch > 0 then p.ptaEpoch
      else if epoch > 0 && d.availableEpoch < epoch then epoch
      else d.availableEpoch;
    Driver(d.id, location, d.homeLocation, available, p.dutyHoursRemaining, p.driveHoursRemaining,
           if p.assignedLoadID != "" then p.assignedLoadID else d.assignedLoadID,
           if p.equipmentType != "" then Equipment(ParseEquipment(s, p.equipmentType), []) else d.equipment,
           if p.endorsements != [] then Normalized(s, p.endorsements) else d.endorsements,
           d.clocks, UNSPECIFIED)
  }

  function Discovered(s: Services, id: string, p: Ping, epoch: int, now: int): Driver {
    var location := Location(if p.nodeID != "" then p.nodeID else s.gpsNode(p.lat, p.lon), p.lat, p.lon);
    var available := if p.ptaEpoch > 0 then p.ptaEpoch else if epoch > 0 then epoch else now;
    Driver(id, location, location, available, p.dutyHoursRemaining, p.driveHoursRemaining, p.assignedLoadID,
           Equipment(ParseEquipment(s, p.equipmentType), []), Normalized(s, p.endorsements),
           Some(s.newClocks(available)), UNSPECIFIED)
  }

  function LoadFrom(s: Services, id: string, t: Tender): Load {
    Load(id,
         Location(if t.originNodeID != "" then t.originNodeID else s.originNode(t.originLat, t.originLon),
                  t.originLat, t.originLon),
         Location(if t.destinationNodeID != "" then t.destinationNodeID else s.destinationNode(t.destLat, t.destLon),
                  t.destLat, t.destLon),
         t.pickupEarliestEpoch, t.pickupLatestEpoch, t.deliveryEarliestEpoch, t.deliveryLatestEpoch,
         ParseEquipment(s, t.requiredEquipment), Normalized(s, t.requiredEndorsements), t.revenue, 0)
  }

  type DriverMap = map<string, Driver>
  type LoadMap = map<string, Load>

  function MergedDriver(s: Services, base: DriverMap, id: string, p: Ping, epoch: int, now: int): Driver {
    if id in base then Refreshed(s, base[id], p, epoch) else Discovered(s, id, p, epoch, now)
  }

  function MergedDrivers(s: Services, base: DriverMap, pings: Pings, epoch: int, now: int): DriverMap {
    map id | id in base.Keys + pings.Keys ::
      if id in pings then MergedDriver(s, base, id, pings[id], epoch, now) else base[id]
  }

  function MergedLoads(s: Services, base: LoadMap, changes: LoadChanges): LoadMap {
    map id | id in (base.Keys - changes.cancels.Keys) + changes.tenders.Keys ::
      if id in changes.tenders then LoadFrom(s, id, changes.tenders[id]) else base[id]
  }

  // ---- One event at a time ----

  datatype LoadEvent = TenderEvent(tender: Tender) | CancelEvent(cancel: Cancel) | Drained

  function AddTo(s: Services, inventory: LoadMap, t: Tender): LoadMap {
    inventory[t.loadID := LoadFrom(s, t.loadID, t)]
  }

  /** The inventory after applying the events one by one, as they come. */
  ghost function OneByOne(s: Services, base: LoadMap, events: seq<LoadEvent>): LoadMap {
    if events == [] then base
    else
      var before := OneByOne(s, base, events[..|events| - 1]);
      match events[|events| - 1]
      case TenderEvent(t) => AddTo(s, before, t)
      case CancelEvent(c) => before - {c.loadID}
      case Drained => before
  }

  /** The inventory and the buffer when the events are buffered and merged only at the drains among them. */
  ghost function Batched(s: Services, base: LoadMap, events: seq<LoadEvent>): (LoadMap, LoadChanges) {
    if events == [] then (base, NO_CHANGES)
    else
      var (inventory, changes) := Batched(s, base, events[..|events| - 1]);
      match events[|events| - 1]
      case TenderEvent(t) => (inventory, changes.Tendered(t))
      case CancelEvent(c) => (inventory, changes.Canceled(c))
      case Drained => (MergedLoads(s, inventory, changes), NO_CHANGES)
  }

  lemma MergeTender(s: Services, inventory: LoadMap, changes: LoadChanges, t: Tender)
    ensures MergedLoads(s, inventory, changes.Tendered(t)) == AddTo(s, MergedLoads(s, inventory, changes), t)
  {
  }

  lemma MergeCancel(s: Services, inventory: LoadMap, changes: LoadChanges, c: Cancel)
    ensures MergedLoads(s, inventory, changes.Canceled(c)) == MergedLoads(s, inventory, changes) - {c.loadID}
  {
  }

  lemma MergeNothing(s: Services, inventory: LoadMap)
    ensures MergedLoads(s, inventory, NO_CHANGES) == inventory
  {
  }

  /** Wherever the drains fall, merging what is buffered at the end gives the inventory that applying the events one by
      one would have given; and no load is ever buffered both as tendered and as cancelled. */
  lemma {:induction false} DrainsDoNotMatter(s: Services, base: LoadMap, events: seq<LoadEvent>)
    ensures var (inventory, changes) := Batched(s, base, events);
      MergedLoads(s, inventory, changes) == OneByOne(s, base, events) && changes.Coherent()
    decreases |events|
  {
    if events == [] {
      MergeNothing(s, base);
    } else {
      var n := |events| - 1;
      DrainsDoNotMatter(s, base, events[..n]);
      var (inventory, changes) := Batched(s, base, events[..n]);
      match events[n] {
        case TenderEvent(t) =>
          MergeTender(s, inventory, changes, t);
        case CancelEvent(c) =>
          MergeCancel(s, inventory, changes, c);
        case Drained =>
          MergeNothing(s, MergedLoads(s, inventory, changes));
      }
    }
  }

  // ---- Pings and drains ----

  /** A drain and merge, with the pings that arrived since the one before. */
  datatype Sync = Sync(arrivals: seq<Ping>, epoch: int, now: int) {

    /** The pings that are merged. */
    ghost function Drained(): Pings {
      PingedAll(map[], arrivals)
    }
  }

  /** All pings of a run, in the order of their arrival. */
  ghost function Arrivals(run: seq<Sync>): seq<Ping> {
    if run == [] then [] else Arrivals(run[..|run| - 1]) + run[|run| - 1].arrivals
  }

  /** For every driver the ping that was merged last. */
  ghost function LastMerged(run: seq<Sync>): Pings {
    if run == [] then map[] else LastMerged(run[..|run| - 1]) + run[|run| - 1].Drained()
  }

  ghost function DriversAfter(s: Services, base: DriverMap, run: seq<Sync>): DriverMap {
    if run == [] then base
    else
      var last := run[|run| - 1];
      MergedDrivers(s, DriversAfter(s, base, run[..|run| - 1]), last.Drained(), last.epoch, last.now)
  }

  /** The driver is where the ping says, with the hours it says. */
  ghost predicate Stands(drivers: DriverMap, id: string, p: Ping) {
    && id in drivers && drivers[id].currentLocation.lat == p.lat && drivers[id].currentLocation.lon == p.lon
    && drivers[id].driveHoursRemaining == p.driveHoursRemaining
    && drivers[id].dutyHoursRemaining == p.dutyHoursRemaining
  }

  /** Wherever the drains fall, a driver stands where the ping merged last for it says, with the hours that says. */
  lemma {:induction false} LastMergedDecides(s: Services, base: DriverMap, run: seq<Sync>, id: string)
    ensures id in DriversAfter(s, base, run) <==> id in base || id in LastMerged(run)
    ensures id in LastMerged(run) ==> Stands(DriversAfter(s, base, run), id, LastMerged(run)[id])
  {
    if run != [] {
      LastMergedDecides(s, base, run[..|run| - 1], id);
    }
  }

  /** The ping says nothing about the driver's node, load, equipment, endorsements or plans. */
  ghost predicate Silent(p: Ping) {
    p.nodeID == p.assignedLoadID == p.equipmentType == "" && p.endorsements == [] && p.ptaEpoch <= 0
  }

  /** What refreshing a known driver leaves alone: always its name, home and clocks; its availability is not moved back
      unless a ping carries a plan, and with silent pings only place, hours, availability and rules change. */
  ghost predicate Refreshes(d: Driver, r: Driver, unplanned: bool, silent: bool) {
    && r.id == d.id && r.homeLocation == d.homeLocation && r.clocks == d.clocks
    && (unplanned ==> r.availableEpoch >= d.availableEpoch)
    && (silent ==>
          && r.currentLocation.nodeID == d.currentLocation.nodeID && r.assignedLoadID == d.assignedLoadID
          && r.equipment == d.equipment && r.endorsements == d.endorsements)
  }

  ghost predicate AllUnplanned(arrivals: seq<Ping>, id: string) {
    forall p :: p in arrivals && p.driverID == id ==> p.ptaEpoch <= 0
  }

  ghost predicate AllSilent(arrivals: seq<Ping>, id: string) {
    forall p :: p in arrivals && p.driverID == id ==> Silent(p)
  }

  lemma MergeRefreshes(s: Services, base: DriverMap, x: Sync, id: string)
    requires id in base
    ensures var merged := MergedDrivers(s, base, x.Drained(), x.epoch, x.now);
      id in merged && Refreshes(base[id], merged[id], AllUnplanned(x.arrivals, id), AllSilent(x.arrivals, id))
      && merged[id].policySpecs == if id in x.Drained() then UNSPECIFIED else base[id].policySpecs
  {
    if id in x.Drained() {
      BufferHoldsLatest(x.arrivals, id);
      assert x.Drained()[id] in x.arrivals;
    }
  }

  /** Over any run a known driver keeps its identity; its rules are reset as soon as a ping of it is merged. */
  lemma {:induction false} RunRefreshes(s: Services, base: DriverMap, run: seq<Sync>, id: string)
    requires id in base
    ensures id in DriversAfter(s, base, run)
    ensures Refreshes(base[id], DriversAfter(s, base, run)[id],
                      AllUnplanned(Arrivals(run), id), AllSilent(Arrivals(run), id))
    ensures DriversAfter(s, base, run)[id].policySpecs
         == if id in LastMerged(run) then UNSPECIFIED else base[id].policySpecs
  {
    if run != [] {
      var front, last := run[..|run| - 1], run[|run| - 1];
      RunRefreshes(s, base, front, id);
      MergeRefreshes(s, DriversAfter(s, base, front), last, id);
      FewerArrivals(Arrivals(front), last.arrivals, id);
    }
  }

  lemma FewerArrivals(x: seq<Ping>, y: seq<Ping>, id: string)
    ensures AllUnplanned(x + y, id) <==> AllUnplanned(x, id) && AllUnplanned(y, id)
    ensures AllSilent(x + y, id) <==> AllSilent(x, id) && AllSilent(y, id)
  {
    assert forall p :: p in x + y <==> p in x || p in y;
  }

  /** A driver with rules of its own loses them with its first ping. */
  lemma {:induction false} RulesAreLost(s: Services, d: Driver, p: Ping, epoch: int, now: int)
    requires d.policySpecs != UNSPECIFIED && p.driverID == d.id
    ensures var after := DriversAfter(s, map[d.id := d], [Sync([p], epoch, now)]);
      d.id in after && after[d.id].policySpecs != d.policySpecs
  {
    var run := [Sync([p], epoch, now)];
    RunRefreshes(s, map[d.id := d], run, d.id);
    assert [p][..0] == [] && run[0].Drained() == PingedAll(map[], [p]) == map[d.id := p];
  }

  /** No drain handed over a newer ping of this driver than the one merged last. */
  ghost predicate NeverBack(run: seq<Sync>, id: string)
    requires id in LastMerged(run)
  {
    forall k :: 0 <= k < |run| && id in run[k].Drained() ==>
      run[k].Drained()[id].timestamp <= LastMerged(run)[id].timestamp
  }

  /** best, the ping an undrained buffer would hold, is as new as any drained one, and is the one merged last unless
      that one is older. */
  ghost predicate Best(run: seq<Sync>, id: string, best: Ping) {
    && id in LastMerged(run)
    && (forall k :: 0 <= k < |run| && id in run[k].Drained() ==> run[k].Drained()[id].timestamp <= best.timestamp)
    && (exists k :: 0 <= k < |run| && id in run[k].Drained() && run[k].Drained()[id] == best)
    && LastMerged(run)[id].timestamp <= best.timestamp
    && (LastMerged(run)[id].timestamp == best.timestamp ==> LastMerged(run)[id] == best)
  }

  lemma {:induction false} BestExtends(front: seq<Sync>, last: Sync, id: string, pings: Pings)
    requires id in pings <==> id in LastMerged(front)
    requires id in pings ==> Best(front, id, pings[id])
    requires id in pings || id in last.Drained()
    ensures Best(front + [last], id, Newer(pings, last.Drained(), id))
  {
    var run := front + [last];
    assert run[..|run| - 1] == front && run[|run| - 1] == last;
    if id in pings {
      var k :| 0 <= k < |front| && id in front[k].Drained() && front[k].Drained()[id] == pings[id];
      assert run[k] == front[k];
    } else {
      forall k | 0 <= k < |front|
        ensures id !in run[k].Drained()
      {
        assert run[k] == front[k];
        MergedOnce(front, k, id);
      }
    }
  }

  lemma {:induction false} MergedOnce(run: seq<Sync>, k: nat, id: string)
    requires k < |run|
    ensures id in run[k].Drained() ==> id in LastMerged(run)
  {
    if k < |run| - 1 {
      MergedOnce(run[..|run| - 1], k, id);
    }
  }

  lemma {:induction false} UndrainedHoldsBest(run: seq<Sync>, id: string)
    ensures id in PingedAll(map[], Arrivals(run)) <==> id in LastMerged(run)
    ensures id in LastMerged(run) ==> Best(run, id, PingedAll(map[], Arrivals(run))[id])
  {
    if run != [] {
      var front, last := run[..|run| - 1], run[|run| - 1];
      var pings := PingedAll(map[], Arrivals(front));
      UndrainedHoldsBest(front, id);
      PingedInTurn(map[], Arrivals(front), last.arrivals);
      PingedOnTop(pings, last.arrivals, id);
      if id in LastMerged(run) {
        BestExtends(front, last, id, pings);
        assert run == front + [last];
      }
    }
  }

  /** Pings are different from loads: the timestamp test only sees the buffer. Over any run, with any number of drains,
      what was merged last for a driver is the ping that an undrained buffer would hold, exactly when no earlier drain
      handed over a newer one. */
  lemma {:induction false} DrainsDoNotMatterIff(run: seq<Sync>, id: string)
    requires id in LastMerged(run)
    ensures id in PingedAll(map[], Arrivals(run))
    ensures PingedAll(map[], Arrivals(run))[id] == LastMerged(run)[id] <==> NeverBack(run, id)
  {
    UndrainedHoldsBest(run, id);
  }

  /** In particular with one drain, between x and y. */
  lemma {:induction false} OneDrainIff(x: seq<Ping>, y: seq<Ping>, id: string)
    requires id in PingedAll(map[], x) && id in PingedAll(map[], y)
    ensures id in PingedAll(map[], x + y)
    ensures PingedAll(map[], x + y)[id] == PingedAll(map[], y)[id]
       <==> PingedAll(map[], y)[id].timestamp >= PingedAll(map[], x)[id].timestamp
  {
    PingedInTurn(map[], x, y);
    PingedOnTop(PingedAll(map[], x), y, id);
  }

  /** A ping that arrives late is ignored while the newer one is still buffered, but takes effect once that one was
      drained. */
  lemma {:induction false} LatePingAfterDrain(s: Services, base: DriverMap, id: string, newer: Ping, older: Ping,
                                              epoch: int, now: int)
    requires newer.driverID == older.driverID == id && older.timestamp < newer.timestamp
    ensures Stands(DriversAfter(s, base, [Sync([newer, older], epoch, now)]), id, newer)
    ensures Stands(DriversAfter(s, base, [Sync([newer], epoch, now), Sync([older], epoch, now)]), id, older)
  {
    var together := [Sync([newer, older], epoch, now)];
    var apart := [Sync([newer], epoch, now), Sync([older], epoch, now)];
    LastMergedDecides(s, base, together, id);
    LastMergedDecides(s, base, apart, id);
    assert [newer, older][..1] == [newer] && [newer][..0] == [] && [older][..0] == [];
    assert PingedAll(map[], []) == map[];
    assert PingedAll(map[], [newer]) == map[id := newer] && PingedAll(map[], [older]) == map[id := older];
    assert PingedAll(map[], [newer, older]) == map[id := newer];
    assert together[..0] == [] && LastMerged([]) == map[];
    assert apart[1].Drained()[id] == older;
  }

  // ---- The merge as executed ----

  /** Every key is either still to be visited or done. */
  ghost predicate Visiting(all: set<string>, left: set<string>, done: set<string>) {
    left !! done && left + done == all
  }

  lemma Visit(all: set<string>, left: set<string>, done: set<string>, id: string)
    requires Visiting(all, left, done) && id in left
    ensures Visiting(all, left - {id}, done + {id}) && id !in done && id in all
  {
  }

  lemma Visited(all: set<string>, done: set<string>)
    requires Visiting(all, {}, done)
    ensures done == all
  {
  }

  /** The drivers once the pings in done are merged. */
  ghost function PartlyMerged(s: Services, base: DriverMap, pings: Pings, done: set<string>, epoch: int,
                              now: int): DriverMap
    requires done <= pings.Keys
  {
    map id | id in base.Keys + done :: if id in done then MergedDriver(s, base, id, pings[id], epoch, now) else base[id]
  }

  lemma MergeOneDriver(s: Services, base: DriverMap, pings: Pings, done: set<string>, id: string, epoch: int, now: int)
    requires done <= pings.Keys && id in pings && id !in done
    ensures PartlyMerged(s, base, pings, done + {id}, epoch, now)
         == PartlyMerged(s, base, pings, done, epoch, now)[id := MergedDriver(s, base, id, pings[id], epoch, now)]
    ensures id in base <==> id in PartlyMerged(s, base, pings, done, epoch, now)
    ensures id in base ==> PartlyMerged(s, base, pings, done, epoch, now)[id] == base[id]
  {
  }

  lemma CountOne(done: set<string>, keys: set<string>, id: string)
    requires id !in done
    ensures |(done + {id}) * keys| == |done * keys| + (if id in keys then 1 else 0)
    ensures |(done + {id}) - keys| == |done - keys| + (if id in keys then 0 else 1)
  {
    if id in keys {
      assert (done + {id}) * keys == done * keys + {id};
      assert (done + {id}) - keys == done - keys;
    } else {
      assert (done + {id}) * keys == done * keys;
      assert (done + {id}) - keys == done - keys + {id};
    }
  }

  ghost predicate DriversSoFar(s: Services, base: DriverMap, pings: Pings, epoch: int, now: int, done: set<string>,
                               m: DriverMap, updated: nat, added: nat)
  {
    && done <= pings.Keys && m == PartlyMerged(s, base, pings, done, epoch, now)
    && updated == |done * base.Keys| && added == |done - base.Keys|
  }

  method MergeDriver(s: Services, ghost base: DriverMap, pings: Pings, epoch: int, now: int, ghost done: set<string>,
                     id: string, m: DriverMap, updated: nat, added: nat)
    returns (m': DriverMap, updated': nat, added': nat)
    requires DriversSoFar(s, base, pings, epoch, now, done, m, updated, added) && id in pings && id !in done
    ensures DriversSoFar(s, base, pings, epoch, now, done + {id}, m', updated', added')
  {
    MergeOneDriver(s, base, pings, done, id, epoch, now);
    CountOne(done, base.Keys, id);
    if id in m {
      m', updated', added' := m[id := Refreshed(s, m[id], pings[id], epoch)], updated + 1, added;
    } else {
      m', updated', added' := m[id := Discovered(s, id, pings[id], epoch, now)], updated, added + 1;
    }
  }

  lemma NoDriverYet(s: Services, base: DriverMap, pings: Pings, epoch: int, now: int)
    ensures DriversSoFar(s, base, pings, epoch, now, {}, base, 0, 0)
  {
    var none: set<string> := {};
    assert none * base.Keys == none && none - base.Keys == none;
  }

  lemma AllDrivers(s: Services, base: DriverMap, pings: Pings, epoch: int, now: int, m: DriverMap, updated: nat,
                   added: nat)
    requires DriversSoFar(s, base, pings, epoch, now, pings.Keys, m, updated, added)
    ensures m == MergedDrivers(s, base, pings, epoch, now)
    ensures updated == |pings.Keys * base.Keys| && added == |pings.Keys - base.Keys|
  {
  }

  /** Merges the pings in whatever order they are visited. */
  method MergeDrivers(s: Services, base: DriverMap, pings: Pings, epoch: int, now: int)
    returns (m: DriverMap, updated: nat, added: nat)
    ensures m == MergedDrivers(s, base, pings, epoch, now)
    ensures updated == |pings.Keys * base.Keys| && added == |pings.Keys - base.Keys|
  {
    m, updated, added := base, 0, 0;
    var left := pings.Keys;
    ghost var done: set<string> := {};
    NoDriverYet(s, base, pings, epoch, now);
    while left != {}
      invariant Visiting(pings.Keys, left, done)
      invariant DriversSoFar(s, base, pings, epoch, now, done, m, updated, added)
      decreases left
    {
      var id :| id in left;
      Visit(pings.Keys, left, done, id);
      m, updated, added := MergeDriver(s, base, pings, epoch, now, done, id, m, updated, added);
      done := done + {id};
      left := left - {id};
    }
    Visited(pings.Keys, done);
    AllDrivers(s, base, pings, epoch, now, m, updated, added);
  }

  ghost predicate DroppedSoFar(base: LoadMap, done: set<string>, m: LoadMap, dropped: nat) {
    m == base - done && dropped == |done * base.Keys|
  }

  method DropLoad(ghost base: LoadMap, ghost done: set<string>, id: string, m: LoadMap, dropped: nat)
    returns (m': LoadMap, dropped': nat)
    requires DroppedSoFar(base, done, m, dropped) && id !in done
    ensures DroppedSoFar(base, done + {id}, m', dropped')
  {
    CountOne(done, base.Keys, id);
    DropOneLoad(base, done, id);
    m', dropped' := m, dropped;
    if id in m {
      m', dropped' := m - {id}, dropped + 1;
    }
  }

  lemma NothingDropped(base: LoadMap)
    ensures DroppedSoFar(base, {}, base, 0)
  {
    var none: set<string> := {};
    assert none * base.Keys == none;
  }

  method DropCanceled(base: LoadMap, cancels: map<string, Cancel>) returns (m: LoadMap, dropped: nat)
    ensures m == base - cancels.Keys && dropped == |cancels.Keys * base.Keys|
  {
    m, dropped := base, 0;
    var left := cancels.Keys;
    ghost var done: set<string> := {};
    NothingDropped(base);
    while left != {}
      invariant Visiting(cancels.Keys, left, done)
      invariant DroppedSoFar(base, done, m, dropped)
      decreases left
    {
      var id :| id in left;
      Visit(cancels.Keys, left, done, id);
      m, dropped := DropLoad(base, done, id, m, dropped);
      done := done + {id};
      left := left - {id};
    }
    Visited(cancels.Keys, done);
  }

  /** The loads once the tenders in done are added. */
  ghost function PartlyTendered(s: Services, base: LoadMap, tenders: map<string, Tender>, done: set<string>): LoadMap
    requires done <= tenders.Keys
  {
    map id | id in base.Keys + done :: if id in done then LoadFrom(s, id, tenders[id]) else base[id]
  }

  lemma TenderOneLoad(s: Services, base: LoadMap, tenders: map<string, Tender>, done: set<string>, id: string)
    requires done <= tenders.Keys && id in tenders && id !in done
    ensures PartlyTendered(s, base, tenders, done + {id})
         == PartlyTendered(s, base, tenders, done)[id := LoadFrom(s, id, tenders[id])]
  {
  }

  lemma DropOneLoad(base: LoadMap, done: set<string>, id: string)
    ensures base - (done + {id}) == (base - done) - {id}
    ensures id !in base ==> base - (done + {id}) == base - done
  {
  }

  ghost predicate TenderedSoFar(s: Services, base: LoadMap, tenders: map<string, Tender>, done: set<string>, m: LoadMap,
                                added: nat)
  {
    done <= tenders.Keys && m == PartlyTendered(s, base, tenders, done) && added == |done|
  }

  lemma TenderedNext(s: Services, base: LoadMap, tenders: map<string, Tender>, done: set<string>, m: LoadMap,
                     added: nat, id: string)
    requires TenderedSoFar(s, base, tenders, done, m, added) && id in tenders && id !in done
    ensures TenderedSoFar(s, base, tenders, done + {id}, m[id := LoadFrom(s, id, tenders[id])], added + 1)
  {
    TenderOneLoad(s, base, tenders, done, id);
  }

  lemma NothingTendered(s: Services, base: LoadMap, tenders: map<string, Tender>)
    ensures TenderedSoFar(s, base, tenders, {}, base, 0)
  {
  }

  method AddTendered(s: Services, base: LoadMap, tenders: map<string, Tender>) returns (m: LoadMap, added: nat)
    ensures m == PartlyTendered(s, base, tenders, tenders.Keys) && added == |tenders|
  {
    m, added := base, 0;
    var left := tenders.Keys;
    ghost var done: set<string> := {};
    NothingTendered(s, base, tenders);
    while left != {}
      invariant Visiting(tenders.Keys, left, done)
      invariant TenderedSoFar(s, base, tenders, done, m, added)
      decreases left
    {
      var id :| id in left;
      Visit(tenders.Keys, left, done, id);
      TenderedNext(s, base, tenders, done, m, added, id);
      m := m[id := LoadFrom(s, id, tenders[id])];
      added := added + 1;
      done := done + {id};
      left := left - {id};
    }
    Visited(tenders.Keys, done);
    assert |tenders.Keys| == |tenders|;
  }

  /** rs holds exactly the entities of the two maps. */
  ghost predicate Holds(rs: ResourceState, drivers: DriverMap, loads: LoadMap) {
    && ValidResource(rs) && UniqueIDs(rs)
    && ListsTable(rs.drivers, drivers, DriverID) && ListsTable(rs.loads, loads, LoadID)
  }

  method Assemble(drivers: DriverMap, loads: LoadMap) returns (rs: ResourceState)
    requires KeyedBy(drivers, DriverID) && KeyedBy(loads, LoadID)
    ensures Holds(rs, drivers, loads) && |rs.drivers| == |drivers| && |rs.loads| == |loads|
  {
    var ds := ListOf(drivers, DriverID);
    var ls := ListOf(loads, LoadID);
    rs := NewResourceState(ds, ls);
    PermutedIDs(ds, rs.drivers, ls, rs.loads);
    PermutationKeepsElements(rs.drivers, ds);
    PermutationKeepsElements(rs.loads, ls);
  }

  /** Drivers and loads of a state by identifier. */
  ghost function BaseDrivers(base: Option<ResourceState>): DriverMap {
    if base.None? then map[] else FoundAt(base.value.driverIndex, base.value.drivers)
  }

  ghost function BaseLoads(base: Option<ResourceState>): LoadMap {
    if base.None? then map[] else FoundAt(base.value.loadIndex, base.value.loads)
  }

  lemma TablesOfBase(rs: ResourceState, ds: DriverMap, ls: LoadMap)
    requires ValidResource(rs) && MapsLast(ds, rs.drivers, DriverID) && MapsLast(ls, rs.loads, LoadID)
    ensures ds == BaseDrivers(Some(rs)) && ls == BaseLoads(Some(rs))
  {
    TableIsFound(rs.driverIndex, ds, rs.drivers, DriverID);
    TableIsFound(rs.loadIndex, ls, rs.loads, LoadID);
  }

  method BaseMaps(base: Option<ResourceState>) returns (ds: DriverMap, ls: LoadMap)
    requires base.Some? ==> ValidResource(base.value)
    ensures ds == BaseDrivers(base) && ls == BaseLoads(base)
    ensures KeyedBy(ds, DriverID) && KeyedBy(ls, LoadID)
  {
    ds, ls := map[], map[];
    if base.Some? {
      ds := TableOf(base.value.drivers, DriverID);
      ls := TableOf(base.value.loads, LoadID);
      TablesOfBase(base.value, ds, ls);
      TableIsKeyed(ds, base.value.drivers, DriverID);
      TableIsKeyed(ls, base.value.loads, LoadID);
    }
  }

  lemma TwoPhases(s: Services, base: LoadMap, changes: LoadChanges)
    ensures PartlyTendered(s, base - changes.cancels.Keys, changes.tenders, changes.tenders.Keys)
       == MergedLoads(s, base, changes)
  {
  }

  lemma MergesAreKeyed(s: Services, ds: DriverMap, pings: Pings, ls: LoadMap, changes: LoadChanges, epoch: int,
                       now: int)
    requires KeyedBy(ds, DriverID) && KeyedBy(ls, LoadID)
    ensures KeyedBy(MergedDrivers(s, ds, pings, epoch, now), DriverID) && KeyedBy(MergedLoads(s, ls, changes), LoadID)
  {
  }

  /** The state a synchronization returns carries exactly the merged maps into the next one. */
  lemma HeldMapsAreTheBase(rs: ResourceState, ds: DriverMap, ls: LoadMap)
    requires Holds(rs, ds, ls) && KeyedBy(ds, DriverID) && KeyedBy(ls, LoadID)
    ensures BaseDrivers(Some(rs)) == ds && BaseLoads(Some(rs)) == ls
  {
    ListHasTable(rs.drivers, ds, DriverID);
    ListHasTable(rs.loads, ls, LoadID);
    TablesOfBase(rs, ds, ls);
  }

  // ---- What was merged, field by field ----

  /** The equipment class of a name, by cases of its normal form. */
  ghost predicate ClassOf(s: Services, name: string, kind: string) {
    var n := s.normalize(name);
    && (n == "REEFER" || n == "REEFER_53" || n == "R" ==> kind == "REEFER_53")
    && (n == "FLATBED" || n == "FLATBED_53" || n == "FB" ==> kind == "FLATBED_53")
    && (n == "TANKER" ==> kind == "TANKER")
    && (n !in ["REEFER", "REEFER_53", "R", "FLATBED", "FLATBED_53", "FB", "TANKER"] ==> kind == "VAN_53")
  }

  ghost predicate NormalizedAs(s: Services, names: seq<string>, normal: seq<string>) {
    |normal| == |names| && forall i :: 0 <= i < |names| ==> normal[i] == s.normalize(names[i])
  }

  /** A load as its tender has it. */
  ghost predicate TenderedAs(s: Services, id: string, t: Tender, l: Load) {
    && l.id == id
    && l.origin.lat == t.originLat && l.origin.lon == t.originLon
    && l.origin.nodeID == (if t.originNodeID == "" then s.originNode(t.originLat, t.originLon) else t.originNodeID)
    && l.destination.lat == t.destLat && l.destination.lon == t.destLon
    && l.destination.nodeID
       == (if t.destinationNodeID == "" then s.destinationNode(t.destLat, t.destLon) else t.destinationNodeID)
    && l.pickupEarliestEpoch == t.pickupEarliestEpoch && l.pickupLatestEpoch == t.pickupLatestEpoch
    && l.deliveryEarliestEpoch == t.deliveryEarliestEpoch && l.deliveryLatestEpoch == t.deliveryLatestEpoch
    && l.revenue == t.revenue && l.estimatedTransitEpochs == 0
    && ClassOf(s, t.requiredEquipment, l.requiredEquipment)
    && NormalizedAs(s, t.requiredEndorsements, l.requiredEndorsements)
  }

  /** A driver first seen in a ping. */
  ghost predicate DiscoveredAs(s: Services, id: string, p: Ping, epoch: int, now: int, d: Driver) {
    && d.id == id && d.homeLocation == d.currentLocation
    && d.currentLocation.lat == p.lat && d.currentLocation.lon == p.lon
    && d.currentLocation.nodeID == (if p.nodeID == "" then s.gpsNode(p.lat, p.lon) else p.nodeID)
    && (p.ptaEpoch > 0 ==> d.availableEpoch == p.ptaEpoch)
    && (p.ptaEpoch <= 0 && epoch > 0 ==> d.availableEpoch == epoch)
    && (p.ptaEpoch <= 0 && epoch <= 0 ==> d.availableEpoch == now)
    && d.dutyHoursRemaining == p.dutyHoursRemaining && d.driveHoursRemaining == p.driveHoursRemaining
    && d.assignedLoadID == p.assignedLoadID && d.equipment.endorsements == []
    && ClassOf(s, p.equipmentType, d.equipment.kind) && NormalizedAs(s, p.endorsements, d.endorsements)
    && d.clocks == Some(s.newClocks(d.availableEpoch)) && d.policySpecs == PolicySpecs("")
  }

  /** A known driver after a ping: place and hours are the ping's, and so is what else the ping mentions. */
  ghost predicate RefreshedAs(s: Services, before: Driver, p: Ping, epoch: int, d: Driver) {
    && d.id == before.id && d.homeLocation == before.homeLocation && d.clocks == before.clocks
    && d.policySpecs == PolicySpecs("")
    && d.currentLocation.lat == p.lat && d.currentLocation.lon == p.lon
    && d.currentLocation.nodeID == (if p.nodeID == "" then before.currentLocation.nodeID else p.nodeID)
    && (p.ptaEpoch > 0 ==> d.availableEpoch == p.ptaEpoch)
    && (p.ptaEpoch <= 0 && epoch > before.availableEpoch && epoch > 0 ==> d.availableEpoch == epoch)
    && (p.ptaEpoch <= 0 && (epoch <= before.availableEpoch || epoch <= 0) ==> d.availableEpoch == before.availableEpoch)
    && d.dutyHoursRemaining == p.dutyHoursRemaining && d.driveHoursRemaining == p.driveHoursRemaining
    && d.assignedLoadID == (if p.assignedLoadID == "" then before.assignedLoadID else p.assignedLoadID)
    && (p.equipmentType == "" ==> d.equipment == before.equipment)
    && (p.equipmentType != "" ==>
          d.equipment.endorsements == [] && ClassOf(s, p.equipmentType, d.equipment.kind))
    && (p.endorsements == [] ==> d.endorsements == before.endorsements)
    && (p.endorsements != [] ==> NormalizedAs(s, p.endorsements, d.endorsements))
  }

  lemma LoadReads(s: Services, id: string, t: Tender)
    ensures TenderedAs(s, id, t, LoadFrom(s, id, t))
  {
  }

  lemma DriverReads(s: Services, id: string, p: Ping, epoch: int, now: int, before: Driver)
    ensures DiscoveredAs(s, id, p, epoch, now, Discovered(s, id, p, epoch, now))
    ensures RefreshedAs(s, before, p, epoch, Refreshed(s, before, p, epoch))
  {
  }

  /** What a state has under a load's identifier once tenders and cancellations are merged into the base. */
  ghost predicate LoadMerged(s: Services, base: Option<ResourceState>, tenders: map<string, Tender>,
                             cancels: map<string, Cancel>, rs: ResourceState, id: string)
    requires ValidResource(rs) && (base.Some? ==> ValidResource(base.value))
  {
    if id in tenders then rs.GetLoad(id).Some? && TenderedAs(s, id, tenders[id], rs.GetLoad(id).value)
    else if id in cancels || base.None? then rs.GetLoad(id).None?
    else rs.GetLoad(id) == base.value.GetLoad(id)
  }

  /** What it has under a driver's identifier. */
  ghost predicate DriverMerged(s: Services, base: Option<ResourceState>, pings: Pings, epoch: int, now: int,
                               rs: ResourceState, id: string)
    requires ValidResource(rs) && (base.Some? ==> ValidResource(base.value))
  {
    if id !in pings
    then if base.None? then rs.GetDriver(id).None? else rs.GetDriver(id) == base.value.GetDriver(id)
    else
      && rs.GetDriver(id).Some?
      && if base.Some? && base.value.GetDriver(id).Some?
         then RefreshedAs(s, base.value.GetDriver(id).value, pings[id], epoch, rs.GetDriver(id).value)
         else DiscoveredAs(s, id, pings[id], epoch, now, rs.GetDriver(id).value)
  }

  /** The tables of a state are what its lookups find. */
  lemma LookupsFind(rs: ResourceState, id: string)
    requires ValidResource(rs)
    ensures rs.GetDriver(id) == if id in BaseDrivers(Some(rs)) then Some(BaseDrivers(Some(rs))[id]) else None
    ensures rs.GetLoad(id) == if id in BaseLoads(Some(rs)) then Some(BaseLoads(Some(rs))[id]) else None
  {
  }

  lemma MergedReads(s: Services, base: Option<ResourceState>, pings: Pings, changes: LoadChanges, epoch: int, now: int,
                    rs: ResourceState, id: string)
    requires ValidResource(rs) && (base.Some? ==> ValidResource(base.value))
    requires BaseDrivers(Some(rs)) == MergedDrivers(s, BaseDrivers(base), pings, epoch, now)
    requires BaseLoads(Some(rs)) == MergedLoads(s, BaseLoads(base), changes)
    ensures LoadMerged(s, base, changes.tenders, changes.cancels, rs, id)
    ensures DriverMerged(s, base, pings, epoch, now, rs, id)
  {
    LookupsFind(rs, id);
    if base.Some? {
      LookupsFind(base.value, id);
    }
    if id in changes.tenders {
      LoadReads(s, id, changes.tenders[id]);
    }
    if id in pings {
      var before := if id in BaseDrivers(base) then BaseDrivers(base)[id] else Discovered(s, id, pings[id], epoch, now);
      DriverReads(s, id, pings[id], epoch, now, before);
    }
  }

  class StateSynchronizer {
    const buffer: StreamBuffer

    constructor (buffer: StreamBuffer)
      ensures this.buffer == buffer
    {
      this.buffer := buffer;
    }

    /** Drains the buffer and merges what was in it into a new state; the base is left as it is. */
    method Synchronize(s: Services, base: Option<ResourceState>, epoch: int, now: int)
      returns (rs: ResourceState, report: SyncReport)
      requires buffer.Valid() && (base.Some? ==> ValidResource(base.value))
      modifies buffer
      ensures buffer.Valid() && buffer.driverPings == map[] && buffer.Changes() == NO_CHANGES
      ensures var pings, changes := old(buffer.driverPings), old(buffer.Changes());
        && Holds(rs, MergedDrivers(s, BaseDrivers(base), pings, epoch, now), MergedLoads(s, BaseLoads(base), changes))
        && report.driversUpdated == |pings.Keys * BaseDrivers(base).Keys|
        && report.driversAdded == |pings.Keys - BaseDrivers(base).Keys|
        && report.loadsCanceled == |changes.cancels.Keys * BaseLoads(base).Keys|
        && report.loadsAdded == |changes.tenders|
        && report.totalDrivers == |rs.drivers| && report.totalLoads == |rs.loads| && report.syncTimestamp == now
      ensures forall id ::
        && LoadMerged(s, base, old(buffer.loadTenders), old(buffer.cancellations), rs, id)
        && DriverMerged(s, base, old(buffer.driverPings), epoch, now, rs, id)
    {
      var pings, changes := buffer.Drain(now);
      var driverMap, loadMap := BaseMaps(base);
      var drivers, updated, added := MergeDrivers(s, driverMap, pings, epoch, now);
      var kept, canceled := DropCanceled(loadMap, changes.cancels);
      var loads, tendered := AddTendered(s, kept, changes.tenders);
      TwoPhases(s, loadMap, changes);
      MergesAreKeyed(s, driverMap, pings, loadMap, changes, epoch, now);
      rs := Assemble(drivers, loads);
      HeldMapsAreTheBase(rs, drivers, loads);
      forall id
        ensures LoadMerged(s, base, changes.tenders, changes.cancels, rs, id)
        ensures DriverMerged(s, base, pings, epoch, now, rs, id)
      {
        MergedReads(s, base, pings, changes, epoch, now, rs, id);
      }
      report := SyncReport(updated, added, tendered, canceled, |rs.drivers|, |rs.loads|, now);
    }
  }
}
