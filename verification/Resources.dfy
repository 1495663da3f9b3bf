/** The physical fleet state: drivers and loads in identifier order with their position maps. */
module Resources {
  import opened Wrappers
  import opened Pigeonhole
  import opened Sorting
  import opened Keyed
  import opened Fleet

  datatype ResourceState = ResourceState(drivers: seq<Driver>, loads: seq<Load>, driverIndex: map<string, nat>,
                                         loadIndex: map<string, nat>) {

    function GetDriver(id: string): Option<Driver> {
      if id in driverIndex && driverIndex[id] < |drivers| then Some(drivers[driverIndex[id]]) else None
    }

    function GetLoad(id: string): Option<Load> {
      if id in loadIndex && loadIndex[id] < |loads| then Some(loads[loadIndex[id]]) else None
    }
  }

  function DriverIDs(drivers: seq<Driver>): (ids: seq<string>)
    ensures |ids| == |drivers| && forall i :: 0 <= i < |ids| ==> ids[i] == drivers[i].id
  {
    MapSeq(drivers, DriverID)
  }

  function LoadIDs(loads: seq<Load>): (ids: seq<string>)
    ensures |ids| == |loads| && forall i :: 0 <= i < |ids| ==> ids[i] == loads[i].id
  {
    MapSeq(loads, LoadID)
  }

  ghost predicate ValidResource(rs: ResourceState) {
    && Sorted(DriverIDs(rs.drivers), IdLess) && LastPositions(rs.driverIndex, DriverIDs(rs.drivers))
    && Sorted(LoadIDs(rs.loads), IdLess) && LastPositions(rs.loadIndex, LoadIDs(rs.loads))
  }

  ghost predicate UniqueIDs(rs: ResourceState) {
    Distinct(DriverIDs(rs.drivers)) && Distinct(LoadIDs(rs.loads))
  }

  /** With unique identifiers, list and map are inverse to each other. */
  lemma IndexIsInverse(rs: ResourceState)
    requires ValidResource(rs) && UniqueIDs(rs)
    ensures forall i :: 0 <= i < |rs.drivers| ==> rs.GetDriver(rs.drivers[i].id) == Some(rs.drivers[i])
    ensures forall i :: 0 <= i < |rs.loads| ==> rs.GetLoad(rs.loads[i].id) == Some(rs.loads[i])
    ensures forall id :: rs.GetDriver(id).Some? ==>
      rs.GetDriver(id).value.id == id && rs.GetDriver(id).value in rs.drivers
    ensures forall id :: rs.GetLoad(id).Some? ==> rs.GetLoad(id).value.id == id && rs.GetLoad(id).value in rs.loads
  {
    forall i | 0 <= i < |rs.drivers|
      ensures rs.GetDriver(rs.drivers[i].id) == Some(rs.drivers[i])
    {
      var ids := DriverIDs(rs.drivers);
      assert ids[i] in rs.driverIndex && ids[rs.driverIndex[ids[i]]] == ids[i];
    }
    forall i | 0 <= i < |rs.loads|
      ensures rs.GetLoad(rs.loads[i].id) == Some(rs.loads[i])
    {
      var ids := LoadIDs(rs.loads);
      assert ids[i] in rs.loadIndex && ids[rs.loadIndex[ids[i]]] == ids[i];
    }
  }

  predicate DriverBefore(a: Driver, b: Driver) {
    IdLess(a.id, b.id)
  }

  predicate LoadBefore(a: Load, b: Load) {
    IdLess(a.id, b.id)
  }

  lemma EntityOrders()
    ensures StrictWeakOrder(DriverBefore) && StrictWeakOrder(LoadBefore)
  {
    IdOrder();
    forall x: Driver, y: Driver, z: Driver
      ensures DriverBefore(x, z) ==> DriverBefore(x, y) || DriverBefore(y, z)
    {
      IdWeak(x.id, y.id, z.id);
    }
    forall x: Load, y: Load, z: Load
      ensures LoadBefore(x, z) ==> LoadBefore(x, y) || LoadBefore(y, z)
    {
      IdWeak(x.id, y.id, z.id);
    }
  }

  /** A state of its own with both lists in identifier order. */
  method NewResourceState(drivers: seq<Driver>, loads: seq<Load>) returns (rs: ResourceState)
    ensures ValidResource(rs) && multiset(rs.drivers) == multiset(drivers) && multiset(rs.loads) == multiset(loads)
  {
    EntityOrders();
    var sortedDrivers := Sort(drivers, DriverBefore);
    var sortedLoads := Sort(loads, LoadBefore);
    var dIndex := IndexOf(DriverIDs(sortedDrivers));
    var lIndex := IndexOf(LoadIDs(sortedLoads));
    forall i, j | 0 <= i < j < |sortedDrivers|
      ensures !IdLess(DriverIDs(sortedDrivers)[j], DriverIDs(sortedDrivers)[i])
    {
      assert !DriverBefore(sortedDrivers[j], sortedDrivers[i]);
    }
    forall i, j | 0 <= i < j < |sortedLoads|
      ensures !IdLess(LoadIDs(sortedLoads)[j], LoadIDs(sortedLoads)[i])
    {
      assert !LoadBefore(sortedLoads[j], sortedLoads[i]);
    }
    rs := ResourceState(sortedDrivers, sortedLoads, dIndex, lIndex);
  }

  /** With unique identifiers the state does not depend on the order its parts arrived in. */
  lemma StateIsCanonical(rs: ResourceState, rs': ResourceState)
    requires ValidResource(rs) && ValidResource(rs') && UniqueIDs(rs)
    requires multiset(rs.drivers) == multiset(rs'.drivers) && multiset(rs.loads) == multiset(rs'.loads)
    ensures rs == rs'
  {
    SameOrder(rs.drivers, rs'.drivers, DriverID);
    SameOrder(rs.loads, rs'.loads, LoadID);
    SamePositions(rs.driverIndex, rs'.driverIndex, DriverIDs(rs.drivers));
    SamePositions(rs.loadIndex, rs'.loadIndex, LoadIDs(rs.loads));
  }

  lemma PermutedIDs(a: seq<Driver>, b: seq<Driver>, x: seq<Load>, y: seq<Load>)
    requires multiset(a) == multiset(b) && multiset(x) == multiset(y)
    ensures multiset(DriverIDs(a)) == multiset(DriverIDs(b)) && multiset(LoadIDs(x)) == multiset(LoadIDs(y))
    ensures Distinct(DriverIDs(a)) <==> Distinct(DriverIDs(b))
    ensures Distinct(LoadIDs(x)) <==> Distinct(LoadIDs(y))
  {
    MapKeepsMultiset(a, b, DriverID);
    MapKeepsMultiset(x, y, LoadID);
    PermutationKeepsElements(DriverIDs(a), DriverIDs(b));
    PermutationKeepsElements(DriverIDs(b), DriverIDs(a));
    PermutationKeepsElements(LoadIDs(x), LoadIDs(y));
    PermutationKeepsElements(LoadIDs(y), LoadIDs(x));
  }
}
