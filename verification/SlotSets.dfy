/** Drivers and loads as the slots that matches and relays compete for. */
module SlotSets {

  datatype Slot = DriverSlot(id: string) | LoadSlot(id: string)

  ghost function SlotsOf(drivers: set<string>, loads: set<string>): set<Slot> {
    (set id | id in drivers :: DriverSlot(id)) + (set id | id in loads :: LoadSlot(id))
  }

  predicate Named(s: Slot, drivers: set<string>, loads: set<string>) {
    match s
    case DriverSlot(id) => id in drivers
    case LoadSlot(id) => id in loads
  }

  lemma SlotsAreNamed(s: Slot, drivers: set<string>, loads: set<string>)
    ensures s in SlotsOf(drivers, loads) <==> Named(s, drivers, loads)
  {
  }

  lemma SlotsOfMore(drivers: set<string>, loads: set<string>, moreDrivers: set<string>, moreLoads: set<string>)
    ensures SlotsOf(drivers + moreDrivers, loads + moreLoads)
         == SlotsOf(drivers, loads) + SlotsOf(moreDrivers, moreLoads)
  {
    forall s: Slot
      ensures s in SlotsOf(drivers + moreDrivers, loads + moreLoads)
         <==> s in SlotsOf(drivers, loads) + SlotsOf(moreDrivers, moreLoads)
    {
      SlotsAreNamed(s, drivers + moreDrivers, loads + moreLoads);
      SlotsAreNamed(s, drivers, loads);
      SlotsAreNamed(s, moreDrivers, moreLoads);
    }
  }

  lemma SlotsFree(drivers: set<string>, loads: set<string>, needDrivers: set<string>, needLoads: set<string>)
    ensures SlotsOf(needDrivers, needLoads) !! SlotsOf(drivers, loads)
       <==> needDrivers !! drivers && needLoads !! loads
  {
    var need, taken := SlotsOf(needDrivers, needLoads), SlotsOf(drivers, loads);
    forall s: Slot
      ensures s in need && s in taken <==> Named(s, needDrivers, needLoads) && Named(s, drivers, loads)
    {
      SlotsAreNamed(s, needDrivers, needLoads);
      SlotsAreNamed(s, drivers, loads);
    }
    forall id
      ensures id in needDrivers && id in drivers ==> DriverSlot(id) in need && DriverSlot(id) in taken
      ensures id in needLoads && id in loads ==> LoadSlot(id) in need && LoadSlot(id) in taken
    {
    }
  }
}
