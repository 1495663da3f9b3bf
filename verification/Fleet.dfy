/** Drivers, loads and places. */
module Fleet {
  import opened Wrappers

  datatype Location = Location(nodeID: string, lat: real, lon: real)

  datatype Equipment = Equipment(kind: string, endorsements: seq<string>)

  /** The hours-of-service clocks and rules are carried along, never looked into. */
  datatype Clocks = Clocks(image: string)
  datatype PolicySpecs = PolicySpecs(image: string)

  const UNSPECIFIED := PolicySpecs("")

  datatype Driver = Driver(id: string, currentLocation: Location, homeLocation: Location, availableEpoch: int,
                           dutyHoursRemaining: real, driveHoursRemaining: real, assignedLoadID: string,
                           equipment: Equipment, endorsements: seq<string>, clocks: Option<Clocks>,
                           policySpecs: PolicySpecs) {

    predicate IsIdle() {
      assignedLoadID == ""
    }
  }

  datatype Load = Load(id: string, origin: Location, destination: Location, pickupEarliestEpoch: int,
                       pickupLatestEpoch: int, deliveryEarliestEpoch: int, deliveryLatestEpoch: int,
                       requiredEquipment: string, requiredEndorsements: seq<string>, revenue: real,
                       estimatedTransitEpochs: int)

  function DriverID(d: Driver): string {
    d.id
  }

  function LoadID(l: Load): string {
    l.id
  }
}
