/**
 * The records of the ride-share domain. Trips refer to their passenger and
 * driver by id (an arena addressed by id) instead of by object reference.
 */
module Entities {
  import opened Wrappers

  /** Whole seconds since an arbitrary epoch. */
  type Seconds = int

  /** Whether a driver can take a new request. */
  datatype Status = Available | Unavailable

  /** One ride. A trip without an end time is still in progress. */
  datatype Trip = Trip(
    id: int,
    passengerId: int,
    driverId: int,
    startTime: Seconds,
    endTime: Option<Seconds>,
    cost: Option<int>,
    rating: Option<int>)
  {
    predicate InProgress() {
      endTime.None?
    }

    /** An in-progress trip has neither cost nor rating; a completed one has both. */
    predicate WellFormed() {
      if InProgress() then cost.None? && rating.None? else cost.Some? && rating.Some?
    }
  }

  datatype Passenger = Passenger(id: int, name: string, phoneNumber: string, trips: seq<Trip>)

  datatype Driver = Driver(id: int, name: string, vin: string, status: Status, trips: seq<Trip>)

  /** The failures the core reports instead of raising or dereferencing `nil`. */
  datatype Error =
    | InvalidId(id: int)                              // validate_id raised ArgumentError
    | UnresolvedPassenger(tripId: int, passengerId: int)  // a trip names no loaded passenger
    | UnresolvedDriver(tripId: int, driverId: int)        // a trip names no loaded driver
    | NoDriverAvailable                               // request_trip found no AVAILABLE driver

  /** Passenger and driver ids must be at least 1. */
  predicate ValidId(id: int) {
    id >= 1
  }

  /** No two trips share an id. */
  predicate UniqueTripIds(trips: seq<Trip>) {
    forall i, j :: 0 <= i < j < |trips| ==> trips[i].id != trips[j].id
  }

  predicate UniquePassengerIds(ps: seq<Passenger>) {
    forall i, j :: 0 <= i < j < |ps| ==> ps[i].id != ps[j].id
  }

  predicate UniqueDriverIds(ds: seq<Driver>) {
    forall i, j :: 0 <= i < j < |ds| ==> ds[i].id != ds[j].id
  }

  /** Every trip in the passenger's list points back at that passenger. */
  predicate PassengerOwnsTrips(p: Passenger) {
    forall t <- p.trips :: t.passengerId == p.id
  }

  /** Every trip in the driver's list points back at that driver. */
  predicate DriverOwnsTrips(d: Driver) {
    forall t <- d.trips :: t.driverId == d.id
  }
}
