/**
 * request_trip exactly as lib/trip_dispatcher.rb:36-48 writes it, with the
 * inputs that show its three defects next to the corrected behaviour that
 * Dispatcher.RequestTrip models.
 */
module Findings {
  import opened Wrappers
  import opened Entities
  import opened Passengers
  import opened Dispatcher

  /** The id the source gives every requested trip. */
  const StubTripId := 8

  /** The source's stub cost 23.45, truncated to this model's whole cost units. */
  const StubCost := 23

  /** The source's stub rating. */
  const StubRating := 3

  /**
   * request_trip as written. None stands for the NoMethodError raised by
   * calling `status=` on `nil` when no driver is AVAILABLE. Otherwise the
   * driver is claimed as in RequestTrip, but the trip always has id 8 and is
   * stamped completed: its end time equals its start time and it carries the
   * stub cost and rating. The trip list is returned as it was: the source
   * does not record the new trip.
   */
  function RequestTripAsWritten(drivers: seq<Driver>, trips: seq<Trip>, passengerId: int, now: Seconds): (r: Option<Dispatch>)
    ensures r.None? <==> forall j :: 0 <= j < |drivers| ==> drivers[j].status != Available
    ensures r.Some? ==>
              exists k :: ClaimsFirstAvailable(drivers, r.value.drivers, k) && r.value.trip.driverId == drivers[k].id
    ensures r.Some? ==> r.value.trip.passengerId == passengerId && r.value.trip.startTime == now
    ensures r.Some? ==> r.value.trips == trips
  {
    match ClaimDriver(drivers)
    case None => None
    case Some((k, after)) =>
      Some(Dispatch(after, trips, Trip(StubTripId, passengerId, drivers[k].id, now, Some(now), Some(StubCost), Some(StubRating))))
  }

  /**
   * With every driver UNAVAILABLE the source dereferences `nil`, where the
   * corrected request reports NoDriverAvailable.
   */
  lemma AsWrittenFailsOnNil()
    ensures var drivers := [Driver(1, "Bernardo Prosacco", "WBWSS52P9NEYLVDE9", Unavailable, [])];
            && RequestTripAsWritten(drivers, [], 1, 0).None?
            && RequestTrip(drivers, [], 1, 0) == Failure(NoDriverAvailable)
  {
    var drivers := [Driver(1, "Bernardo Prosacco", "WBWSS52P9NEYLVDE9", Unavailable, [])];
    assert drivers[0].status != Available;
  }

  /** Whenever a trip with id 8 is already loaded, the requested trip reuses its id once recorded. */
  lemma AsWrittenIdCollides(drivers: seq<Driver>, trips: seq<Trip>, passengerId: int, now: Seconds, i: nat)
    requires i < |trips| && trips[i].id == StubTripId
    requires RequestTripAsWritten(drivers, trips, passengerId, now).Some?
    ensures !UniqueTripIds(trips + [RequestTripAsWritten(drivers, trips, passengerId, now).value.trip])
  {
    var all := trips + [RequestTripAsWritten(drivers, trips, passengerId, now).value.trip];
    assert all[i].id == all[|trips|].id;
  }

  /**
   * The as-written trip is born completed, so attaching it to any passenger
   * adds the stub cost to net_expenditures and lists it among the completed
   * trips although the ride has not happened.
   */
  lemma AsWrittenTripCountsAsCompleted(drivers: seq<Driver>, trips: seq<Trip>, p: Passenger, now: Seconds)
    requires RequestTripAsWritten(drivers, trips, p.id, now).Some?
    ensures var t := RequestTripAsWritten(drivers, trips, p.id, now).value.trip;
            && !t.InProgress()
            && NetExpenditures(AddTrip(p, t).trips) == NetExpenditures(p.trips) + StubCost
            && NonInProgressTrips(AddTrip(p, t).trips) == NonInProgressTrips(p.trips) + [t]
  {
    AddCompletedTrip(p, RequestTripAsWritten(drivers, trips, p.id, now).value.trip);
  }

  /**
   * The corrected request creates the trip in progress: attaching it to its
   * passenger changes none of the passenger's statistics.
   */
  lemma RequestedTripLeavesStatistics(drivers: seq<Driver>, trips: seq<Trip>, p: Passenger, now: Seconds)
    requires RequestTrip(drivers, trips, p.id, now).Success?
    ensures var t := RequestTrip(drivers, trips, p.id, now).value.trip;
            && NetExpenditures(AddTrip(p, t).trips) == NetExpenditures(p.trips)
            && TotalTimeSpent(AddTrip(p, t).trips) == TotalTimeSpent(p.trips)
            && NonInProgressTrips(AddTrip(p, t).trips) == NonInProgressTrips(p.trips)
            && (PassengerOwnsTrips(p) ==> PassengerOwnsTrips(AddTrip(p, t)))
  {
    var t := RequestTrip(drivers, trips, p.id, now).value.trip;
    AddInProgressTrip(p, t);
    if PassengerOwnsTrips(p) {
      AddTripKeepsOwnership(p, t);
    }
  }
}
