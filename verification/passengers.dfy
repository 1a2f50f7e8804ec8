/**
 * Passenger construction, trip attachment and the statistics computed over a
 * passenger's trip list. lib/passenger.rb is not part of this model: the
 * behaviour here is the one pinned down by specs/passenger_spec.rb. Each
 * aggregate takes the passenger's trip list (`p.trips`), which is all the
 * Ruby methods read.
 */
module Passengers {
  import opened Wrappers
  import opened Entities

  /** Passenger.new: an id below 1 is rejected; the trip list defaults to empty. */
  function NewPassenger(id: int, name: string, phoneNumber: string, trips: Option<seq<Trip>>): (r: Result<Passenger, Error>)
    ensures r.Success? <==> ValidId(id)
    ensures r.Failure? ==> r.error == InvalidId(id)
    ensures r.Success? ==> r.value.id == id && r.value.name == name && r.value.phoneNumber == phoneNumber
    ensures r.Success? && trips.None? ==> r.value.trips == []
    ensures r.Success? && trips.Some? ==> r.value.trips == trips.value
  {
    if !ValidId(id) then Failure(InvalidId(id))
    else Success(Passenger(id, name, phoneNumber, trips.GetOr([])))
  }

  /** add_trip: the trip goes to the end of the list; nothing else changes. */
  function AddTrip(p: Passenger, t: Trip): (q: Passenger)
    ensures q.id == p.id && q.name == p.name && q.phoneNumber == p.phoneNumber
    ensures |q.trips| == |p.trips| + 1 && q.trips[..|p.trips|] == p.trips && q.trips[|p.trips|] == t
  {
    p.(trips := p.trips + [t])
  }

  /** non_inprogress_trips: the trips that have an end time, in their original order. */
  function NonInProgressTrips(trips: seq<Trip>): (r: seq<Trip>)
    ensures |r| <= |trips|
    ensures forall t :: t in r <==> t in trips && !t.InProgress()
  {
    if trips == [] then []
    else
      var rest := NonInProgressTrips(trips[..|trips| - 1]);
      var last := trips[|trips| - 1];
      assert forall t :: t in trips <==> t in trips[..|trips| - 1] || t == last by {
        assert trips == trips[..|trips| - 1] + [last];
      }
      if last.InProgress() then rest else rest + [last]
  }

  /** What one trip adds to net_expenditures: nothing while in progress, its cost once completed. */
  function Charge(t: Trip): int {
    if t.InProgress() then 0 else t.cost.GetOr(0)
  }

  /** What one trip adds to total_time_spent: nothing while in progress, end minus start once completed. */
  function Duration(t: Trip): int {
    match t.endTime
    case None => 0
    case Some(e) => e - t.startTime
  }

  /** net_expenditures: the total cost of the completed trips. */
  function NetExpenditures(trips: seq<Trip>): (r: int)
    ensures (forall i :: 0 <= i < |trips| ==> trips[i].InProgress()) ==> r == 0
    ensures (forall i :: 0 <= i < |trips| ==> trips[i].cost.GetOr(0) >= 0) ==> r >= 0
  {
    if trips == [] then 0
    else NetExpenditures(trips[..|trips| - 1]) + Charge(trips[|trips| - 1])
  }

  /** total_time_spent: the summed duration, in seconds, of the completed trips. */
  function TotalTimeSpent(trips: seq<Trip>): (r: int)
    ensures (forall i :: 0 <= i < |trips| ==> trips[i].InProgress()) ==> r == 0
    ensures (forall i :: 0 <= i < |trips| ==> trips[i].startTime <= trips[i].endTime.GetOr(trips[i].startTime)) ==> r >= 0
  {
    if trips == [] then 0
    else TotalTimeSpent(trips[..|trips| - 1]) + Duration(trips[|trips| - 1])
  }

  /** Reference definition: the plain sum of the costs present, folded from the front. */
  function SumCosts(trips: seq<Trip>): int {
    if trips == [] then 0 else trips[0].cost.GetOr(0) + SumCosts(trips[1..])
  }

  /** Reference definition: the plain sum of end minus start, folded from the front. */
  function SumSpans(trips: seq<Trip>): int {
    if trips == [] then 0
    else trips[0].endTime.GetOr(trips[0].startTime) - trips[0].startTime + SumSpans(trips[1..])
  }

  lemma {:induction false} SumCostsAppend(a: seq<Trip>, b: seq<Trip>)
    ensures SumCosts(a + b) == SumCosts(a) + SumCosts(b)
    decreases |a|
  {
    if a == [] {
      assert a + b == b;
    } else {
      assert (a + b)[1..] == a[1..] + b;
      SumCostsAppend(a[1..], b);
    }
  }

  lemma {:induction false} SumSpansAppend(a: seq<Trip>, b: seq<Trip>)
    ensures SumSpans(a + b) == SumSpans(a) + SumSpans(b)
    decreases |a|
  {
    if a == [] {
      assert a + b == b;
    } else {
      assert (a + b)[1..] == a[1..] + b;
      SumSpansAppend(a[1..], b);
    }
  }

  /** non_inprogress_trips keeps the order: filtering a concatenation concatenates the filtered parts. */
  lemma {:induction false} NonInProgressTripsAppend(a: seq<Trip>, b: seq<Trip>)
    ensures NonInProgressTrips(a + b) == NonInProgressTrips(a) + NonInProgressTrips(b)
    decreases |b|
  {
    if b == [] {
      assert a + b == a;
    } else {
      var b' := b[..|b| - 1];
      assert (a + b)[..|a + b| - 1] == a + b';
      assert (a + b)[|a + b| - 1] == b[|b| - 1];
      NonInProgressTripsAppend(a, b');
    }
  }

  /** A list of completed trips is returned unchanged, so nothing is dropped or reordered. */
  lemma {:induction false} NonInProgressTripsOfCompleted(trips: seq<Trip>)
    requires forall i :: 0 <= i < |trips| ==> !trips[i].InProgress()
    ensures NonInProgressTrips(trips) == trips
  {
    if trips != [] {
      NonInProgressTripsOfCompleted(trips[..|trips| - 1]);
    }
  }

  /** net_expenditures equals the sum of cost over exactly the trips non_inprogress_trips returns. */
  lemma {:induction false} NetExpendituresIsCostOfCompleted(trips: seq<Trip>)
    ensures NetExpenditures(trips) == SumCosts(NonInProgressTrips(trips))
  {
    if trips != [] {
      var init := trips[..|trips| - 1];
      var last := trips[|trips| - 1];
      NetExpendituresIsCostOfCompleted(init);
      if !last.InProgress() {
        SumCostsAppend(NonInProgressTrips(init), [last]);
      }
    }
  }

  /** total_time_spent equals the summed end-minus-start of exactly the trips non_inprogress_trips returns. */
  lemma {:induction false} TotalTimeSpentIsSpanOfCompleted(trips: seq<Trip>)
    ensures TotalTimeSpent(trips) == SumSpans(NonInProgressTrips(trips))
  {
    if trips != [] {
      var init := trips[..|trips| - 1];
      var last := trips[|trips| - 1];
      TotalTimeSpentIsSpanOfCompleted(init);
      if !last.InProgress() {
        SumSpansAppend(NonInProgressTrips(init), [last]);
      }
    }
  }

  /** Adding an in-progress trip changes none of the three statistics. */
  lemma AddInProgressTrip(p: Passenger, t: Trip)
    requires t.InProgress()
    ensures NetExpenditures(AddTrip(p, t).trips) == NetExpenditures(p.trips)
    ensures TotalTimeSpent(AddTrip(p, t).trips) == TotalTimeSpent(p.trips)
    ensures NonInProgressTrips(AddTrip(p, t).trips) == NonInProgressTrips(p.trips)
  {
    assert AddTrip(p, t).trips[..|p.trips|] == p.trips;
  }

  /** Adding a completed trip adds its cost and duration and appends it to the completed list. */
  lemma AddCompletedTrip(p: Passenger, t: Trip)
    requires !t.InProgress()
    ensures NetExpenditures(AddTrip(p, t).trips) == NetExpenditures(p.trips) + t.cost.GetOr(0)
    ensures TotalTimeSpent(AddTrip(p, t).trips) == TotalTimeSpent(p.trips) + (t.endTime.value - t.startTime)
    ensures NonInProgressTrips(AddTrip(p, t).trips) == NonInProgressTrips(p.trips) + [t]
  {
    assert AddTrip(p, t).trips[..|p.trips|] == p.trips;
  }

  /** add_trip keeps every trip pointing back at the passenger exactly when the new trip does. */
  lemma AddTripKeepsOwnership(p: Passenger, t: Trip)
    requires PassengerOwnsTrips(p)
    ensures PassengerOwnsTrips(AddTrip(p, t)) <==> t.passengerId == p.id
  {
    assert t in AddTrip(p, t).trips;
  }

  /**
   * passenger_spec.rb's fixture: passenger 9 with three completed trips of cost 30 and
   * 25 minutes each (starting 2015-05-20T12:14:00Z), then one in-progress trip.
   */
  lemma PassengerScenario()
    ensures
      var start := 1432124040;
      var done := seq(3, i => Trip(8 + i, 9, 3, start, Some(start + 25 * 60), Some(30), Some(5)));
      var open := Trip(8, 9, 3, start, None, None, None);
      var p0 := NewPassenger(9, "Merl Glover III", "1-602-620-2330 x3723", Some([])).value;
      var p3 := AddTrip(AddTrip(AddTrip(p0, done[0]), done[1]), done[2]);
      && NetExpenditures(p3.trips) == 90
      && TotalTimeSpent(p3.trips) == 4500
      && NetExpenditures(AddTrip(p3, open).trips) == 90
      && TotalTimeSpent(AddTrip(p3, open).trips) == 4500
      && NonInProgressTrips(AddTrip(p3, open).trips) == p3.trips
      && PassengerOwnsTrips(AddTrip(p3, open))
  {
    var start := 1432124040;
    var done := seq(3, i => Trip(8 + i, 9, 3, start, Some(start + 25 * 60), Some(30), Some(5)));
    var open := Trip(8, 9, 3, start, None, None, None);
    var p0 := NewPassenger(9, "Merl Glover III", "1-602-620-2330 x3723", Some([])).value;
    var p1 := AddTrip(p0, done[0]);
    var p2 := AddTrip(p1, done[1]);
    var p3 := AddTrip(p2, done[2]);
    AddCompletedTrip(p0, done[0]);
    AddCompletedTrip(p1, done[1]);
    AddCompletedTrip(p2, done[2]);
    AddInProgressTrip(p3, open);
    NonInProgressTripsOfCompleted(p3.trips);
    AddTripKeepsOwnership(p0, done[0]);
    AddTripKeepsOwnership(p1, done[1]);
    AddTripKeepsOwnership(p2, done[2]);
    AddTripKeepsOwnership(p3, open);
  }

  /** With no trips, or only in-progress ones, every statistic is zero and the completed list is empty. */
  lemma NoCompletedTrips(trips: seq<Trip>)
    requires forall i :: 0 <= i < |trips| ==> trips[i].InProgress()
    ensures NetExpenditures(trips) == 0
    ensures TotalTimeSpent(trips) == 0
    ensures NonInProgressTrips(trips) == []
  {
  }
}
