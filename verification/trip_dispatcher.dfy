/**
 * The trip dispatcher: validated lookups by id, the linking of loaded trips to
 * their passengers and drivers, and the one state change of the core, claiming
 * a driver for a trip request. Loading the three lists from CSV files is left
 * to the caller, who passes them in.
 */
module Dispatcher {
  import opened Wrappers
  import opened Entities

  /** Ruby's Enumerable#find: the index of the first element satisfying `p`, if any. */
  function FindFirst<T>(s: seq<T>, p: T -> bool): (r: Option<nat>)
    ensures r.Some? ==> r.value < |s| && p(s[r.value]) && forall j :: 0 <= j < r.value ==> !p(s[j])
    ensures r.None? ==> forall j :: 0 <= j < |s| ==> !p(s[j])
  {
    if s == [] then None
    else if p(s[0]) then Some(0)
    else
      match FindFirst(s[1..], p)
      case None => None
      case Some(k) => Some(k + 1)
  }

  function PassengerIndex(passengers: seq<Passenger>, id: int): Option<nat> {
    FindFirst(passengers, (p: Passenger) => p.id == id)
  }

  function DriverIndex(drivers: seq<Driver>, id: int): Option<nat> {
    FindFirst(drivers, (d: Driver) => d.id == id)
  }

  /**
   * find_passenger: the id is validated before any search; then the first
   * passenger with that id, or None (Ruby's nil) when there is none.
   */
  function FindPassenger(passengers: seq<Passenger>, id: int): (r: Result<Option<Passenger>, Error>)
    ensures r.Failure? <==> !ValidId(id)
    ensures r.Failure? ==> r.error == InvalidId(id)
    ensures r.Success? && r.value.None? ==> forall i :: 0 <= i < |passengers| ==> passengers[i].id != id
    ensures r.Success? && r.value.Some? ==>
              exists i :: 0 <= i < |passengers| && passengers[i] == r.value.value && passengers[i].id == id
                          && forall j :: 0 <= j < i ==> passengers[j].id != id
  {
    if !ValidId(id) then Failure(InvalidId(id))
    else
      match PassengerIndex(passengers, id)
      case None => Success(None)
      case Some(i) => Success(Some(passengers[i]))
  }

  /** find_driver: the same contract over the driver list. */
  function FindDriver(drivers: seq<Driver>, id: int): (r: Result<Option<Driver>, Error>)
    ensures r.Failure? <==> !ValidId(id)
    ensures r.Failure? ==> r.error == InvalidId(id)
    ensures r.Success? && r.value.None? ==> forall i :: 0 <= i < |drivers| ==> drivers[i].id != id
    ensures r.Success? && r.value.Some? ==>
              exists i :: 0 <= i < |drivers| && drivers[i] == r.value.value && drivers[i].id == id
                          && forall j :: 0 <= j < i ==> drivers[j].id != id
  {
    if !ValidId(id) then Failure(InvalidId(id))
    else
      match DriverIndex(drivers, id)
      case None => Success(None)
      case Some(i) => Success(Some(drivers[i]))
  }

  // ---------------------------------------------------------------------------
  // connect_trips
  // ---------------------------------------------------------------------------

  /** The linked entity graph: passengers and drivers carrying their trips, and the trip list. */
  datatype Graph = Graph(passengers: seq<Passenger>, drivers: seq<Driver>, trips: seq<Trip>)

  /**
   * One iteration of connect_trips, up to the point of linking: find_passenger
   * and find_driver validate the two ids in that order, then connecting a trip
   * to a `nil` passenger or driver is reported as an unresolved reference
   * instead of failing on `nil`. On success, the indices of the passenger and
   * driver the lookups returned (see ResolveGoesThroughLookups).
   */
  function Resolve(passengers: seq<Passenger>, drivers: seq<Driver>, t: Trip): (r: Result<(nat, nat), Error>)
    ensures r.Success? ==> r.value.0 < |passengers| && passengers[r.value.0].id == t.passengerId
    ensures r.Success? ==> r.value.1 < |drivers| && drivers[r.value.1].id == t.driverId
    ensures r.Success? ==> PassengerIndex(passengers, t.passengerId) == Some(r.value.0)
    ensures r.Success? ==> DriverIndex(drivers, t.driverId) == Some(r.value.1)
    ensures r.Failure? && !ValidId(t.passengerId) ==> r.error == InvalidId(t.passengerId)
    ensures r.Failure? && ValidId(t.passengerId) && !ValidId(t.driverId) ==> r.error == InvalidId(t.driverId)
  {
    if !ValidId(t.passengerId) then Failure(InvalidId(t.passengerId))
    else if !ValidId(t.driverId) then Failure(InvalidId(t.driverId))
    else
      match (PassengerIndex(passengers, t.passengerId), DriverIndex(drivers, t.driverId))
      case (None, _) => Failure(UnresolvedPassenger(t.id, t.passengerId))
      case (_, None) => Failure(UnresolvedDriver(t.id, t.driverId))
      case (Some(i), Some(j)) => Success((i, j))
  }

  /**
   * Linking goes through the validating lookups: a trip resolves exactly when
   * find_passenger and find_driver both return an entity, and it resolves to
   * those entities; a trip whose ids are valid but unknown is reported as
   * unresolved.
   */
  lemma ResolveGoesThroughLookups(passengers: seq<Passenger>, drivers: seq<Driver>, t: Trip)
    ensures Resolve(passengers, drivers, t).Success? <==>
              && FindPassenger(passengers, t.passengerId).Success? && FindPassenger(passengers, t.passengerId).value.Some?
              && FindDriver(drivers, t.driverId).Success? && FindDriver(drivers, t.driverId).value.Some?
    ensures Resolve(passengers, drivers, t).Success? ==>
              && FindPassenger(passengers, t.passengerId).value == Some(passengers[Resolve(passengers, drivers, t).value.0])
              && FindDriver(drivers, t.driverId).value == Some(drivers[Resolve(passengers, drivers, t).value.1])
    ensures FindPassenger(passengers, t.passengerId) == Success(None) && ValidId(t.driverId) ==>
              Resolve(passengers, drivers, t) == Failure(UnresolvedPassenger(t.id, t.passengerId))
    ensures FindPassenger(passengers, t.passengerId).Success? && FindPassenger(passengers, t.passengerId).value.Some?
            && FindDriver(drivers, t.driverId) == Success(None) ==>
              Resolve(passengers, drivers, t) == Failure(UnresolvedDriver(t.id, t.driverId))
  {
  }

  /** The passengers changed only in their trip lists, each of which grew at its end. */
  predicate PassengersGrown(before: seq<Passenger>, after: seq<Passenger>) {
    && |after| == |before|
    && forall i :: 0 <= i < |before| ==>
         && after[i] == before[i].(trips := after[i].trips)
         && before[i].trips <= after[i].trips
  }

  /** The drivers changed only in their trip lists, each of which grew at its end. */
  predicate DriversGrown(before: seq<Driver>, after: seq<Driver>) {
    && |after| == |before|
    && forall i :: 0 <= i < |before| ==>
         && after[i] == before[i].(trips := after[i].trips)
         && before[i].trips <= after[i].trips
  }

  lemma ResolveSameIds(ps: seq<Passenger>, ds: seq<Driver>, ps': seq<Passenger>, ds': seq<Driver>, t: Trip)
    requires PassengersGrown(ps, ps') && DriversGrown(ds, ds')
    ensures Resolve(ps', ds', t) == Resolve(ps, ds, t)
  {
    assert forall i :: 0 <= i < |ps| ==> ps'[i].id == ps[i].id;
    assert forall i :: 0 <= i < |ds| ==> ds'[i].id == ds[i].id;
    var fp := (p: Passenger) => p.id == t.passengerId;
    var fd := (d: Driver) => d.id == t.driverId;
    FindFirstSameVerdicts(ps, ps', fp);
    FindFirstSameVerdicts(ds, ds', fd);
  }

  /** Two lists on which `p` agrees position by position give the same first match. */
  lemma {:induction false} FindFirstSameVerdicts<T>(s: seq<T>, s': seq<T>, p: T -> bool)
    requires |s| == |s'| && forall i :: 0 <= i < |s| ==> p(s[i]) == p(s'[i])
    ensures FindFirst(s, p) == FindFirst(s', p)
  {
    if s != [] {
      FindFirstSameVerdicts(s[1..], s'[1..], p);
    }
  }

  lemma GrownTransitive(g0: Graph, g1: Graph, g2: Graph)
    requires PassengersGrown(g0.passengers, g1.passengers) && DriversGrown(g0.drivers, g1.drivers)
    requires PassengersGrown(g1.passengers, g2.passengers) && DriversGrown(g1.drivers, g2.drivers)
    ensures PassengersGrown(g0.passengers, g2.passengers) && DriversGrown(g0.drivers, g2.drivers)
  {
  }

  /** Appends `t` to the trips of passenger `i` and of driver `j` (trip.connect_passenger / connect_driver). */
  function LinkTrip(g: Graph, t: Trip, i: nat, j: nat): (g': Graph)
    requires i < |g.passengers| && j < |g.drivers|
    ensures g'.trips == g.trips
    ensures PassengersGrown(g.passengers, g'.passengers) && DriversGrown(g.drivers, g'.drivers)
    ensures g'.passengers[i].trips == g.passengers[i].trips + [t]
    ensures g'.drivers[j].trips == g.drivers[j].trips + [t]
    ensures forall k :: 0 <= k < |g.passengers| && k != i ==> g'.passengers[k] == g.passengers[k]
    ensures forall k :: 0 <= k < |g.drivers| && k != j ==> g'.drivers[k] == g.drivers[k]
  {
    var p := g.passengers[i];
    var d := g.drivers[j];
    g.(passengers := g.passengers[i := p.(trips := p.trips + [t])],
       drivers := g.drivers[j := d.(trips := d.trips + [t])])
  }

  /**
   * connect_trips: every trip, in order, is resolved through the validating
   * lookups and appended to the trip lists of the passenger and the driver
   * found; the trip list itself is returned unchanged. The first trip that
   * cannot be resolved stops the linking with its error, so no partly linked
   * graph is ever returned (ConnectTripsSucceedsIff, ConnectTripsReportsFirstFailure).
   */
  function ConnectTrips(passengers: seq<Passenger>, drivers: seq<Driver>, trips: seq<Trip>): (r: Result<Graph, Error>)
    ensures r.Success? ==> r.value.trips == trips
    ensures r.Success? ==> PassengersGrown(passengers, r.value.passengers) && DriversGrown(drivers, r.value.drivers)
  {
    if trips == [] then Success(Graph(passengers, drivers, []))
    else
      var t := trips[|trips| - 1];
      var g :- ConnectTrips(passengers, drivers, trips[..|trips| - 1]);
      var (i, j) :- Resolve(g.passengers, g.drivers, t);
      var g' := LinkTrip(g, t, i, j);
      GrownTransitive(Graph(passengers, drivers, []), g, g');
      Success(g'.(trips := trips))
  }

  /** One more trip links exactly when the shorter list linked and the new trip resolves. */
  lemma ConnectTripsStep(passengers: seq<Passenger>, drivers: seq<Driver>, trips: seq<Trip>, init: seq<Trip>, last: Trip)
    requires trips == init + [last]
    ensures ConnectTrips(passengers, drivers, trips).Success? <==>
              ConnectTrips(passengers, drivers, init).Success? && Resolve(passengers, drivers, last).Success?
    ensures ConnectTrips(passengers, drivers, init).Failure? ==>
              ConnectTrips(passengers, drivers, trips) == Failure(ConnectTrips(passengers, drivers, init).error)
    ensures ConnectTrips(passengers, drivers, init).Success? && Resolve(passengers, drivers, last).Failure? ==>
              ConnectTrips(passengers, drivers, trips) == Failure(Resolve(passengers, drivers, last).error)
  {
    assert trips[..|trips| - 1] == init;
    var g := ConnectTrips(passengers, drivers, init);
    if g.Success? {
      ResolveSameIds(passengers, drivers, g.value.passengers, g.value.drivers, last);
    }
  }

  /** Linking succeeds if and only if every trip resolves. */
  lemma {:induction false} ConnectTripsSucceedsIff(passengers: seq<Passenger>, drivers: seq<Driver>, trips: seq<Trip>)
    ensures ConnectTrips(passengers, drivers, trips).Success? <==>
              forall k :: 0 <= k < |trips| ==> Resolve(passengers, drivers, trips[k]).Success?
  {
    if trips != [] {
      var init := trips[..|trips| - 1];
      var last := trips[|trips| - 1];
      assert trips == init + [last];
      ConnectTripsSucceedsIff(passengers, drivers, init);
      ConnectTripsStep(passengers, drivers, trips, init, last);
      if ConnectTrips(passengers, drivers, trips).Success? {
        forall k | 0 <= k < |trips|
          ensures Resolve(passengers, drivers, trips[k]).Success?
        {
          if k < |init| {
            assert trips[k] == init[k];
          }
        }
      } else if ConnectTrips(passengers, drivers, init).Failure? {
        var k :| 0 <= k < |init| && !Resolve(passengers, drivers, init[k]).Success?;
        assert trips[k] == init[k];
      }
    }
  }

  /** A failed linking reports the error of the first trip that does not resolve. */
  lemma {:induction false} ConnectTripsReportsFirstFailure(passengers: seq<Passenger>, drivers: seq<Driver>, trips: seq<Trip>)
    requires ConnectTrips(passengers, drivers, trips).Failure?
    ensures exists k :: 0 <= k < |trips| && Resolve(passengers, drivers, trips[k]) == Failure(ConnectTrips(passengers, drivers, trips).error)
                        && forall j :: 0 <= j < k ==> Resolve(passengers, drivers, trips[j]).Success?
  {
    var init := trips[..|trips| - 1];
    var n := |trips| - 1;
    assert trips == init + [trips[n]];
    ConnectTripsStep(passengers, drivers, trips, init, trips[n]);
    assert forall k :: 0 <= k < |init| ==> init[k] == trips[k];
    if ConnectTrips(passengers, drivers, init).Failure? {
      ConnectTripsReportsFirstFailure(passengers, drivers, init);
      var k :| 0 <= k < |init| && Resolve(passengers, drivers, init[k]) == Failure(ConnectTrips(passengers, drivers, init).error)
               && forall j :: 0 <= j < k ==> Resolve(passengers, drivers, init[j]).Success?;
      assert Resolve(passengers, drivers, trips[k]) == Failure(ConnectTrips(passengers, drivers, trips).error);
    } else {
      ConnectTripsSucceedsIff(passengers, drivers, init);
      assert Resolve(passengers, drivers, trips[n]) == Failure(ConnectTrips(passengers, drivers, trips).error);
    }
  }

  /** The trips, in order, whose passenger id is `id`. */
  function TripsOfPassenger(trips: seq<Trip>, id: int): (r: seq<Trip>)
    ensures forall t :: t in r <==> t in trips && t.passengerId == id
  {
    if trips == [] then []
    else
      var init := trips[..|trips| - 1];
      var last := trips[|trips| - 1];
      assert trips == init + [last];
      TripsOfPassenger(init, id) + (if last.passengerId == id then [last] else [])
  }

  /** The trips, in order, whose driver id is `id`. */
  function TripsOfDriver(trips: seq<Trip>, id: int): (r: seq<Trip>)
    ensures forall t :: t in r <==> t in trips && t.driverId == id
  {
    if trips == [] then []
    else
      var init := trips[..|trips| - 1];
      var last := trips[|trips| - 1];
      assert trips == init + [last];
      TripsOfDriver(init, id) + (if last.driverId == id then [last] else [])
  }

  /** The last step of a successful linking: link the shorter list, then attach the last trip. */
  lemma ConnectTripsUnfold(passengers: seq<Passenger>, drivers: seq<Driver>, trips: seq<Trip>, init: seq<Trip>, t: Trip)
    requires trips == init + [t]
    requires ConnectTrips(passengers, drivers, trips).Success?
    ensures ConnectTrips(passengers, drivers, init).Success? && Resolve(passengers, drivers, t).Success?
    ensures ConnectTrips(passengers, drivers, trips).value
              == LinkTrip(ConnectTrips(passengers, drivers, init).value, t,
                          Resolve(passengers, drivers, t).value.0, Resolve(passengers, drivers, t).value.1).(trips := trips)
  {
    ConnectTripsStep(passengers, drivers, trips, init, t);
    assert trips[..|trips| - 1] == init;
    var g := ConnectTrips(passengers, drivers, init).value;
    ResolveSameIds(passengers, drivers, g.passengers, g.drivers, t);
  }

  lemma TripsOfPassengerSnoc(init: seq<Trip>, t: Trip, id: int)
    ensures TripsOfPassenger(init + [t], id) == TripsOfPassenger(init, id) + (if t.passengerId == id then [t] else [])
  {
    assert (init + [t])[..|init|] == init;
  }

  lemma TripsOfDriverSnoc(init: seq<Trip>, t: Trip, id: int)
    ensures TripsOfDriver(init + [t], id) == TripsOfDriver(init, id) + (if t.driverId == id then [t] else [])
  {
    assert (init + [t])[..|init|] == init;
  }

  lemma AppendAssoc<T>(a: seq<T>, b: seq<T>, c: seq<T>)
    ensures (a + b) + c == a + (b + c)
  {
  }

  /**
   * Whether the first-match lookup of passenger `i`'s own id finds `i` itself
   * (always so with unique ids); a later passenger repeating an earlier id is
   * shadowed and never found.
   */
  predicate FirstPassengerWithItsId(passengers: seq<Passenger>, i: nat)
    requires i < |passengers|
  {
    PassengerIndex(passengers, passengers[i].id) == Some(i)
  }

  /** The driver analogue of FirstPassengerWithItsId. */
  predicate FirstDriverWithItsId(drivers: seq<Driver>, i: nat)
    requires i < |drivers|
  {
    DriverIndex(drivers, drivers[i].id) == Some(i)
  }

  /** The trip resolving to passenger `k` lands on passenger `i` exactly when `i` is `k`, which needs `i` first with its id. */
  lemma PassengerIndexMatch(passengers: seq<Passenger>, i: nat, k: nat, id: int)
    requires i < |passengers| && PassengerIndex(passengers, id) == Some(k)
    ensures FirstPassengerWithItsId(passengers, i) ==> (i == k <==> id == passengers[i].id)
    ensures !FirstPassengerWithItsId(passengers, i) ==> i != k
  {
  }

  /** The driver analogue of PassengerIndexMatch. */
  lemma DriverIndexMatch(drivers: seq<Driver>, i: nat, k: nat, id: int)
    requires i < |drivers| && DriverIndex(drivers, id) == Some(k)
    ensures FirstDriverWithItsId(drivers, i) ==> (i == k <==> id == drivers[i].id)
    ensures !FirstDriverWithItsId(drivers, i) ==> i != k
  {
  }

  /** With unique ids every passenger is the first with its id. */
  lemma UniquePassengerIdsAreFirst(passengers: seq<Passenger>, i: nat)
    requires UniquePassengerIds(passengers) && i < |passengers|
    ensures FirstPassengerWithItsId(passengers, i)
  {
    var k := PassengerIndex(passengers, passengers[i].id).value;
    assert passengers[k].id == passengers[i].id;
  }

  /** With unique ids every driver is the first with its id. */
  lemma UniqueDriverIdsAreFirst(drivers: seq<Driver>, i: nat)
    requires UniqueDriverIds(drivers) && i < |drivers|
    ensures FirstDriverWithItsId(drivers, i)
  {
    var k := DriverIndex(drivers, drivers[i].id).value;
    assert drivers[k].id == drivers[i].id;
  }

  /** The last trip of a successful linking lands on the passenger it resolves to and on no other. */
  lemma ConnectTripsLastPassenger(passengers: seq<Passenger>, drivers: seq<Driver>, trips: seq<Trip>, init: seq<Trip>, t: Trip, i: nat)
    requires trips == init + [t] && i < |passengers|
    requires ConnectTrips(passengers, drivers, trips).Success?
    ensures ConnectTrips(passengers, drivers, init).Success? && Resolve(passengers, drivers, t).Success?
    ensures ConnectTrips(passengers, drivers, trips).value.passengers[i].trips
              == ConnectTrips(passengers, drivers, init).value.passengers[i].trips
                 + (if i == Resolve(passengers, drivers, t).value.0 then [t] else [])
  {
    ConnectTripsUnfold(passengers, drivers, trips, init, t);
  }

  /** The last trip of a successful linking lands on the driver it resolves to and on no other. */
  lemma ConnectTripsLastDriver(passengers: seq<Passenger>, drivers: seq<Driver>, trips: seq<Trip>, init: seq<Trip>, t: Trip, i: nat)
    requires trips == init + [t] && i < |drivers|
    requires ConnectTrips(passengers, drivers, trips).Success?
    ensures ConnectTrips(passengers, drivers, init).Success? && Resolve(passengers, drivers, t).Success?
    ensures ConnectTrips(passengers, drivers, trips).value.drivers[i].trips
              == ConnectTrips(passengers, drivers, init).value.drivers[i].trips
                 + (if i == Resolve(passengers, drivers, t).value.1 then [t] else [])
  {
    ConnectTripsUnfold(passengers, drivers, trips, init, t);
  }

  /**
   * Linking appends to passenger `i`, when it is the first with its id, exactly
   * the trips that name that id, in trip order; a passenger shadowed by an
   * earlier one with the same id gains nothing, since the lookup's first match wins.
   */
  lemma {:induction false} ConnectTripsLinksPassenger(passengers: seq<Passenger>, drivers: seq<Driver>, trips: seq<Trip>, i: nat)
    requires i < |passengers|
    requires ConnectTrips(passengers, drivers, trips).Success?
    ensures FirstPassengerWithItsId(passengers, i) ==>
              ConnectTrips(passengers, drivers, trips).value.passengers[i].trips
                == passengers[i].trips + TripsOfPassenger(trips, passengers[i].id)
    ensures !FirstPassengerWithItsId(passengers, i) ==>
              ConnectTrips(passengers, drivers, trips).value.passengers[i].trips == passengers[i].trips
  {
    if trips != [] {
      var init := trips[..|trips| - 1];
      var t := trips[|trips| - 1];
      assert trips == init + [t];
      ConnectTripsLastPassenger(passengers, drivers, trips, init, t, i);
      var k := Resolve(passengers, drivers, t).value.0;
      var id := passengers[i].id;
      var before := passengers[i].trips;
      var added: seq<Trip> := if i == k then [t] else [];
      PassengerIndexMatch(passengers, i, k, t.passengerId);
      if FirstPassengerWithItsId(passengers, i) {
        var linked := TripsOfPassenger(init, id);
        assert ConnectTrips(passengers, drivers, init).value.passengers[i].trips == before + linked by {
          ConnectTripsLinksPassenger(passengers, drivers, init, i);
        }
        assert TripsOfPassenger(trips, id) == linked + added by {
          TripsOfPassengerSnoc(init, t, id);
        }
        AppendAssoc(before, linked, added);
      } else {
        assert ConnectTrips(passengers, drivers, init).value.passengers[i].trips == before by {
          ConnectTripsLinksPassenger(passengers, drivers, init, i);
        }
        assert added == [];
      }
    }
  }

  /**
   * Linking appends to driver `i`, when it is the first with its id, exactly
   * the trips that name that id, in trip order; a driver shadowed by an
   * earlier one with the same id gains nothing, since the lookup's first match wins.
   */
  lemma {:induction false} ConnectTripsLinksDriver(passengers: seq<Passenger>, drivers: seq<Driver>, trips: seq<Trip>, i: nat)
    requires i < |drivers|
    requires ConnectTrips(passengers, drivers, trips).Success?
    ensures FirstDriverWithItsId(drivers, i) ==>
              ConnectTrips(passengers, drivers, trips).value.drivers[i].trips
                == drivers[i].trips + TripsOfDriver(trips, drivers[i].id)
    ensures !FirstDriverWithItsId(drivers, i) ==>
              ConnectTrips(passengers, drivers, trips).value.drivers[i].trips == drivers[i].trips
  {
    if trips != [] {
      var init := trips[..|trips| - 1];
      var t := trips[|trips| - 1];
      assert trips == init + [t];
      ConnectTripsLastDriver(passengers, drivers, trips, init, t, i);
      var k := Resolve(passengers, drivers, t).value.1;
      var id := drivers[i].id;
      var before := drivers[i].trips;
      var added: seq<Trip> := if i == k then [t] else [];
      DriverIndexMatch(drivers, i, k, t.driverId);
      if FirstDriverWithItsId(drivers, i) {
        var linked := TripsOfDriver(init, id);
        assert ConnectTrips(passengers, drivers, init).value.drivers[i].trips == before + linked by {
          ConnectTripsLinksDriver(passengers, drivers, init, i);
        }
        assert TripsOfDriver(trips, id) == linked + added by {
          TripsOfDriverSnoc(init, t, id);
        }
        AppendAssoc(before, linked, added);
      } else {
        assert ConnectTrips(passengers, drivers, init).value.drivers[i].trips == before by {
          ConnectTripsLinksDriver(passengers, drivers, init, i);
        }
        assert added == [];
      }
    }
  }

  /**
   * Linking keeps the lists consistent with the trips' back-references: if
   * every passenger and driver held only its own trips before, it still does.
   */
  lemma ConnectTripsKeepsOwnership(passengers: seq<Passenger>, drivers: seq<Driver>, trips: seq<Trip>)
    requires forall i :: 0 <= i < |passengers| ==> PassengerOwnsTrips(passengers[i])
    requires forall i :: 0 <= i < |drivers| ==> DriverOwnsTrips(drivers[i])
    requires ConnectTrips(passengers, drivers, trips).Success?
    ensures forall i :: 0 <= i < |passengers| ==> PassengerOwnsTrips(ConnectTrips(passengers, drivers, trips).value.passengers[i])
    ensures forall i :: 0 <= i < |drivers| ==> DriverOwnsTrips(ConnectTrips(passengers, drivers, trips).value.drivers[i])
  {
    var r := ConnectTrips(passengers, drivers, trips).value;
    forall i | 0 <= i < |passengers|
      ensures PassengerOwnsTrips(r.passengers[i])
    {
      ConnectTripsLinksPassenger(passengers, drivers, trips, i);
      assert r.passengers[i].id == passengers[i].id;
    }
    forall i | 0 <= i < |drivers|
      ensures DriverOwnsTrips(r.drivers[i])
    {
      ConnectTripsLinksDriver(passengers, drivers, trips, i);
      assert r.drivers[i].id == drivers[i].id;
    }
  }

  /** After linking, every trip sits in the lists of the passenger and the driver it resolves to. */
  lemma ConnectTripsLinksEveryTrip(passengers: seq<Passenger>, drivers: seq<Driver>, trips: seq<Trip>, k: nat)
    requires ConnectTrips(passengers, drivers, trips).Success? && k < |trips|
    ensures Resolve(passengers, drivers, trips[k]).Success?
    ensures trips[k] in ConnectTrips(passengers, drivers, trips).value.passengers[Resolve(passengers, drivers, trips[k]).value.0].trips
    ensures trips[k] in ConnectTrips(passengers, drivers, trips).value.drivers[Resolve(passengers, drivers, trips[k]).value.1].trips
  {
    ConnectTripsSucceedsIff(passengers, drivers, trips);
    var (pi, dj) := Resolve(passengers, drivers, trips[k]).value;
    assert FirstPassengerWithItsId(passengers, pi);
    assert FirstDriverWithItsId(drivers, dj);
    ConnectTripsLinksPassenger(passengers, drivers, trips, pi);
    ConnectTripsLinksDriver(passengers, drivers, trips, dj);
    assert trips[k] in TripsOfPassenger(trips, passengers[pi].id);
    assert trips[k] in TripsOfDriver(trips, drivers[dj].id);
  }

  /** With unique ids no entity is shadowed, so each gains exactly the trips naming it. */
  lemma ConnectTripsLinksUniqueIds(passengers: seq<Passenger>, drivers: seq<Driver>, trips: seq<Trip>)
    requires UniquePassengerIds(passengers) && UniqueDriverIds(drivers)
    requires ConnectTrips(passengers, drivers, trips).Success?
    ensures forall i :: 0 <= i < |passengers| ==>
              ConnectTrips(passengers, drivers, trips).value.passengers[i].trips
                == passengers[i].trips + TripsOfPassenger(trips, passengers[i].id)
    ensures forall i :: 0 <= i < |drivers| ==>
              ConnectTrips(passengers, drivers, trips).value.drivers[i].trips
                == drivers[i].trips + TripsOfDriver(trips, drivers[i].id)
  {
    var r := ConnectTrips(passengers, drivers, trips).value;
    forall i | 0 <= i < |passengers|
      ensures r.passengers[i].trips == passengers[i].trips + TripsOfPassenger(trips, passengers[i].id)
    {
      UniquePassengerIdsAreFirst(passengers, i);
      ConnectTripsLinksPassenger(passengers, drivers, trips, i);
    }
    forall i | 0 <= i < |drivers|
      ensures r.drivers[i].trips == drivers[i].trips + TripsOfDriver(trips, drivers[i].id)
    {
      UniqueDriverIdsAreFirst(drivers, i);
      ConnectTripsLinksDriver(passengers, drivers, trips, i);
    }
  }

  // ---------------------------------------------------------------------------
  // request_trip
  // ---------------------------------------------------------------------------

  /** The outcome of a request: the driver list after the claim, the trip list after it, and the new trip. */
  datatype Dispatch = Dispatch(drivers: seq<Driver>, trips: seq<Trip>, trip: Trip)

  /**
   * `after` is `before` with driver `k`, the first AVAILABLE driver in stored
   * order, marked UNAVAILABLE; every other driver is unchanged.
   */
  predicate ClaimsFirstAvailable(before: seq<Driver>, after: seq<Driver>, k: int) {
    && 0 <= k < |before| && |after| == |before|
    && before[k].status == Available
    && (forall j :: 0 <= j < k ==> before[j].status != Available)
    && after[k] == before[k].(status := Unavailable)
    && forall j :: 0 <= j < |before| && j != k ==> after[j] == before[j]
  }

  /** A trip id one greater than every existing trip id, and never below 1. */
  function FreshTripId(trips: seq<Trip>): (r: int)
    ensures r >= 1
    ensures forall t <- trips :: t.id < r
    ensures r == 1 || exists t <- trips :: t.id == r - 1
  {
    if trips == [] then 1
    else
      var rest := FreshTripId(trips[1..]);
      assert forall t <- trips[1..] :: t in trips;
      if trips[0].id >= rest then trips[0].id + 1 else rest
  }

  /**
   * The atomic "claim an available driver" step of request_trip: the index of
   * the first AVAILABLE driver and the driver list with it marked UNAVAILABLE,
   * or None when no driver is AVAILABLE.
   */
  function ClaimDriver(drivers: seq<Driver>): (r: Option<(nat, seq<Driver>)>)
    ensures r.None? <==> forall j :: 0 <= j < |drivers| ==> drivers[j].status != Available
    ensures r.Some? ==> ClaimsFirstAvailable(drivers, r.value.1, r.value.0)
  {
    match FindFirst(drivers, (d: Driver) => d.status == Available)
    case None => None
    case Some(k) => Some((k, drivers[k := drivers[k].(status := Unavailable)]))
  }

  /**
   * request_trip: claims the first AVAILABLE driver in stored order, marks it
   * UNAVAILABLE and returns the new trip for that driver and `passengerId`,
   * started at `now`. The passenger id is passed through unvalidated, as in the
   * source. Three deviations from lib/trip_dispatcher.rb:37-47, where the
   * source is defective: when no driver is AVAILABLE the result is
   * NoDriverAvailable and no driver list is produced, so none changes (the
   * source calls `status=` on `nil`); the trip gets a fresh id above every
   * existing trip id and is created in progress, with no end time, cost or
   * rating (the source hard-codes id 8 and stamps an end time, cost 23.45 and
   * rating 3); and, so that the next request's id is fresh as well, the new
   * trip is recorded at the end of the returned trip list.
   * Findings.RequestTripAsWritten models the source as it stands.
   */
  function RequestTrip(drivers: seq<Driver>, trips: seq<Trip>, passengerId: int, now: Seconds): (r: Result<Dispatch, Error>)
    ensures r.Failure? <==> forall j :: 0 <= j < |drivers| ==> drivers[j].status != Available
    ensures r.Failure? ==> r.error == NoDriverAvailable
    ensures r.Success? ==>
              exists k :: ClaimsFirstAvailable(drivers, r.value.drivers, k) && r.value.trip.driverId == drivers[k].id
    ensures r.Success? ==> r.value.trip.passengerId == passengerId && r.value.trip.startTime == now
    ensures r.Success? ==> r.value.trip.InProgress() && r.value.trip.WellFormed()
    ensures r.Success? ==> r.value.trip.id >= 1 && forall t <- trips :: t.id < r.value.trip.id
    ensures r.Success? ==> r.value.trips == trips + [r.value.trip]
  {
    match ClaimDriver(drivers)
    case None => Failure(NoDriverAvailable)
    case Some((k, after)) =>
      var trip := Trip(FreshTripId(trips), passengerId, drivers[k].id, now, None, None, None);
      Success(Dispatch(after, trips + [trip], trip))
  }

  /** The number of AVAILABLE drivers. */
  function AvailableCount(drivers: seq<Driver>): (n: nat)
    ensures n <= |drivers|
    ensures n == 0 <==> forall j :: 0 <= j < |drivers| ==> drivers[j].status != Available
  {
    if drivers == [] then 0
    else (if drivers[0].status == Available then 1 else 0) + AvailableCount(drivers[1..])
  }

  lemma {:induction false} AvailableCountUpdate(drivers: seq<Driver>, k: nat, d: Driver)
    requires k < |drivers| && drivers[k].status == Available && d.status == Unavailable
    ensures AvailableCount(drivers[k := d]) == AvailableCount(drivers) - 1
    decreases k
  {
    if k == 0 {
      assert drivers[k := d][1..] == drivers[1..];
    } else {
      assert drivers[k := d][1..] == drivers[1..][k - 1 := d];
      AvailableCountUpdate(drivers[1..], k - 1, d);
    }
  }

  /** A successful request takes exactly one driver out of the AVAILABLE pool. */
  lemma RequestTripClaimsOneDriver(drivers: seq<Driver>, trips: seq<Trip>, passengerId: int, now: Seconds)
    requires RequestTrip(drivers, trips, passengerId, now).Success?
    ensures AvailableCount(RequestTrip(drivers, trips, passengerId, now).value.drivers) == AvailableCount(drivers) - 1
  {
    var after := RequestTrip(drivers, trips, passengerId, now).value.drivers;
    var k :| ClaimsFirstAvailable(drivers, after, k);
    assert after == drivers[k := drivers[k].(status := Unavailable)];
    AvailableCountUpdate(drivers, k, drivers[k].(status := Unavailable));
  }

  /** The new trip's id is fresh, so the recorded trip list keeps its ids unique. */
  lemma RequestTripKeepsTripIdsUnique(drivers: seq<Driver>, trips: seq<Trip>, passengerId: int, now: Seconds)
    requires UniqueTripIds(trips)
    requires RequestTrip(drivers, trips, passengerId, now).Success?
    ensures UniqueTripIds(RequestTrip(drivers, trips, passengerId, now).value.trips)
  {
    var all := RequestTrip(drivers, trips, passengerId, now).value.trips;
    forall i, j | 0 <= i < j < |all|
      ensures all[i].id != all[j].id
    {
      if j == |trips| {
        assert all[i] in trips;
      }
    }
  }

  /**
   * No double booking: a second request served from the drivers and trips
   * the first one left behind gets a different driver (driver ids being
   * unique) and a different, larger trip id.
   */
  lemma RequestTripNoDoubleBooking(drivers: seq<Driver>, trips: seq<Trip>, p1: int, t1: Seconds, p2: int, t2: Seconds)
    requires UniqueDriverIds(drivers)
    requires RequestTrip(drivers, trips, p1, t1).Success?
    requires
      var first := RequestTrip(drivers, trips, p1, t1).value;
      RequestTrip(first.drivers, first.trips, p2, t2).Success?
    ensures
      var first := RequestTrip(drivers, trips, p1, t1).value;
      var second := RequestTrip(first.drivers, first.trips, p2, t2).value;
      && UniqueDriverIds(first.drivers)
      && second.trip.driverId != first.trip.driverId
      && second.trip.id > first.trip.id
  {
    var first := RequestTrip(drivers, trips, p1, t1).value;
    var second := RequestTrip(first.drivers, first.trips, p2, t2).value;
    var k1 :| ClaimsFirstAvailable(drivers, first.drivers, k1) && first.trip.driverId == drivers[k1].id;
    var k2 :| ClaimsFirstAvailable(first.drivers, second.drivers, k2) && second.trip.driverId == first.drivers[k2].id;
    assert forall j :: 0 <= j < |drivers| ==> first.drivers[j].id == drivers[j].id;
    assert k2 != k1;
  }
}
