# Ride-share dispatcher and passenger statistics, in Dafny

A model of the core of a small Ruby ride-share program (`RideShare`). Passengers
take trips with drivers. The `TripDispatcher` looks entities up by id, links every
loaded trip to its passenger and driver, and serves trip requests by claiming the
first AVAILABLE driver. A passenger reports three statistics over its trip list:
money spent, time spent and the completed trips.

Files:

- `wrappers.dfy`: `Option` (Ruby's `nil`) and `Result` (a raised error).
- `entities.dfy`: the `Passenger`, `Driver` and `Trip` records, driver `Status`, the
  `Error` kinds, id validation (`id >= 1`) and the uniqueness and back-reference predicates.
  A trip refers to its passenger and driver by id, not by object reference.
- `passengers.dfy`: `Passenger.new`, `add_trip`, `net_expenditures`,
  `total_time_spent` and `non_inprogress_trips`. `lib/passenger.rb` is not part of
  this model; the behaviour follows the assertions of `specs/passenger_spec.rb`.
  Each statistic takes the passenger's trip list.
- `trip_dispatcher.dfy`: `find_passenger`, `find_driver`, `connect_trips` and
  `request_trip` from `lib/trip_dispatcher.rb`.
- `findings.dfy`: `request_trip` as the source writes it, with the inputs that
  show its defects.

Representation choices:

- Timestamps are whole seconds; costs and ratings are integers.
- The current time is a parameter of `RequestTrip`.
- The three entity lists are inputs. Loading them from CSV files is not modelled.
- Ruby's `nil` from a lookup that finds nothing is `Success(None)`.
- An `ArgumentError` from `validate_id` is `Failure(InvalidId(id))`.
- Dereferencing `nil` is reported as an explicit error:
  `UnresolvedPassenger`, `UnresolvedDriver` or `NoDriverAvailable`.

The model keeps the code's behaviour in three places where a reader might expect otherwise:

- `request_trip` neither validates nor resolves the passenger id. It passes the id to the new trip unchanged.
- `request_trip` does not attach the new trip to any passenger's or driver's trip list. The corrected `RequestTrip` does append it to the dispatcher's trip list it returns, so that the next request's id is fresh too; this is part of the id correction under "## Findings".
- Lookups are first-match linear scans (`Enumerable#find`). With duplicate ids the first entity wins, and a later entity with the same id is never linked to a trip (`Dispatcher.ConnectTripsLinksPassenger`, `Dispatcher.ConnectTripsLinksDriver`).

## Model

| member | source | states |
|---|---|---|
| Dispatcher.FindFirst | lib/trip_dispatcher.rb:37-39 | Ruby's `find`: the result is the first index whose element satisfies the block; None means no element does |
| Dispatcher.FindPassenger | lib/trip_dispatcher.rb:18-21 | fails with InvalidId exactly when the id is below 1; otherwise returns the first passenger with that id, or None when no passenger has it |
| Dispatcher.FindDriver | lib/trip_dispatcher.rb:23-26 | the same contract over the driver list: validation first, then first match by id or None |
| Dispatcher.Resolve | lib/trip_dispatcher.rb:54-55 | a trip's passenger id is validated before its driver id; on success the indices are the first-match lookups' results and carry the trip's ids |
| Dispatcher.ResolveGoesThroughLookups | lib/trip_dispatcher.rb:54-57 | a trip resolves exactly when find_passenger and find_driver both return an entity, and to those entities; an unknown id is an unresolved-reference error, never a link to nil |
| Dispatcher.LinkTrip | lib/trip_dispatcher.rb:56-57 | connecting appends the trip to one passenger's and one driver's list; the trip list and every other entity and field are unchanged |
| Dispatcher.ConnectTrips | lib/trip_dispatcher.rb:52-61 | on success the same trip list comes back, and passengers and drivers differ only in trip lists that grew at their ends |
| Dispatcher.ConnectTripsStep | lib/trip_dispatcher.rb:53-58 | linking one more trip succeeds exactly when the shorter list linked and the new trip resolves; an earlier error wins |
| Dispatcher.ConnectTripsSucceedsIff | lib/trip_dispatcher.rb:53-58 | linking succeeds if and only if every trip resolves |
| Dispatcher.ConnectTripsReportsFirstFailure | lib/trip_dispatcher.rb:53-58 | a failed linking returns the error of the first trip that does not resolve, so no partly linked graph is returned |
| Dispatcher.ConnectTripsLinksPassenger | lib/trip_dispatcher.rb:53-58 | a passenger that is the first with its id gains exactly the trips naming that id, in trip order; a passenger shadowed by an earlier one with the same id gains nothing |
| Dispatcher.ConnectTripsLinksDriver | lib/trip_dispatcher.rb:53-58 | a driver that is the first with its id gains exactly the trips naming that id, in trip order; a shadowed driver gains nothing |
| Dispatcher.ConnectTripsLinksUniqueIds | lib/trip_dispatcher.rb:53-58 | with unique ids, every passenger and every driver gains exactly the trips naming it, in trip order |
| Dispatcher.ConnectTripsKeepsOwnership | lib/trip_dispatcher.rb:52-61 | if every passenger and driver list held only trips pointing back at it, it still does after linking |
| Dispatcher.ConnectTripsLinksEveryTrip | lib/trip_dispatcher.rb:53-58 | after linking, every trip sits in the lists of the passenger and the driver it resolves to |
| Dispatcher.ClaimDriver | lib/trip_dispatcher.rb:37-40 | claims the first AVAILABLE driver in stored order and marks it UNAVAILABLE, leaving every other driver unchanged; None exactly when no driver is AVAILABLE |
| Dispatcher.FreshTripId | lib/trip_dispatcher.rb:41 | the new trip id is at least 1 and above every existing trip id, and it is the least such value |
| Dispatcher.RequestTrip | lib/trip_dispatcher.rb:36-48 | NoDriverAvailable exactly when no driver is AVAILABLE; otherwise the first AVAILABLE driver is claimed and the trip names it and the given passenger id, starts now, is in progress, has an id above every existing trip id, and is appended to the returned trip list |
| Dispatcher.RequestTripClaimsOneDriver | lib/trip_dispatcher.rb:37-40 | a successful request removes exactly one driver from the AVAILABLE pool |
| Dispatcher.RequestTripKeepsTripIdsUnique | lib/trip_dispatcher.rb:41 | the returned trip list, with the new trip recorded, keeps trip ids unique |
| Dispatcher.RequestTripNoDoubleBooking | lib/trip_dispatcher.rb:37-41 | a second request served from the drivers and trips the first left behind gets a different driver and a larger, so distinct, trip id |
| Passengers.NewPassenger | specs/passenger_spec.rb:13-22 | construction fails exactly when the id is below 1; an omitted trip list becomes the empty list |
| Passengers.AddTrip | specs/passenger_spec.rb:44-53 | the trip is appended at the end of the list; nothing else changes |
| Passengers.AddTripKeepsOwnership | specs/passenger_spec.rb:63-67 | after add_trip every trip refers to the passenger's id, exactly when the added trip does |
| Passengers.NonInProgressTrips | specs/passenger_spec.rb:130-177 | a trip is in the result exactly when it is in the list and has an end time |
| Passengers.NonInProgressTripsAppend | specs/passenger_spec.rb:138-159 | the filter keeps the original order: it distributes over concatenation |
| Passengers.NonInProgressTripsOfCompleted | specs/passenger_spec.rb:138-159 | a list of completed trips comes back unchanged |
| Passengers.NoCompletedTrips | specs/passenger_spec.rb:161-177 | with no trips, or only in-progress ones, the completed list is empty and both statistics are 0 |
| Passengers.NetExpenditures | specs/passenger_spec.rb:70-85 | 0 when every trip is in progress or there are none; never negative when costs are not |
| Passengers.NetExpendituresIsCostOfCompleted | specs/passenger_spec.rb:70-77 | net_expenditures is the sum of cost over exactly the trips non_inprogress_trips returns |
| Passengers.TotalTimeSpent | specs/passenger_spec.rb:100-115 | 0 when every trip is in progress or there are none; never negative when no trip ends before it starts |
| Passengers.TotalTimeSpentIsSpanOfCompleted | specs/passenger_spec.rb:100-107 | total_time_spent is the sum of end minus start over exactly the trips non_inprogress_trips returns |
| Passengers.AddInProgressTrip | specs/passenger_spec.rb:87-127 | adding an in-progress trip leaves net_expenditures, total_time_spent and non_inprogress_trips unchanged |
| Passengers.AddCompletedTrip | specs/passenger_spec.rb:44-53 | adding a completed trip adds its cost and duration and appends it to the completed trips |
| Passengers.PassengerScenario | specs/passenger_spec.rb:36-127 | three 25-minute trips of cost 30 give 90 and 4500 seconds, unchanged by an in-progress trip |
| Findings.RequestTripAsWritten | lib/trip_dispatcher.rb:36-48 | the source's request: fails on nil exactly when no driver is AVAILABLE, else claims as RequestTrip does and returns the trip list unchanged |
| Findings.AsWrittenFailsOnNil | lib/trip_dispatcher.rb:37-40 | with every driver UNAVAILABLE the source hits nil where the corrected request reports NoDriverAvailable |
| Findings.AsWrittenIdCollides | lib/trip_dispatcher.rb:41 | when a trip with id 8 is loaded, the requested trip duplicates its id |
| Findings.AsWrittenTripCountsAsCompleted | lib/trip_dispatcher.rb:43-46 | the source's new trip is already completed and adds its stub cost to the passenger's spend |
| Findings.RequestedTripLeavesStatistics | lib/trip_dispatcher.rb:41-47 | the corrected in-progress trip changes none of its passenger's statistics when attached |

## Left out

- Loading passengers, drivers and trips from CSV files (`initialize`, `load_all`): this is file I/O. The lists are inputs.
- `inspect`: presentation only.
- `Time.new` and `Time.parse`: the clock and timestamp parsing are library calls. Times are integer seconds, and "now" is a parameter.
- Float costs (the stub `23.45`): floating point is not modelled. Costs are integers, and the as-written stub is truncated to 23.
- The Trip, Passenger and Driver classes' own source (`lib/trip.rb`, `lib/passenger.rb`, `lib/driver.rb`): not part of this model. Id validation is `id >= 1`. `add_trip` appends. `connect_passenger` and `connect_driver` append the trip to the entity's list.
- Passenger and driver names, phone numbers and VINs are carried but never checked.
- The minitest test suite and the `csv` and `awesome_print` libraries: test framework and external libraries.
- Concurrent requests: the code is single-threaded, so the driver claim is one atomic update.
- Passengers.NetExpenditures: a completed trip without a cost (one that is not well formed) contributes 0; the contracts do not require trips to be well formed.
- Dispatcher.RequestTrip: on NoDriverAvailable no driver list is returned. "No driver changes" therefore holds because the caller keeps its own list, not because a contract says so.

## Findings

| source | as written | input that shows it | evidently intended | confidence | as-written member | corrected member |
|---|---|---|---|---|---|---|
| lib/trip_dispatcher.rb:37-40 | `find` returns `nil` when no driver is AVAILABLE, and then `status=` is called on `nil` | a single driver whose status is UNAVAILABLE | report that no driver is available and change no driver | high; not executed | Findings.AsWrittenFailsOnNil | Dispatcher.RequestTrip |
| lib/trip_dispatcher.rb:41 | every requested trip gets id 8 | any loaded trip with id 8, plus one AVAILABLE driver | a fresh id above every existing trip id, including trips requested earlier | high; not executed | Findings.AsWrittenIdCollides | Dispatcher.RequestTripNoDoubleBooking |
| lib/trip_dispatcher.rb:43-46 | a new trip gets an end time, cost 23.45 and rating 3 | any passenger, plus one AVAILABLE driver | create the trip in progress, with no end time, cost or rating | high; not executed | Findings.AsWrittenTripCountsAsCompleted | Findings.RequestedTripLeavesStatistics |
