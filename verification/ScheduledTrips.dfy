/** How many trips the timetable schedules per mode and line on one day. */
module ScheduledTrips {
  import opened Wrappers

  datatype Trip = Trip(id: string, routeId: Option<string>, mode: Option<string>, serviceId: Option<string>)

  /** A weekly service: one flag per weekday from Sunday, and the dates (as yyyymmdd numbers) it runs between. */
  datatype Service = Service(weekdays: seq<int>, startDate: int, endDate: int)

  datatype Exception = Exception(serviceId: string, date: int, exceptionType: int)

  datatype Timetable = Timetable(trips: seq<Trip>, calendar: map<string, Service>, exceptions: seq<Exception>)

  datatype Day = Day(date: int, weekday: nat)

  predicate Excepted(t: Timetable, day: Day, serviceId: string, exceptionType: int) {
    exists i :: 0 <= i < |t.exceptions| && t.exceptions[i] == Exception(serviceId, day.date, exceptionType)
  }

  predicate Removed(t: Timetable, day: Day, serviceId: string) { Excepted(t, day, serviceId, 2) }

  predicate Added(t: Timetable, day: Day, trip: Trip) {
    trip.serviceId.Some? && Excepted(t, day, trip.serviceId.value, 1)
  }

  /** The weekly calendar has the trip's service run on the day. */
  predicate Regular(t: Timetable, day: Day, trip: Trip) {
    && trip.serviceId.Some? && trip.serviceId.value in t.calendar
    && var s := t.calendar[trip.serviceId.value];
       s.startDate <= day.date <= s.endDate && day.weekday < |s.weekdays| && s.weekdays[day.weekday] == 1
  }

  /** An empty service id is never looked up among the removals. */
  predicate RegularlyCounted(t: Timetable, day: Day, trip: Trip) {
    Regular(t, day, trip) && (trip.serviceId.value == "" || !Removed(t, day, trip.serviceId.value))
  }

  /** What the timetable means: exceptions override the weekly calendar. */
  predicate Runs(t: Timetable, day: Day, trip: Trip) {
    RegularlyCounted(t, day, trip) || Added(t, day, trip)
  }

  /** The `mode|line` a trip is counted under, if it has a mode and a route. */
  function KeyOf(trip: Trip, line: string -> string): Option<string> {
    if trip.routeId.None? || trip.routeId.value == "" || trip.mode.None? || trip.mode.value == "" then None
    else Some(trip.mode.value + "|" + line(trip.routeId.value))
  }

  function Where(trips: seq<Trip>, p: Trip -> bool): seq<Trip> {
    if trips == [] then []
    else
      var last := trips[|trips| - 1];
      Where(trips[..|trips| - 1], p) + (if p(last) then [last] else [])
  }

  function Tally(trips: seq<Trip>, p: Trip -> bool): nat {
    if trips == [] then 0 else Tally(trips[..|trips| - 1], p) + (if p(trips[|trips| - 1]) then 1 else 0)
  }

  lemma {:induction false} TallyWhere(trips: seq<Trip>, p: Trip -> bool, q: Trip -> bool, both: Trip -> bool)
    requires forall x :: both(x) <==> p(x) && q(x)
    ensures Tally(Where(trips, p), q) == Tally(trips, both)
  {
    if trips != [] {
      var before, last := trips[..|trips| - 1], trips[|trips| - 1];
      TallyWhere(before, p, q, both);
      if p(last) {
        assert (Where(before, p) + [last])[..|Where(before, p)|] == Where(before, p);
      } else {
        assert Where(trips, p) == Where(before, p);
      }
    }
  }

  function CountOf(counts: map<string, nat>, key: string): nat { if key in counts then counts[key] else 0 }

  method Bump(counts: map<string, nat>, trip: Trip, line: string -> string) returns (after: map<string, nat>)
    ensures forall key :: CountOf(after, key) == CountOf(counts, key) + (if KeyOf(trip, line) == Some(key) then 1 else 0)
    ensures forall key :: key in after <==> key in counts || KeyOf(trip, line) == Some(key)
  {
    var key := KeyOf(trip, line);
    if key.None? {
      return counts;
    }
    return counts[key.value := CountOf(counts, key.value) + 1];
  }

  function RegularShare(t: Timetable, day: Day, line: string -> string, key: string): nat {
    Tally(t.trips, (x: Trip) => RegularlyCounted(t, day, x) && KeyOf(x, line) == Some(key))
  }

  function AddedShare(t: Timetable, day: Day, line: string -> string, key: string): nat {
    Tally(t.trips, (x: Trip) => Added(t, day, x) && KeyOf(x, line) == Some(key))
  }

  /** The regular services' trips, skipping those removed for the day. */
  method CountRegular(t: Timetable, day: Day, line: string -> string) returns (counts: map<string, nat>)
    ensures forall key :: CountOf(counts, key) == RegularShare(t, day, line, key)
    ensures forall key :: key in counts <==> CountOf(counts, key) > 0
  {
    counts := map[];
    var regular := Where(t.trips, (x: Trip) => Regular(t, day, x));
    for i := 0 to |regular|
      invariant forall key :: CountOf(counts, key) == Tally(regular[..i], CountedUnder(t, day, line, key))
      invariant forall key :: key in counts <==> CountOf(counts, key) > 0
    {
      assert regular[..i + 1][..i] == regular[..i];
      WhereHolds(t.trips, (x: Trip) => Regular(t, day, x), i);
      var trip := regular[i];
      if trip.serviceId.value != "" && Removed(t, day, trip.serviceId.value) {
        continue;
      }
      counts := Bump(counts, trip, line);
    }
    assert regular[..|regular|] == regular;
    forall key ensures Tally(regular, CountedUnder(t, day, line, key)) == RegularShare(t, day, line, key) {
      TallyWhere(t.trips, (x: Trip) => Regular(t, day, x), CountedUnder(t, day, line, key),
                 (x: Trip) => RegularlyCounted(t, day, x) && KeyOf(x, line) == Some(key));
    }
  }

  /** Counts the trips of the regular services that were not removed, then those of the added services. */
  method CountScheduledTrips(t: Timetable, day: Day, line: string -> string) returns (counts: map<string, nat>)
    ensures forall key :: CountOf(counts, key) == RegularShare(t, day, line, key) + AddedShare(t, day, line, key)
    ensures forall key :: key in counts <==> CountOf(counts, key) > 0
  {
    counts := CountRegular(t, day, line);
    var added := Where(t.trips, (x: Trip) => Added(t, day, x));
    for i := 0 to |added|
      invariant forall key :: CountOf(counts, key) == RegularShare(t, day, line, key) + Tally(added[..i], Under(line, key))
      invariant forall key :: key in counts <==> CountOf(counts, key) > 0
    {
      assert added[..i + 1][..i] == added[..i];
      counts := Bump(counts, added[i], line);
    }
    assert added[..|added|] == added;
    forall key ensures Tally(added, Under(line, key)) == AddedShare(t, day, line, key) {
      TallyWhere(t.trips, (x: Trip) => Added(t, day, x), Under(line, key),
                 (x: Trip) => Added(t, day, x) && KeyOf(x, line) == Some(key));
    }
  }

  /** The whole call: a cached answer is returned as it is, and a computed one is cached. */
  method GetScheduledTripCountsByLine(cached: Option<map<string, nat>>, t: Timetable, day: Day, line: string -> string)
    returns (counts: map<string, nat>, toCache: Option<map<string, nat>>)
    ensures cached.Some? ==> counts == cached.value && toCache == None
    ensures cached.None? ==>
      && toCache == Some(counts)
      && (forall key :: CountOf(counts, key) == RegularShare(t, day, line, key) + AddedShare(t, day, line, key))
      && (forall key :: key in counts <==> CountOf(counts, key) > 0)
  {
    if cached.Some? {
      return cached.value, None;
    }
    counts := CountScheduledTrips(t, day, line);
    toCache := Some(counts);
  }

  function Under(line: string -> string, key: string): Trip -> bool { (x: Trip) => KeyOf(x, line) == Some(key) }

  function CountedUnder(t: Timetable, day: Day, line: string -> string, key: string): Trip -> bool {
    (x: Trip) => RegularlyCounted(t, day, x) && KeyOf(x, line) == Some(key)
  }

  lemma {:induction false} WhereHolds(trips: seq<Trip>, p: Trip -> bool, i: nat)
    requires i < |Where(trips, p)|
    ensures p(Where(trips, p)[i])
  {
    if i < |Where(trips[..|trips| - 1], p)| { WhereHolds(trips[..|trips| - 1], p, i); }
  }

  // ----- what the count means -----

  /** The trips of a key that run on the day. */
  function Running(t: Timetable, day: Day, line: string -> string, key: string): nat {
    Tally(t.trips, (x: Trip) => Runs(t, day, x) && KeyOf(x, line) == Some(key))
  }

  /** A trip of a service that runs by the calendar and is listed as added as well. */
  predicate CountedTwice(t: Timetable, day: Day, trip: Trip) {
    RegularlyCounted(t, day, trip) && Added(t, day, trip)
  }

  lemma {:induction false} TallyEitherBoth(
    trips: seq<Trip>, p: Trip -> bool, q: Trip -> bool, either: Trip -> bool, both: Trip -> bool)
    requires forall x :: either(x) <==> p(x) || q(x)
    requires forall x :: both(x) <==> p(x) && q(x)
    ensures Tally(trips, p) + Tally(trips, q) == Tally(trips, either) + Tally(trips, both)
  {
    if trips != [] { TallyEitherBoth(trips[..|trips| - 1], p, q, either, both); }
  }

  lemma {:induction false} TallyZero(trips: seq<Trip>, p: Trip -> bool)
    ensures Tally(trips, p) == 0 <==> forall i :: 0 <= i < |trips| ==> !p(trips[i])
  {
    if trips != [] {
      var before := trips[..|trips| - 1];
      TallyZero(before, p);
      assert forall i :: 0 <= i < |before| ==> before[i] == trips[i];
    }
  }

  /**
   * The reported count is never below the number of trips that run, and equals it exactly when no trip of the
   * key belongs to a service that is both on by the calendar and listed as added.
   */
  lemma CountIsExactIff(t: Timetable, day: Day, line: string -> string, key: string)
    ensures var reported := RegularShare(t, day, line, key) + AddedShare(t, day, line, key);
            && reported >= Running(t, day, line, key)
            && (reported == Running(t, day, line, key)
                <==> forall i :: 0 <= i < |t.trips| && KeyOf(t.trips[i], line) == Some(key) ==> !CountedTwice(t, day, t.trips[i]))
  {
    var twice := (x: Trip) => CountedTwice(t, day, x) && KeyOf(x, line) == Some(key);
    TallyEitherBoth(t.trips,
                    (x: Trip) => RegularlyCounted(t, day, x) && KeyOf(x, line) == Some(key),
                    (x: Trip) => Added(t, day, x) && KeyOf(x, line) == Some(key),
                    (x: Trip) => Runs(t, day, x) && KeyOf(x, line) == Some(key),
                    twice);
    TallyZero(t.trips, twice);
  }

  // ----- the shares in figures -----

  /** The calendar lists the trip's service for the date and the weekday. */
  predicate OnByCalendar(t: Timetable, day: Day, trip: Trip) {
    && trip.serviceId.Some? && trip.serviceId.value in t.calendar
    && var s := t.calendar[trip.serviceId.value];
       && s.startDate <= day.date && day.date <= s.endDate
       && day.weekday < |s.weekdays| && s.weekdays[day.weekday] == 1
  }

  /** Counted as regular: on by the calendar and not taken out for the date, which is never looked up for an empty id. */
  predicate CountsRegular(t: Timetable, day: Day, trip: Trip, line: string -> string, key: string) {
    && OnByCalendar(t, day, trip)
    && (trip.serviceId == Some("") || Exception(trip.serviceId.value, day.date, 2) !in t.exceptions)
    && Named(trip, line, key)
  }

  predicate CountsAdded(t: Timetable, day: Day, trip: Trip, line: string -> string, key: string) {
    trip.serviceId.Some? && Exception(trip.serviceId.value, day.date, 1) in t.exceptions && Named(trip, line, key)
  }

  /** It has a mode and a route, and the key is the mode and the route's line. */
  predicate Named(trip: Trip, line: string -> string, key: string) {
    trip.mode.Some? && trip.mode.value != "" && trip.routeId.Some? && trip.routeId.value != ""
    && key == trip.mode.value + "|" + line(trip.routeId.value)
  }

  ghost function Positions(trips: seq<Trip>, p: Trip -> bool): set<nat> {
    set i: nat | i < |trips| && p(trips[i])
  }

  lemma {:induction false} TallyCounts(trips: seq<Trip>, p: Trip -> bool)
    ensures Tally(trips, p) == |Positions(trips, p)|
  {
    if trips == [] {
      assert Positions(trips, p) == {};
    } else {
      var before, last: nat := trips[..|trips| - 1], |trips| - 1;
      TallyCounts(before, p);
      assert Positions(trips, p) == Positions(before, p) + (if p(trips[last]) then {last} else {});
    }
  }

  lemma ShareIff(t: Timetable, day: Day, trip: Trip, line: string -> string, key: string)
    ensures RegularlyCounted(t, day, trip) && KeyOf(trip, line) == Some(key) <==> CountsRegular(t, day, trip, line, key)
    ensures Added(t, day, trip) && KeyOf(trip, line) == Some(key) <==> CountsAdded(t, day, trip, line, key)
  {
    if trip.serviceId.Some? {
      ExceptionIff(t, day, trip.serviceId.value, 1);
      ExceptionIff(t, day, trip.serviceId.value, 2);
    }
  }

  lemma ExceptionIff(t: Timetable, day: Day, serviceId: string, kind: int)
    ensures Excepted(t, day, serviceId, kind) <==> Exception(serviceId, day.date, kind) in t.exceptions
  {
  }

  /** The count of a key is the number of trips counted as regular and the number counted as added. */
  lemma SharesSay(t: Timetable, day: Day, line: string -> string, key: string)
    ensures RegularShare(t, day, line, key) == |set i: nat | i < |t.trips| && CountsRegular(t, day, t.trips[i], line, key)|
    ensures AddedShare(t, day, line, key) == |set i: nat | i < |t.trips| && CountsAdded(t, day, t.trips[i], line, key)|
  {
    var regular := (x: Trip) => RegularlyCounted(t, day, x) && KeyOf(x, line) == Some(key);
    var added := (x: Trip) => Added(t, day, x) && KeyOf(x, line) == Some(key);
    TallyCounts(t.trips, regular);
    TallyCounts(t.trips, added);
    forall i: nat | i < |t.trips|
      ensures regular(t.trips[i]) <==> CountsRegular(t, day, t.trips[i], line, key)
      ensures added(t.trips[i]) <==> CountsAdded(t, day, t.trips[i], line, key) {
      ShareIff(t, day, t.trips[i], line, key);
    }
    assert Positions(t.trips, regular) == set i: nat | i < |t.trips| && CountsRegular(t, day, t.trips[i], line, key);
    assert Positions(t.trips, added) == set i: nat | i < |t.trips| && CountsAdded(t, day, t.trips[i], line, key);
  }
}
