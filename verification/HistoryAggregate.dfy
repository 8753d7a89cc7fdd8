/**
 * One sample of the realtime feeds, aggregated into counters per (mode, line).
 * `Trips`, `Vehicles` and `Alerts` say what each loop leaves after a prefix of
 * its feed; `AggregateHistorySample` is the loop itself.
 */
module HistoryAggregate {
  import opened Basics
  import opened Wrappers

  const DELAY_THRESHOLD_SECONDS := 5 * 60
  const STALE_FEED_THRESHOLD_SECONDS := 10 * 60

  const MAX_SAFE_INTEGER := 0x1F_FFFF_FFFF_FFFF

  datatype StopTimeUpdate = StopTimeUpdate(
    departureDelay: Option<int>, arrivalDelay: Option<int>, scheduleRelationship: Option<string>)

  datatype TripUpdate = TripUpdate(
    mode: string, tripId: string, routeId: Option<string>, scheduleRelationship: Option<string>,
    stopTimeUpdates: seq<StopTimeUpdate>, timestamp: Option<int>, delay: Option<int>)

  datatype Vehicle = Vehicle(
    mode: string, routeId: Option<string>, tripId: Option<string>, occupancyStatus: Option<string>)

  datatype Period = Period(start: Option<int>, end: Option<int>)

  datatype Entity = Entity(routeId: Option<string>, tripId: Option<string>, stopId: Option<string>)

  datatype Alert = Alert(
    mode: string, id: string, severityLevel: Option<string>, effect: Option<string>, cause: Option<string>,
    activePeriods: seq<Period>, informedEntities: seq<Entity>)

  datatype Input = Input(
    tripUpdates: seq<TripUpdate>,
    vehicles: seq<Vehicle>,
    alerts: seq<Alert>,
    resolveLine: (Option<string>, Option<string>) -> string,
    stopToRouteIds: map<string, seq<string>>,
    tripToRouteId: map<string, string>,
    scheduledByLine: map<string, nat>,
    atUnix: int,
    localHour: int,
    alreadyCancelled: set<string>,
    alreadySkipped: set<string>)

  datatype Accumulator = Accumulator(
    mode: string,
    vehicles: nat, trackedTrips: nat, delayedTrips: nat, cancelledTrips: nat, skippedTrips: nat, earlyTrips: nat,
    delaySum: int, delays: seq<int>, maxDelay: int,
    occupancyScoreSum: nat, occupancySamples: nat, crowdedVehicles: nat,
    disruptions: nat, disruptionMinutes: nat, disruptionCountByEffect: map<string, nat>,
    scheduledTrips: nat,
    peakTrackedTrips: nat, peakDelayedTrips: nat, offPeakTrackedTrips: nat, offPeakDelayedTrips: nat)

  datatype DisruptionEvent = DisruptionEvent(
    mode: string, line: string, alertId: string, effect: Option<string>, cause: Option<string>)

  /** A map that remembers the order in which its keys were first set. */
  datatype Lines = Lines(order: seq<string>, entries: map<string, Accumulator>)

  datatype Output = Output(
    byLine: Lines,
    disruptionEvents: seq<DisruptionEvent>,
    feedStale: bool,
    tripUpdateCount: nat,
    vehicleCount: nat,
    isPeak: bool,
    newlyCancelled: seq<string>,
    newlySkipped: seq<string>)

  function EmptyAccumulator(mode: string, scheduled: nat): Accumulator {
    Accumulator(mode, 0, 0, 0, 0, 0, 0, 0, [], 0, 0, 0, 0, 0, 0, map[], scheduled, 0, 0, 0, 0)
  }

  predicate Present(s: Option<string>) { s.Some? && s.value != "" }

  function OrElse(a: Option<int>, b: Option<int>): Option<int> { if a.Some? then a else b }

  function GetOr(a: Option<int>, default: int): int { if a.Some? then a.value else default }

  function TripDelay(tu: TripUpdate): int {
    var fromStop :=
      if tu.stopTimeUpdates == [] then None
      else var last := tu.stopTimeUpdates[|tu.stopTimeUpdates| - 1]; OrElse(last.departureDelay, last.arrivalDelay);
    GetOr(OrElse(tu.delay, fromStop), 0)
  }

  predicate HasSkippedStop(tu: TripUpdate) {
    exists i :: 0 <= i < |tu.stopTimeUpdates| && tu.stopTimeUpdates[i].scheduleRelationship == Some("SKIPPED")
  }

  predicate Cancelled(tu: TripUpdate) { tu.scheduleRelationship == Some("CANCELED") }

  predicate IsPeak(hour: int) { 7 <= hour <= 9 || 16 <= hour <= 18 }

  function Key(mode: string, line: string): string { mode + "|" + line }

  function TripKey(input: Input, tu: TripUpdate): string {
    Key(tu.mode, input.resolveLine(tu.routeId, Some(tu.tripId)))
  }

  /** The entry for (mode, line), created on first use with the line's scheduled count. */
  function Touch(input: Input, lines: Lines, mode: string, key: string): Lines {
    if key in lines.entries then lines
    else
      var scheduled := if key in input.scheduledByLine then input.scheduledByLine[key] else 0;
      Lines(lines.order + [key], lines.entries[key := EmptyAccumulator(mode, scheduled)])
  }

  // ----- trip updates -----

  function CountTracked(e: Accumulator, peak: bool): Accumulator {
    e.(trackedTrips := e.trackedTrips + 1,
       peakTrackedTrips := e.peakTrackedTrips + (if peak then 1 else 0),
       offPeakTrackedTrips := e.offPeakTrackedTrips + (if peak then 0 else 1))
  }

  function CountDelay(e: Accumulator, delay: int, peak: bool): Accumulator {
    var late := delay > DELAY_THRESHOLD_SECONDS;
    e.(delays := e.delays + [delay],
       delaySum := e.delaySum + Max(0, delay),
       earlyTrips := e.earlyTrips + (if delay < 0 then 1 else 0),
       delayedTrips := e.delayedTrips + (if late then 1 else 0),
       peakDelayedTrips := e.peakDelayedTrips + (if late && peak then 1 else 0),
       offPeakDelayedTrips := e.offPeakDelayedTrips + (if late && !peak then 1 else 0),
       maxDelay := Max(e.maxDelay, delay))
  }

  predicate NewlyCancelled(input: Input, tu: TripUpdate) {
    Cancelled(tu) && tu.tripId !in input.alreadyCancelled
  }

  predicate NewlySkipped(input: Input, tu: TripUpdate) {
    !Cancelled(tu) && HasSkippedStop(tu) && tu.tripId !in input.alreadySkipped
  }

  function AfterTrip(input: Input, e: Accumulator, tu: TripUpdate): Accumulator {
    var peak := IsPeak(input.localHour);
    var t := CountTracked(e, peak);
    if Cancelled(tu) then
      if NewlyCancelled(input, tu) then t.(cancelledTrips := t.cancelledTrips + 1) else t
    else
      var s := if NewlySkipped(input, tu) then t.(skippedTrips := t.skippedTrips + 1) else t;
      CountDelay(s, TripDelay(tu), peak)
  }

  function AddTrip(input: Input, lines: Lines, tu: TripUpdate): Lines {
    var key := TripKey(input, tu);
    var touched := Touch(input, lines, tu.mode, key);
    touched.(entries := touched.entries[key := AfterTrip(input, touched.entries[key], tu)])
  }

  function Trips(input: Input, tus: seq<TripUpdate>): Lines {
    if tus == [] then Lines([], map[])
    else AddTrip(input, Trips(input, tus[..|tus| - 1]), tus[|tus| - 1])
  }

  /** The trip ids of the updates that satisfy `p`, in feed order. */
  function IdsWhere(tus: seq<TripUpdate>, p: TripUpdate -> bool): seq<string> {
    if tus == [] then []
    else
      var last := tus[|tus| - 1];
      IdsWhere(tus[..|tus| - 1], p) + (if p(last) then [last.tripId] else [])
  }

  /** The trip ids newly counted as cancelled. */
  function CancelledIds(input: Input, tus: seq<TripUpdate>): seq<string> {
    IdsWhere(tus, tu => NewlyCancelled(input, tu))
  }

  function SkippedIds(input: Input, tus: seq<TripUpdate>): seq<string> {
    IdsWhere(tus, tu => NewlySkipped(input, tu))
  }

  // ----- vehicles -----

  /** Trip to route: the feed's own latest word, else the static timetable's. */
  function LiveRoutes(tus: seq<TripUpdate>): map<string, string> {
    if tus == [] then map[]
    else
      var last := tus[|tus| - 1];
      var before := LiveRoutes(tus[..|tus| - 1]);
      if Present(last.routeId) then before[last.tripId := last.routeId.value] else before
  }

  function TripRoutes(input: Input): map<string, string> {
    input.tripToRouteId + LiveRoutes(input.tripUpdates)
  }

  function Lookup(m: map<string, string>, k: string): Option<string> { if k in m then Some(m[k]) else None }

  function VehicleKey(input: Input, v: Vehicle): string {
    var routeId :=
      if v.routeId.Some? then v.routeId
      else if Present(v.tripId) then Lookup(TripRoutes(input), v.tripId.value)
      else None;
    Key(v.mode, input.resolveLine(routeId, v.tripId))
  }

  function OccupancyScore(status: Option<string>): Option<nat> {
    if !Present(status) then None
    else match status.value
      case "EMPTY" => Some(0)
      case "MANY_SEATS_AVAILABLE" => Some(1)
      case "FEW_SEATS_AVAILABLE" => Some(2)
      case "STANDING_ROOM_ONLY" => Some(3)
      case "CRUSHED_STANDING_ROOM_ONLY" => Some(4)
      case "FULL" => Some(4)
      case "NOT_ACCEPTING_PASSENGERS" => Some(4)
      case _ => None
  }

  predicate Crowded(status: Option<string>) {
    var score := OccupancyScore(status);
    score.Some? && score.value >= 3
  }

  function AfterVehicle(e: Accumulator, v: Vehicle): Accumulator {
    var score := OccupancyScore(v.occupancyStatus);
    e.(vehicles := e.vehicles + 1,
       occupancyScoreSum := e.occupancyScoreSum + (if score.Some? then score.value else 0),
       occupancySamples := e.occupancySamples + (if score.Some? then 1 else 0),
       crowdedVehicles := e.crowdedVehicles + (if Crowded(v.occupancyStatus) then 1 else 0))
  }

  function AddVehicle(input: Input, lines: Lines, v: Vehicle): Lines {
    var key := VehicleKey(input, v);
    var touched := Touch(input, lines, v.mode, key);
    touched.(entries := touched.entries[key := AfterVehicle(touched.entries[key], v)])
  }

  function Vehicles(input: Input, vs: seq<Vehicle>): Lines {
    if vs == [] then Trips(input, input.tripUpdates)
    else AddVehicle(input, Vehicles(input, vs[..|vs| - 1]), vs[|vs| - 1])
  }

  // ----- alerts -----

  predicate ServiceAffecting(a: Alert) {
    a.severityLevel == Some("WARNING") || a.severityLevel == Some("SEVERE")
  }

  predicate ActiveAt(a: Alert, at: int) {
    a.activePeriods == [] ||
    exists i :: 0 <= i < |a.activePeriods|
      && at >= GetOr(a.activePeriods[i].start, 0)
      && at <= GetOr(a.activePeriods[i].end, MAX_SAFE_INTEGER)
  }

  /** Minutes of the five-minute sample charged to an effect, rounded half up. */
  function DisruptionMinutes(effect: string): nat {
    match effect
    case "NO_SERVICE" => 5
    case "SIGNIFICANT_DELAYS" => 4
    case "DETOUR" => 3
    case "REDUCED_SERVICE" => 3
    case "STOP_MOVED" => 1
    case "OTHER_EFFECT" => 1
    case "UNKNOWN_EFFECT" => 1
    case _ => 3
  }

  /** Adding to a set that keeps insertion order. */
  function AddOnce(xs: seq<string>, x: string): seq<string> {
    if x in xs then xs else xs + [x]
  }

  function AddAllOnce(xs: seq<string>, more: seq<string>): seq<string> {
    if more == [] then xs else AddOnce(AddAllOnce(xs, more[..|more| - 1]), more[|more| - 1])
  }

  function EntityRoutes(input: Input, xs: seq<string>, entity: Entity): seq<string> {
    var direct := if Present(entity.routeId) then AddOnce(xs, entity.routeId.value) else xs;
    var live := if Present(entity.tripId) then Lookup(TripRoutes(input), entity.tripId.value) else None;
    var withLive := if Present(live) then AddOnce(direct, live.value) else direct;
    var scheduled := if Present(entity.tripId) then Lookup(input.tripToRouteId, entity.tripId.value) else None;
    var withStatic := if Present(scheduled) then AddOnce(withLive, scheduled.value) else withLive;
    if Present(entity.stopId) && entity.stopId.value in input.stopToRouteIds then
      AddAllOnce(withStatic, input.stopToRouteIds[entity.stopId.value])
    else withStatic
  }

  function AlertRoutes(input: Input, entities: seq<Entity>): seq<string> {
    if entities == [] then []
    else EntityRoutes(input, AlertRoutes(input, entities[..|entities| - 1]), entities[|entities| - 1])
  }

  function RouteLines(input: Input, routes: seq<string>): seq<string> {
    if routes == [] then []
    else AddOnce(RouteLines(input, routes[..|routes| - 1]), input.resolveLine(Some(routes[|routes| - 1]), None))
  }

  function AlertLines(input: Input, a: Alert): seq<string> {
    var lines := RouteLines(input, AlertRoutes(input, a.informedEntities));
    if lines == [] then ["NETWORK"] else lines
  }

  function EffectOf(a: Alert): string { if a.effect.Some? then a.effect.value else "UNKNOWN_EFFECT" }

  function AfterAlert(e: Accumulator, effect: string): Accumulator {
    var count := if effect in e.disruptionCountByEffect then e.disruptionCountByEffect[effect] else 0;
    e.(disruptions := e.disruptions + 1,
       disruptionMinutes := e.disruptionMinutes + DisruptionMinutes(effect),
       disruptionCountByEffect := e.disruptionCountByEffect[effect := count + 1])
  }

  function AddAlertLine(input: Input, lines: Lines, a: Alert, line: string): Lines {
    var key := Key(a.mode, line);
    var touched := Touch(input, lines, a.mode, key);
    touched.(entries := touched.entries[key := AfterAlert(touched.entries[key], EffectOf(a))])
  }

  function AddAlert(input: Input, lines: Lines, a: Alert, affected: seq<string>): Lines {
    if affected == [] then lines
    else AddAlertLine(input, AddAlert(input, lines, a, affected[..|affected| - 1]), a, affected[|affected| - 1])
  }

  function AlertEvents(a: Alert, affected: seq<string>): seq<DisruptionEvent> {
    seq(|affected|, i requires 0 <= i < |affected| => DisruptionEvent(a.mode, affected[i], a.id, a.effect, a.cause))
  }

  predicate Counts(input: Input, a: Alert) { ServiceAffecting(a) && ActiveAt(a, input.atUnix) }

  function Alerts(input: Input, alerts: seq<Alert>): (Lines, seq<DisruptionEvent>) {
    if alerts == [] then (Vehicles(input, input.vehicles), [])
    else
      var a := alerts[|alerts| - 1];
      var (lines, events) := Alerts(input, alerts[..|alerts| - 1]);
      if Counts(input, a) then
        (AddAlert(input, lines, a, AlertLines(input, a)), events + AlertEvents(a, AlertLines(input, a)))
      else (lines, events)
  }

  // ----- the whole sample -----

  /** The feed is stale when some trip update carries a time and even the newest is over ten minutes old. */
  ghost predicate FeedStale(input: Input) {
    && (exists i :: 0 <= i < |input.tripUpdates| && input.tripUpdates[i].timestamp.Some?)
    && input.atUnix > STALE_FEED_THRESHOLD_SECONDS
    && (forall i :: 0 <= i < |input.tripUpdates| && input.tripUpdates[i].timestamp.Some? ==>
          input.atUnix - input.tripUpdates[i].timestamp.value > STALE_FEED_THRESHOLD_SECONDS)
  }

  ghost function Sampled(input: Input): Output {
    var (byLine, events) := Alerts(input, input.alerts);
    Output(byLine, events, FeedStale(input), |input.tripUpdates|, |input.vehicles|, IsPeak(input.localHour),
           CancelledIds(input, input.tripUpdates), SkippedIds(input, input.tripUpdates))
  }

  method NewestTimestamp(tus: seq<TripUpdate>) returns (newest: int, any: bool)
    ensures any <==> exists i :: 0 <= i < |tus| && tus[i].timestamp.Some?
    ensures newest >= 0
    ensures forall i :: 0 <= i < |tus| && tus[i].timestamp.Some? ==> tus[i].timestamp.value <= newest
    ensures newest != 0 ==> exists i :: 0 <= i < |tus| && tus[i].timestamp == Some(newest)
  {
    newest, any := 0, false;
    for i := 0 to |tus|
      invariant any <==> exists j :: 0 <= j < i && tus[j].timestamp.Some?
      invariant newest >= 0
      invariant forall j :: 0 <= j < i && tus[j].timestamp.Some? ==> tus[j].timestamp.value <= newest
      invariant newest != 0 ==> exists j :: 0 <= j < i && tus[j].timestamp == Some(newest)
    {
      if tus[i].timestamp.Some? {
        any := true;
        if tus[i].timestamp.value > newest {
          newest := tus[i].timestamp.value;
        }
      }
    }
  }

  method LiveRoutesOf(tus: seq<TripUpdate>) returns (routes: map<string, string>)
    ensures routes == LiveRoutes(tus)
  {
    routes := map[];
    for i := 0 to |tus|
      invariant routes == LiveRoutes(tus[..i])
    {
      assert tus[..i + 1][..i] == tus[..i];
      if Present(tus[i].routeId) {
        routes := routes[tus[i].tripId := tus[i].routeId.value];
      }
    }
    assert tus[..|tus|] == tus;
  }

  method AffectedLines(input: Input, tripRoute: map<string, string>, a: Alert) returns (lines: seq<string>)
    requires tripRoute == TripRoutes(input)
    ensures lines == AlertLines(input, a)
  {
    var routes: seq<string> := [];
    var entities := a.informedEntities;
    for i := 0 to |entities|
      invariant routes == AlertRoutes(input, entities[..i])
    {
      assert entities[..i + 1][..i] == entities[..i];
      var entity := entities[i];
      if Present(entity.routeId) {
        routes := AddOnce(routes, entity.routeId.value);
      }
      if Present(entity.tripId) {
        var fromRt := Lookup(tripRoute, entity.tripId.value);
        if Present(fromRt) {
          routes := AddOnce(routes, fromRt.value);
        }
        var fromStatic := Lookup(input.tripToRouteId, entity.tripId.value);
        if Present(fromStatic) {
          routes := AddOnce(routes, fromStatic.value);
        }
      }
      if Present(entity.stopId) && entity.stopId.value in input.stopToRouteIds {
        var serving := input.stopToRouteIds[entity.stopId.value];
        var before := routes;
        for j := 0 to |serving|
          invariant routes == AddAllOnce(before, serving[..j])
        {
          assert serving[..j + 1][..j] == serving[..j];
          routes := AddOnce(routes, serving[j]);
        }
        assert serving[..|serving|] == serving;
      }
    }
    assert entities[..|entities|] == entities;
    lines := [];
    for i := 0 to |routes|
      invariant lines == RouteLines(input, routes[..i])
    {
      assert routes[..i + 1][..i] == routes[..i];
      lines := AddOnce(lines, input.resolveLine(Some(routes[i]), None));
    }
    assert routes[..|routes|] == routes;
    if lines == [] {
      lines := ["NETWORK"];
    }
  }

  lemma TripsStep(input: Input, tus: seq<TripUpdate>, i: nat)
    requires i < |tus|
    ensures Trips(input, tus[..i + 1]) == AddTrip(input, Trips(input, tus[..i]), tus[i])
    ensures CancelledIds(input, tus[..i + 1])
            == CancelledIds(input, tus[..i]) + (if NewlyCancelled(input, tus[i]) then [tus[i].tripId] else [])
    ensures SkippedIds(input, tus[..i + 1])
            == SkippedIds(input, tus[..i]) + (if NewlySkipped(input, tus[i]) then [tus[i].tripId] else [])
  {
    assert tus[..i + 1][..i] == tus[..i];
  }

  method CountTrip(input: Input, tu: TripUpdate, entryBefore: Accumulator, cancelled: seq<string>, skipped: seq<string>)
    returns (entry: Accumulator, newlyCancelled: seq<string>, newlySkipped: seq<string>)
    ensures entry == AfterTrip(input, entryBefore, tu)
    ensures newlyCancelled == cancelled + (if NewlyCancelled(input, tu) then [tu.tripId] else [])
    ensures newlySkipped == skipped + (if NewlySkipped(input, tu) then [tu.tripId] else [])
  {
    var peak := IsPeak(input.localHour);
    entry, newlyCancelled, newlySkipped := CountTracked(entryBefore, peak), cancelled, skipped;
    if Cancelled(tu) {
      if tu.tripId !in input.alreadyCancelled {
        entry := entry.(cancelledTrips := entry.cancelledTrips + 1);
        newlyCancelled := newlyCancelled + [tu.tripId];
      }
      return;
    }
    if HasSkippedStop(tu) && tu.tripId !in input.alreadySkipped {
      entry := entry.(skippedTrips := entry.skippedTrips + 1);
      newlySkipped := newlySkipped + [tu.tripId];
    }
    var delay := TripDelay(tu);
    entry := entry.(delays := entry.delays + [delay], delaySum := entry.delaySum + Max(0, delay));
    if delay < 0 {
      entry := entry.(earlyTrips := entry.earlyTrips + 1);
    }
    if delay > DELAY_THRESHOLD_SECONDS {
      entry := entry.(delayedTrips := entry.delayedTrips + 1);
      if peak {
        entry := entry.(peakDelayedTrips := entry.peakDelayedTrips + 1);
      } else {
        entry := entry.(offPeakDelayedTrips := entry.offPeakDelayedTrips + 1);
      }
    }
    if delay > entry.maxDelay {
      entry := entry.(maxDelay := delay);
    }
  }

  method CountTrips(input: Input) returns (byLine: Lines, newlyCancelled: seq<string>, newlySkipped: seq<string>)
    ensures byLine == Trips(input, input.tripUpdates)
    ensures newlyCancelled == CancelledIds(input, input.tripUpdates)
    ensures newlySkipped == SkippedIds(input, input.tripUpdates)
  {
    var tus := input.tripUpdates;
    byLine, newlyCancelled, newlySkipped := Lines([], map[]), [], [];
    for i := 0 to |tus|
      invariant byLine == Trips(input, tus[..i])
      invariant newlyCancelled == CancelledIds(input, tus[..i])
      invariant newlySkipped == SkippedIds(input, tus[..i])
    {
      TripsStep(input, tus, i);
      var key := TripKey(input, tus[i]);
      byLine := Touch(input, byLine, tus[i].mode, key);
      var entry;
      entry, newlyCancelled, newlySkipped :=
        CountTrip(input, tus[i], byLine.entries[key], newlyCancelled, newlySkipped);
      byLine := byLine.(entries := byLine.entries[key := entry]);
    }
    assert tus[..|tus|] == tus;
  }

  method CountVehicles(input: Input, tripRoute: map<string, string>, lines: Lines) returns (byLine: Lines)
    requires tripRoute == TripRoutes(input) && lines == Trips(input, input.tripUpdates)
    ensures byLine == Vehicles(input, input.vehicles)
  {
    byLine := lines;
    var vehicles := input.vehicles;
    for i := 0 to |vehicles|
      invariant byLine == Vehicles(input, vehicles[..i])
    {
      assert vehicles[..i + 1][..i] == vehicles[..i];
      var v := vehicles[i];
      var routeId := v.routeId;
      if routeId.None? && Present(v.tripId) {
        routeId := Lookup(tripRoute, v.tripId.value);
      }
      var key := Key(v.mode, input.resolveLine(routeId, v.tripId));
      byLine := Touch(input, byLine, v.mode, key);
      byLine := byLine.(entries := byLine.entries[key := AfterVehicle(byLine.entries[key], v)]);
    }
    assert vehicles[..|vehicles|] == vehicles;
  }

  method CountAlert(input: Input, a: Alert, affected: seq<string>, lines: Lines, events: seq<DisruptionEvent>)
    returns (byLine: Lines, allEvents: seq<DisruptionEvent>)
    ensures byLine == AddAlert(input, lines, a, affected)
    ensures allEvents == events + AlertEvents(a, affected)
  {
    byLine, allEvents := lines, events;
    for j := 0 to |affected|
      invariant byLine == AddAlert(input, lines, a, affected[..j])
      invariant allEvents == events + AlertEvents(a, affected[..j])
    {
      assert affected[..j + 1][..j] == affected[..j];
      var key := Key(a.mode, affected[j]);
      byLine := Touch(input, byLine, a.mode, key);
      byLine := byLine.(entries := byLine.entries[key := AfterAlert(byLine.entries[key], EffectOf(a))]);
      allEvents := allEvents + [DisruptionEvent(a.mode, affected[j], a.id, a.effect, a.cause)];
    }
    assert affected[..|affected|] == affected;
  }

  method CountAlerts(input: Input, tripRoute: map<string, string>, lines: Lines)
    returns (byLine: Lines, events: seq<DisruptionEvent>)
    requires tripRoute == TripRoutes(input) && lines == Vehicles(input, input.vehicles)
    ensures (byLine, events) == Alerts(input, input.alerts)
  {
    byLine, events := lines, [];
    var alerts := input.alerts;
    for i := 0 to |alerts|
      invariant (byLine, events) == Alerts(input, alerts[..i])
    {
      assert alerts[..i + 1][..i] == alerts[..i];
      if Counts(input, alerts[i]) {
        var affected := AffectedLines(input, tripRoute, alerts[i]);
        byLine, events := CountAlert(input, alerts[i], affected, byLine, events);
      }
    }
    assert alerts[..|alerts|] == alerts;
  }

  method AggregateHistorySample(input: Input) returns (r: Output)
    ensures r == Sampled(input)
  {
    var newestTs, anyTs := NewestTimestamp(input.tripUpdates);
    var feedStale := anyTs && input.atUnix - newestTs > STALE_FEED_THRESHOLD_SECONDS;
    var byLine, newlyCancelled, newlySkipped := CountTrips(input);
    var live := LiveRoutesOf(input.tripUpdates);
    var tripRoute := input.tripToRouteId + live;
    byLine := CountVehicles(input, tripRoute, byLine);
    var events;
    byLine, events := CountAlerts(input, tripRoute, byLine);
    r := Output(byLine, events, feedStale, |input.tripUpdates|, |input.vehicles|, IsPeak(input.localHour),
                newlyCancelled, newlySkipped);
  }
}
