/** What one item of the feeds adds to its line, in figures: how late a trip is, where a vehicle counts, which alerts do. */
module FeedReadings {
  import opened Basics
  import opened Wrappers
  import opened HistoryAggregate
  import opened SampleEffects

  // ----- trip updates -----

  /** Its own delay, else the last stop's departure delay, else that stop's arrival delay, else none. */
  predicate LateBy(tu: TripUpdate, seconds: int) {
    if tu.delay.Some? then seconds == tu.delay.value
    else if |tu.stopTimeUpdates| == 0 then seconds == 0
    else
      var last := tu.stopTimeUpdates[|tu.stopTimeUpdates| - 1];
      if last.departureDelay.Some? then seconds == last.departureDelay.value
      else if last.arrivalDelay.Some? then seconds == last.arrivalDelay.value
      else seconds == 0
  }

  predicate SkipsAStop(tu: TripUpdate) {
    exists stop :: stop in tu.stopTimeUpdates && stop.scheduleRelationship == Some("SKIPPED")
  }

  predicate PeakHour(hour: int) { hour == 7 || hour == 8 || hour == 9 || hour == 16 || hour == 17 || hour == 18 }

  function OneIf(b: bool): nat { if b then 1 else 0 }

  /** The entry a line starts with. */
  function Fresh(input: Input, mode: string, key: string): Accumulator {
    Accumulator(mode, 0, 0, 0, 0, 0, 0, 0, [], 0, 0, 0, 0, 0, 0, map[],
                if key in input.scheduledByLine then input.scheduledByLine[key] else 0, 0, 0, 0, 0)
  }

  function EntryBefore(input: Input, lines: Lines, mode: string, key: string): Accumulator {
    if key in lines.entries then lines.entries[key] else Fresh(input, mode, key)
  }

  /**
   * A trip update counts for the line its route or trip resolves to. A cancelled trip is tracked, and counted the first time
   * it is seen; any other adds its delay to the list, is early below zero, late above 300 s, and counted as skipping a
   * stop the first time it does.
   */
  lemma TripAdds(input: Input, lines: Lines, tu: TripUpdate, d: int)
    requires LateBy(tu, d)
    ensures var key := tu.mode + "|" + input.resolveLine(tu.routeId, Some(tu.tripId));
            var e, peak := EntryBefore(input, lines, tu.mode, key), PeakHour(input.localHour);
            var tracked := e.(trackedTrips := e.trackedTrips + 1,
                              peakTrackedTrips := e.peakTrackedTrips + OneIf(peak),
                              offPeakTrackedTrips := e.offPeakTrackedTrips + OneIf(!peak));
            var after := AddTrip(input, lines, tu).entries;
            key in after &&
            after[key] ==
              if tu.scheduleRelationship == Some("CANCELED") then
                tracked.(cancelledTrips := e.cancelledTrips + OneIf(tu.tripId !in input.alreadyCancelled))
              else
                tracked.(
                  skippedTrips := e.skippedTrips + OneIf(SkipsAStop(tu) && tu.tripId !in input.alreadySkipped),
                  delays := e.delays + [d],
                  delaySum := e.delaySum + (if d > 0 then d else 0),
                  earlyTrips := e.earlyTrips + OneIf(d < 0),
                  delayedTrips := e.delayedTrips + OneIf(d > 300),
                  peakDelayedTrips := e.peakDelayedTrips + OneIf(d > 300 && peak),
                  offPeakDelayedTrips := e.offPeakDelayedTrips + OneIf(d > 300 && !peak),
                  maxDelay := if d > e.maxDelay then d else e.maxDelay)
  {
    SkipIff(tu);
  }

  lemma SkipIff(tu: TripUpdate)
    ensures HasSkippedStop(tu) <==> SkipsAStop(tu)
  {
  }

  // ----- vehicles -----

  /** A vehicle's own route, else its trip's: the one the feed last gave, else the timetable's. */
  ghost predicate VehicleRoute(input: Input, v: Vehicle, route: Option<string>) {
    if v.routeId.Some? then route == v.routeId
    else if v.tripId.None? || v.tripId.value == "" then route == None
    else
      var trip := v.tripId.value;
      if exists live :: LiveRoute(input.tripUpdates, trip, live) then
        route.Some? && LiveRoute(input.tripUpdates, trip, route.value)
      else if trip in input.tripToRouteId then route == Some(input.tripToRouteId[trip])
      else route == None
  }

  /** Scores from 0, empty, to 4, full; an unknown status has none. */
  predicate Scores(status: string, score: nat) {
    || (status == "EMPTY" && score == 0)
    || (status == "MANY_SEATS_AVAILABLE" && score == 1)
    || (status == "FEW_SEATS_AVAILABLE" && score == 2)
    || (status == "STANDING_ROOM_ONLY" && score == 3)
    || ((status == "CRUSHED_STANDING_ROOM_ONLY" || status == "FULL" || status == "NOT_ACCEPTING_PASSENGERS") && score == 4)
  }

  predicate Packed(status: string) {
    status == "STANDING_ROOM_ONLY" || status == "CRUSHED_STANDING_ROOM_ONLY" || status == "FULL"
    || status == "NOT_ACCEPTING_PASSENGERS"
  }

  lemma VehicleRouteIff(input: Input, v: Vehicle, route: Option<string>)
    requires VehicleRoute(input, v, route)
    ensures VehicleKey(input, v) == v.mode + "|" + input.resolveLine(route, v.tripId)
  {
    if v.routeId.None? && v.tripId.Some? && v.tripId.value != "" {
      var trip := v.tripId.value;
      if live :| LiveRoute(input.tripUpdates, trip, live) {
        TripRouteFacts(input, trip, route.value);
      } else {
        if trip in LiveRoutes(input.tripUpdates) {
          LiveRouteIff(input.tripUpdates, trip, LiveRoutes(input.tripUpdates)[trip]);
          assert false;
        }
      }
    }
  }

  lemma ScoreOf(status: Option<string>)
    ensures match OccupancyScore(status)
            case Some(score) => status.Some? && Scores(status.value, score)
            case None => status.None? || forall score :: !Scores(status.value, score)
    ensures Crowded(status) <==> status.Some? && Packed(status.value)
  {
  }

  /** A vehicle counts for the line of its route, and adds its occupancy score if its status has one. */
  lemma VehicleAdds(input: Input, lines: Lines, v: Vehicle, route: Option<string>)
    requires VehicleRoute(input, v, route)
    ensures var key := v.mode + "|" + input.resolveLine(route, v.tripId);
            var e, after := EntryBefore(input, lines, v.mode, key), AddVehicle(input, lines, v).entries;
            && key in after
            && (forall score :: v.occupancyStatus.Some? && Scores(v.occupancyStatus.value, score) ==>
                  after[key] == e.(vehicles := e.vehicles + 1,
                                   occupancyScoreSum := e.occupancyScoreSum + score,
                                   occupancySamples := e.occupancySamples + 1,
                                   crowdedVehicles := e.crowdedVehicles + OneIf(Packed(v.occupancyStatus.value))))
            && ((v.occupancyStatus.None? || forall score :: !Scores(v.occupancyStatus.value, score)) ==>
                  after[key] == e.(vehicles := e.vehicles + 1))
  {
    VehicleRouteIff(input, v, route);
    ScoreOf(v.occupancyStatus);
  }

  // ----- alerts -----

  /** A period without a start has always begun, one without an end never ends. */
  predicate InPeriod(p: Period, at: int) {
    at >= (if p.start.Some? then p.start.value else 0)
    && at <= (if p.end.Some? then p.end.value else 9_007_199_254_740_991)
  }

  /** Which alerts count: warnings and severe ones, without periods or within one of them. */
  lemma CountsIff(input: Input, a: Alert)
    ensures Counts(input, a)
            <==> && (a.severityLevel == Some("WARNING") || a.severityLevel == Some("SEVERE"))
                 && (a.activePeriods == [] || exists p :: p in a.activePeriods && InPeriod(p, input.atUnix))
  {
    forall i | 0 <= i < |a.activePeriods|
      ensures InPeriod(a.activePeriods[i], input.atUnix)
              <==> input.atUnix >= GetOr(a.activePeriods[i].start, 0)
                   && input.atUnix <= GetOr(a.activePeriods[i].end, MAX_SAFE_INTEGER) {
    }
    if a.activePeriods != [] && ActiveAt(a, input.atUnix) {
      var i :| 0 <= i < |a.activePeriods| && input.atUnix >= GetOr(a.activePeriods[i].start, 0)
               && input.atUnix <= GetOr(a.activePeriods[i].end, MAX_SAFE_INTEGER);
      assert a.activePeriods[i] in a.activePeriods && InPeriod(a.activePeriods[i], input.atUnix);
    }
  }

  /** The weight of an effect, in quarters. */
  function Quarters(effect: string): nat {
    if effect == "NO_SERVICE" then 4
    else if effect == "SIGNIFICANT_DELAYS" then 3
    else if effect == "STOP_MOVED" || effect == "OTHER_EFFECT" || effect == "UNKNOWN_EFFECT" then 1
    else 2
  }

  /** `m` is five minutes times the weight, rounded half up. */
  predicate Rounded(m: int, quarters: nat) { 8 * m - 4 <= 10 * quarters < 8 * m + 4 }

  /** An alert adds to each of its lines one disruption, one under its effect, and its share of the five minutes. */
  lemma AlertAdds(input: Input, lines: Lines, a: Alert, line: string)
    ensures var key, effect := a.mode + "|" + line, if a.effect.Some? then a.effect.value else "UNKNOWN_EFFECT";
            var e, after := EntryBefore(input, lines, a.mode, key), AddAlertLine(input, lines, a, line).entries;
            && key in after
            && Rounded(after[key].disruptionMinutes - e.disruptionMinutes, Quarters(effect))
            && after[key].disruptions == e.disruptions + 1
            && effect in after[key].disruptionCountByEffect
            && after[key].disruptionCountByEffect[effect]
               == 1 + (if effect in e.disruptionCountByEffect then e.disruptionCountByEffect[effect] else 0)
            && (forall other :: other != effect ==>
                  && (other in after[key].disruptionCountByEffect <==> other in e.disruptionCountByEffect)
                  && (other in e.disruptionCountByEffect ==>
                        after[key].disruptionCountByEffect[other] == e.disruptionCountByEffect[other]))
            && after[key] == e.(disruptions := after[key].disruptions, disruptionMinutes := after[key].disruptionMinutes,
                                disruptionCountByEffect := after[key].disruptionCountByEffect)
  {
  }

  // ----- the sample as a whole -----

  /** A time of the feed that is at most ten minutes old. */
  predicate Recent(tu: TripUpdate, at: int) { tu.timestamp.Some? && at - tu.timestamp.value <= 600 }

  /** What a sample says of its feed: its size, the hour, and that it is stale when it has times, none recent. */
  lemma SampleSays(input: Input)
    ensures var r := Sampled(input);
            && r.tripUpdateCount == |input.tripUpdates| && r.vehicleCount == |input.vehicles|
            && (r.isPeak <==> PeakHour(input.localHour))
            && (r.feedStale
                <==> && (exists tu :: tu in input.tripUpdates && tu.timestamp.Some?)
                     && (forall tu :: tu in input.tripUpdates ==> !Recent(tu, input.atUnix))
                     && input.atUnix > 600)
  {
    if tu :| tu in input.tripUpdates && tu.timestamp.Some? {
      var i :| 0 <= i < |input.tripUpdates| && input.tripUpdates[i] == tu;
    }
    forall i | 0 <= i < |input.tripUpdates| ensures input.tripUpdates[i] in input.tripUpdates {
    }
  }
}
