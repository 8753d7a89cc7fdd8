/** What a sample conserves: totals over lines match the feeds, and every line's counters agree with one another. */
module HistoryLedger {
  import opened Basics
  import opened Wrappers
  import opened HistoryAggregate
  import Totals

  function Tracked(e: Accumulator): int { e.trackedTrips }
  function CancelledTrips(e: Accumulator): int { e.cancelledTrips }
  function SkippedTrips(e: Accumulator): int { e.skippedTrips }
  function VehicleCount(e: Accumulator): int { e.vehicles }
  function Disruptions(e: Accumulator): int { e.disruptions }
  function Itself(n: nat): int { n }

  datatype Sums = Sums(tracked: int, cancelled: int, skipped: int, vehicles: int, disruptions: int)

  ghost function SumsOf(lines: Lines): Sums {
    Sums(Totals.Sum(lines.entries, Tracked), Totals.Sum(lines.entries, CancelledTrips),
         Totals.Sum(lines.entries, SkippedTrips), Totals.Sum(lines.entries, VehicleCount),
         Totals.Sum(lines.entries, Disruptions))
  }

  function Plus(a: Sums, before: Accumulator, after: Accumulator): Sums {
    Sums(a.tracked + after.trackedTrips - before.trackedTrips,
         a.cancelled + after.cancelledTrips - before.cancelledTrips,
         a.skipped + after.skippedTrips - before.skippedTrips,
         a.vehicles + after.vehicles - before.vehicles,
         a.disruptions + after.disruptions - before.disruptions)
  }

  // The delays of a line decide its delay counters.

  function DelayTotal(delays: seq<int>): int {
    if delays == [] then 0 else DelayTotal(delays[..|delays| - 1]) + Max(0, delays[|delays| - 1])
  }

  function LateCount(delays: seq<int>): nat {
    if delays == [] then 0
    else LateCount(delays[..|delays| - 1]) + (if delays[|delays| - 1] > DELAY_THRESHOLD_SECONDS then 1 else 0)
  }

  function EarlyCount(delays: seq<int>): nat {
    if delays == [] then 0 else EarlyCount(delays[..|delays| - 1]) + (if delays[|delays| - 1] < 0 then 1 else 0)
  }

  ghost predicate IsWorst(delays: seq<int>, worst: int) {
    && (forall i :: 0 <= i < |delays| ==> delays[i] <= worst)
    && worst >= 0
    && (worst > 0 ==> worst in delays)
  }

  ghost predicate Consistent(e: Accumulator) {
    && e.peakTrackedTrips + e.offPeakTrackedTrips == e.trackedTrips
    && e.peakDelayedTrips + e.offPeakDelayedTrips == e.delayedTrips
    && |e.delays| + e.cancelledTrips <= e.trackedTrips
    && e.skippedTrips <= |e.delays|
    && e.delaySum == DelayTotal(e.delays)
    && e.delayedTrips == LateCount(e.delays)
    && e.earlyTrips == EarlyCount(e.delays)
    && IsWorst(e.delays, e.maxDelay)
    && Totals.Sum(e.disruptionCountByEffect, Itself) == e.disruptions
  }

  predicate HasMode(key: string, mode: string) {
    |key| > |mode| && key[..|mode|] == mode && key[|mode|] == '|'
  }

  ghost predicate SoundEntry(key: string, e: Accumulator) {
    Consistent(e) && HasMode(key, e.mode)
  }

  /** Keys are unique, start with their entry's mode, and every entry is consistent. */
  ghost predicate Sound(lines: Lines) {
    && (forall i, j :: 0 <= i < j < |lines.order| ==> lines.order[i] != lines.order[j])
    && (forall key :: key in lines.entries <==> key in lines.order)
    && (forall key :: key in lines.entries ==> SoundEntry(key, lines.entries[key]))
  }

  lemma SumsPut(lines: Lines, order: seq<string>, key: string, after: Accumulator)
    ensures var put := Lines(order, lines.entries[key := after]);
            SumsOf(put) ==
              if key in lines.entries then Plus(SumsOf(lines), lines.entries[key], after)
              else Plus(SumsOf(lines), EmptyAccumulator("", 0), after)
  {
    Totals.SumPut(lines.entries, Tracked, key, after);
    Totals.SumPut(lines.entries, CancelledTrips, key, after);
    Totals.SumPut(lines.entries, SkippedTrips, key, after);
    Totals.SumPut(lines.entries, VehicleCount, key, after);
    Totals.SumPut(lines.entries, Disruptions, key, after);
  }

  lemma TouchSound(input: Input, lines: Lines, mode: string, line: string)
    requires Sound(lines)
    ensures Sound(Touch(input, lines, mode, Key(mode, line)))
  {
    var key := Key(mode, line);
    if key !in lines.entries {
      assert key[..|mode|] == mode;
      var touched := Touch(input, lines, mode, key);
      assert SoundEntry(key, touched.entries[key]);
    }
  }

  lemma TouchKeepsSums(input: Input, lines: Lines, mode: string, line: string)
    ensures SumsOf(Touch(input, lines, mode, Key(mode, line))) == SumsOf(lines)
  {
    var key := Key(mode, line);
    var touched := Touch(input, lines, mode, key);
    if key !in lines.entries {
      SumsPut(lines, touched.order, key, touched.entries[key]);
    }
  }

  /** One counted item: the entry found or created for its line is replaced by a consistent one. */
  lemma Counted(input: Input, lines: Lines, mode: string, line: string, after: Accumulator)
    requires Sound(lines)
    requires var before := Touch(input, lines, mode, Key(mode, line)).entries[Key(mode, line)];
             Consistent(before) ==> Consistent(after) && after.mode == before.mode
    ensures var touched := Touch(input, lines, mode, Key(mode, line));
            var put := touched.(entries := touched.entries[Key(mode, line) := after]);
            Sound(put) && SumsOf(put) == Plus(SumsOf(lines), touched.entries[Key(mode, line)], after)
  {
    var key := Key(mode, line);
    var touched := Touch(input, lines, mode, key);
    TouchSound(input, lines, mode, line);
    TouchKeepsSums(input, lines, mode, line);
    SumsPut(touched, touched.order, key, after);
    assert SoundEntry(key, touched.entries[key]);
    assert SoundEntry(key, after);
  }

  lemma DelayKeepsConsistent(e: Accumulator, delay: int, peak: bool)
    requires Consistent(e) && |e.delays| + e.cancelledTrips < e.trackedTrips
    ensures Consistent(CountDelay(e, delay, peak))
  {
    assert (e.delays + [delay])[..|e.delays|] == e.delays;
    var after := CountDelay(e, delay, peak);
    assert after.maxDelay > 0 ==> after.maxDelay in after.delays;
  }

  lemma TrackedKeepsConsistent(e: Accumulator, peak: bool)
    requires Consistent(e)
    ensures Consistent(CountTracked(e, peak))
    ensures |CountTracked(e, peak).delays| + CountTracked(e, peak).cancelledTrips < CountTracked(e, peak).trackedTrips
  {
  }

  lemma CancelKeepsConsistent(t: Accumulator)
    requires Consistent(t) && |t.delays| + t.cancelledTrips < t.trackedTrips
    ensures Consistent(t.(cancelledTrips := t.cancelledTrips + 1))
  {
  }

  /** The skip is counted before the delay that its own bound needs. */
  lemma SkipThenDelay(t: Accumulator, delay: int, peak: bool)
    requires Consistent(t) && |t.delays| + t.cancelledTrips < t.trackedTrips
    ensures Consistent(CountDelay(t.(skippedTrips := t.skippedTrips + 1), delay, peak))
  {
    DelayKeepsConsistent(t, delay, peak);
  }

  lemma TripKeepsConsistent(input: Input, e: Accumulator, tu: TripUpdate)
    requires Consistent(e)
    ensures Consistent(AfterTrip(input, e, tu))
  {
    var peak := IsPeak(input.localHour);
    var t := CountTracked(e, peak);
    TrackedKeepsConsistent(e, peak);
    if Cancelled(tu) {
      CancelKeepsConsistent(t);
    } else {
      if NewlySkipped(input, tu) {
        SkipThenDelay(t, TripDelay(tu), peak);
      } else {
        DelayKeepsConsistent(t, TripDelay(tu), peak);
      }
    }
  }

  lemma AlertKeepsConsistent(e: Accumulator, effect: string)
    requires Consistent(e)
    ensures Consistent(AfterAlert(e, effect))
  {
    var count := if effect in e.disruptionCountByEffect then e.disruptionCountByEffect[effect] else 0;
    Totals.SumPut(e.disruptionCountByEffect, Itself, effect, count + 1);
  }

  lemma TripDelta(input: Input, s: Sums, e: Accumulator, tu: TripUpdate)
    ensures Plus(s, e, AfterTrip(input, e, tu)) ==
              Sums(s.tracked + 1, s.cancelled + (if NewlyCancelled(input, tu) then 1 else 0),
                   s.skipped + (if NewlySkipped(input, tu) then 1 else 0), s.vehicles, s.disruptions)
  {
  }

  lemma VehicleDelta(s: Sums, e: Accumulator, v: Vehicle)
    ensures Plus(s, e, AfterVehicle(e, v)) == s.(vehicles := s.vehicles + 1)
  {
  }

  lemma AlertDelta(s: Sums, e: Accumulator, effect: string)
    ensures Plus(s, e, AfterAlert(e, effect)) == s.(disruptions := s.disruptions + 1)
  {
  }

  lemma TripKept(input: Input, e: Accumulator, tu: TripUpdate)
    ensures Consistent(e) ==> Consistent(AfterTrip(input, e, tu)) && AfterTrip(input, e, tu).mode == e.mode
  {
    if Consistent(e) { TripKeepsConsistent(input, e, tu); }
  }

  lemma CountedAs(input: Input, lines: Lines, mode: string, line: string, after: Accumulator, sums: Sums, result: Lines)
    requires Sound(lines)
    requires var touched := Touch(input, lines, mode, Key(mode, line));
             var before := touched.entries[Key(mode, line)];
             && (Consistent(before) ==> Consistent(after) && after.mode == before.mode)
             && Plus(SumsOf(lines), before, after) == sums
             && result == touched.(entries := touched.entries[Key(mode, line) := after])
    ensures Sound(result) && SumsOf(result) == sums
  {
    Counted(input, lines, mode, line, after);
  }

  lemma TripStep(input: Input, lines: Lines, tu: TripUpdate)
    requires Sound(lines)
    ensures Sound(AddTrip(input, lines, tu))
    ensures var s := SumsOf(lines);
            SumsOf(AddTrip(input, lines, tu)) ==
              Sums(s.tracked + 1, s.cancelled + (if NewlyCancelled(input, tu) then 1 else 0),
                   s.skipped + (if NewlySkipped(input, tu) then 1 else 0), s.vehicles, s.disruptions)
  {
    var line := input.resolveLine(tu.routeId, Some(tu.tripId));
    var e := Touch(input, lines, tu.mode, TripKey(input, tu)).entries[TripKey(input, tu)];
    TripKept(input, e, tu);
    TripDelta(input, SumsOf(lines), e, tu);
    CountedAs(input, lines, tu.mode, line, AfterTrip(input, e, tu), Plus(SumsOf(lines), e, AfterTrip(input, e, tu)),
              AddTrip(input, lines, tu));
  }

  lemma VehicleStep(input: Input, lines: Lines, v: Vehicle)
    requires Sound(lines)
    ensures Sound(AddVehicle(input, lines, v))
    ensures SumsOf(AddVehicle(input, lines, v)) == SumsOf(lines).(vehicles := SumsOf(lines).vehicles + 1)
  {
    var routeId :=
      if v.routeId.Some? then v.routeId
      else if Present(v.tripId) then Lookup(TripRoutes(input), v.tripId.value)
      else None;
    var line := input.resolveLine(routeId, v.tripId);
    assert VehicleKey(input, v) == Key(v.mode, line);
    var e := Touch(input, lines, v.mode, Key(v.mode, line)).entries[Key(v.mode, line)];
    Counted(input, lines, v.mode, line, AfterVehicle(e, v));
    VehicleDelta(SumsOf(lines), e, v);
  }

  lemma AlertStep(input: Input, lines: Lines, a: Alert, line: string)
    requires Sound(lines)
    ensures Sound(AddAlertLine(input, lines, a, line))
    ensures SumsOf(AddAlertLine(input, lines, a, line))
            == SumsOf(lines).(disruptions := SumsOf(lines).disruptions + 1)
  {
    var e := Touch(input, lines, a.mode, Key(a.mode, line)).entries[Key(a.mode, line)];
    if Consistent(e) {
      AlertKeepsConsistent(e, EffectOf(a));
    }
    Counted(input, lines, a.mode, line, AfterAlert(e, EffectOf(a)));
    AlertDelta(SumsOf(lines), e, EffectOf(a));
  }

  lemma {:induction false} TripsLedger(input: Input, tus: seq<TripUpdate>)
    ensures Sound(Trips(input, tus))
    ensures SumsOf(Trips(input, tus)) == Sums(|tus|, |CancelledIds(input, tus)|, |SkippedIds(input, tus)|, 0, 0)
  {
    if tus != [] {
      TripsLedger(input, tus[..|tus| - 1]);
      TripStep(input, Trips(input, tus[..|tus| - 1]), tus[|tus| - 1]);
    }
  }

  lemma {:induction false} VehiclesLedger(input: Input, vs: seq<Vehicle>)
    ensures Sound(Vehicles(input, vs))
    ensures SumsOf(Vehicles(input, vs)) == SumsOf(Trips(input, input.tripUpdates)).(vehicles := |vs|)
  {
    TripsLedger(input, input.tripUpdates);
    if vs != [] {
      VehiclesLedger(input, vs[..|vs| - 1]);
      VehicleStep(input, Vehicles(input, vs[..|vs| - 1]), vs[|vs| - 1]);
    }
  }

  lemma {:induction false} AlertLedger(input: Input, lines: Lines, a: Alert, affected: seq<string>)
    requires Sound(lines)
    ensures Sound(AddAlert(input, lines, a, affected))
    ensures SumsOf(AddAlert(input, lines, a, affected))
            == SumsOf(lines).(disruptions := SumsOf(lines).disruptions + |affected|)
  {
    if affected != [] {
      AlertLedger(input, lines, a, affected[..|affected| - 1]);
      AlertStep(input, AddAlert(input, lines, a, affected[..|affected| - 1]), a, affected[|affected| - 1]);
    }
  }

  lemma {:induction false} AlertsLedger(input: Input, alerts: seq<Alert>)
    ensures Sound(Alerts(input, alerts).0)
    ensures SumsOf(Alerts(input, alerts).0)
            == SumsOf(Vehicles(input, input.vehicles)).(disruptions := |Alerts(input, alerts).1|)
  {
    if alerts == [] {
      VehiclesLedger(input, input.vehicles);
      TripsLedger(input, input.tripUpdates);
    } else {
      AlertsLedger(input, alerts[..|alerts| - 1]);
      var a := alerts[|alerts| - 1];
      if Counts(input, a) {
        AlertLedger(input, Alerts(input, alerts[..|alerts| - 1]).0, a, AlertLines(input, a));
      }
    }
  }

  /**
   * The ledger of a whole sample: over all lines the tracked trips are the trip updates, the cancelled
   * and skipped trips are the newly counted ids, the vehicles are the vehicles, and the disruptions are
   * the disruption events; and every line's own counters agree with each other.
   */
  lemma SampleLedger(input: Input)
    ensures SumsOf(Sampled(input).byLine)
            == Sums(|input.tripUpdates|, |Sampled(input).newlyCancelled|, |Sampled(input).newlySkipped|,
                    |input.vehicles|, |Sampled(input).disruptionEvents|)
    ensures Sound(Sampled(input).byLine)
  {
    TripsLedger(input, input.tripUpdates);
    VehiclesLedger(input, input.vehicles);
    AlertsLedger(input, input.alerts);
  }
}
