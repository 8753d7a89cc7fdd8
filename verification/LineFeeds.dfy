/** A line of a sample is the sum of its own part of the feeds: an independent account of the three loops. */
module LineFeeds {
  import opened Basics
  import opened HistoryAggregate
  import opened SampleEffects

  // ----- parts of a feed -----

  function Those<T>(xs: seq<T>, p: T -> bool): seq<T> {
    if xs == [] then [] else Those(xs[..|xs| - 1], p) + (if p(xs[|xs| - 1]) then [xs[|xs| - 1]] else [])
  }

  function Sum<T>(xs: seq<T>, f: T -> nat): nat {
    if xs == [] then 0 else Sum(xs[..|xs| - 1], f) + f(xs[|xs| - 1])
  }

  function Each<T, R>(xs: seq<T>, f: T -> R): seq<R> { seq(|xs|, i requires 0 <= i < |xs| => f(xs[i])) }

  // Which items belong to a line, and which of them count for what.

  function OfTrip(input: Input, key: string): TripUpdate -> bool { (tu: TripUpdate) => TripKey(input, tu) == key }

  function OfVehicle(input: Input, key: string): Vehicle -> bool { (v: Vehicle) => VehicleKey(input, v) == key }

  predicate ForLine(input: Input, key: string, a: Alert) {
    exists line :: line in AlertLines(input, a) && Key(a.mode, line) == key
  }

  function OfAlert(input: Input, key: string): Alert -> bool {
    (a: Alert) => Counts(input, a) && ForLine(input, key, a)
  }

  function FirstCancelled(input: Input): TripUpdate -> bool { (tu: TripUpdate) => NewlyCancelled(input, tu) }

  function FirstSkipped(input: Input): TripUpdate -> bool { (tu: TripUpdate) => NewlySkipped(input, tu) }

  predicate Runs(tu: TripUpdate) { !Cancelled(tu) }

  predicate HasScore(v: Vehicle) { OccupancyScore(v.occupancyStatus).Some? }

  predicate IsCrowded(v: Vehicle) { Crowded(v.occupancyStatus) }

  function Score(v: Vehicle): nat {
    var score := OccupancyScore(v.occupancyStatus); if score.Some? then score.value else 0
  }

  function Minutes(a: Alert): nat { DisruptionMinutes(EffectOf(a)) }

  function WithEffect(effect: string): Alert -> bool { (a: Alert) => EffectOf(a) == effect }

  // ----- the account -----

  /** The trip counters are counts over the line's own updates, its delays those of its running trips in feed order. */
  ghost predicate TripsAdd(input: Input, e: Accumulator, own: seq<TripUpdate>) {
    && e.trackedTrips == |own|
    && e.cancelledTrips == |Those(own, FirstCancelled(input))|
    && e.skippedTrips == |Those(own, FirstSkipped(input))|
    && e.delays == Each(Those(own, Runs), TripDelay)
    && (if IsPeak(input.localHour) then
          e.peakTrackedTrips == |own| && e.offPeakTrackedTrips == 0 && e.offPeakDelayedTrips == 0
        else e.offPeakTrackedTrips == |own| && e.peakTrackedTrips == 0 && e.peakDelayedTrips == 0)
  }

  ghost predicate VehiclesAdd(e: Accumulator, own: seq<Vehicle>) {
    && e.vehicles == |own|
    && e.occupancyScoreSum == Sum(own, Score)
    && e.occupancySamples == |Those(own, HasScore)|
    && e.crowdedVehicles == |Those(own, IsCrowded)|
  }

  function CountFor(counts: map<string, nat>, effect: string): nat { if effect in counts then counts[effect] else 0 }

  ghost predicate AlertsAdd(e: Accumulator, own: seq<Alert>) {
    && e.disruptions == |own|
    && e.disruptionMinutes == Sum(own, Minutes)
    && forall effect :: CountFor(e.disruptionCountByEffect, effect) == |Those(own, WithEffect(effect))|
  }

  /** An entry that is what these items add up to. */
  ghost predicate Adds(input: Input, e: Accumulator, key: string, trips: seq<TripUpdate>, vehicles: seq<Vehicle>,
                       alerts: seq<Alert>)
  {
    e.scheduledTrips == ScheduledFor(input, key) && TripsAdd(input, e, trips) && VehiclesAdd(e, vehicles) && AlertsAdd(e, alerts)
  }

  /** The line has an entry exactly when it has some item, and the entry is what its items add up to. */
  ghost predicate Account(input: Input, lines: Lines, key: string, trips: seq<TripUpdate>, vehicles: seq<Vehicle>,
                          alerts: seq<Alert>)
  {
    && (key in lines.entries <==> trips != [] || vehicles != [] || alerts != [])
    && (key in lines.entries ==> Adds(input, lines.entries[key], key, trips, vehicles, alerts))
  }

  lemma ThoseStep<T>(xs: seq<T>, x: T, p: T -> bool)
    ensures Those(xs + [x], p) == Those(xs, p) + (if p(x) then [x] else [])
  {
    assert (xs + [x])[..|xs|] == xs;
  }

  lemma SumStep<T>(xs: seq<T>, x: T, f: T -> nat)
    ensures Sum(xs + [x], f) == Sum(xs, f) + f(x)
  {
    assert (xs + [x])[..|xs|] == xs;
  }

  /** The entry an item finds, counted as nothing when it is new. */
  lemma TouchedEntry(input: Input, lines: Lines, mode: string, key: string, trips: seq<TripUpdate>, vehicles: seq<Vehicle>,
                     alerts: seq<Alert>)
    requires Account(input, lines, key, trips, vehicles, alerts)
    ensures Adds(input, Touch(input, lines, mode, key).entries[key], key, trips, vehicles, alerts)
  {
  }

  // ----- trips -----

  lemma TripStep(input: Input, e: Accumulator, own: seq<TripUpdate>, tu: TripUpdate)
    requires TripsAdd(input, e, own)
    ensures TripsAdd(input, AfterTrip(input, e, tu), own + [tu])
  {
    ThoseStep(own, tu, FirstCancelled(input));
    ThoseStep(own, tu, FirstSkipped(input));
    ThoseStep(own, tu, Runs);
    if !Cancelled(tu) {
      assert Each(Those(own, Runs) + [tu], TripDelay) == Each(Those(own, Runs), TripDelay) + [TripDelay(tu)];
    }
  }

  lemma TripLeavesRest(input: Input, e: Accumulator, tu: TripUpdate, vehicles: seq<Vehicle>, alerts: seq<Alert>)
    requires VehiclesAdd(e, vehicles) && AlertsAdd(e, alerts)
    ensures var after := AfterTrip(input, e, tu);
            VehiclesAdd(after, vehicles) && AlertsAdd(after, alerts) && after.scheduledTrips == e.scheduledTrips
  {
  }

  lemma OneTrip(input: Input, lines: Lines, tu: TripUpdate, key: string, trips: seq<TripUpdate>, vehicles: seq<Vehicle>,
                alerts: seq<Alert>)
    requires Account(input, lines, key, trips, vehicles, alerts)
    ensures Account(input, AddTrip(input, lines, tu), key, if TripKey(input, tu) == key then trips + [tu] else trips,
                    vehicles, alerts)
  {
    if TripKey(input, tu) == key {
      var e := Touch(input, lines, tu.mode, key).entries[key];
      TouchedEntry(input, lines, tu.mode, key, trips, vehicles, alerts);
      TripStep(input, e, trips, tu);
      TripLeavesRest(input, e, tu, vehicles, alerts);
    }
  }

  lemma {:induction false} TripsAccount(input: Input, tus: seq<TripUpdate>, key: string)
    ensures Account(input, Trips(input, tus), key, Those(tus, OfTrip(input, key)), [], [])
  {
    if tus != [] {
      var before, tu := tus[..|tus| - 1], tus[|tus| - 1];
      TripsAccount(input, before, key);
      var own := Those(before, OfTrip(input, key));
      OneTrip(input, Trips(input, before), tu, key, own, [], []);
      assert Those(tus, OfTrip(input, key)) == if TripKey(input, tu) == key then own + [tu] else own;
    }
  }

  // ----- vehicles -----

  lemma VehicleStep(input: Input, e: Accumulator, key: string, trips: seq<TripUpdate>, own: seq<Vehicle>, alerts: seq<Alert>,
                    v: Vehicle)
    requires Adds(input, e, key, trips, own, alerts)
    ensures Adds(input, AfterVehicle(e, v), key, trips, own + [v], alerts)
  {
    ThoseStep(own, v, HasScore);
    ThoseStep(own, v, IsCrowded);
    SumStep(own, v, Score);
  }

  lemma OneVehicle(input: Input, lines: Lines, v: Vehicle, key: string, trips: seq<TripUpdate>, vehicles: seq<Vehicle>,
                   alerts: seq<Alert>)
    requires Account(input, lines, key, trips, vehicles, alerts)
    ensures Account(input, AddVehicle(input, lines, v), key, trips,
                    if VehicleKey(input, v) == key then vehicles + [v] else vehicles, alerts)
  {
    if VehicleKey(input, v) == key {
      TouchedEntry(input, lines, v.mode, key, trips, vehicles, alerts);
      VehicleStep(input, Touch(input, lines, v.mode, key).entries[key], key, trips, vehicles, alerts, v);
    }
  }

  lemma {:induction false} VehiclesAccount(input: Input, vs: seq<Vehicle>, key: string)
    ensures Account(input, Vehicles(input, vs), key, Those(input.tripUpdates, OfTrip(input, key)),
                    Those(vs, OfVehicle(input, key)), [])
  {
    var trips := Those(input.tripUpdates, OfTrip(input, key));
    if vs == [] {
      TripsAccount(input, input.tripUpdates, key);
    } else {
      var before, v := vs[..|vs| - 1], vs[|vs| - 1];
      VehiclesAccount(input, before, key);
      var own := Those(before, OfVehicle(input, key));
      OneVehicle(input, Vehicles(input, before), v, key, trips, own, []);
      assert Those(vs, OfVehicle(input, key)) == if VehicleKey(input, v) == key then own + [v] else own;
    }
  }

  // ----- alerts -----

  lemma AlertStep(input: Input, e: Accumulator, key: string, trips: seq<TripUpdate>, vehicles: seq<Vehicle>, own: seq<Alert>,
                  a: Alert)
    requires Adds(input, e, key, trips, vehicles, own)
    ensures Adds(input, AfterAlert(e, EffectOf(a)), key, trips, vehicles, own + [a])
  {
    SumStep(own, a, Minutes);
    var after := AfterAlert(e, EffectOf(a));
    forall effect ensures CountFor(after.disruptionCountByEffect, effect) == |Those(own + [a], WithEffect(effect))| {
      ThoseStep(own, a, WithEffect(effect));
      assert CountFor(e.disruptionCountByEffect, effect) == |Those(own, WithEffect(effect))|;
    }
  }

  lemma KeyInjective(mode: string, a: string, b: string)
    requires Key(mode, a) == Key(mode, b)
    ensures a == b
  {
    assert Key(mode, a)[|mode| + 1..] == a && Key(mode, b)[|mode| + 1..] == b;
  }

  predicate Names(mode: string, affected: seq<string>, key: string) {
    exists line :: line in affected && Key(mode, line) == key
  }

  lemma NamesOnce(mode: string, before: seq<string>, last: string, key: string)
    requires NoRepeats(before + [last])
    ensures Key(mode, last) == key ==> !Names(mode, before, key)
    ensures Names(mode, before + [last], key) <==> Names(mode, before, key) || Key(mode, last) == key
  {
    var all := before + [last];
    assert last in all && forall line :: line in all <==> line in before || line == last;
    forall i | 0 <= i < |before| ensures before[i] != last {
      assert all[i] == before[i] && all[|before|] == last;
    }
    forall line | line in before && Key(mode, line) == Key(mode, last) ensures line == last {
      KeyInjective(mode, line, last);
    }
  }

  lemma AlertLineOnKey(input: Input, lines: Lines, a: Alert, line: string, key: string)
    ensures var after := AddAlertLine(input, lines, a, line).entries;
            if Key(a.mode, line) == key then
              key in after && after[key] == AfterAlert(Touch(input, lines, a.mode, key).entries[key], EffectOf(a))
            else (key in after <==> key in lines.entries) && (key in after ==> after[key] == lines.entries[key])
  {
  }

  /** The same entry, present or not, is touched to the same. */
  lemma SameTouch(input: Input, a: Lines, b: Lines, mode: string, key: string)
    requires (key in a.entries <==> key in b.entries) && (key in a.entries ==> a.entries[key] == b.entries[key])
    ensures Touch(input, a, mode, key).entries[key] == Touch(input, b, mode, key).entries[key]
  {
  }

  /** An alert changes a line's entry once, if the line is among those affected. */
  lemma {:induction false} AlertOnKey(input: Input, lines: Lines, a: Alert, affected: seq<string>, key: string)
    requires NoRepeats(affected)
    ensures var after := AddAlert(input, lines, a, affected).entries;
            if Names(a.mode, affected, key) then
              key in after && after[key] == AfterAlert(Touch(input, lines, a.mode, key).entries[key], EffectOf(a))
            else (key in after <==> key in lines.entries) && (key in after ==> after[key] == lines.entries[key])
  {
    if affected != [] {
      var n := |affected| - 1;
      var before := AddAlert(input, lines, a, affected[..n]);
      AlertOnKey(input, lines, a, affected[..n], key);
      assert affected == affected[..n] + [affected[n]];
      NamesOnce(a.mode, affected[..n], affected[n], key);
      AlertLineOnKey(input, before, a, affected[n], key);
      if Key(a.mode, affected[n]) == key { SameTouch(input, before, lines, a.mode, key); }
    }
  }

  lemma OneAlert(input: Input, lines: Lines, a: Alert, key: string, trips: seq<TripUpdate>, vehicles: seq<Vehicle>,
                 alerts: seq<Alert>)
    requires Account(input, lines, key, trips, vehicles, alerts)
    ensures Account(input, AddAlert(input, lines, a, AlertLines(input, a)), key, trips, vehicles,
                    if ForLine(input, key, a) then alerts + [a] else alerts)
  {
    AlertLinesExact(input, a);
    AlertOnKey(input, lines, a, AlertLines(input, a), key);
    assert ForLine(input, key, a) <==> Names(a.mode, AlertLines(input, a), key);
    if ForLine(input, key, a) {
      TouchedEntry(input, lines, a.mode, key, trips, vehicles, alerts);
      AlertStep(input, Touch(input, lines, a.mode, key).entries[key], key, trips, vehicles, alerts, a);
    }
  }

  lemma {:induction false} AlertsAccount(input: Input, alerts: seq<Alert>, key: string)
    ensures Account(input, Alerts(input, alerts).0, key, Those(input.tripUpdates, OfTrip(input, key)),
                    Those(input.vehicles, OfVehicle(input, key)), Those(alerts, OfAlert(input, key)))
  {
    if alerts == [] {
      VehiclesAccount(input, input.vehicles, key);
    } else {
      var before, a := alerts[..|alerts| - 1], alerts[|alerts| - 1];
      AlertsAccount(input, before, key);
      var own := Those(before, OfAlert(input, key));
      assert Those(alerts, OfAlert(input, key)) == if Counts(input, a) && ForLine(input, key, a) then own + [a] else own;
      if Counts(input, a) {
        OneAlert(input, Alerts(input, before).0, a, key, Those(input.tripUpdates, OfTrip(input, key)),
                 Those(input.vehicles, OfVehicle(input, key)), own);
      }
    }
  }

  /** Every line of a sample: it is listed exactly when something of the feeds is its own, and counts exactly that. */
  lemma LineIsItsFeed(input: Input, key: string)
    ensures Account(input, Sampled(input).byLine, key, Those(input.tripUpdates, OfTrip(input, key)),
                    Those(input.vehicles, OfVehicle(input, key)), Those(input.alerts, OfAlert(input, key)))
  {
    AlertsAccount(input, input.alerts, key);
  }

  // ----- the disruption events -----

  /** The events of a sample: for each counting alert in feed order, one for each of its lines. */
  lemma {:induction false} EventsExact(input: Input, alerts: seq<Alert>, e: DisruptionEvent)
    ensures e in Alerts(input, alerts).1
            <==> exists a :: a in alerts && Counts(input, a) && e.line in AlertLines(input, a)
                             && e.mode == a.mode && e.alertId == a.id && e.effect == a.effect && e.cause == a.cause
  {
    if alerts != [] {
      var before, a := alerts[..|alerts| - 1], alerts[|alerts| - 1];
      EventsExact(input, before, e);
      assert alerts == before + [a];
      var events := AlertEvents(a, AlertLines(input, a));
      if e.line in AlertLines(input, a) && e.mode == a.mode && e.alertId == a.id && e.effect == a.effect && e.cause == a.cause {
        var i :| 0 <= i < |AlertLines(input, a)| && AlertLines(input, a)[i] == e.line;
        assert events[i] == e;
      }
    }
  }
}
