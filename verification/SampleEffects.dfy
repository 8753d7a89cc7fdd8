/** What single feed items do to a sample: the line a trip update counts for, and the lines an alert reaches. */
module SampleEffects {
  import opened Wrappers
  import opened Basics
  import opened HistoryAggregate

  // ----- one trip update -----

  function ScheduledFor(input: Input, key: string): nat {
    if key in input.scheduledByLine then input.scheduledByLine[key] else 0
  }

  /** A trip update changes exactly the entry of its mode and line, created with the scheduled count if it is not there. */
  lemma TripTouchesItsLine(input: Input, lines: Lines, tu: TripUpdate)
    ensures var key := TripKey(input, tu);
            var after := AddTrip(input, lines, tu);
            && key in after.entries
            && (forall k :: k != key ==> (k in after.entries <==> k in lines.entries))
            && (forall k :: k != key && k in lines.entries ==> after.entries[k] == lines.entries[k])
            && after.order == (if key in lines.entries then lines.order else lines.order + [key])
    ensures var key := TripKey(input, tu);
            var before := if key in lines.entries then lines.entries[key] else EmptyAccumulator(tu.mode, ScheduledFor(input, key));
            var after := AddTrip(input, lines, tu).entries[key];
            && after.mode == before.mode && after.scheduledTrips == before.scheduledTrips
            && after.trackedTrips == before.trackedTrips + 1
            && after.cancelledTrips == before.cancelledTrips + (if NewlyCancelled(input, tu) then 1 else 0)
            && after.skippedTrips == before.skippedTrips + (if NewlySkipped(input, tu) then 1 else 0)
            && after.delays == before.delays + (if Cancelled(tu) then [] else [TripDelay(tu)])
            && after.vehicles == before.vehicles && after.disruptions == before.disruptions
  {
  }

  // ----- the lines of an alert -----

  /** The route the feed itself last gave for a trip. */
  ghost predicate LiveRoute(tus: seq<TripUpdate>, tripId: string, route: string) {
    exists i :: 0 <= i < |tus| && LastWord(tus, i, tripId) && tus[i].routeId == Some(route)
  }

  ghost predicate LastWord(tus: seq<TripUpdate>, i: nat, tripId: string)
    requires i < |tus|
  {
    tus[i].tripId == tripId && Present(tus[i].routeId)
    && forall j :: i < j < |tus| && tus[j].tripId == tripId ==> !Present(tus[j].routeId)
  }

  lemma {:induction false} LiveRouteIff(tus: seq<TripUpdate>, tripId: string, route: string)
    ensures LiveRoute(tus, tripId, route) <==> tripId in LiveRoutes(tus) && LiveRoutes(tus)[tripId] == route
  {
    if tus != [] {
      var n := |tus| - 1;
      var before, last := tus[..n], tus[n];
      LiveRouteIff(before, tripId, route);
      if last.tripId == tripId && Present(last.routeId) {
        assert LastWord(tus, n, tripId);
      } else {
        forall i | 0 <= i < n ensures LastWord(tus, i, tripId) <==> LastWord(before, i, tripId) {
          assert forall j :: 0 <= j < n ==> before[j] == tus[j];
        }
        if LiveRoute(before, tripId, route) {
          var i :| 0 <= i < n && LastWord(before, i, tripId) && before[i].routeId == Some(route);
          assert LastWord(tus, i, tripId);
        }
        if LiveRoute(tus, tripId, route) {
          var i :| 0 <= i <= n && LastWord(tus, i, tripId) && tus[i].routeId == Some(route);
          assert LastWord(before, i, tripId);
        }
      }
    }
  }

  /** The static timetable's route of a trip. */
  predicate StaticRoute(input: Input, tripId: string, route: string) {
    tripId in input.tripToRouteId && input.tripToRouteId[tripId] == route
  }

  /** An informed entity names a route: itself, by its trip in the feed or in the timetable, or by its stop. */
  ghost predicate Reaches(input: Input, entity: Entity, route: string) {
    || (entity.routeId == Some(route) && route != "")
    || (Present(entity.tripId) && route != "" && LiveRoute(input.tripUpdates, entity.tripId.value, route))
    || (Present(entity.tripId) && route != "" && StaticRoute(input, entity.tripId.value, route))
    || (Present(entity.stopId) && entity.stopId.value in input.stopToRouteIds
        && route in input.stopToRouteIds[entity.stopId.value])
  }

  lemma AddOnceFacts(xs: seq<string>, x: string)
    ensures NoRepeats(xs) ==> NoRepeats(AddOnce(xs, x))
    ensures forall y :: y in AddOnce(xs, x) <==> y in xs || y == x
  {
  }

  lemma {:induction false} AddAllOnceFacts(xs: seq<string>, more: seq<string>)
    ensures NoRepeats(xs) ==> NoRepeats(AddAllOnce(xs, more))
    ensures forall y :: y in AddAllOnce(xs, more) <==> y in xs || y in more
  {
    if more != [] {
      AddAllOnceFacts(xs, more[..|more| - 1]);
      AddOnceFacts(AddAllOnce(xs, more[..|more| - 1]), more[|more| - 1]);
      assert more == more[..|more| - 1] + [more[|more| - 1]];
    }
  }

  lemma TripRouteFacts(input: Input, tripId: string, route: string)
    ensures Lookup(TripRoutes(input), tripId) == Some(route) ==>
      LiveRoute(input.tripUpdates, tripId, route) || StaticRoute(input, tripId, route)
    ensures LiveRoute(input.tripUpdates, tripId, route) ==> Lookup(TripRoutes(input), tripId) == Some(route)
    ensures StaticRoute(input, tripId, route) <==> Lookup(input.tripToRouteId, tripId) == Some(route)
  {
    LiveRouteIff(input.tripUpdates, tripId, route);
  }

  lemma EntityRoutesFacts(input: Input, xs: seq<string>, entity: Entity)
    ensures NoRepeats(xs) ==> NoRepeats(EntityRoutes(input, xs, entity))
    ensures forall route :: route in EntityRoutes(input, xs, entity) <==> route in xs || Reaches(input, entity, route)
  {
    var direct := if Present(entity.routeId) then AddOnce(xs, entity.routeId.value) else xs;
    if Present(entity.routeId) { AddOnceFacts(xs, entity.routeId.value); }
    var live := if Present(entity.tripId) then Lookup(TripRoutes(input), entity.tripId.value) else None;
    var withLive := if Present(live) then AddOnce(direct, live.value) else direct;
    if Present(live) { AddOnceFacts(direct, live.value); }
    var scheduled := if Present(entity.tripId) then Lookup(input.tripToRouteId, entity.tripId.value) else None;
    var withStatic := if Present(scheduled) then AddOnce(withLive, scheduled.value) else withLive;
    if Present(scheduled) { AddOnceFacts(withLive, scheduled.value); }
    if Present(entity.stopId) && entity.stopId.value in input.stopToRouteIds {
      AddAllOnceFacts(withStatic, input.stopToRouteIds[entity.stopId.value]);
    }
    forall route ensures route in EntityRoutes(input, xs, entity) <==> route in xs || Reaches(input, entity, route) {
      if Present(entity.tripId) { TripRouteFacts(input, entity.tripId.value, route); }
    }
  }

  ghost predicate ReachesSome(input: Input, entities: seq<Entity>, route: string) {
    exists i :: 0 <= i < |entities| && Reaches(input, entities[i], route)
  }

  lemma {:induction false} AlertRoutesExact(input: Input, entities: seq<Entity>)
    ensures NoRepeats(AlertRoutes(input, entities))
    ensures forall route :: route in AlertRoutes(input, entities) <==> ReachesSome(input, entities, route)
  {
    if entities != [] {
      var n := |entities| - 1;
      AlertRoutesExact(input, entities[..n]);
      EntityRoutesFacts(input, AlertRoutes(input, entities[..n]), entities[n]);
      forall route
        ensures ReachesSome(input, entities, route)
            <==> ReachesSome(input, entities[..n], route) || Reaches(input, entities[n], route) {
        if ReachesSome(input, entities[..n], route) {
          var i :| 0 <= i < n && Reaches(input, entities[..n][i], route);
          assert Reaches(input, entities[i], route);
        }
        if ReachesSome(input, entities, route) {
          var i :| 0 <= i <= n && Reaches(input, entities[i], route);
          assert i < n ==> Reaches(input, entities[..n][i], route);
        }
      }
    }
  }

  lemma {:induction false} RouteLinesExact(input: Input, routes: seq<string>)
    ensures NoRepeats(RouteLines(input, routes))
    ensures forall line :: line in RouteLines(input, routes)
              <==> exists i :: 0 <= i < |routes| && LineOf(input, routes[i]) == line
    ensures RouteLines(input, routes) == [] <==> routes == []
  {
    if routes != [] {
      var n := |routes| - 1;
      RouteLinesExact(input, routes[..n]);
      AddOnceFacts(RouteLines(input, routes[..n]), LineOf(input, routes[n]));
      assert forall i :: 0 <= i < n ==> routes[..n][i] == routes[i];
      forall line ensures line in RouteLines(input, routes)
          <==> exists i :: 0 <= i < |routes| && LineOf(input, routes[i]) == line {
        if i :| 0 <= i < |routes[..n]| && LineOf(input, routes[..n][i]) == line {
          assert LineOf(input, routes[i]) == line;
        }
        if i :| 0 <= i <= n && LineOf(input, routes[i]) == line {
          assert i < n ==> LineOf(input, routes[..n][i]) == line;
        }
      }
    }
  }

  function LineOf(input: Input, route: string): string { input.resolveLine(Some(route), None) }

  /** Some route an entity of the alert reaches resolves to the line. */
  ghost predicate ReachesLine(input: Input, a: Alert, line: string) {
    exists route :: ReachesSome(input, a.informedEntities, route) && LineOf(input, route) == line
  }

  /**
   * An alert is counted once for each line that some route reached by some entity resolves to, and for no other;
   * if no route is reached at all it is counted for NETWORK alone.
   */
  lemma AlertLinesExact(input: Input, a: Alert)
    ensures NoRepeats(AlertLines(input, a))
    ensures forall line :: line in AlertLines(input, a) <==>
      ReachesLine(input, a, line)
      || (line == "NETWORK" && forall route :: !ReachesSome(input, a.informedEntities, route))
  {
    var routes := AlertRoutes(input, a.informedEntities);
    AlertRoutesExact(input, a.informedEntities);
    RouteLinesExact(input, routes);
    forall line ensures line in RouteLines(input, routes) <==> ReachesLine(input, a, line) {
      if line in RouteLines(input, routes) {
        var i :| 0 <= i < |routes| && LineOf(input, routes[i]) == line;
        assert ReachesSome(input, a.informedEntities, routes[i]);
      }
      if ReachesLine(input, a, line) {
        var route :| ReachesSome(input, a.informedEntities, route) && LineOf(input, route) == line;
        var i :| 0 <= i < |routes| && routes[i] == route;
        assert LineOf(input, routes[i]) == line;
      }
    }
    if routes != [] {
      assert ReachesSome(input, a.informedEntities, routes[0]);
    } else {
      forall route ensures !ReachesSome(input, a.informedEntities, route) {
        assert route !in routes;
      }
    }
  }
}
