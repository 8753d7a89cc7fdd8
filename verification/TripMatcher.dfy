/** The layered matcher that finds the realtime entity of a scheduled trip. */
module TripMatcher {
  import opened Wrappers

  datatype FirstStop = FirstStop(
    departureTime: Option<int>, departureDelay: Option<int>, arrivalTime: Option<int>, arrivalDelay: Option<int>)

  datatype Item = Item(
    tripId: Option<string>, routeId: Option<string>, directionId: Option<int>,
    startDate: Option<string>, startTime: Option<string>, first: Option<FirstStop>)

  datatype Reference = Reference(
    scheduledTripId: Option<string>, routeId: Option<string>, startDate: Option<string>,
    startTime: Option<string>, directionId: Option<int>)

  /**
   * Text interpretation the matcher relies on: the line badge of a route, the seconds in a clock text (`None`
   * if it is not one), and the epoch seconds a local start may mean (one for each offset, none if unreadable).
   */
  datatype Reading = Reading(
    line: string -> string,
    clock: string -> Option<int>,
    starts: (Option<string>, Option<string>) -> seq<int>)

  function Upper(c: char): char { if 'a' <= c <= 'z' then c - 'a' + 'A' else c }

  predicate IsAlphanumeric(c: char) { 'A' <= c <= 'Z' || '0' <= c <= '9' }

  function Normalised(id: string): string {
    if id == "" then ""
    else (if IsAlphanumeric(Upper(id[0])) then [Upper(id[0])] else []) + Normalised(id[1..])
  }

  function NonEmpty(id: Option<string>): seq<string> {
    if id.Some? && id.value != "" then [id.value] else []
  }

  function ExactIds(tripId: string, reference: Reference): seq<string> {
    NonEmpty(Some(tripId)) + NonEmpty(reference.scheduledTripId)
  }

  predicate IsExact(item: Item, tripId: string, reference: Reference) {
    item.tripId.Some? && item.tripId.value in ExactIds(tripId, reference)
  }

  predicate OnePrefixesTheOther(a: string, b: string) { a <= b || b <= a }

  predicate IsSimilar(item: Item, tripId: string, reference: Reference) {
    && item.tripId.Some?
    && |Normalised(item.tripId.value)| >= 6
    && exists id :: id in ExactIds(tripId, reference) && Normalised(id) != ""
                    && OnePrefixesTheOther(Normalised(id), Normalised(item.tripId.value))
  }

  predicate SameService(item: Item, reference: Reference, reading: Reading) {
    && reference.routeId.Some? && reference.routeId.value != ""
    && item.routeId.Some? && reading.line(item.routeId.value) == reading.line(reference.routeId.value)
    && (reference.directionId.None? || item.directionId.None? || item.directionId == reference.directionId)
  }

  function Distance(a: int, b: int): nat { if a < b then b - a else a - b }

  predicate TimesWithin(a: Option<string>, b: Option<string>, tolerance: nat, reading: Reading) {
    if a.None? || b.None? then a == b
    else
      var x, y := reading.clock(a.value), reading.clock(b.value);
      x.Some? && y.Some? && Distance(x.value, y.value) <= tolerance
  }

  predicate SameStart(item: Item, reference: Reference, reading: Reading) {
    && reference.startDate.Some? && item.startDate == reference.startDate
    && TimesWithin(item.startTime, reference.startTime, 180, reading)
  }

  function OrZero(x: Option<int>): int { if x.Some? then x.value else 0 }

  /** The first stop's scheduled time: the live one less its delay. */
  function ScheduledFirst(item: Item): Option<int> {
    if item.first.None? then None
    else if item.first.value.departureTime.Some? then
      Some(item.first.value.departureTime.value - OrZero(item.first.value.departureDelay))
    else if item.first.value.arrivalTime.Some? then
      Some(item.first.value.arrivalTime.value - OrZero(item.first.value.arrivalDelay))
    else None
  }

  predicate SameFingerprint(item: Item, reference: Reference, reading: Reading) {
    && ScheduledFirst(item).Some?
    && exists e :: e in reading.starts(reference.startDate, reference.startTime)
                   && Distance(ScheduledFirst(item).value, e) <= 120
  }

  /** 1 is the best match; `NO_TIER` is none. */
  const NO_TIER: nat := 5

  function Tier(item: Item, tripId: string, reference: Reference, reading: Reading): (t: nat)
    ensures 1 <= t <= NO_TIER
  {
    if IsExact(item, tripId, reference) then 1
    else if IsSimilar(item, tripId, reference) then 2
    else if !SameService(item, reference, reading) then NO_TIER
    else if SameStart(item, reference, reading) then 3
    else if SameFingerprint(item, reference, reading) then 4
    else NO_TIER
  }

  /** Position `i` holds the first of the items that match best. */
  ghost predicate FirstBest(items: seq<Item>, i: nat, tripId: string, reference: Reference, reading: Reading) {
    && i < |items| && Tier(items[i], tripId, reference, reading) < NO_TIER
    && (forall j :: 0 <= j < |items| ==>
          Tier(items[i], tripId, reference, reading) <= Tier(items[j], tripId, reference, reading))
    && (forall j :: 0 <= j < i ==>
          Tier(items[i], tripId, reference, reading) < Tier(items[j], tripId, reference, reading))
  }

  predicate Unmatched(items: seq<Item>, tripId: string, reference: Reference, reading: Reading) {
    forall j :: 0 <= j < |items| ==> Tier(items[j], tripId, reference, reading) == NO_TIER
  }

  /** The scan stops early at an exact id; the answer is still the first best item of the whole list. */
  method FindRealtimeMatch(items: seq<Item>, tripId: string, reference: Reference, reading: Reading)
    returns (best: Option<Item>)
    ensures best.None? <==> Unmatched(items, tripId, reference, reading)
    ensures best.Some? ==> exists i: nat :: FirstBest(items, i, tripId, reference, reading) && items[i] == best.value
  {
    best := None;
    var bestTier: nat := NO_TIER;
    ghost var at: nat := 0;
    var i := 0;
    while i < |items|
      invariant 0 <= i <= |items|
      invariant best.None? ==> bestTier == NO_TIER && Unmatched(items[..i], tripId, reference, reading)
      invariant best.Some? ==> FirstBest(items[..i], at, tripId, reference, reading)
      invariant best.Some? ==> best.value == items[at] && bestTier == Tier(items[at], tripId, reference, reading)
    {
      var tier := Tier(items[i], tripId, reference, reading);
      assert items[..i + 1] == items[..i] + [items[i]];
      if tier < bestTier {
        best, bestTier, at := Some(items[i]), tier, i;
        if tier == 1 {
          forall j | 0 <= j < i ensures 1 < Tier(items[j], tripId, reference, reading) {
            assert items[j] == items[..i][j];
          }
          assert FirstBest(items, i, tripId, reference, reading);
          return;
        }
      }
      i := i + 1;
    }
    assert items[..|items|] == items;
  }

  /** An exact id is never lost to a looser match, wherever in the feed it appears. */
  lemma ExactIdWins(items: seq<Item>, i: nat, k: nat, tripId: string, reference: Reference, reading: Reading)
    requires FirstBest(items, i, tripId, reference, reading)
    requires k < |items| && IsExact(items[k], tripId, reference)
    ensures IsExact(items[i], tripId, reference) && i <= k
  {
    assert Tier(items[k], tripId, reference, reading) == 1;
    assert Tier(items[i], tripId, reference, reading) <= Tier(items[k], tripId, reference, reading);
  }

  /** More feed items never make the match worse, and replace it only by a strictly better tier. */
  lemma MoreItems(items: seq<Item>, more: seq<Item>, i: nat, k: nat, tripId: string, reference: Reference, reading: Reading)
    requires FirstBest(items, i, tripId, reference, reading)
    requires FirstBest(items + more, k, tripId, reference, reading)
    ensures k == i
         || Tier((items + more)[k], tripId, reference, reading) < Tier(items[i], tripId, reference, reading)
  {
    var all := items + more;
    assert all[i] == items[i];
    assert Tier(all[k], tripId, reference, reading) <= Tier(all[i], tripId, reference, reading);
    assert k < |items| ==> all[k] == items[k];
  }

  /**
   * With a single reference id, an item without the exact id is a second-tier match exactly when its normalised id
   * has six characters or more and one of the two normalised ids begins with the other.
   */
  lemma SimilarIff(item: Item, tripId: string, reference: Reference, reading: Reading)
    requires item.tripId.Some? && reference.scheduledTripId.None? && item.tripId.value != tripId
    ensures Tier(item, tripId, reference, reading) == 2
            <==> && |Normalised(item.tripId.value)| >= 6 && Normalised(tripId) != ""
                 && OnePrefixesTheOther(Normalised(tripId), Normalised(item.tripId.value))
  {
    assert Normalised("") == "";
    if tripId != "" {
      assert tripId in ExactIds(tripId, reference);
    }
  }

  /** The six characters are asked of the item's id alone: a shorter reference id still takes every item that continues it. */
  lemma ShortReferenceIsSimilar(item: Item, tripId: string, reference: Reference, reading: Reading)
    requires Normalised(tripId) != ""
    requires item.tripId.Some? && |Normalised(item.tripId.value)| >= 6
    requires Normalised(tripId) <= Normalised(item.tripId.value)
    ensures Tier(item, tripId, reference, reading) <= 2
  {
    assert tripId in ExactIds(tripId, reference);
    assert OnePrefixesTheOther(Normalised(tripId), Normalised(item.tripId.value));
  }

  // ----- the four tiers in figures -----

  /** `out` is `id` in capitals, without anything but ASCII letters and digits. */
  predicate Squeezed(id: string, out: string) {
    if id == "" then out == ""
    else
      var c := if 'a' <= id[0] <= 'z' then id[0] - 'a' + 'A' else id[0];
      if ('A' <= c && c <= 'Z') || ('0' <= c && c <= '9') then out != "" && out[0] == c && Squeezed(id[1..], out[1..])
      else Squeezed(id[1..], out)
  }

  lemma {:induction false} SqueezedIff(id: string, out: string)
    ensures Squeezed(id, out) <==> out == Normalised(id)
  {
    if id != "" {
      var c := Upper(id[0]);
      if IsAlphanumeric(c) {
        if out != "" {
          SqueezedIff(id[1..], out[1..]);
          assert out == [out[0]] + out[1..];
          assert ([c] + Normalised(id[1..]))[1..] == Normalised(id[1..]);
        }
      } else {
        SqueezedIff(id[1..], out);
      }
    }
  }

  predicate RefersTo(tripId: string, reference: Reference, id: string) {
    id != "" && (id == tripId || reference.scheduledTripId == Some(id))
  }

  /** The requested id or the scheduled one. */
  predicate SameId(item: Item, tripId: string, reference: Reference) {
    item.tripId.Some? && RefersTo(tripId, reference, item.tripId.value)
  }

  /** One squeezed id begins with the other, and the item's has six characters. */
  ghost predicate ClearlyAlike(id: string, itemId: string) {
    exists a, b :: Squeezed(id, a) && Squeezed(itemId, b) && a != "" && |b| >= 6 && (a <= b || b <= a)
  }

  ghost predicate SimilarId(item: Item, tripId: string, reference: Reference) {
    item.tripId.Some? && exists id :: RefersTo(tripId, reference, id) && ClearlyAlike(id, item.tripId.value)
  }

  /** The same line badge, and no two directions that differ. */
  predicate SameLineAndDirection(item: Item, reference: Reference, reading: Reading) {
    && reference.routeId.Some? && reference.routeId.value != "" && item.routeId.Some?
    && reading.line(item.routeId.value) == reading.line(reference.routeId.value)
    && (reference.directionId.Some? && item.directionId.Some? ==> reference.directionId.value == item.directionId.value)
  }

  /** The same start date, and start times at most three minutes apart or absent on both sides. */
  predicate SameDateAndStart(item: Item, reference: Reference, reading: Reading) {
    && reference.startDate.Some? && item.startDate == reference.startDate
    && ((item.startTime.None? && reference.startTime.None?)
        || (item.startTime.Some? && reference.startTime.Some?
            && reading.clock(item.startTime.value).Some? && reading.clock(reference.startTime.value).Some?
            && var apart := reading.clock(item.startTime.value).value - reading.clock(reference.startTime.value).value;
               -180 <= apart <= 180))
  }

  /** The first stop is timed by its departure, else its arrival, less the delay of that one. */
  predicate FirstStopDue(item: Item, due: int) {
    item.first.Some? &&
    var stop := item.first.value;
    if stop.departureTime.Some? then
      due == stop.departureTime.value - (if stop.departureDelay.Some? then stop.departureDelay.value else 0)
    else
      stop.arrivalTime.Some?
      && due == stop.arrivalTime.value - (if stop.arrivalDelay.Some? then stop.arrivalDelay.value else 0)
  }

  /** The first stop is due at most two minutes from one of the instants the reference's start may mean. */
  ghost predicate FirstStopNear(item: Item, reference: Reference, reading: Reading) {
    exists due, start :: FirstStopDue(item, due) && start in reading.starts(reference.startDate, reference.startTime)
                         && -120 <= due - start <= 120
  }

  lemma SameIdIff(item: Item, tripId: string, reference: Reference)
    ensures IsExact(item, tripId, reference) <==> SameId(item, tripId, reference)
    ensures forall id :: id in ExactIds(tripId, reference) <==> RefersTo(tripId, reference, id)
  {
  }

  lemma AlikeIff(id: string, itemId: string)
    ensures ClearlyAlike(id, itemId)
            <==> Normalised(id) != "" && |Normalised(itemId)| >= 6 && OnePrefixesTheOther(Normalised(id), Normalised(itemId))
  {
    SqueezedIff(id, Normalised(id));
    SqueezedIff(itemId, Normalised(itemId));
    if a, b :| Squeezed(id, a) && Squeezed(itemId, b) && a != "" && |b| >= 6 && (a <= b || b <= a) {
      SqueezedIff(id, a);
      SqueezedIff(itemId, b);
    }
  }

  lemma SimilarIdIff(item: Item, tripId: string, reference: Reference)
    ensures IsSimilar(item, tripId, reference) <==> SimilarId(item, tripId, reference)
  {
    SameIdIff(item, tripId, reference);
    if item.tripId.Some? {
      forall id ensures ClearlyAlike(id, item.tripId.value)
        <==> Normalised(id) != "" && |Normalised(item.tripId.value)| >= 6
             && OnePrefixesTheOther(Normalised(id), Normalised(item.tripId.value)) {
        AlikeIff(id, item.tripId.value);
      }
    }
  }

  lemma FirstStopNearIff(item: Item, reference: Reference, reading: Reading)
    ensures SameFingerprint(item, reference, reading) <==> FirstStopNear(item, reference, reading)
  {
    if SameFingerprint(item, reference, reading) {
      var due := ScheduledFirst(item).value;
      var start :| start in reading.starts(reference.startDate, reference.startTime) && Distance(due, start) <= 120;
      assert FirstStopDue(item, due) && -120 <= due - start <= 120;
    }
  }

  /**
   * The tiers: the id itself; an alike id; the same line with the same date and start within 180 seconds; the same line with
   * the first stop within 120 seconds of the start. Each only where none before it holds.
   */
  lemma TierSays(item: Item, tripId: string, reference: Reference, reading: Reading)
    ensures var tier, line := Tier(item, tripId, reference, reading), SameLineAndDirection(item, reference, reading);
            && (tier == 1 <==> SameId(item, tripId, reference))
            && (tier <= 2 <==> SameId(item, tripId, reference) || SimilarId(item, tripId, reference))
            && (tier <= 3 <==> tier <= 2 || (line && SameDateAndStart(item, reference, reading)))
            && (tier <= 4 <==> tier <= 3 || (line && FirstStopNear(item, reference, reading)))
  {
    SameIdIff(item, tripId, reference);
    SimilarIdIff(item, tripId, reference);
    FirstStopNearIff(item, reference, reading);
    assert SameService(item, reference, reading) <==> SameLineAndDirection(item, reference, reading);
    assert SameStart(item, reference, reading) <==> SameDateAndStart(item, reference, reading);
  }
}
