/** The static timetable merged into a trip's live stop-time updates. */
module StopTimeMerge {
  import opened Wrappers
  import Sorting

  datatype StaticStop = StaticStop(
    stopSequence: int, stopId: string, arrivalTime: Option<string>, departureTime: Option<string>,
    pickupType: Option<int>, dropOffType: Option<int>)

  datatype Update = Update(
    stopSequence: Option<int>, stopId: Option<string>, arrivalTime: Option<int>, departureTime: Option<int>,
    arrivalDelay: Option<int>, departureDelay: Option<int>, scheduleRelationship: Option<string>,
    pickupType: Option<int>, dropOffType: Option<int>)

  function InOrder(a: StaticStop, b: StaticStop): bool { a.stopSequence <= b.stopSequence }

  /** The last live update for a sequence number, as a map built in feed order keeps it; `|live|` if none. */
  function LastFor(live: seq<Update>, q: int): (i: nat)
    ensures i <= |live|
    ensures i < |live| ==> live[i].stopSequence == Some(q)
    ensures forall j :: 0 <= j < |live| && live[j].stopSequence == Some(q) ==> i < |live| && j <= i
  {
    if live == [] then 0
    else if live[|live| - 1].stopSequence == Some(q) then |live| - 1
    else
      var i := LastFor(live[..|live| - 1], q);
      if i == |live| - 1 then |live| else i
  }

  function Epoch(toEpoch: string -> Option<int>, time: Option<string>): Option<int> {
    if time.Some? && time.value != "" then toEpoch(time.value) else None
  }

  /** The entry for one static stop: its live update with the stopping pattern attached, or the timetable's own times. */
  function EntryFor(s: StaticStop, live: seq<Update>, toEpoch: string -> Option<int>): Update {
    var i := LastFor(live, s.stopSequence);
    if i < |live| then live[i].(pickupType := s.pickupType, dropOffType := s.dropOffType)
    else Update(Some(s.stopSequence), Some(s.stopId), Epoch(toEpoch, s.arrivalTime), Epoch(toEpoch, s.departureTime),
                None, None, Some("SCHEDULED"), s.pickupType, s.dropOffType)
  }

  predicate InTimetable(timetable: seq<StaticStop>, u: Update) {
    u.stopSequence.Some? && exists i :: 0 <= i < |timetable| && timetable[i].stopSequence == u.stopSequence.value
  }

  /** The live updates that no static stop accounts for. */
  function Extras(timetable: seq<StaticStop>, live: seq<Update>): seq<Update> {
    if live == [] then []
    else
      var before := Extras(timetable, live[..|live| - 1]);
      if InTimetable(timetable, live[|live| - 1]) then before else before + [live[|live| - 1]]
  }

  /** `None` is a timetable that could not be read; then, or if it is empty, the live updates are returned as they are. */
  function Enrich(timetable: Option<seq<StaticStop>>, live: seq<Update>, toEpoch: string -> Option<int>): seq<Update> {
    if timetable.None? || timetable.value == [] then live
    else
      var sorted := Sorting.Sort(timetable.value, InOrder);
      seq(|sorted|, i requires 0 <= i < |sorted| => EntryFor(sorted[i], live, toEpoch))
      + Extras(timetable.value, live)
  }

  ghost predicate SequencesDistinct(timetable: seq<StaticStop>) {
    forall i, j :: 0 <= i < j < |timetable| ==> timetable[i].stopSequence != timetable[j].stopSequence
  }

  lemma SortedStatic(timetable: seq<StaticStop>)
    requires SequencesDistinct(timetable)
    ensures var s := Sorting.Sort(timetable, InOrder);
            && (forall i, j :: 0 <= i < j < |s| ==> s[i].stopSequence < s[j].stopSequence)
            && (forall x :: x in s <==> x in timetable)
  {
    var s := Sorting.Sort(timetable, InOrder);
    Sorting.SortSorts(timetable, InOrder);
    Sorting.SortKeepsElements(timetable, InOrder);
    forall x ensures x in s <==> x in timetable {
      Sorting.SameMembers(s, timetable, x);
    }
    forall i, j | 0 <= i < j < |s| ensures s[i].stopSequence != s[j].stopSequence {
      TwoStops(s, timetable, i, j);
    }
  }

  lemma TwoStops(s: seq<StaticStop>, timetable: seq<StaticStop>, i: nat, j: nat)
    requires SequencesDistinct(timetable) && multiset(s) == multiset(timetable) && i < j < |s|
    ensures s[i].stopSequence != s[j].stopSequence
  {
    if s[i] == s[j] {
      assert s == s[..i] + [s[i]] + s[i + 1..j] + [s[j]] + s[j + 1..];
      assert multiset(s)[s[i]] >= 2;
      StopOnce(timetable, s[i]);
    } else {
      assert s[i] in multiset(s) && s[j] in multiset(s);
      assert s[i] in timetable && s[j] in timetable;
    }
  }

  lemma {:induction false} StopOnce(timetable: seq<StaticStop>, x: StaticStop)
    requires SequencesDistinct(timetable)
    ensures multiset(timetable)[x] <= 1
  {
    if timetable != [] {
      StopOnce(timetable[1..], x);
      assert timetable == [timetable[0]] + timetable[1..];
      assert x == timetable[0] ==> x !in timetable[1..];
    }
  }

  lemma {:induction false} ExtrasExact(timetable: seq<StaticStop>, live: seq<Update>)
    ensures forall u :: multiset(Extras(timetable, live))[u]
              == if InTimetable(timetable, u) then 0 else multiset(live)[u]
  {
    if live != [] {
      ExtrasExact(timetable, live[..|live| - 1]);
      assert live == live[..|live| - 1] + [live[|live| - 1]];
    }
  }

  /**
   * The merged list starts with one entry per static stop, in strictly increasing sequence and each for its
   * own stop; after them come exactly the live updates no static stop accounts for, as often as they were sent.
   */
  lemma MergeShape(timetable: seq<StaticStop>, live: seq<Update>, toEpoch: string -> Option<int>)
    requires timetable != [] && SequencesDistinct(timetable)
    ensures var out := Enrich(Some(timetable), live, toEpoch);
            && |out| == |timetable| + |Extras(timetable, live)|
            && (forall k :: 0 <= k < |timetable| ==> out[k].stopSequence.Some?)
            && (forall k, l :: 0 <= k < l < |timetable| ==> out[k].stopSequence.value < out[l].stopSequence.value)
            && (forall s :: s in timetable ==> exists k :: 0 <= k < |timetable| && out[k] == EntryFor(s, live, toEpoch))
            && (forall u :: multiset(out[|timetable|..])[u] == if InTimetable(timetable, u) then 0 else multiset(live)[u])
  {
    SortedStatic(timetable);
    var sorted := Sorting.Sort(timetable, InOrder);
    var out := Enrich(Some(timetable), live, toEpoch);
    forall k | 0 <= k < |timetable| ensures out[k] == EntryFor(sorted[k], live, toEpoch)
        && out[k].stopSequence == Some(sorted[k].stopSequence) {
    }
    forall s | s in timetable ensures exists k :: 0 <= k < |timetable| && out[k] == EntryFor(s, live, toEpoch) {
      assert s in sorted;
      var k :| 0 <= k < |sorted| && sorted[k] == s;
      assert out[k] == EntryFor(s, live, toEpoch);
    }
    assert out[|timetable|..] == Extras(timetable, live);
    ExtrasExact(timetable, live);
  }

  /** An output entry carries a live update: all of it but the stopping pattern, which the timetable decides. */
  predicate Carries(entry: Update, u: Update) {
    entry == u.(pickupType := entry.pickupType, dropOffType := entry.dropOffType)
  }

  /** A later update for the same static stop displaces an earlier one. */
  ghost predicate Displaced(timetable: seq<StaticStop>, live: seq<Update>, i: nat)
    requires i < |live|
  {
    InTimetable(timetable, live[i]) && exists j :: i < j < |live| && live[j].stopSequence == live[i].stopSequence
  }

  ghost predicate InOutput(out: seq<Update>, u: Update) {
    exists k :: 0 <= k < |out| && Carries(out[k], u)
  }

  lemma MatchedUpdateKept(timetable: seq<StaticStop>, live: seq<Update>, toEpoch: string -> Option<int>, i: nat)
    requires timetable != [] && SequencesDistinct(timetable) && i < |live|
    requires !Displaced(timetable, live, i) && InTimetable(timetable, live[i])
    ensures InOutput(Enrich(Some(timetable), live, toEpoch), live[i])
  {
    MergeShape(timetable, live, toEpoch);
    var out := Enrich(Some(timetable), live, toEpoch);
    var n :| 0 <= n < |timetable| && timetable[n].stopSequence == live[i].stopSequence.value;
    var s := timetable[n];
    assert s in timetable;
    var k :| 0 <= k < |timetable| && out[k] == EntryFor(s, live, toEpoch);
    assert LastFor(live, s.stopSequence) == i;
    assert Carries(out[k], live[i]);
  }

  lemma ExtraUpdateKept(timetable: seq<StaticStop>, live: seq<Update>, toEpoch: string -> Option<int>, i: nat)
    requires timetable != [] && i < |live| && !InTimetable(timetable, live[i])
    ensures InOutput(Enrich(Some(timetable), live, toEpoch), live[i])
  {
    var out, extras := Enrich(Some(timetable), live, toEpoch), Extras(timetable, live);
    ExtrasExact(timetable, live);
    assert live[i] in multiset(live);
    assert multiset(extras)[live[i]] > 0;
    var k :| 0 <= k < |extras| && extras[k] == live[i];
    assert Carries(out[|out| - |extras| + k], live[i]);
  }

  /** Unless displaced, a live update is in the output with its live fields intact. */
  lemma LiveUpdateKept(timetable: seq<StaticStop>, live: seq<Update>, toEpoch: string -> Option<int>, i: nat)
    requires timetable != [] && SequencesDistinct(timetable) && i < |live|
    requires !Displaced(timetable, live, i)
    ensures InOutput(Enrich(Some(timetable), live, toEpoch), live[i])
  {
    if InTimetable(timetable, live[i]) {
      MatchedUpdateKept(timetable, live, toEpoch, i);
    } else {
      ExtraUpdateKept(timetable, live, toEpoch, i);
    }
  }

  // ----- counting what is kept -----

  /** Positions of live updates that belong to a static stop. */
  ghost function Matched(timetable: seq<StaticStop>, live: seq<Update>): set<nat> {
    set i: nat | i < |live| && InTimetable(timetable, live[i])
  }

  /** The entry of one of these stops is made from live update `i`. */
  ghost predicate UsedBy(stops: seq<StaticStop>, live: seq<Update>, i: nat) {
    exists k: nat :: k < |stops| && UsedAt(stops[k], live, i)
  }

  ghost predicate UsedAt(stop: StaticStop, live: seq<Update>, i: nat) {
    LastFor(live, stop.stopSequence) == i
  }

  ghost function Used(stops: seq<StaticStop>, live: seq<Update>): set<nat> {
    set i: nat | i < |live| && UsedBy(stops, live, i)
  }

  /** How many entries of the output were made from a live update. */
  function EntriesFromLive(stops: seq<StaticStop>, live: seq<Update>): nat {
    if stops == [] then 0
    else
      EntriesFromLive(stops[..|stops| - 1], live)
      + (if LastFor(live, stops[|stops| - 1].stopSequence) < |live| then 1 else 0)
  }

  lemma {:induction false} ExtrasLength(timetable: seq<StaticStop>, live: seq<Update>)
    ensures |Extras(timetable, live)| + |Matched(timetable, live)| == |live|
  {
    if live == [] {
      assert Matched(timetable, live) == {};
    } else {
      var before := live[..|live| - 1];
      ExtrasLength(timetable, before);
      var last: nat := |live| - 1;
      assert Matched(timetable, live)
          == Matched(timetable, before) + (if InTimetable(timetable, live[last]) then {last} else {});
    }
  }

  /** One more stop uses one more live update, if there is one for it. */
  lemma UsedByOneMore(stops: seq<StaticStop>, live: seq<Update>, i: nat)
    requires stops != []
    ensures UsedBy(stops, live, i)
            <==> UsedBy(stops[..|stops| - 1], live, i) || UsedAt(stops[|stops| - 1], live, i)
  {
    var before := stops[..|stops| - 1];
    if UsedBy(before, live, i) {
      var k: nat :| k < |before| && UsedAt(before[k], live, i);
      assert UsedAt(stops[k], live, i);
    }
    if UsedBy(stops, live, i) {
      var k: nat :| k < |stops| && UsedAt(stops[k], live, i);
      assert k < |before| ==> UsedAt(before[k], live, i);
    }
  }

  lemma LastForDistinct(live: seq<Update>, p: int, q: int)
    requires p != q && LastFor(live, p) == LastFor(live, q)
    ensures LastFor(live, p) == |live|
  {
  }

  lemma UsedOnce(stops: seq<StaticStop>, live: seq<Update>, i: nat)
    requires SequencesDistinct(stops) && stops != [] && i < |live| && UsedAt(stops[|stops| - 1], live, i)
    ensures !UsedBy(stops[..|stops| - 1], live, i)
  {
    var before := stops[..|stops| - 1];
    forall k: nat | k < |before| ensures !UsedAt(before[k], live, i) {
      assert before[k] == stops[k];
      if UsedAt(before[k], live, i) {
        LastForDistinct(live, stops[k].stopSequence, stops[|stops| - 1].stopSequence);
        assert false;
      }
    }
  }

  lemma UsedStep(stops: seq<StaticStop>, live: seq<Update>)
    requires SequencesDistinct(stops) && stops != []
    ensures |Used(stops, live)|
            == |Used(stops[..|stops| - 1], live)| + (if LastFor(live, stops[|stops| - 1].stopSequence) < |live| then 1 else 0)
  {
    var before := Used(stops[..|stops| - 1], live);
    var at := LastFor(live, stops[|stops| - 1].stopSequence);
    forall i: nat | i < |live| ensures i in Used(stops, live) <==> i in before || i == at {
      UsedByOneMore(stops, live, i);
    }
    if at < |live| {
      UsedOnce(stops, live, at);
      OneMore(Used(stops, live), before, at);
    } else {
      assert Used(stops, live) == before;
    }
  }

  lemma OneMore(larger: set<nat>, smaller: set<nat>, at: nat)
    requires at !in smaller && at in larger && forall i: nat :: i != at ==> (i in larger <==> i in smaller)
    ensures |larger| == |smaller| + 1
  {
    assert larger == smaller + {at};
  }

  lemma {:induction false} UsedCount(stops: seq<StaticStop>, live: seq<Update>)
    requires SequencesDistinct(stops)
    ensures |Used(stops, live)| == EntriesFromLive(stops, live)
  {
    if stops == [] {
      assert Used(stops, live) == {};
    } else {
      UsedCount(stops[..|stops| - 1], live);
      UsedStep(stops, live);
    }
  }

  lemma UsedExact(timetable: seq<StaticStop>, live: seq<Update>, i: nat)
    requires i < |live|
    ensures i in Used(timetable, live) <==> i in Matched(timetable, live) && !Displaced(timetable, live, i)
  {
    if UsedBy(timetable, live, i) {
      var k: nat :| k < |timetable| && UsedAt(timetable[k], live, i);
      assert LastFor(live, timetable[k].stopSequence) == i;
    }
    if InTimetable(timetable, live[i]) && !Displaced(timetable, live, i) {
      var k :| 0 <= k < |timetable| && timetable[k].stopSequence == live[i].stopSequence.value;
      var n: nat := k;
      assert UsedAt(timetable[n], live, i);
    }
  }

  ghost predicate NoneDisplaced(timetable: seq<StaticStop>, live: seq<Update>) {
    forall i: nat :: i < |live| ==> !Displaced(timetable, live, i)
  }

  lemma UsedAmongMatched(timetable: seq<StaticStop>, live: seq<Update>)
    ensures Used(timetable, live) <= Matched(timetable, live)
    ensures Used(timetable, live) == Matched(timetable, live) <==> NoneDisplaced(timetable, live)
  {
    forall i: nat | i < |live|
      ensures i in Used(timetable, live) <==> i in Matched(timetable, live) && !Displaced(timetable, live, i) {
      UsedExact(timetable, live, i);
    }
    if !NoneDisplaced(timetable, live) {
      var i: nat :| i < |live| && Displaced(timetable, live, i);
      assert i in Matched(timetable, live) && i !in Used(timetable, live);
    }
  }

  lemma SubsetSize(a: set<nat>, b: set<nat>)
    requires a <= b
    ensures |a| <= |b| && (|a| == |b| <==> a == b)
  {
    assert b == a + (b - a);
    assert |b| == |a| + |b - a|;
  }

  /** An output entry that some live update of the same sequence went into. */
  ghost predicate FromLive(entry: Update, live: seq<Update>) {
    exists i :: 0 <= i < |live| && live[i].stopSequence == entry.stopSequence && Carries(entry, live[i])
  }

  /** How many entries of an output were made from a live update. */
  ghost function CountFromLive(out: seq<Update>, live: seq<Update>): nat {
    if out == [] then 0
    else CountFromLive(out[..|out| - 1], live) + (if FromLive(out[|out| - 1], live) then 1 else 0)
  }

  lemma {:induction false} CountConcat(a: seq<Update>, b: seq<Update>, live: seq<Update>)
    ensures CountFromLive(a + b, live) == CountFromLive(a, live) + CountFromLive(b, live)
  {
    if b == [] {
      assert a + b == a;
    } else {
      assert (a + b)[..|a + b| - 1] == a + b[..|b| - 1];
      CountConcat(a, b[..|b| - 1], live);
    }
  }

  lemma {:induction false} CountAllLive(out: seq<Update>, live: seq<Update>)
    requires forall u :: u in out ==> u in live
    ensures CountFromLive(out, live) == |out|
  {
    if out != [] {
      CountAllLive(out[..|out| - 1], live);
      var last := out[|out| - 1];
      assert last in live;
      var i :| 0 <= i < |live| && live[i] == last;
      assert Carries(last, live[i]);
    }
  }

  lemma EntryFromLiveIff(s: StaticStop, live: seq<Update>, toEpoch: string -> Option<int>)
    ensures FromLive(EntryFor(s, live, toEpoch), live) <==> LastFor(live, s.stopSequence) < |live|
  {
    var i := LastFor(live, s.stopSequence);
    if i < |live| {
      assert Carries(EntryFor(s, live, toEpoch), live[i]);
    }
  }

  lemma {:induction false} CountEntries(stops: seq<StaticStop>, entries: seq<Update>, live: seq<Update>,
                                        toEpoch: string -> Option<int>)
    requires |entries| == |stops| && forall i :: 0 <= i < |stops| ==> entries[i] == EntryFor(stops[i], live, toEpoch)
    ensures CountFromLive(entries, live) == EntriesFromLive(stops, live)
  {
    if stops != [] {
      var n := |stops| - 1;
      CountEntries(stops[..n], entries[..n], live, toEpoch);
      EntryFromLiveIff(stops[n], live, toEpoch);
    }
  }

  lemma {:induction false} ExtrasAreLive(timetable: seq<StaticStop>, live: seq<Update>)
    ensures forall u :: u in Extras(timetable, live) ==> u in live
  {
    if live != [] {
      ExtrasAreLive(timetable, live[..|live| - 1]);
    }
  }

  /** The entries of the merged list made from a live update, counted part by part. */
  lemma CountMerged(timetable: seq<StaticStop>, live: seq<Update>, toEpoch: string -> Option<int>)
    requires timetable != []
    ensures CountFromLive(Enrich(Some(timetable), live, toEpoch), live)
            == EntriesFromLive(Sorting.Sort(timetable, InOrder), live) + |Extras(timetable, live)|
  {
    var sorted := Sorting.Sort(timetable, InOrder);
    var out, extras := Enrich(Some(timetable), live, toEpoch), Extras(timetable, live);
    var entries := out[..|sorted|];
    assert out == entries + extras;
    CountConcat(entries, extras, live);
    CountEntries(sorted, entries, live, toEpoch);
    ExtrasAreLive(timetable, live);
    CountAllLive(extras, live);
  }

  lemma SameStops(a: seq<StaticStop>, b: seq<StaticStop>, u: Update)
    requires forall x :: x in a <==> x in b
    ensures InTimetable(a, u) <==> InTimetable(b, u)
  {
    if InTimetable(a, u) {
      var i :| 0 <= i < |a| && a[i].stopSequence == u.stopSequence.value;
      assert a[i] in b;
    }
    if InTimetable(b, u) {
      var i :| 0 <= i < |b| && b[i].stopSequence == u.stopSequence.value;
      assert b[i] in a;
    }
  }

  lemma SameMatches(a: seq<StaticStop>, b: seq<StaticStop>, live: seq<Update>)
    requires forall x :: x in a <==> x in b
    ensures Matched(a, live) == Matched(b, live)
    ensures NoneDisplaced(a, live) <==> NoneDisplaced(b, live)
  {
    forall u ensures InTimetable(a, u) <==> InTimetable(b, u) {
      SameStops(a, b, u);
    }
    assert forall i: nat :: i < |live| ==> (Displaced(a, live, i) <==> Displaced(b, live, i));
  }

  /**
   * The merged list has as many entries made from live updates as updates were sent exactly when none displaces
   * another: no two updates name the same static stop. It never has more.
   */
  lemma LosslessIff(timetable: seq<StaticStop>, live: seq<Update>, toEpoch: string -> Option<int>)
    requires SequencesDistinct(timetable)
    ensures CountFromLive(Enrich(Some(timetable), live, toEpoch), live) <= |live|
    ensures CountFromLive(Enrich(Some(timetable), live, toEpoch), live) == |live| <==> NoneDisplaced(timetable, live)
  {
    if timetable == [] {
      CountAllLive(live, live);
    } else {
      var sorted := Sorting.Sort(timetable, InOrder);
      SortedStatic(timetable);
      CountMerged(timetable, live, toEpoch);
      ExtrasLength(timetable, live);
      UsedCount(sorted, live);
      UsedAmongMatched(sorted, live);
      SameMatches(sorted, timetable, live);
      SubsetSize(Used(sorted, live), Matched(sorted, live));
    }
  }

  // ----- the entries in figures -----

  /** The entry a static stop gets: the last update sent for it with the timetable's stopping pattern, else the timetable's own times. */
  ghost predicate Shows(s: StaticStop, live: seq<Update>, toEpoch: string -> Option<int>, e: Update) {
    if forall u :: u in live ==> u.stopSequence != Some(s.stopSequence) then
      && e.stopSequence == Some(s.stopSequence) && e.stopId == Some(s.stopId)
      && e.scheduleRelationship == Some("SCHEDULED") && e.arrivalDelay.None? && e.departureDelay.None?
      && e.pickupType == s.pickupType && e.dropOffType == s.dropOffType
      && e.arrivalTime == (if s.arrivalTime.None? || s.arrivalTime.value == "" then None else toEpoch(s.arrivalTime.value))
      && e.departureTime
         == (if s.departureTime.None? || s.departureTime.value == "" then None else toEpoch(s.departureTime.value))
    else
      exists i ::
        && 0 <= i < |live| && live[i].stopSequence == Some(s.stopSequence)
        && (forall j :: i < j < |live| ==> live[j].stopSequence != Some(s.stopSequence))
        && e == live[i].(pickupType := s.pickupType, dropOffType := s.dropOffType)
  }

  lemma EntryShows(s: StaticStop, live: seq<Update>, toEpoch: string -> Option<int>)
    ensures Shows(s, live, toEpoch, EntryFor(s, live, toEpoch))
  {
    if u :| u in live && u.stopSequence == Some(s.stopSequence) {
      var j :| 0 <= j < |live| && live[j] == u;
    }
  }

  /** No static stop has the update's sequence, or it has none. */
  ghost predicate NoStopFor(timetable: seq<StaticStop>, u: Update) {
    forall s :: s in timetable ==> u.stopSequence != Some(s.stopSequence)
  }

  lemma NoStopIff(timetable: seq<StaticStop>, u: Update)
    ensures NoStopFor(timetable, u) <==> !InTimetable(timetable, u)
  {
    if s :| s in timetable && u.stopSequence == Some(s.stopSequence) {
      var i :| 0 <= i < |timetable| && timetable[i] == s;
    }
    if i :| u.stopSequence.Some? && 0 <= i < |timetable| && timetable[i].stopSequence == u.stopSequence.value {
      assert timetable[i] in timetable;
    }
  }

  /** `rest` lists, in feed order, the updates no static stop accounts for. */
  predicate Unaccounted(timetable: seq<StaticStop>, live: seq<Update>, rest: seq<Update>) {
    if live == [] then rest == []
    else
      var last := live[|live| - 1];
      if exists s :: s in timetable && last.stopSequence == Some(s.stopSequence)
      then Unaccounted(timetable, live[..|live| - 1], rest)
      else rest != [] && rest[|rest| - 1] == last && Unaccounted(timetable, live[..|live| - 1], rest[..|rest| - 1])
  }

  lemma {:induction false} ExtrasUnaccounted(timetable: seq<StaticStop>, live: seq<Update>)
    ensures Unaccounted(timetable, live, Extras(timetable, live))
  {
    if live != [] {
      var before, last := Extras(timetable, live[..|live| - 1]), live[|live| - 1];
      ExtrasUnaccounted(timetable, live[..|live| - 1]);
      NoStopIff(timetable, last);
      assert (before + [last])[..|before|] == before;
    }
  }

  /**
   * What a caller gets: the live updates alone without a readable timetable; otherwise an entry for every static stop, in
   * sequence order, and then the updates that belong to none, in feed order.
   */
  lemma MergeSays(timetable: Option<seq<StaticStop>>, live: seq<Update>, toEpoch: string -> Option<int>)
    returns (stops: seq<StaticStop>, rest: seq<Update>)
    ensures timetable.None? || timetable.value == [] ==> Enrich(timetable, live, toEpoch) == live
    ensures timetable.Some? && timetable.value != [] ==>
      && multiset(stops) == multiset(timetable.value) && Unaccounted(timetable.value, live, rest)
      && (forall i, j :: 0 <= i < j < |stops| ==> stops[i].stopSequence <= stops[j].stopSequence)
      && var out := Enrich(timetable, live, toEpoch);
         && |out| == |stops| + |rest| && out[|stops|..] == rest
         && forall k :: 0 <= k < |stops| ==> Shows(stops[k], live, toEpoch, out[k])
  {
    stops, rest := [], [];
    if timetable.Some? && timetable.value != [] {
      stops, rest := Sorting.Sort(timetable.value, InOrder), Extras(timetable.value, live);
      Sorting.SortSorts(timetable.value, InOrder);
      Sorting.SortKeepsElements(timetable.value, InOrder);
      ExtrasUnaccounted(timetable.value, live);
      forall i, j | 0 <= i < j < |stops| ensures stops[i].stopSequence <= stops[j].stopSequence {
        assert InOrder(stops[i], stops[j]);
      }
      forall k | 0 <= k < |stops| ensures Shows(stops[k], live, toEpoch, Enrich(timetable, live, toEpoch)[k]) {
        EntryShows(stops[k], live, toEpoch);
      }
    }
  }
}
