/**
 * Samples, pruning and rebuilds in any order: what a daily row holds at every moment, and exactly when that is the sum
 * of everything that was ever stored for it.
 */
module RollupRuns {
  import opened Wrappers
  import opened SnapshotRow
  import opened DailyRollup
  import opened BackfillRange

  /** A snapshot that was stored, and whether it has been pruned since. */
  datatype Entry = Entry(at: int, snapshot: Snapshot, pruned: bool)

  /** `log` lists all that was ever stored; the snapshot table is what is left of it. */
  datatype World = World(log: seq<Entry>, daily: Table)

  datatype Step =
    | Store(day: string, rows: seq<Row>, now: int)
    | Rebuild(from: Option<int>, to: Option<int>)

  function Entries(now: int, snaps: seq<Snapshot>): seq<Entry> {
    seq(|snaps|, i requires 0 <= i < |snaps| => Entry(now, snaps[i], false))
  }

  function Pruned(log: seq<Entry>, now: int): seq<Entry> {
    seq(|log|, i requires 0 <= i < |log| => log[i].(pruned := log[i].pruned || log[i].at < now - RETENTION_MS))
  }

  function Stored(log: seq<Entry>): seq<Captured> {
    if log == [] then []
    else
      var last := log[|log| - 1];
      Stored(log[..|log| - 1]) + (if last.pruned then [] else [Captured(last.at, last.snapshot)])
  }

  predicate Within(at: int, from: Option<int>, to: Option<int>) {
    (from.Some? ==> from.value <= at) && (to.Some? ==> at <= to.value)
  }

  predicate Reads(e: Entry, from: Option<int>, to: Option<int>) { !e.pruned && Within(e.at, from, to) }

  /** What a rebuild selects. */
  function Selected(log: seq<Entry>, from: Option<int>, to: Option<int>): seq<Snapshot> {
    if log == [] then []
    else
      var last := log[|log| - 1];
      Selected(log[..|log| - 1], from, to) + (if Reads(last, from, to) then [last.snapshot] else [])
  }

  /** What it misses: pruned, or out of its range. */
  function Missed(log: seq<Entry>, from: Option<int>, to: Option<int>): seq<Snapshot> {
    if log == [] then []
    else
      var last := log[|log| - 1];
      Missed(log[..|log| - 1], from, to) + (if Reads(last, from, to) then [] else [last.snapshot])
  }

  /** All snapshots ever stored. */
  function All(log: seq<Entry>): seq<Snapshot> {
    seq(|log|, i requires 0 <= i < |log| => log[i].snapshot)
  }

  ghost function Apply(w: World, step: Step): World {
    match step
    case Store(day, rows, now) =>
      if ChunksDistinct(day, rows) then
        World(Pruned(w.log + Entries(now, Snapshots(day, rows)), now), UpsertRows(w.daily, day, rows))
      else w
    case Rebuild(from, to) => w.(daily := Backfill(w.daily, Selected(w.log, from, to)))
  }

  ghost function Run(steps: seq<Step>): World {
    if steps == [] then World([], map[]) else Apply(Run(steps[..|steps| - 1]), steps[|steps| - 1])
  }

  // ----- the log is the snapshot table with its history -----

  lemma {:induction false} StoredConcat(a: seq<Entry>, b: seq<Entry>)
    ensures Stored(a + b) == Stored(a) + Stored(b)
  {
    if b == [] {
      assert a + b == a;
    } else {
      assert (a + b)[..|a + b| - 1] == a + b[..|b| - 1];
      StoredConcat(a, b[..|b| - 1]);
    }
  }

  lemma {:induction false} StoredFresh(now: int, snaps: seq<Snapshot>)
    ensures Stored(Entries(now, snaps)) == CapturedAt(now, snaps)
  {
    if snaps != [] {
      var before := snaps[..|snaps| - 1];
      StoredFresh(now, before);
      assert Entries(now, snaps)[..|snaps| - 1] == Entries(now, before);
      assert CapturedAt(now, snaps) == CapturedAt(now, before) + [Captured(now, snaps[|snaps| - 1])];
    }
  }

  lemma {:induction false} UnprunedConcat(a: seq<Captured>, x: Captured, now: int)
    ensures Unpruned(a + [x], now) == Unpruned(a, now) + (if x.capturedAt < now - RETENTION_MS then [] else [x])
  {
    assert (a + [x])[..|a|] == a;
  }

  lemma {:induction false} StoredPruned(log: seq<Entry>, now: int)
    ensures Stored(Pruned(log, now)) == Unpruned(Stored(log), now)
  {
    if log != [] {
      var before, last := log[..|log| - 1], log[|log| - 1];
      StoredPruned(before, now);
      assert Pruned(log, now)[..|log| - 1] == Pruned(before, now);
      if last.pruned {
        assert Stored(log) == Stored(before);
      } else {
        UnprunedConcat(Stored(before), Captured(last.at, last.snapshot), now);
      }
    }
  }

  /** A step does to the table and to what is stored what `Persist` does. */
  lemma StoreIsPersist(w: World, day: string, rows: seq<Row>, now: int)
    requires ChunksDistinct(day, rows)
    ensures var after := Apply(w, Store(day, rows, now));
            && Stored(after.log) == Unpruned(Stored(w.log) + CapturedAt(now, Snapshots(day, rows)), now)
            && after.daily == UpsertRows(w.daily, day, rows)
  {
    StoredConcat(w.log, Entries(now, Snapshots(day, rows)));
    StoredFresh(now, Snapshots(day, rows));
    StoredPruned(w.log + Entries(now, Snapshots(day, rows)), now);
  }

  // ----- what a row holds -----

  /** The snapshots whose sum the key's row is: those of the last rebuild that read one of its own, and all stored since. */
  ghost function Base(steps: seq<Step>, key: DayKey): seq<Snapshot> {
    if steps == [] then []
    else
      var before, last := steps[..|steps| - 1], steps[|steps| - 1];
      match last
      case Store(day, rows, _) =>
        if ChunksDistinct(day, rows) then Base(before, key) + Snapshots(day, rows) else Base(before, key)
      case Rebuild(from, to) =>
        var selected := Selected(Run(before).log, from, to);
        if Mentions(selected, key) then selected else Base(before, key)
  }

  /** What that rebuild missed. */
  ghost function Lost(steps: seq<Step>, key: DayKey): seq<Snapshot> {
    if steps == [] then []
    else
      var before, last := steps[..|steps| - 1], steps[|steps| - 1];
      match last
      case Store(_, _, _) => Lost(before, key)
      case Rebuild(from, to) =>
        if Mentions(Selected(Run(before).log, from, to), key) then Missed(Run(before).log, from, to)
        else Lost(before, key)
  }

  /** The last rebuild that read a snapshot of the key read all of them. */
  ghost predicate Complete(steps: seq<Step>, key: DayKey) {
    steps == [] ||
    var before, last := steps[..|steps| - 1], steps[|steps| - 1];
    match last
    case Store(_, _, _) => Complete(before, key)
    case Rebuild(from, to) =>
      if Mentions(Selected(Run(before).log, from, to), key) then !Mentions(Missed(Run(before).log, from, to), key)
      else Complete(before, key)
  }

  predicate Qualifies(s: Snapshot) { NonNegative(s) && NoBars(s) }

  predicate QualifiedRows(step: Step) {
    step.Store? ==> forall i :: 0 <= i < |step.rows| ==> Qualifies(ToSnapshot(step.day, step.rows[i]))
  }

  predicate QualifiedLog(log: seq<Entry>) { forall i :: 0 <= i < |log| ==> Qualifies(log[i].snapshot) }

  lemma {:induction false} LogQualifies(steps: seq<Step>)
    requires forall i :: 0 <= i < |steps| ==> QualifiedRows(steps[i])
    ensures QualifiedLog(Run(steps).log)
  {
    if steps != [] {
      LogQualifies(steps[..|steps| - 1]);
      assert QualifiedRows(steps[|steps| - 1]);
    }
  }

  lemma {:induction false} SelectedSplits(log: seq<Entry>, from: Option<int>, to: Option<int>)
    ensures multiset(Selected(log, from, to)) + multiset(Missed(log, from, to)) == multiset(All(log))
  {
    if log != [] {
      var before, s := log[..|log| - 1], log[|log| - 1].snapshot;
      SelectedSplits(before, from, to);
      assert All(log) == All(before) + [s];
      if Reads(log[|log| - 1], from, to) {
        assert Missed(log, from, to) == Missed(before, from, to);
      } else {
        assert Selected(log, from, to) == Selected(before, from, to);
      }
    }
  }

  lemma {:induction false} SelectedQualify(log: seq<Entry>, from: Option<int>, to: Option<int>)
    requires QualifiedLog(log)
    ensures forall i :: 0 <= i < |Selected(log, from, to)| ==> Qualifies(Selected(log, from, to)[i])
  {
    if log != [] { SelectedQualify(log[..|log| - 1], from, to); }
  }

  lemma AllStored(log: seq<Entry>, now: int, snaps: seq<Snapshot>)
    ensures All(Pruned(log + Entries(now, snaps), now)) == All(log) + snaps
  {
  }

  lemma MentionsSplit(a: seq<Snapshot>, b: seq<Snapshot>, key: DayKey)
    ensures Mentions(a + b, key) <==> Mentions(a, key) || Mentions(b, key)
  {
    var c := a + b;
    if i :| 0 <= i < |a| && KeyOf(a[i]) == key { assert c[i] == a[i]; }
    if i :| 0 <= i < |b| && KeyOf(b[i]) == key { assert c[|a| + i] == b[i]; }
    if i :| 0 <= i < |c| && KeyOf(c[i]) == key { assert i < |a| ==> a[i] == c[i]; assert i >= |a| ==> b[i - |a|] == c[i]; }
  }

  lemma MentionsPermuted(a: seq<Snapshot>, b: seq<Snapshot>, key: DayKey)
    requires multiset(a) == multiset(b) && Mentions(a, key)
    ensures Mentions(b, key)
  {
    var i :| 0 <= i < |a| && KeyOf(a[i]) == key;
    assert a[i] in multiset(b);
    var j :| 0 <= j < |b| && b[j] == a[i];
    assert KeyOf(b[j]) == key;
  }

  /** The row is the sum of `Base`, and `Base` and `Lost` together are all that was stored. */
  ghost predicate Books(steps: seq<Step>, key: DayKey) {
    var w, base, lost := Run(steps), Base(steps, key), Lost(steps, key);
    && KeyMatches(w.daily, base, key)
    && multiset(base) + multiset(lost) == multiset(All(w.log))
    && (Mentions(lost, key) ==> Mentions(base, key))
    && (Complete(steps, key) <==> !Mentions(lost, key))
  }

  lemma StoreBooks(steps: seq<Step>, day: string, rows: seq<Row>, now: int, key: DayKey)
    requires Books(steps, key) && QualifiedRows(Store(day, rows, now))
    ensures Books(steps + [Store(day, rows, now)], key)
  {
    var after := steps + [Store(day, rows, now)];
    assert after[..|steps|] == steps;
    if ChunksDistinct(day, rows) {
      var w, snaps := Run(steps), Snapshots(day, rows);
      PersistMatches(w.daily, Base(steps, key), day, rows, key);
      AllStored(w.log, now, snaps);
      MentionsSplit(Base(steps, key), snaps, key);
    }
  }

  lemma RebuildBooks(steps: seq<Step>, from: Option<int>, to: Option<int>, key: DayKey)
    requires Books(steps, key) && QualifiedLog(Run(steps).log)
    ensures Books(steps + [Rebuild(from, to)], key)
  {
    var after := steps + [Rebuild(from, to)];
    assert after[..|steps|] == steps;
    SelectedSplits(Run(steps).log, from, to);
    SelectedQualify(Run(steps).log, from, to);
    BackfillWrites(Run(steps).daily, Selected(Run(steps).log, from, to), key);
  }

  lemma {:induction false} BooksHold(steps: seq<Step>, key: DayKey)
    requires forall i :: 0 <= i < |steps| ==> QualifiedRows(steps[i])
    ensures Books(steps, key)
  {
    if steps != [] {
      var before, last := steps[..|steps| - 1], steps[|steps| - 1];
      BooksHold(before, key);
      LogQualifies(before);
      assert steps == before + [last];
      match last
      case Store(day, rows, now) => StoreBooks(before, day, rows, now, key);
      case Rebuild(from, to) => RebuildBooks(before, from, to, key);
    }
  }

  /**
   * Over any run of samples, pruning and rebuilds: a key has a row exactly when a snapshot of it was ever stored, and the
   * row is the sum of all of them exactly when the last rebuild that read any of them read all that had been
   * stored by then. So later samples repair nothing, and a rebuild repairs a row only while nothing of it is pruned.
   */
  lemma RowExactIff(steps: seq<Step>, key: DayKey)
    requires forall i :: 0 <= i < |steps| ==> QualifiedRows(steps[i])
    ensures var w := Run(steps);
            && (key in w.daily <==> Mentions(All(w.log), key))
            && (key in w.daily ==> (w.daily[key].rollup == Total(All(w.log), key) <==> Complete(steps, key)))
  {
    var all, base, lost := All(Run(steps).log), Base(steps, key), Lost(steps, key);
    BooksHold(steps, key);
    MentionsSplit(base, lost, key);
    assert multiset(base + lost) == multiset(all);
    if Mentions(all, key) { MentionsPermuted(all, base + lost, key); }
    if Mentions(base, key) { MentionsPermuted(base + lost, all, key); }
    TotalPermuted(all, base + lost, key);
    TotalConcat(base, lost, key);
  }

  // ----- rebuilding a range of days -----

  /** A snapshot of the key was taken in [lo, hi). */
  ghost predicate Taken(log: seq<Entry>, key: DayKey, lo: int, hi: int) {
    exists i :: 0 <= i < |log| && KeyOf(log[i].snapshot) == key && lo <= log[i].at < hi
  }

  /** Some snapshot of the key is read, or is missed. */
  ghost predicate ReadsSome(log: seq<Entry>, from: Option<int>, to: Option<int>, key: DayKey) {
    exists i :: 0 <= i < |log| && KeyOf(log[i].snapshot) == key && Reads(log[i], from, to)
  }

  ghost predicate MissesSome(log: seq<Entry>, from: Option<int>, to: Option<int>, key: DayKey) {
    exists i :: 0 <= i < |log| && KeyOf(log[i].snapshot) == key && !Reads(log[i], from, to)
  }

  lemma SomeSplit(log: seq<Entry>, from: Option<int>, to: Option<int>, key: DayKey)
    requires log != []
    ensures var before, last := log[..|log| - 1], log[|log| - 1];
            && (ReadsSome(log, from, to, key)
                <==> ReadsSome(before, from, to, key) || (KeyOf(last.snapshot) == key && Reads(last, from, to)))
            && (MissesSome(log, from, to, key)
                <==> MissesSome(before, from, to, key) || (KeyOf(last.snapshot) == key && !Reads(last, from, to)))
  {
    assert forall i :: 0 <= i < |log| - 1 ==> log[i] == log[..|log| - 1][i];
  }

  lemma {:induction false} SelectedMentions(log: seq<Entry>, from: Option<int>, to: Option<int>, key: DayKey)
    ensures Mentions(Selected(log, from, to), key) <==> ReadsSome(log, from, to, key)
    ensures Mentions(Missed(log, from, to), key) <==> MissesSome(log, from, to, key)
  {
    if log != [] {
      var before, last := log[..|log| - 1], log[|log| - 1];
      SelectedMentions(before, from, to, key);
      SomeSplit(log, from, to, key);
      MentionsSplit(Selected(before, from, to), if Reads(last, from, to) then [last.snapshot] else [], key);
      MentionsSplit(Missed(before, from, to), if Reads(last, from, to) then [] else [last.snapshot], key);
      OneMentions(last.snapshot, key);
    }
  }

  lemma OneMentions(s: Snapshot, key: DayKey)
    ensures Mentions([s], key) <==> KeyOf(s) == key
    ensures !Mentions([], key)
  {
    assert [s][0] == s;
  }

  /** Whether a rebuild leaves the key's row complete, by when its snapshots were taken and whether they are still there. */
  lemma RebuildCompleteIff(steps: seq<Step>, from: Option<int>, to: Option<int>, key: DayKey)
    ensures var log := Run(steps).log;
            Complete(steps + [Rebuild(from, to)], key)
            <==> if ReadsSome(log, from, to, key) then !MissesSome(log, from, to, key) else Complete(steps, key)
  {
    var after := steps + [Rebuild(from, to)];
    assert after[..|steps|] == steps;
    SelectedMentions(Run(steps).log, from, to, key);
  }

  /** Where a range cuts through local day `d`, if it does: the instant from which on (or up to which) the day is read. */
  ghost predicate CutThrough(log: seq<Entry>, key: DayKey, daylight: bool, first: int, last: int, d: int) {
    var start := DayStart(d, daylight);
    if daylight then
      || (d == first && Taken(log, key, start, start + HOUR_MS) && Taken(log, key, start + HOUR_MS, start + DAY_MS))
      || (d == last + 1 && Taken(log, key, start, start + HOUR_MS - 999)
          && Taken(log, key, start + HOUR_MS - 999, start + DAY_MS))
    else
      d == last && Taken(log, key, start, start + DAY_MS - 999) && Taken(log, key, start + DAY_MS - 999, start + DAY_MS)
  }

  function DayStart(d: int, daylight: bool): int { d * DAY_MS - (if daylight then 11 else 10) * HOUR_MS }

  /** Whether an instant of local day `d` is in the range. */
  predicate DayReads(t: int, daylight: bool, first: int, last: int, d: int) {
    var start := DayStart(d, daylight);
    if daylight then
      if d == first then t >= start + HOUR_MS else if d == last + 1 then t < start + HOUR_MS - 999 else first < d <= last
    else if d == last then t < start + DAY_MS - 999 else first <= d < last
  }

  predicate OnDay(t: int, daylight: bool, d: int) { DayStart(d, daylight) <= t < DayStart(d, daylight) + DAY_MS }

  lemma DayRead(t: int, daylight: bool, first: int, last: int, d: int)
    requires first <= last && LocalDay(t, (if daylight then 11 else 10) * HOUR_MS) == d
    ensures OnDay(t, daylight, d) && (InRange(t, first, last) <==> DayReads(t, daylight, first, last, d))
  {
    var offset := (if daylight then 11 else 10) * HOUR_MS;
    RangeMissesIff(t, daylight, first, last);
    DayBounds(t, offset, d);
    DayBounds(t, offset, d + 1);
    assert (d + 1) * DAY_MS == d * DAY_MS + DAY_MS;
  }

  /** Some snapshot of the key is read by the range, or some is not. */
  ghost predicate SomeRead(log: seq<Entry>, key: DayKey, daylight: bool, first: int, last: int, d: int, read: bool) {
    exists i :: 0 <= i < |log| && KeyOf(log[i].snapshot) == key && DayReads(log[i].at, daylight, first, last, d) == read
  }

  lemma CutThroughIff(log: seq<Entry>, key: DayKey, daylight: bool, first: int, last: int, d: int)
    requires first <= last
    requires forall i :: 0 <= i < |log| && KeyOf(log[i].snapshot) == key ==> OnDay(log[i].at, daylight, d)
    ensures SomeRead(log, key, daylight, first, last, d, true) && SomeRead(log, key, daylight, first, last, d, false)
            <==> CutThrough(log, key, daylight, first, last, d)
  {
    var start := DayStart(d, daylight);
    if SomeRead(log, key, daylight, first, last, d, true) && SomeRead(log, key, daylight, first, last, d, false) {
      var i :| 0 <= i < |log| && KeyOf(log[i].snapshot) == key && DayReads(log[i].at, daylight, first, last, d);
      var j :| 0 <= j < |log| && KeyOf(log[j].snapshot) == key && !DayReads(log[j].at, daylight, first, last, d);
      assert OnDay(log[i].at, daylight, d) && OnDay(log[j].at, daylight, d);
    }
    if CutThrough(log, key, daylight, first, last, d) {
      var mid := start + if !daylight then DAY_MS - 999 else if d == first then HOUR_MS else HOUR_MS - 999;
      var i :| 0 <= i < |log| && KeyOf(log[i].snapshot) == key && start <= log[i].at < mid;
      var j :| 0 <= j < |log| && KeyOf(log[j].snapshot) == key && mid <= log[j].at < start + DAY_MS;
      assert DayReads(log[i].at, daylight, first, last, d) != DayReads(log[j].at, daylight, first, last, d);
    }
  }

  /**
   * Which rows a from/to rebuild damages. Take a row that holds the sum of all its snapshots, none of them pruned, all
   * taken on local day `d`: after rebuilding the days `first` to `last` it does so unless the range cuts through them. In
   * daylight saving time that happens on the first day, after its first hour, and on the day after the last, in its
   * first hour; in standard time only in the last second of the last day.
   */
  lemma RangeDamagesIff(steps: seq<Step>, key: DayKey, daylight: bool, first: int, last: int, d: int)
    requires first <= last && Complete(steps, key)
    requires forall i :: 0 <= i < |Run(steps).log| && KeyOf(Run(steps).log[i].snapshot) == key ==>
      !Run(steps).log[i].pruned && LocalDay(Run(steps).log[i].at, (if daylight then 11 else 10) * HOUR_MS) == d
    ensures Complete(steps + [Rebuild(Some(RangeStart(first)), Some(RangeEnd(last)))], key)
            <==> !CutThrough(Run(steps).log, key, daylight, first, last, d)
  {
    var log, from, to := Run(steps).log, Some(RangeStart(first)), Some(RangeEnd(last));
    RebuildCompleteIff(steps, from, to, key);
    forall i | 0 <= i < |log| && KeyOf(log[i].snapshot) == key
      ensures OnDay(log[i].at, daylight, d)
      ensures Reads(log[i], from, to) <==> DayReads(log[i].at, daylight, first, last, d) {
      DayRead(log[i].at, daylight, first, last, d);
    }
    CutThroughIff(log, key, daylight, first, last, d);
    assert ReadsSome(log, from, to, key) <==> SomeRead(log, key, daylight, first, last, d, true);
    assert MissesSome(log, from, to, key) <==> SomeRead(log, key, daylight, first, last, d, false);
  }
}
