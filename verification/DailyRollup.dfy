/**
 * The two ways the daily rows come to be: `Persist` adds each sample to its
 * day's row as it is stored, `BackfillFromSnapshots` rebuilds the rows from the
 * stored snapshots. The lemmas say exactly when the two agree.
 */
module DailyRollup {
  import opened Basics
  import opened SnapshotRow
  import Aggregate = HistoryAggregate
  import Ledger = HistoryLedger

  const CHUNK_SIZE := 50
  const RETENTION_MS := 30 * 24 * 60 * 60 * 1000
  const SAMPLE_INTERVAL_MINUTES := 5

  datatype Snapshot = Snapshot(
    day: string, mode: string, line: string, vehicles: int, trackedTrips: int, delayedTrips: int, cancelledTrips: int,
    skippedTrips: int, earlyTrips: int, avgDelaySeconds: int, maxDelaySeconds: int, delayP50Seconds: int,
    delayP90Seconds: int, avgOccupancy: int, crowdedVehicles: int, activeDisruptions: int, scheduledTrips: int)

  /** A row of the snapshot table. */
  datatype Captured = Captured(capturedAt: int, snapshot: Snapshot)

  datatype DayKey = DayKey(day: string, mode: string, line: string)

  /** The columns that both writers compute. */
  datatype Rollup = Rollup(
    samples: int, trackedTrips: int, delayedTrips: int, cancelledTrips: int, skippedTrips: int, earlyTrips: int,
    delaySecondsSum: int, maxDelaySeconds: int, delayP50Sum: int, delayP90Sum: int,
    crowdedVehicleSamples: int, scheduledTrips: int)

  datatype Daily = Daily(
    rollup: Rollup, occupancyScoreSum: int, occupancySamples: int,
    peakTrackedTrips: int, peakDelayedTrips: int, offPeakTrackedTrips: int, offPeakDelayedTrips: int,
    disruptionMinutes: int, disruptionCountByEffect: map<string, nat>)

  type Table = map<DayKey, Daily>

  const NOTHING := Rollup(0, 0, 0, 0, 0, 0, 0, 0, 0, 0, 0, 0)

  function Add(a: Rollup, b: Rollup): Rollup {
    Rollup(a.samples + b.samples, a.trackedTrips + b.trackedTrips, a.delayedTrips + b.delayedTrips,
           a.cancelledTrips + b.cancelledTrips, a.skippedTrips + b.skippedTrips, a.earlyTrips + b.earlyTrips,
           a.delaySecondsSum + b.delaySecondsSum, Max(a.maxDelaySeconds, b.maxDelaySeconds),
           a.delayP50Sum + b.delayP50Sum, a.delayP90Sum + b.delayP90Sum,
           a.crowdedVehicleSamples + b.crowdedVehicleSamples, Max(a.scheduledTrips, b.scheduledTrips))
  }

  // ----- the incremental writer -----

  function ToSnapshot(day: string, row: Row): Snapshot {
    Snapshot(day, row.mode, row.line, row.vehicles, row.trackedTrips, row.delayedTrips, row.cancelledTrips,
             row.skippedTrips, row.earlyTrips, row.avgDelaySeconds, row.maxDelaySeconds, row.delayP50Seconds,
             row.delayP90Seconds, row.avgOccupancy, row.crowdedVehicles, row.activeDisruptions, row.scheduledTrips)
  }

  function Snapshots(day: string, rows: seq<Row>): seq<Snapshot> {
    seq(|rows|, i requires 0 <= i < |rows| => ToSnapshot(day, rows[i]))
  }

  function ToDaily(row: Row): Daily {
    Daily(Rollup(1, row.trackedTrips, row.delayedTrips, row.cancelledTrips, row.skippedTrips, row.earlyTrips,
                 row.avgDelaySeconds * Max(0, row.trackedTrips - row.cancelledTrips),
                 row.maxDelaySeconds, row.delayP50Seconds, row.delayP90Seconds, row.crowdedVehicles,
                 row.scheduledTrips),
          row.occupancyScoreSum, row.occupancySamples, row.peakTrackedTrips, row.peakDelayedTrips,
          row.offPeakTrackedTrips, row.offPeakDelayedTrips, row.disruptionMinutes, row.disruptionCountByEffect)
  }

  function MergeCounts(a: map<string, nat>, b: map<string, nat>): map<string, nat> {
    map k | k in a.Keys + b.Keys :: (if k in a then a[k] else 0) + (if k in b then b[k] else 0)
  }

  function Merge(a: Daily, b: Daily): Daily {
    Daily(Add(a.rollup, b.rollup), a.occupancyScoreSum + b.occupancyScoreSum, a.occupancySamples + b.occupancySamples,
          a.peakTrackedTrips + b.peakTrackedTrips, a.peakDelayedTrips + b.peakDelayedTrips,
          a.offPeakTrackedTrips + b.offPeakTrackedTrips, a.offPeakDelayedTrips + b.offPeakDelayedTrips,
          a.disruptionMinutes + b.disruptionMinutes,
          MergeCounts(a.disruptionCountByEffect, b.disruptionCountByEffect))
  }

  function RowKey(day: string, row: Row): DayKey { DayKey(day, row.mode, row.line) }

  function UpsertRow(table: Table, day: string, row: Row): Table {
    var key := RowKey(day, row);
    table[key := if key in table then Merge(table[key], ToDaily(row)) else ToDaily(row)]
  }

  function UpsertRows(table: Table, day: string, rows: seq<Row>): Table {
    if rows == [] then table else UpsertRow(UpsertRows(table, day, rows[..|rows| - 1]), day, rows[|rows| - 1])
  }

  /** One statement may not touch the same target row twice. */
  ghost predicate Distinct(day: string, rows: seq<Row>) {
    forall i, j :: 0 <= i < j < |rows| ==> RowKey(day, rows[i]) != RowKey(day, rows[j])
  }

  /** No two rows that travel in the same chunk name the same (mode, line). */
  ghost predicate ChunksDistinct(day: string, rows: seq<Row>) {
    forall i, j :: 0 <= i < j < |rows| && i / CHUNK_SIZE == j / CHUNK_SIZE
      ==> RowKey(day, rows[i]) != RowKey(day, rows[j])
  }

  lemma {:induction false} UpsertConcat(table: Table, day: string, a: seq<Row>, b: seq<Row>)
    ensures UpsertRows(table, day, a + b) == UpsertRows(UpsertRows(table, day, a), day, b)
  {
    if b == [] {
      assert a + b == a;
    } else {
      assert (a + b)[..|a + b| - 1] == a + b[..|b| - 1];
      UpsertConcat(table, day, a, b[..|b| - 1]);
    }
  }

  // ----- the batch writer -----

  function Contribution(s: Snapshot): Rollup {
    Rollup(1, s.trackedTrips, s.delayedTrips, s.cancelledTrips, s.skippedTrips, s.earlyTrips,
           s.avgDelaySeconds * Max(0, s.trackedTrips - s.cancelledTrips),
           s.maxDelaySeconds, s.delayP50Seconds, s.delayP90Seconds, s.crowdedVehicles, s.scheduledTrips)
  }

  datatype Bucket = Bucket(rollup: Rollup, occupancyScoreSum: int, occupancySamples: int, disruptionMinutes: int)

  function AddToBucket(b: Bucket, s: Snapshot): Bucket {
    var occupied := s.avgOccupancy > 0 || s.crowdedVehicles > 0;
    Bucket(Add(b.rollup, Contribution(s)),
           b.occupancyScoreSum + (if occupied then s.avgOccupancy * s.vehicles else 0),
           b.occupancySamples + (if occupied then s.vehicles else 0),
           b.disruptionMinutes + (if s.activeDisruptions > 0 then SAMPLE_INTERVAL_MINUTES else 0))
  }

  const EMPTY_BUCKET := Bucket(NOTHING, 0, 0, 0)

  function BucketName(s: Snapshot): string { s.day + "|" + s.mode + "|" + s.line }

  function Rest(s: string): string {
    if s == "" then "" else if s[0] == '|' then s[1..] else Rest(s[1..])
  }

  function SplitName(name: string): DayKey {
    DayKey(UpToBar(name), UpToBar(Rest(name)), UpToBar(Rest(Rest(name))))
  }

  function BucketOf(snaps: seq<Snapshot>, name: string): Bucket {
    if snaps == [] then EMPTY_BUCKET
    else
      var before := BucketOf(snaps[..|snaps| - 1], name);
      var last := snaps[|snaps| - 1];
      if BucketName(last) == name then AddToBucket(before, last) else before
  }

  /** Bucket names in order of first appearance. */
  function Names(snaps: seq<Snapshot>): seq<string> {
    if snaps == [] then []
    else Aggregate.AddOnce(Names(snaps[..|snaps| - 1]), BucketName(snaps[|snaps| - 1]))
  }

  function Overwrite(table: Table, key: DayKey, b: Bucket): Table {
    table[key :=
      if key in table then
        table[key].(rollup := b.rollup, occupancyScoreSum := b.occupancyScoreSum,
                    occupancySamples := b.occupancySamples, disruptionMinutes := b.disruptionMinutes)
      else Daily(b.rollup, b.occupancyScoreSum, b.occupancySamples, 0, 0, 0, 0, b.disruptionMinutes, map[])]
  }

  function OverwriteAll(table: Table, snaps: seq<Snapshot>, names: seq<string>): Table {
    if names == [] then table
    else
      var last := names[|names| - 1];
      Overwrite(OverwriteAll(table, snaps, names[..|names| - 1]), SplitName(last), BucketOf(snaps, last))
  }

  function Backfill(table: Table, snaps: seq<Snapshot>): Table {
    OverwriteAll(table, snaps, Names(snaps))
  }

  function CapturedAt(now: int, snaps: seq<Snapshot>): seq<Captured> {
    seq(|snaps|, i requires 0 <= i < |snaps| => Captured(now, snaps[i]))
  }

  /** What the deletion at the end of each transaction leaves: the rows of the last thirty days. */
  function Unpruned(stored: seq<Captured>, now: int): seq<Captured> {
    if stored == [] then []
    else
      var last := stored[|stored| - 1];
      Unpruned(stored[..|stored| - 1], now) + (if last.capturedAt < now - RETENTION_MS then [] else [last])
  }

  class HistoryStore {
    var snapshots: seq<Captured>
    var daily: Table

    constructor ()
      ensures snapshots == [] && daily == map[]
    {
      snapshots, daily := [], map[];
    }

    /** The duplicate test that the database applies to one statement. */
    static method HasDuplicate(day: string, chunk: seq<Row>) returns (found: bool)
      ensures found <==> !Distinct(day, chunk)
    {
      var seen: set<DayKey> := {};
      for i := 0 to |chunk|
        invariant forall j :: 0 <= j < i ==> RowKey(day, chunk[j]) in seen
        invariant forall key :: key in seen ==> exists j :: 0 <= j < i && RowKey(day, chunk[j]) == key
        invariant Distinct(day, chunk[..i])
      {
        if RowKey(day, chunk[i]) in seen {
          return true;
        }
        seen := seen + {RowKey(day, chunk[i])};
      }
      assert chunk[..|chunk|] == chunk;
      return false;
    }

    method DeleteOld(now: int)
      modifies this`snapshots
      ensures snapshots == Unpruned(old(snapshots), now)
    {
      var kept: seq<Captured> := [];
      for i := 0 to |snapshots|
        invariant kept == Unpruned(snapshots[..i], now) && snapshots == old(snapshots)
      {
        assert snapshots[..i + 1][..i] == snapshots[..i];
        if snapshots[i].capturedAt >= now - RETENTION_MS {
          kept := kept + [snapshots[i]];
        }
      }
      assert snapshots[..|snapshots|] == snapshots;
      snapshots := kept;
    }

    /** The daily rows in chunks of fifty; the database refuses a chunk that holds a key twice. */
    method UpsertChunks(day: string, rows: seq<Row>) returns (accepted: bool)
      modifies this`daily
      ensures accepted <==> ChunksDistinct(day, rows)
      ensures accepted ==> daily == UpsertRows(old(daily), day, rows)
    {
      var i := 0;
      while i < |rows|
        invariant i <= |rows|
        invariant i % CHUNK_SIZE == 0 || i == |rows|
        invariant ChunksDistinct(day, rows[..i])
        invariant daily == UpsertRows(old(daily), day, rows[..i])
      {
        var end := if i + CHUNK_SIZE <= |rows| then i + CHUNK_SIZE else |rows|;
        var chunk := rows[i..end];
        var duplicate := HasDuplicate(day, chunk);
        if duplicate {
          ChunkClash(day, rows, i, end);
          return false;
        }
        ChunkClean(day, rows, i, end);
        ChunkUpserted(old(daily), day, rows, i, end);
        daily := UpsertRows(daily, day, chunk);
        i := end;
      }
      assert rows[..|rows|] == rows;
      return true;
    }

    /** Stores a sample in one transaction: its snapshots, the daily rows, and the pruning of old snapshots. */
    method Persist(day: string, rows: seq<Row>, now: int) returns (committed: bool)
      modifies this
      ensures committed <==> ChunksDistinct(day, rows)
      ensures committed ==> daily == UpsertRows(old(daily), day, rows)
      ensures committed ==> snapshots == Unpruned(old(snapshots) + CapturedAt(now, Snapshots(day, rows)), now)
      ensures !committed ==> daily == old(daily) && snapshots == old(snapshots)
    {
      var savedSnapshots, savedDaily := snapshots, daily;
      snapshots := snapshots + CapturedAt(now, Snapshots(day, rows));
      committed := UpsertChunks(day, rows);
      if !committed {
        snapshots, daily := savedSnapshots, savedDaily;
        return;
      }
      DeleteOld(now);
    }

    /** Rebuilds the daily rows from the snapshots a query selected, in whatever order it returned them. */
    method BackfillFromSnapshots(selected: seq<Snapshot>) returns (rowsUpserted: nat)
      modifies this`daily
      ensures daily == Backfill(old(daily), selected)
      ensures rowsUpserted == |Names(selected)|
    {
      var buckets: map<string, Bucket> := map[];
      var order: seq<string> := [];
      for i := 0 to |selected|
        invariant order == Names(selected[..i])
        invariant forall name :: name in buckets <==> name in order
        invariant forall name :: BucketOf(selected[..i], name) == if name in buckets then buckets[name] else EMPTY_BUCKET
      {
        assert selected[..i + 1][..i] == selected[..i];
        var name := BucketName(selected[i]);
        var bucket := if name in buckets then buckets[name] else EMPTY_BUCKET;
        order := Aggregate.AddOnce(order, name);
        buckets := buckets[name := AddToBucket(bucket, selected[i])];
      }
      assert selected[..|selected|] == selected;

      rowsUpserted := 0;
      for i := 0 to |order|
        invariant rowsUpserted == i
        invariant daily == OverwriteAll(old(daily), selected, order[..i])
      {
        assert order[..i + 1][..i] == order[..i];
        daily := Overwrite(daily, SplitName(order[i]), buckets[order[i]]);
        rowsUpserted := rowsUpserted + 1;
      }
      assert order[..|order|] == order;
    }
  }

  lemma ChunkUpserted(table: Table, day: string, rows: seq<Row>, i: nat, end: nat)
    requires i <= end <= |rows|
    ensures UpsertRows(table, day, rows[..end]) == UpsertRows(UpsertRows(table, day, rows[..i]), day, rows[i..end])
  {
    UpsertConcat(table, day, rows[..i], rows[i..end]);
    assert rows[..i] + rows[i..end] == rows[..end];
  }

  lemma ChunkClash(day: string, rows: seq<Row>, i: nat, end: nat)
    requires i % CHUNK_SIZE == 0 && i < end <= |rows| && end <= i + CHUNK_SIZE
    requires !Distinct(day, rows[i..end])
    ensures !ChunksDistinct(day, rows)
  {
    var chunk := rows[i..end];
    var a, b :| 0 <= a < b < |chunk| && RowKey(day, chunk[a]) == RowKey(day, chunk[b]);
    assert RowKey(day, rows[i + a]) == RowKey(day, rows[i + b]);
    assert (i + a) / CHUNK_SIZE == (i + b) / CHUNK_SIZE;
  }

  lemma ChunkClean(day: string, rows: seq<Row>, i: nat, end: nat)
    requires i % CHUNK_SIZE == 0 && i < end <= |rows| && end <= i + CHUNK_SIZE
    requires ChunksDistinct(day, rows[..i]) && Distinct(day, rows[i..end])
    ensures ChunksDistinct(day, rows[..end])
  {
    forall a, b | 0 <= a < b < end && a / CHUNK_SIZE == b / CHUNK_SIZE
      ensures RowKey(day, rows[a]) != RowKey(day, rows[b])
    {
      if b < i {
        assert rows[..i][a] == rows[a] && rows[..i][b] == rows[b];
      } else if a >= i {
        assert rows[i..end][a - i] == rows[a] && rows[i..end][b - i] == rows[b];
      }
    }
  }

  // ----- what a day's row is, whichever way it was written -----

  function KeyOf(s: Snapshot): DayKey { DayKey(s.day, s.mode, s.line) }

  ghost predicate Mentions(snaps: seq<Snapshot>, key: DayKey) {
    exists i :: 0 <= i < |snaps| && KeyOf(snaps[i]) == key
  }

  /** The sum over all snapshots of one day, mode and line. */
  function Total(snaps: seq<Snapshot>, key: DayKey): Rollup {
    if snaps == [] then NOTHING
    else
      var before := Total(snaps[..|snaps| - 1], key);
      var last := snaps[|snaps| - 1];
      if KeyOf(last) == key then Add(before, Contribution(last)) else before
  }

  predicate NonNegative(s: Snapshot) { s.maxDelaySeconds >= 0 && s.scheduledTrips >= 0 }

  predicate NoBars(s: Snapshot) { '|' !in s.day && '|' !in s.mode && '|' !in s.line }

  /** The key has a row exactly when a snapshot has it, and the row is their sum. */
  ghost predicate KeyMatches(table: Table, snaps: seq<Snapshot>, key: DayKey) {
    (key in table <==> Mentions(snaps, key)) && (key in table ==> table[key].rollup == Total(snaps, key))
  }

  ghost predicate MatchesTotals(table: Table, snaps: seq<Snapshot>) {
    forall key :: KeyMatches(table, snaps, key)
  }

  lemma TotalFloors(snaps: seq<Snapshot>, key: DayKey)
    ensures Total(snaps, key).maxDelaySeconds >= 0 && Total(snaps, key).scheduledTrips >= 0
    ensures !Mentions(snaps, key) ==> Total(snaps, key) == NOTHING
  {
    if snaps != [] {
      var before := snaps[..|snaps| - 1];
      TotalFloors(before, key);
      if !Mentions(snaps, key) {
        assert !Mentions(before, key);
        assert KeyOf(snaps[|snaps| - 1]) != key;
      }
    }
  }

  lemma MentionsAppend(snaps: seq<Snapshot>, s: Snapshot, key: DayKey)
    ensures Mentions(snaps + [s], key) <==> Mentions(snaps, key) || key == KeyOf(s)
  {
    var after := snaps + [s];
    assert after[|snaps|] == s;
    if Mentions(snaps, key) {
      var i :| 0 <= i < |snaps| && KeyOf(snaps[i]) == key;
      assert after[i] == snaps[i];
    }
  }

  lemma UpsertMatches(table: Table, snaps: seq<Snapshot>, day: string, row: Row, key: DayKey)
    requires KeyMatches(table, snaps, key) && NonNegative(ToSnapshot(day, row))
    ensures KeyMatches(UpsertRow(table, day, row), snaps + [ToSnapshot(day, row)], key)
  {
    var s := ToSnapshot(day, row);
    var after := snaps + [s];
    assert after[..|after| - 1] == snaps;
    assert Contribution(s) == ToDaily(row).rollup && KeyOf(s) == RowKey(day, row);
    MentionsAppend(snaps, s, key);
    TotalFloors(snaps, key);
  }

  /** Upserting a sample's rows one by one keeps a daily row equal to the sum of its snapshots. */
  lemma {:induction false} PersistMatches(table: Table, snaps: seq<Snapshot>, day: string, rows: seq<Row>, key: DayKey)
    requires KeyMatches(table, snaps, key)
    requires forall i :: 0 <= i < |rows| ==> NonNegative(ToSnapshot(day, rows[i]))
    ensures KeyMatches(UpsertRows(table, day, rows), snaps + Snapshots(day, rows), key)
  {
    if rows == [] {
      assert snaps + Snapshots(day, rows) == snaps;
    } else {
      var before := rows[..|rows| - 1];
      PersistMatches(table, snaps, day, before, key);
      UpsertMatches(UpsertRows(table, day, before), snaps + Snapshots(day, before), day, rows[|rows| - 1], key);
      assert snaps + Snapshots(day, rows)
          == (snaps + Snapshots(day, before)) + [ToSnapshot(day, rows[|rows| - 1])];
    }
  }

  datatype Sample = Sample(day: string, rows: seq<Row>)

  function RunTable(samples: seq<Sample>): Table {
    if samples == [] then map[]
    else UpsertRows(RunTable(samples[..|samples| - 1]), samples[|samples| - 1].day, samples[|samples| - 1].rows)
  }

  function RunSnapshots(samples: seq<Sample>): seq<Snapshot> {
    if samples == [] then []
    else
      var last := samples[|samples| - 1];
      RunSnapshots(samples[..|samples| - 1]) + Snapshots(last.day, last.rows)
  }

  lemma {:induction false} RunMatches(samples: seq<Sample>)
    requires forall s :: s in RunSnapshots(samples) ==> NonNegative(s)
    ensures MatchesTotals(RunTable(samples), RunSnapshots(samples))
  {
    if samples != [] {
      var before := samples[..|samples| - 1];
      var last := samples[|samples| - 1];
      RunMatches(before);
      forall i | 0 <= i < |last.rows| ensures NonNegative(ToSnapshot(last.day, last.rows[i])) {
        assert Snapshots(last.day, last.rows)[i] in RunSnapshots(samples);
      }
      forall key ensures KeyMatches(RunTable(samples), RunSnapshots(samples), key) {
        PersistMatches(RunTable(before), RunSnapshots(before), last.day, last.rows, key);
      }
    }
  }

  lemma {:induction false} SecondPieceHasNoBar(key: string)
    ensures '|' !in SecondPiece(key)
  {
    if key != "" {
      if key[0] == '|' {
        NoBarUpToBar(key[1..]);
      } else {
        SecondPieceHasNoBar(key[1..]);
      }
    }
  }

  /** The rows of any aggregated sample meet what the agreement below needs, given a mode and day without bars. */
  lemma AggregatedRowsQualify(input: Aggregate.Input, day: string, i: nat)
    requires i < |Aggregate.Sampled(input).byLine.order|
    ensures var lines := Aggregate.Sampled(input).byLine;
            && (forall key :: key in lines.order ==> key in lines.entries)
            && var s := ToSnapshot(day, Rows(lines)[i]);
               NonNegative(s) && ('|' !in day && '|' !in s.mode ==> NoBars(s))
  {
    Ledger.SampleLedger(input);
    var lines := Aggregate.Sampled(input).byLine;
    var key := lines.order[i];
    assert Ledger.SoundEntry(key, lines.entries[key]);
    SecondPieceHasNoBar(key);
  }

  // ----- order does not matter -----

  /** `total` with one more snapshot counted, if it is one of the key's. */
  function AddIf(total: Rollup, s: Snapshot, key: DayKey): Rollup {
    if KeyOf(s) == key then Add(total, Contribution(s)) else total
  }

  lemma AddIfSwap(total: Rollup, a: Snapshot, b: Snapshot, key: DayKey)
    ensures AddIf(AddIf(total, a, key), b, key) == AddIf(AddIf(total, b, key), a, key)
  {
  }

  lemma {:induction false} TotalRemove(snaps: seq<Snapshot>, key: DayKey, i: nat)
    requires i < |snaps|
    ensures Total(snaps, key) == AddIf(Total(snaps[..i] + snaps[i + 1..], key), snaps[i], key)
  {
    var before, last := snaps[..|snaps| - 1], snaps[|snaps| - 1];
    assert Total(snaps, key) == AddIf(Total(before, key), last, key);
    if i == |snaps| - 1 {
      assert snaps[..i] + snaps[i + 1..] == before;
    } else {
      TotalRemove(before, key, i);
      var without := snaps[..i] + snaps[i + 1..];
      assert without[..|without| - 1] == before[..i] + before[i + 1..];
      assert Total(without, key) == AddIf(Total(before[..i] + before[i + 1..], key), last, key);
      AddIfSwap(Total(before[..i] + before[i + 1..], key), snaps[i], last, key);
    }
  }

  lemma {:induction false} TotalPermuted(a: seq<Snapshot>, b: seq<Snapshot>, key: DayKey)
    requires multiset(a) == multiset(b)
    ensures Total(a, key) == Total(b, key)
    decreases |a|
  {
    if a == [] {
      assert |multiset(b)| == 0;
    } else {
      var last := a[|a| - 1];
      assert last in multiset(b);
      var i :| 0 <= i < |b| && b[i] == last;
      var without := b[..i] + b[i + 1..];
      assert b == b[..i] + [last] + b[i + 1..];
      assert a == a[..|a| - 1] + [last];
      assert multiset(without) == multiset(b) - multiset{last};
      assert multiset(a[..|a| - 1]) == multiset(a) - multiset{last};
      TotalPermuted(a[..|a| - 1], without, key);
      TotalRemove(b, key, i);
    }
  }

  lemma {:induction false} TotalConcat(a: seq<Snapshot>, b: seq<Snapshot>, key: DayKey)
    ensures !Mentions(b, key) ==> Total(a + b, key) == Total(a, key)
    ensures Total(a + b, key).samples == Total(a, key).samples + Total(b, key).samples
    ensures Mentions(b, key) ==> Total(b, key).samples > 0
    ensures Total(b, key).samples >= 0
  {
    if b == [] {
      assert a + b == a;
    } else {
      var before := b[..|b| - 1];
      assert (a + b)[..|a + b| - 1] == a + before;
      TotalConcat(a, before, key);
      if !Mentions(b, key) {
        assert !Mentions(before, key) && KeyOf(b[|b| - 1]) != key;
      } else if KeyOf(b[|b| - 1]) != key {
        var i :| 0 <= i < |b| && KeyOf(b[i]) == key;
        assert before[i] == b[i];
      }
    }
  }

  // ----- what the rebuild writes -----

  lemma {:induction false} UpToBarSplits(head: string, tail: string)
    requires '|' !in head
    ensures UpToBar(head + "|" + tail) == head && Rest(head + "|" + tail) == tail
  {
    var s := head + "|" + tail;
    if head == "" {
      assert s[1..] == tail;
    } else {
      UpToBarSplits(head[1..], tail);
      assert s[1..] == head[1..] + "|" + tail;
      assert head == [head[0]] + head[1..];
    }
  }

  lemma SplitOfName(s: Snapshot)
    requires NoBars(s)
    ensures SplitName(BucketName(s)) == KeyOf(s)
  {
    assert BucketName(s) == s.day + "|" + (s.mode + "|" + s.line);
    UpToBarSplits(s.day, s.mode + "|" + s.line);
    UpToBarSplits(s.mode, s.line);
    NoBarUpToBar(s.line);
  }

  lemma NameOfKey(a: Snapshot, b: Snapshot)
    requires NoBars(a) && NoBars(b)
    ensures BucketName(a) == BucketName(b) <==> KeyOf(a) == KeyOf(b)
  {
    SplitOfName(a);
    SplitOfName(b);
  }

  lemma {:induction false} BucketIsTotal(snaps: seq<Snapshot>, s: Snapshot)
    requires NoBars(s) && forall i :: 0 <= i < |snaps| ==> NoBars(snaps[i])
    ensures BucketOf(snaps, BucketName(s)).rollup == Total(snaps, KeyOf(s))
  {
    if snaps != [] {
      BucketIsTotal(snaps[..|snaps| - 1], s);
      NameOfKey(snaps[|snaps| - 1], s);
    }
  }

  /** The names are exactly the buckets that occur, each once. */
  lemma {:induction false} NamesExact(snaps: seq<Snapshot>)
    ensures forall i, j :: 0 <= i < j < |Names(snaps)| ==> Names(snaps)[i] != Names(snaps)[j]
    ensures forall name :: name in Names(snaps) <==> exists i :: 0 <= i < |snaps| && BucketName(snaps[i]) == name
  {
    if snaps != [] {
      var before := snaps[..|snaps| - 1];
      NamesExact(before);
      forall name ensures name in Names(snaps) <==> exists i :: 0 <= i < |snaps| && BucketName(snaps[i]) == name {
        if name in Names(before) {
          var i :| 0 <= i < |before| && BucketName(before[i]) == name;
          assert BucketName(snaps[i]) == name;
        }
        if i :| 0 <= i < |snaps| && BucketName(snaps[i]) == name {
          if i < |before| {
            assert BucketName(before[i]) == name;
          }
        }
      }
    }
  }

  /** After writing the buckets `names`, a key's rollup is its total if one of them is its bucket, and untouched otherwise. */
  ghost predicate Written(table: Table, after: Table, snaps: seq<Snapshot>, names: seq<string>, key: DayKey) {
    if exists n :: n in names && SplitName(n) == key
    then key in after && after[key].rollup == Total(snaps, key)
    else (key in after <==> key in table) && (key in table ==> after[key] == table[key])
  }

  lemma {:induction false} OverwriteAllWrites(table: Table, snaps: seq<Snapshot>, names: seq<string>, key: DayKey)
    requires forall i :: 0 <= i < |snaps| ==> NoBars(snaps[i])
    requires forall n :: n in names ==> n in Names(snaps)
    ensures Written(table, OverwriteAll(table, snaps, names), snaps, names, key)
  {
    if names != [] {
      var before := names[..|names| - 1];
      var last := names[|names| - 1];
      OverwriteAllWrites(table, snaps, before, key);
      assert last in names;
      NamesExact(snaps);
      var i :| 0 <= i < |snaps| && BucketName(snaps[i]) == last;
      SplitOfName(snaps[i]);
      BucketIsTotal(snaps, snaps[i]);
      assert forall n :: n in names <==> n in before || n == last;
    }
  }

  /** The rebuild leaves each mentioned key with the sum of the selected snapshots, and no other key changed. */
  lemma BackfillWrites(table: Table, snaps: seq<Snapshot>, key: DayKey)
    requires forall i :: 0 <= i < |snaps| ==> NoBars(snaps[i])
    ensures var after := Backfill(table, snaps);
            if Mentions(snaps, key) then key in after && after[key].rollup == Total(snaps, key)
            else (key in after <==> key in table) && (key in table ==> after[key] == table[key])
  {
    OverwriteAllWrites(table, snaps, Names(snaps), key);
    NamesExact(snaps);
    if Mentions(snaps, key) {
      var i :| 0 <= i < |snaps| && KeyOf(snaps[i]) == key;
      SplitOfName(snaps[i]);
      assert BucketName(snaps[i]) in Names(snaps);
    } else if n :| n in Names(snaps) && SplitName(n) == key {
      var i :| 0 <= i < |snaps| && BucketName(snaps[i]) == n;
      SplitOfName(snaps[i]);
      assert false;
    }
  }

  /**
   * The refinement. Any run of persisted samples leaves the daily rows; the rebuild then reads some of the
   * stored snapshots (`selected`, in any order) and not the others (`missed`: pruned after thirty days, or cut
   * off by a from/to range). A day's row keeps its rolled-up columns exactly when none of its snapshots was
   * missed or none was selected; with nothing missed the rebuild changes no rolled-up column of any row.
   */
  lemma BackfillAgreesIff(samples: seq<Sample>, selected: seq<Snapshot>, missed: seq<Snapshot>, key: DayKey)
    requires forall s :: s in RunSnapshots(samples) ==> NonNegative(s) && NoBars(s)
    requires multiset(RunSnapshots(samples)) == multiset(selected + missed)
    requires key in RunTable(samples)
    ensures key in Backfill(RunTable(samples), selected)
    ensures Backfill(RunTable(samples), selected)[key].rollup == RunTable(samples)[key].rollup
            <==> !Mentions(missed, key) || !Mentions(selected, key)
  {
    var all := RunSnapshots(samples);
    RunMatches(samples);
    assert KeyMatches(RunTable(samples), all, key);
    forall i | 0 <= i < |selected| ensures NoBars(selected[i]) {
      assert (selected + missed)[i] in multiset(all);
    }
    BackfillWrites(RunTable(samples), selected, key);
    TotalPermuted(all, selected + missed, key);
    TotalConcat(selected, missed, key);
  }

  /** The rebuild creates no row that the samples had not created. */
  lemma BackfillAddsNoRow(samples: seq<Sample>, selected: seq<Snapshot>, missed: seq<Snapshot>, key: DayKey)
    requires forall s :: s in RunSnapshots(samples) ==> NonNegative(s) && NoBars(s)
    requires multiset(RunSnapshots(samples)) == multiset(selected + missed)
    requires key in Backfill(RunTable(samples), selected)
    ensures key in RunTable(samples)
  {
    var all := RunSnapshots(samples);
    RunMatches(samples);
    assert KeyMatches(RunTable(samples), all, key);
    forall i | 0 <= i < |selected| ensures NoBars(selected[i]) && selected[i] in all {
      assert (selected + missed)[i] in multiset(all);
    }
    BackfillWrites(RunTable(samples), selected, key);
    if Mentions(selected, key) {
      var i :| 0 <= i < |selected| && KeyOf(selected[i]) == key;
      var j :| 0 <= j < |all| && all[j] == selected[i];
      assert KeyOf(all[j]) == key;
    }
  }

  /** Pruning keeps exactly the stored rows of the last thirty days, so never the sample being stored. */
  lemma {:induction false} UnprunedExact(stored: seq<Captured>, now: int)
    ensures forall x :: x in Unpruned(stored, now) <==> x in stored && x.capturedAt >= now - 2_592_000_000
  {
    if stored != [] {
      UnprunedExact(stored[..|stored| - 1], now);
      assert stored == stored[..|stored| - 1] + [stored[|stored| - 1]];
    }
  }
}
