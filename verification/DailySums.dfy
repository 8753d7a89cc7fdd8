/**
 * The daily rows column by column: over any run of samples, pruning and rebuilds, every column is the sum (two of them the
 * maximum) of the matching figures of the sample rows stored, or of the snapshots a rebuild read.
 */
module DailySums {
  import opened Basics
  import opened HistoryAggregate
  import opened Percentile
  import opened SnapshotRow
  import opened DailyRollup
  import opened RollupRuns

  datatype Column =
    | Samples | Tracked | Delayed | Cancelled | Skipped | Early | DelaySeconds | P50 | P90 | Crowded
    | LongestDelay | Scheduled | OccupancyScores | OccupancyReadings | Minutes
    | PeakTracked | PeakDelayed | OffPeakTracked | OffPeakDelayed | OfEffect(effect: string)

  /** The columns that a rebuild cannot tell from snapshots. */
  predicate OnlySampled(c: Column) {
    c.PeakTracked? || c.PeakDelayed? || c.OffPeakTracked? || c.OffPeakDelayed? || c.OfEffect?
  }

  function Under(counts: map<string, nat>, effect: string): nat { if effect in counts then counts[effect] else 0 }

  /** What a sample's row brings to a column. */
  function OfRow(c: Column, row: Row): int {
    match c
    case Samples => 1
    case Tracked => row.trackedTrips
    case Delayed => row.delayedTrips
    case Cancelled => row.cancelledTrips
    case Skipped => row.skippedTrips
    case Early => row.earlyTrips
    case DelaySeconds =>
      if row.trackedTrips > row.cancelledTrips then row.avgDelaySeconds * (row.trackedTrips - row.cancelledTrips) else 0
    case P50 => row.delayP50Seconds
    case P90 => row.delayP90Seconds
    case Crowded => row.crowdedVehicles
    case LongestDelay => row.maxDelaySeconds
    case Scheduled => row.scheduledTrips
    case OccupancyScores => row.occupancyScoreSum
    case OccupancyReadings => row.occupancySamples
    case Minutes => row.disruptionMinutes
    case PeakTracked => row.peakTrackedTrips
    case PeakDelayed => row.peakDelayedTrips
    case OffPeakTracked => row.offPeakTrackedTrips
    case OffPeakDelayed => row.offPeakDelayedTrips
    case OfEffect(effect) => Under(row.disruptionCountByEffect, effect)
  }

  /** What a rebuild takes from a snapshot: occupancy and disruption minutes are estimates. */
  function OfSnapshot(c: Column, s: Snapshot): int {
    match c
    case Samples => 1
    case Tracked => s.trackedTrips
    case Delayed => s.delayedTrips
    case Cancelled => s.cancelledTrips
    case Skipped => s.skippedTrips
    case Early => s.earlyTrips
    case DelaySeconds =>
      if s.trackedTrips > s.cancelledTrips then s.avgDelaySeconds * (s.trackedTrips - s.cancelledTrips) else 0
    case P50 => s.delayP50Seconds
    case P90 => s.delayP90Seconds
    case Crowded => s.crowdedVehicles
    case LongestDelay => s.maxDelaySeconds
    case Scheduled => s.scheduledTrips
    case OccupancyScores => if s.avgOccupancy > 0 || s.crowdedVehicles > 0 then s.avgOccupancy * s.vehicles else 0
    case OccupancyReadings => if s.avgOccupancy > 0 || s.crowdedVehicles > 0 then s.vehicles else 0
    case Minutes => if s.activeDisruptions > 0 then 5 else 0
    case _ => 0
  }

  function Cell(c: Column, d: Daily): int {
    match c
    case Samples => d.rollup.samples
    case Tracked => d.rollup.trackedTrips
    case Delayed => d.rollup.delayedTrips
    case Cancelled => d.rollup.cancelledTrips
    case Skipped => d.rollup.skippedTrips
    case Early => d.rollup.earlyTrips
    case DelaySeconds => d.rollup.delaySecondsSum
    case P50 => d.rollup.delayP50Sum
    case P90 => d.rollup.delayP90Sum
    case Crowded => d.rollup.crowdedVehicleSamples
    case LongestDelay => d.rollup.maxDelaySeconds
    case Scheduled => d.rollup.scheduledTrips
    case OccupancyScores => d.occupancyScoreSum
    case OccupancyReadings => d.occupancySamples
    case Minutes => d.disruptionMinutes
    case PeakTracked => d.peakTrackedTrips
    case PeakDelayed => d.peakDelayedTrips
    case OffPeakTracked => d.offPeakTrackedTrips
    case OffPeakDelayed => d.offPeakDelayedTrips
    case OfEffect(effect) => Under(d.disruptionCountByEffect, effect)
  }

  /** A missing row reads as zeros. */
  function CellAt(c: Column, table: Table, key: DayKey): int { if key in table then Cell(c, table[key]) else 0 }

  /** The longest delay and the timetable size are maxima, all else is summed. */
  function Join(c: Column, a: int, b: int): int {
    if c.LongestDelay? || c.Scheduled? then (if a >= b then a else b) else a + b
  }

  /** `total` joined with the rows that are for the key's mode and line. */
  function WithRows(c: Column, total: int, day: string, rows: seq<Row>, key: DayKey): int {
    if rows == [] then total
    else
      var before, last := WithRows(c, total, day, rows[..|rows| - 1], key), rows[|rows| - 1];
      if day == key.day && last.mode == key.mode && last.line == key.line then Join(c, before, OfRow(c, last)) else before
  }

  function OverSnapshots(c: Column, snaps: seq<Snapshot>, key: DayKey): int {
    if snaps == [] then 0
    else
      var before, last := OverSnapshots(c, snaps[..|snaps| - 1], key), snaps[|snaps| - 1];
      if last.day == key.day && last.mode == key.mode && last.line == key.line then Join(c, before, OfSnapshot(c, last))
      else before
  }

  /** Stored rows count one by one; a rebuild that read a snapshot of the key starts its columns anew from what it read. */
  ghost function Expected(c: Column, steps: seq<Step>, key: DayKey): int {
    if steps == [] then 0
    else
      var before, last := steps[..|steps| - 1], steps[|steps| - 1];
      match last
      case Store(day, rows, _) =>
        if ChunksDistinct(day, rows) then WithRows(c, Expected(c, before, key), day, rows, key) else Expected(c, before, key)
      case Rebuild(from, to) =>
        var selected := Selected(Run(before).log, from, to);
        if !OnlySampled(c) && Mentions(selected, key) then OverSnapshots(c, selected, key) else Expected(c, before, key)
  }

  // ----- one row -----

  lemma UpsertCell(c: Column, table: Table, day: string, row: Row, key: DayKey)
    requires NonNegative(ToSnapshot(day, row))
    ensures CellAt(c, UpsertRow(table, day, row), key)
            == if day == key.day && row.mode == key.mode && row.line == key.line
               then Join(c, CellAt(c, table, key), OfRow(c, row)) else CellAt(c, table, key)
  {
  }

  lemma {:induction false} UpsertCells(c: Column, table: Table, day: string, rows: seq<Row>, key: DayKey)
    requires forall i :: 0 <= i < |rows| ==> NonNegative(ToSnapshot(day, rows[i]))
    ensures CellAt(c, UpsertRows(table, day, rows), key) == WithRows(c, CellAt(c, table, key), day, rows, key)
  {
    if rows != [] {
      var before := rows[..|rows| - 1];
      UpsertCells(c, table, day, before, key);
      UpsertCell(c, UpsertRows(table, day, before), day, rows[|rows| - 1], key);
    }
  }

  // ----- a rebuild -----

  function AsDaily(b: Bucket): Daily {
    Daily(b.rollup, b.occupancyScoreSum, b.occupancySamples, 0, 0, 0, 0, b.disruptionMinutes, map[])
  }

  lemma AddedCell(c: Column, b: Bucket, s: Snapshot)
    ensures Cell(c, AsDaily(AddToBucket(b, s))) == Join(c, Cell(c, AsDaily(b)), OfSnapshot(c, s)) || OnlySampled(c)
  {
  }

  lemma {:induction false} BucketCells(c: Column, snaps: seq<Snapshot>, s: Snapshot)
    requires !OnlySampled(c) && NoBars(s) && forall i :: 0 <= i < |snaps| ==> NoBars(snaps[i])
    ensures Cell(c, AsDaily(BucketOf(snaps, BucketName(s)))) == OverSnapshots(c, snaps, KeyOf(s))
  {
    if snaps != [] {
      var before, last := snaps[..|snaps| - 1], snaps[|snaps| - 1];
      BucketCells(c, before, s);
      NameOfKey(last, s);
      AddedCell(c, BucketOf(before, BucketName(s)), last);
    }
  }

  lemma BucketCell(c: Column, table: Table, snaps: seq<Snapshot>, s: Snapshot, key: DayKey)
    requires NoBars(s) && forall i :: 0 <= i < |snaps| ==> NoBars(snaps[i])
    ensures CellAt(c, Overwrite(table, SplitName(BucketName(s)), BucketOf(snaps, BucketName(s))), key)
            == if !OnlySampled(c) && KeyOf(s) == key then OverSnapshots(c, snaps, key) else CellAt(c, table, key)
  {
    SplitOfName(s);
    OverwrittenCell(c, table, KeyOf(s), BucketOf(snaps, BucketName(s)), key);
    if !OnlySampled(c) { BucketCells(c, snaps, s); }
  }

  lemma OverwrittenCell(c: Column, table: Table, at: DayKey, b: Bucket, key: DayKey)
    ensures CellAt(c, Overwrite(table, at, b), key)
            == if !OnlySampled(c) && at == key then Cell(c, AsDaily(b)) else CellAt(c, table, key)
  {
  }

  lemma {:induction false} OverwrittenCells(c: Column, table: Table, snaps: seq<Snapshot>, names: seq<string>, key: DayKey)
    requires forall i :: 0 <= i < |snaps| ==> NoBars(snaps[i])
    requires forall n :: n in names ==> n in Names(snaps)
    ensures CellAt(c, OverwriteAll(table, snaps, names), key)
            == if !OnlySampled(c) && exists n :: n in names && SplitName(n) == key then OverSnapshots(c, snaps, key)
               else CellAt(c, table, key)
  {
    if names != [] {
      var before, last := names[..|names| - 1], names[|names| - 1];
      OverwrittenCells(c, table, snaps, before, key);
      assert last in names;
      assert forall n :: n in names <==> n in before || n == last;
      NamesExact(snaps);
      var i :| 0 <= i < |snaps| && BucketName(snaps[i]) == last;
      BucketCell(c, OverwriteAll(table, snaps, before), snaps, snaps[i], key);
      SplitOfName(snaps[i]);
    }
  }

  lemma RebuiltCell(c: Column, table: Table, snaps: seq<Snapshot>, key: DayKey)
    requires forall i :: 0 <= i < |snaps| ==> NoBars(snaps[i])
    ensures CellAt(c, Backfill(table, snaps), key)
            == if !OnlySampled(c) && Mentions(snaps, key) then OverSnapshots(c, snaps, key) else CellAt(c, table, key)
  {
    OverwrittenCells(c, table, snaps, Names(snaps), key);
    NamesExact(snaps);
    if i :| 0 <= i < |snaps| && KeyOf(snaps[i]) == key {
      SplitOfName(snaps[i]);
      assert BucketName(snaps[i]) in Names(snaps);
    }
    if n :| n in Names(snaps) && SplitName(n) == key {
      var i :| 0 <= i < |snaps| && BucketName(snaps[i]) == n;
      SplitOfName(snaps[i]);
    }
  }

  // ----- any run -----

  /**
   * Every column of every row after any run. The four peak columns and the counts by effect take in every sample stored
   * and survive every rebuild; the others take in the snapshots of the last rebuild that read one of the key, and
   * every sample stored since.
   */
  lemma {:induction false} EveryColumn(c: Column, steps: seq<Step>, key: DayKey)
    requires forall i :: 0 <= i < |steps| ==> QualifiedRows(steps[i])
    ensures CellAt(c, Run(steps).daily, key) == Expected(c, steps, key)
  {
    if steps != [] {
      var before, last := steps[..|steps| - 1], steps[|steps| - 1];
      EveryColumn(c, before, key);
      assert QualifiedRows(last);
      match last {
        case Store(day, rows, _) =>
          UpsertCells(c, Run(before).daily, day, rows, key);
        case Rebuild(from, to) =>
          LogQualifies(before);
          SelectedQualify(Run(before).log, from, to);
          RebuiltCell(c, Run(before).daily, Selected(Run(before).log, from, to), key);
      }
    }
  }

  // ----- from the accumulator to the tables -----

  /** `q` is `sum / n` rounded, halves upwards; nothing over nothing is zero. */
  predicate RoundedMean(q: int, sum: int, n: int) {
    if n > 0 then 2 * sum - n < 2 * (q * n) <= 2 * sum + n else q == 0
  }

  /** `p` is the smallest number that at least `rank` of the values do not exceed, and is one of them; zero for no values. */
  ghost predicate RankValue(p: int, values: seq<int>, rank: nat) {
    if values == [] then p == 0
    else p in values && CountAtMost(values, p) >= rank && forall v :: CountAtMost(values, v) >= rank ==> p <= v
  }

  /** At least one, and otherwise the smallest count that is `percent` of `n`. */
  predicate IsRank(rank: nat, percent: nat, n: nat) {
    rank >= 1 && 100 * rank >= percent * n && (rank == 1 || 100 * (rank - 1) < percent * n)
  }

  lemma RoundedMeans(a: int, b: int)
    requires b > 0
    ensures RoundedMean(RoundedQuotient(a, b), a, b)
  {
    var q, m := RoundedQuotient(a, b), 2 * b;
    assert 2 * a + b == q * m + (2 * a + b) % m;
    assert q * m == 2 * (q * b);
  }

  lemma RankValues(values: seq<int>, percent: nat)
    requires percent <= 100
    ensures IsRank(Rank(percent, |values|), percent, |values|)
    ensures RankValue(PercentileOf(values, percent), values, Rank(percent, |values|))
  {
    if values != [] { NearestRank(values, percent); }
  }

  /** What a line's accumulator is stored as: its snapshot, and the figures that go to the daily row alone. */
  lemma StoredAs(day: string, mode: string, line: string, e: Accumulator)
    requires e.mode == mode && '|' !in mode && '|' !in line
    ensures var row := FromAccumulator(mode + "|" + line, e);
            && row.occupancyScoreSum == e.occupancyScoreSum && row.occupancySamples == e.occupancySamples
            && row.peakTrackedTrips == e.peakTrackedTrips && row.peakDelayedTrips == e.peakDelayedTrips
            && row.offPeakTrackedTrips == e.offPeakTrackedTrips && row.offPeakDelayedTrips == e.offPeakDelayedTrips
            && row.disruptionMinutes == e.disruptionMinutes && row.disruptionCountByEffect == e.disruptionCountByEffect
    ensures var s := ToSnapshot(day, FromAccumulator(mode + "|" + line, e));
            && s.day == day && s.mode == mode && s.line == line
            && s.vehicles == e.vehicles && s.crowdedVehicles == e.crowdedVehicles
            && s.trackedTrips == e.trackedTrips && s.delayedTrips == e.delayedTrips && s.earlyTrips == e.earlyTrips
            && s.cancelledTrips == e.cancelledTrips && s.skippedTrips == e.skippedTrips
            && s.scheduledTrips == e.scheduledTrips && s.activeDisruptions == e.disruptions
            && s.maxDelaySeconds == e.maxDelay
            && RoundedMean(s.avgDelaySeconds, e.delaySum, e.trackedTrips - e.cancelledTrips)
            && RoundedMean(s.avgOccupancy, e.occupancyScoreSum, e.occupancySamples)
            && (exists rank: nat :: IsRank(rank, 50, |e.delays|) && RankValue(s.delayP50Seconds, e.delays, rank))
            && (exists rank: nat :: IsRank(rank, 90, |e.delays|) && RankValue(s.delayP90Seconds, e.delays, rank))
  {
    assert mode + "|" + line == Key(mode, line);
    SecondPieceOfKey(mode, line);
    NoBarUpToBar(line);
    RankValues(e.delays, 50);
    RankValues(e.delays, 90);
    if e.trackedTrips > e.cancelledTrips { RoundedMeans(e.delaySum, e.trackedTrips - e.cancelledTrips); }
    if e.occupancySamples > 0 { RoundedMeans(e.occupancyScoreSum, e.occupancySamples); }
  }
}
