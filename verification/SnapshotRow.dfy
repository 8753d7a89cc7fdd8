/** One line's accumulator as the row that is stored: rounded mean, percentiles, and the line read back from its key. */
module SnapshotRow {
  import opened Basics
  import opened HistoryAggregate
  import opened HistoryLedger
  import Percentile

  datatype Row = Row(
    mode: string, line: string, vehicles: int, trackedTrips: int, delayedTrips: int, cancelledTrips: int,
    skippedTrips: int, earlyTrips: int, avgDelaySeconds: int, maxDelaySeconds: int, delayP50Seconds: int,
    delayP90Seconds: int, avgOccupancy: int, crowdedVehicles: int, activeDisruptions: int, scheduledTrips: int,
    disruptionMinutes: int, disruptionCountByEffect: map<string, nat>,
    peakTrackedTrips: int, peakDelayedTrips: int, offPeakTrackedTrips: int, offPeakDelayedTrips: int,
    occupancyScoreSum: int, occupancySamples: int)

  /** Division rounded to the nearest integer, halves upwards. */
  function RoundedQuotient(a: int, b: int): int
    requires b > 0
  {
    (2 * a + b) / (2 * b)
  }

  function UpToBar(s: string): string {
    if s == "" || s[0] == '|' then "" else [s[0]] + UpToBar(s[1..])
  }

  /** The second of the pieces between bars, as splitting the key gives it. */
  function SecondPiece(key: string): string {
    if key == "" then "" else if key[0] == '|' then UpToBar(key[1..]) else SecondPiece(key[1..])
  }

  function ActiveTrips(e: Accumulator): int { e.trackedTrips - e.cancelledTrips }

  function AverageDelay(e: Accumulator): int {
    if ActiveTrips(e) > 0 then RoundedQuotient(e.delaySum, ActiveTrips(e)) else 0
  }

  function PercentileOf(delays: seq<int>, p: nat): int {
    GetOr(Percentile.Percentile(delays, p), 0)
  }

  function FromAccumulator(key: string, e: Accumulator): Row {
    Row(e.mode, SecondPiece(key), e.vehicles, e.trackedTrips, e.delayedTrips, e.cancelledTrips, e.skippedTrips,
        e.earlyTrips, AverageDelay(e), e.maxDelay, PercentileOf(e.delays, 50), PercentileOf(e.delays, 90),
        if e.occupancySamples > 0 then RoundedQuotient(e.occupancyScoreSum, e.occupancySamples) else 0,
        e.crowdedVehicles, e.disruptions, e.scheduledTrips, e.disruptionMinutes, e.disruptionCountByEffect,
        e.peakTrackedTrips, e.peakDelayedTrips, e.offPeakTrackedTrips, e.offPeakDelayedTrips,
        e.occupancyScoreSum, e.occupancySamples)
  }

  function Rows(lines: Lines): (rows: seq<Row>)
    requires forall key :: key in lines.order ==> key in lines.entries
    ensures |rows| == |lines.order|
  {
    seq(|lines.order|, i requires 0 <= i < |lines.order| => FromAccumulator(lines.order[i], lines.entries[lines.order[i]]))
  }

  /** Every stored row has p50 <= p90 <= max, and no negative maximum. */
  lemma PercentilesOrdered(key: string, e: Accumulator)
    requires Consistent(e)
    ensures var row := FromAccumulator(key, e);
            row.delayP50Seconds <= row.delayP90Seconds <= row.maxDelaySeconds && 0 <= row.maxDelaySeconds
  {
    Percentile.Monotone(e.delays, 50, 90);
    if e.delays != [] {
      Percentile.NearestRank(e.delays, 90);
    }
  }

  /** The weight a row puts into the day's delay sum. */
  function DelayWeight(row: Row): int {
    row.avgDelaySeconds * Max(0, row.trackedTrips - row.cancelledTrips)
  }

  lemma RoundingError(a: int, b: int)
    requires b > 0
    ensures -b <= 2 * (RoundedQuotient(a, b) * b - a) <= b
  {
    var q := RoundedQuotient(a, b);
    assert 2 * a + b == q * (2 * b) + (2 * a + b) % (2 * b);
    assert q * (2 * b) == 2 * (q * b);
  }

  /**
   * A row's delay weight is within half its active trips of the true sum of its non-negative delays,
   * and a line with no active trip weighs exactly nothing.
   */
  lemma RowDrift(key: string, e: Accumulator)
    requires Consistent(e)
    ensures var weight := DelayWeight(FromAccumulator(key, e));
            -ActiveTrips(e) <= 2 * (weight - DelayTotal(e.delays)) <= ActiveTrips(e)
    ensures ActiveTrips(e) == 0 ==> DelayWeight(FromAccumulator(key, e)) == 0 == DelayTotal(e.delays)
  {
    if ActiveTrips(e) > 0 {
      RoundingError(e.delaySum, ActiveTrips(e));
    } else {
      assert e.delays == [];
    }
  }

  function TrueDelay(samples: seq<(string, Accumulator)>): int {
    if samples == [] then 0 else DelayTotal(samples[0].1.delays) + TrueDelay(samples[1..])
  }

  function StoredDelay(samples: seq<(string, Accumulator)>): int {
    if samples == [] then 0 else DelayWeight(FromAccumulator(samples[0].0, samples[0].1)) + StoredDelay(samples[1..])
  }

  function TotalActive(samples: seq<(string, Accumulator)>): int {
    if samples == [] then 0 else ActiveTrips(samples[0].1) + TotalActive(samples[1..])
  }

  /** Rounding never drifts: over any number of samples the stored sum is off by at most half the active trips. */
  lemma {:induction false} DriftBound(samples: seq<(string, Accumulator)>)
    requires forall i :: 0 <= i < |samples| ==> Consistent(samples[i].1)
    ensures -TotalActive(samples) <= 2 * (StoredDelay(samples) - TrueDelay(samples)) <= TotalActive(samples)
  {
    if samples != [] {
      RowDrift(samples[0].0, samples[0].1);
      DriftBound(samples[1..]);
    }
  }

  // ----- which rows share a (mode, line) -----

  lemma {:induction false} SecondPieceOfKey(mode: string, line: string)
    requires '|' !in mode
    ensures SecondPiece(Key(mode, line)) == UpToBar(line)
  {
    if mode != "" {
      assert Key(mode, line)[1..] == Key(mode[1..], line);
      SecondPieceOfKey(mode[1..], line);
    } else {
      assert Key(mode, line) == "|" + line;
    }
  }

  lemma {:induction false} NoBarUpToBar(line: string)
    ensures '|' !in UpToBar(line)
    ensures '|' !in line ==> UpToBar(line) == line
  {
    if line != "" && line[0] != '|' {
      NoBarUpToBar(line[1..]);
      assert line == [line[0]] + line[1..];
    }
  }

  /** When neither modes nor lines contain a bar, no two rows of a sample have the same mode and line. */
  lemma RowsDistinct(lines: Lines)
    requires Sound(lines)
    requires forall key :: key in lines.order ==>
               '|' !in lines.entries[key].mode && '|' !in key[|lines.entries[key].mode| + 1..]
    ensures forall i, j :: 0 <= i < j < |lines.order| ==>
              Rows(lines)[i].mode != Rows(lines)[j].mode || Rows(lines)[i].line != Rows(lines)[j].line
  {
    forall i, j | 0 <= i < j < |lines.order| && Rows(lines)[i].mode == Rows(lines)[j].mode
      ensures Rows(lines)[i].line != Rows(lines)[j].line
    {
      RowNamesItsKey(lines, i);
      RowNamesItsKey(lines, j);
    }
  }

  lemma RowNamesItsKey(lines: Lines, i: nat)
    requires Sound(lines) && i < |lines.order|
    requires var key := lines.order[i];
             '|' !in lines.entries[key].mode && '|' !in key[|lines.entries[key].mode| + 1..]
    ensures lines.order[i] == Key(Rows(lines)[i].mode, Rows(lines)[i].line)
  {
    var key := lines.order[i];
    var e := lines.entries[key];
    assert SoundEntry(key, e);
    var line := key[|e.mode| + 1..];
    assert key == Key(e.mode, line);
    SecondPieceOfKey(e.mode, line);
    NoBarUpToBar(line);
  }
}
