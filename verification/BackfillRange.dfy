/** Which snapshots a from/to range of the rebuild selects, against the local days it names. */
module BackfillRange {
  const HOUR_MS := 60 * 60 * 1000
  const DAY_MS := 24 * HOUR_MS

  /** The local day, as a day number, of an instant at an offset from UTC. */
  function LocalDay(t: int, offset: int): int { (t + offset) / DAY_MS }

  /** The bounds are whole days at the fixed offset of ten hours, the upper one to the second. */
  predicate InRange(t: int, first: int, last: int) { RangeStart(first) <= t <= RangeEnd(last) }

  function RangeStart(first: int): int { first * DAY_MS - 10 * HOUR_MS }

  function RangeEnd(last: int): int { last * DAY_MS + DAY_MS - 1000 - 10 * HOUR_MS }

  /** The bounds in figures, ten hours before midnight UTC of the first day and 10 h and 1 s before that after the last. */
  lemma RangeSays(t: int, first: int, last: int)
    ensures InRange(t, first, last) <==> first * 86_400_000 - 36_000_000 <= t <= last * 86_400_000 + 50_399_000
    ensures forall offset :: LocalDay(t, offset) * 86_400_000 <= t + offset < (LocalDay(t, offset) + 1) * 86_400_000
  {
  }

  lemma DayBounds(t: int, offset: int, day: int)
    ensures LocalDay(t, offset) < day <==> t < day * DAY_MS - offset
  {
    var d := LocalDay(t, offset);
    assert d * DAY_MS <= t + offset < d * DAY_MS + DAY_MS;
    if d < day {
      assert (d + 1) * DAY_MS <= day * DAY_MS;
    } else {
      assert d * DAY_MS >= day * DAY_MS;
    }
  }

  /**
   * The exact difference between the days a range names and the snapshots it selects. In standard time only the last
   * second of the last day is missed. In daylight saving time the first hour of the first day is missed, and the first
   * hour after the last day, less its last second, is taken in.
   */
  lemma RangeMissesIff(t: int, daylight: bool, first: int, last: int)
    requires first <= last
    ensures var offset := if daylight then 11 * HOUR_MS else 10 * HOUR_MS;
            var named := first <= LocalDay(t, offset) <= last;
            && (named && !InRange(t, first, last)
                <==> if daylight then first * DAY_MS - offset <= t < first * DAY_MS - offset + HOUR_MS
                     else (last + 1) * DAY_MS - offset - 1000 < t < (last + 1) * DAY_MS - offset)
            && (!named && InRange(t, first, last)
                <==> daylight && (last + 1) * DAY_MS - offset <= t <= (last + 1) * DAY_MS - offset + HOUR_MS - 1000)
  {
    var offset := if daylight then 11 * HOUR_MS else 10 * HOUR_MS;
    DayBounds(t, offset, first);
    DayBounds(t, offset, last + 1);
    assert (last + 1) * DAY_MS == last * DAY_MS + DAY_MS;
    assert first * DAY_MS <= last * DAY_MS;
  }
}
