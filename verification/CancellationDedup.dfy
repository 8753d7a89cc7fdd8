/**
 * The sampler: a lock, one aggregated sample, one transaction, and two Redis
 * lists that remember which trips the day has already counted as cancelled or
 * skipped. Over a whole day the counted trips are the distinct ones.
 */
module CancellationDedup {
  import opened Basics
  import Redis
  import Totals
  import opened HistoryAggregate
  import opened SnapshotRow
  import opened DailyRollup
  import Ledger = HistoryLedger

  const DEDUP_TTL_SECONDS := 26 * 60 * 60
  const SAMPLER_LOCK_TTL_SECONDS := 4 * 60
  const SAMPLER_LOCK_KEY := "history:sampler:lock"

  datatype Fault = NoFault | TransactionFails | CancelledWriteFails | SkippedWriteFails

  /** One firing of the schedule; the feed's own already-counted sets are filled in from Redis. */
  datatype Firing = Firing(now: int, day: string, feed: Input, fault: Fault)

  datatype Outcome = LockHeld | StaleFeed | EmptySample | Failed | Stored

  datatype Sampler = Sampler(
    locks: Redis.Keyspace<()>,
    cancelledSeen: Redis.Keyspace<seq<string>>,
    skippedSeen: Redis.Keyspace<seq<string>>,
    daily: Table)

  function Members(ids: seq<string>): set<string> { set id | id in ids }

  function StoredIds(m: Redis.Keyspace<seq<string>>, day: string, now: int): seq<string> {
    var stored := Redis.Get(m, day, now);
    if stored.Some? then stored.value else []
  }

  /** The stored list is read into a set, which lists every id once. */
  function SeenIds(m: Redis.Keyspace<seq<string>>, day: string, now: int): seq<string> {
    Once(StoredIds(m, day, now))
  }

  function InputFor(s: Sampler, f: Firing): Input {
    f.feed.(alreadyCancelled := Members(SeenIds(s.cancelledSeen, f.day, f.now)),
            alreadySkipped := Members(SeenIds(s.skippedSeen, f.day, f.now)))
  }

  ghost function RowsOf(s: Sampler, f: Firing): seq<Row> {
    Ledger.SampleLedger(InputFor(s, f));
    Rows(Sampled(InputFor(s, f)).byLine)
  }

  function Remember(m: Redis.Keyspace<seq<string>>, f: Firing, newly: seq<string>): Redis.Keyspace<seq<string>> {
    if newly == [] then m
    else Redis.Put(m, f.day, SeenIds(m, f.day, f.now) + newly, DEDUP_TTL_SECONDS, f.now)
  }

  /** After the transaction has committed: the cancelled list is written first, then the skipped list. */
  ghost function Committed(s: Sampler, f: Firing): (Sampler, Outcome) {
    var r := Sampled(InputFor(s, f));
    var stored := s.(daily := UpsertRows(s.daily, f.day, RowsOf(s, f)));
    if f.fault == CancelledWriteFails && r.newlyCancelled != [] then (stored, Failed)
    else
      var noted := stored.(cancelledSeen := Remember(s.cancelledSeen, f, r.newlyCancelled));
      if f.fault == SkippedWriteFails && r.newlySkipped != [] then (noted, Failed)
      else (noted.(skippedSeen := Remember(s.skippedSeen, f, r.newlySkipped)), Stored)
  }

  ghost predicate Commits(s: Sampler, f: Firing) {
    && !Redis.Alive(s.locks, SAMPLER_LOCK_KEY, f.now)
    && !Sampled(InputFor(s, f)).feedStale
    && Sampled(InputFor(s, f)).byLine.order != []
    && f.fault != TransactionFails
    && ChunksDistinct(f.day, RowsOf(s, f))
  }

  ghost function Attempt(s: Sampler, f: Firing): (Sampler, Outcome) {
    var r := Sampled(InputFor(s, f));
    if r.feedStale then (s, StaleFeed)
    else if r.byLine.order == [] then (s, EmptySample)
    else if f.fault == TransactionFails || !ChunksDistinct(f.day, RowsOf(s, f)) then (s, Failed)
    else Committed(s, f)
  }

  /** The lock is taken first and never given back; it just expires. */
  ghost function Fire(s: Sampler, f: Firing): (Sampler, Outcome) {
    if Redis.Alive(s.locks, SAMPLER_LOCK_KEY, f.now) then (s, LockHeld)
    else
      var (s', outcome) := Attempt(s, f);
      (s'.(locks := Redis.Put(s.locks, SAMPLER_LOCK_KEY, (), SAMPLER_LOCK_TTL_SECONDS, f.now)), outcome)
  }

  class HistorySamplerService {
    var locks: Redis.Keyspace<()>
    var cancelledSeen: Redis.Keyspace<seq<string>>
    var skippedSeen: Redis.Keyspace<seq<string>>
    const store: HistoryStore

    ghost function View(): Sampler
      reads this, store
    {
      Sampler(locks, cancelledSeen, skippedSeen, store.daily)
    }

    constructor (store: HistoryStore)
      ensures this.store == store && View() == Sampler(map[], map[], map[], store.daily)
    {
      this.store := store;
      locks, cancelledSeen, skippedSeen := map[], map[], map[];
    }

    method Sample(f: Firing) returns (outcome: Outcome)
      modifies this, store
      ensures (View(), outcome) == Fire(old(View()), f)
    {
      if Redis.Alive(locks, SAMPLER_LOCK_KEY, f.now) {
        return LockHeld;
      }
      locks := Redis.Put(locks, SAMPLER_LOCK_KEY, (), SAMPLER_LOCK_TTL_SECONDS, f.now);
      var alreadyCancelled := SeenIds(cancelledSeen, f.day, f.now);
      var alreadySkipped := SeenIds(skippedSeen, f.day, f.now);
      var input := f.feed.(alreadyCancelled := Members(alreadyCancelled), alreadySkipped := Members(alreadySkipped));
      var aggregated := AggregateHistorySample(input);
      if aggregated.feedStale {
        return StaleFeed;
      }
      if aggregated.byLine.order == [] {
        return EmptySample;
      }
      if f.fault == TransactionFails {
        return Failed;
      }
      Ledger.SampleLedger(input);
      var committed := store.Persist(f.day, Rows(aggregated.byLine), f.now);
      if !committed {
        return Failed;
      }
      if aggregated.newlyCancelled != [] {
        if f.fault == CancelledWriteFails {
          return Failed;
        }
        cancelledSeen :=
          Redis.Put(cancelledSeen, f.day, alreadyCancelled + aggregated.newlyCancelled, DEDUP_TTL_SECONDS, f.now);
      }
      if aggregated.newlySkipped != [] {
        if f.fault == SkippedWriteFails {
          return Failed;
        }
        skippedSeen :=
          Redis.Put(skippedSeen, f.day, alreadySkipped + aggregated.newlySkipped, DEDUP_TTL_SECONDS, f.now);
      }
      return Stored;
    }
  }

  // ----- sums over a day -----

  function CancelledOf(d: Daily): int { d.rollup.cancelledTrips }
  function SkippedOf(d: Daily): int { d.rollup.skippedTrips }

  ghost function OfDay(table: Table, day: string): Table {
    map key | key in table && key.day == day :: table[key]
  }

  ghost function DaySum(table: Table, day: string, f: Daily -> int): int {
    Totals.Sum(OfDay(table, day), f)
  }

  ghost predicate Additive(f: Daily -> int) {
    forall a, b :: f(Merge(a, b)) == f(a) + f(b)
  }

  function RowSum(rows: seq<Row>, f: Daily -> int): int {
    if rows == [] then 0 else RowSum(rows[..|rows| - 1], f) + f(ToDaily(rows[|rows| - 1]))
  }

  lemma {:induction false} UpsertAddsToDay(table: Table, day: string, rows: seq<Row>, f: Daily -> int)
    requires Additive(f)
    ensures DaySum(UpsertRows(table, day, rows), day, f) == DaySum(table, day, f) + RowSum(rows, f)
  {
    if rows != [] {
      var before := UpsertRows(table, day, rows[..|rows| - 1]);
      var row := rows[|rows| - 1];
      UpsertAddsToDay(table, day, rows[..|rows| - 1], f);
      var after := UpsertRow(before, day, row);
      var key := RowKey(day, row);
      assert OfDay(after, day) == OfDay(before, day)[key := after[key]];
      Totals.SumPut(OfDay(before, day), f, key, after[key]);
    }
  }

  lemma {:induction false} RowSumIsLineSum(lines: Lines, n: nat)
    requires forall key :: key in lines.order ==> key in lines.entries
    requires n <= |lines.order|
    ensures RowSum(Rows(lines)[..n], CancelledOf)
            == Totals.SeqSum(lines.order[..n], lines.entries, Ledger.CancelledTrips)
    ensures RowSum(Rows(lines)[..n], SkippedOf)
            == Totals.SeqSum(lines.order[..n], lines.entries, Ledger.SkippedTrips)
  {
    if n > 0 {
      RowSumIsLineSum(lines, n - 1);
      assert Rows(lines)[..n][..n - 1] == Rows(lines)[..n - 1];
      assert lines.order[..n][..n - 1] == lines.order[..n - 1];
      assert Rows(lines)[n - 1] == FromAccumulator(lines.order[n - 1], lines.entries[lines.order[n - 1]]);
    }
  }

  lemma RowSumsAreTotals(lines: Lines)
    requires Ledger.Sound(lines)
    ensures RowSum(Rows(lines), CancelledOf) == Totals.Sum(lines.entries, Ledger.CancelledTrips)
    ensures RowSum(Rows(lines), SkippedOf) == Totals.Sum(lines.entries, Ledger.SkippedTrips)
  {
    RowSumIsLineSum(lines, |lines.order|);
    assert Rows(lines)[..|lines.order|] == Rows(lines) && lines.order[..|lines.order|] == lines.order;
    Totals.SumInOrder(lines.order, lines.entries, Ledger.CancelledTrips);
    Totals.SumInOrder(lines.order, lines.entries, Ledger.SkippedTrips);
  }

  lemma RowSumsAreNewIds(s: Sampler, f: Firing)
    ensures RowSum(RowsOf(s, f), CancelledOf) == |Sampled(InputFor(s, f)).newlyCancelled|
    ensures RowSum(RowsOf(s, f), SkippedOf) == |Sampled(InputFor(s, f)).newlySkipped|
  {
    Ledger.SampleLedger(InputFor(s, f));
    RowSumsAreTotals(Sampled(InputFor(s, f)).byLine);
  }

  // ----- which ids a sample counts -----

  ghost function IdSet(tus: seq<TripUpdate>, p: TripUpdate -> bool): set<string> {
    set i | 0 <= i < |tus| && p(tus[i]) :: tus[i].tripId
  }

  ghost predicate DistinctWhere(tus: seq<TripUpdate>, p: TripUpdate -> bool) {
    forall i, j :: 0 <= i < j < |tus| && p(tus[i]) && p(tus[j]) ==> tus[i].tripId != tus[j].tripId
  }

  predicate RunsWithSkip(tu: TripUpdate) { !Cancelled(tu) && HasSkippedStop(tu) }

  /** The cancelled trips of a feed, and the trips running with a skipped stop. */
  ghost function CancelledTripIds(tus: seq<TripUpdate>): set<string> { IdSet(tus, Cancelled) }

  ghost function SkippedTripIds(tus: seq<TripUpdate>): set<string> { IdSet(tus, RunsWithSkip) }

  ghost predicate IdsDistinct(tus: seq<TripUpdate>) {
    DistinctWhere(tus, Cancelled) && DistinctWhere(tus, RunsWithSkip)
  }

  lemma {:induction false} IdsWhereMembers(tus: seq<TripUpdate>, p: TripUpdate -> bool)
    ensures Members(IdsWhere(tus, p)) == IdSet(tus, p)
  {
    if tus != [] {
      var before := tus[..|tus| - 1];
      IdsWhereMembers(before, p);
      forall id ensures id in IdsWhere(tus, p) <==> id in IdSet(tus, p) {
        assert id in IdsWhere(before, p) <==> id in Members(IdsWhere(before, p));
        if id in IdSet(before, p) {
          var i :| 0 <= i < |before| && p(before[i]) && before[i].tripId == id;
          assert tus[i] == before[i];
        }
        if id in IdSet(tus, p) {
          var i :| 0 <= i < |tus| && p(tus[i]) && tus[i].tripId == id;
          if i < |before| {
            assert before[i] == tus[i];
          }
        }
      }
    }
  }

  lemma {:induction false} IdsWhereDistinct(tus: seq<TripUpdate>, p: TripUpdate -> bool)
    requires DistinctWhere(tus, p)
    ensures NoRepeats(IdsWhere(tus, p))
  {
    if tus != [] {
      var before := tus[..|tus| - 1];
      var last := tus[|tus| - 1];
      assert DistinctWhere(before, p) by {
        forall i | 0 <= i < |before| ensures before[i] == tus[i] {}
      }
      IdsWhereDistinct(before, p);
      IdsWhereMembers(before, p);
      if p(last) {
        forall i | 0 <= i < |before| && p(before[i]) ensures before[i].tripId != last.tripId {
          assert tus[i] == before[i] && tus[|tus| - 1] == last;
        }
        AppendDistinct(IdsWhere(before, p), last.tripId, IdSet(before, p));
      }
    }
  }

  lemma NewIdsExact(input: Input, tus: seq<TripUpdate>)
    ensures Members(CancelledIds(input, tus)) == CancelledTripIds(tus) - input.alreadyCancelled
    ensures Members(SkippedIds(input, tus)) == SkippedTripIds(tus) - input.alreadySkipped
  {
    IdsWhereMembers(tus, tu => NewlyCancelled(input, tu));
    IdsWhereMembers(tus, tu => NewlySkipped(input, tu));
  }

  lemma NewIdsDistinct(input: Input, tus: seq<TripUpdate>)
    requires IdsDistinct(tus)
    ensures NoRepeats(CancelledIds(input, tus)) && NoRepeats(SkippedIds(input, tus))
  {
    IdsWhereDistinct(tus, tu => NewlyCancelled(input, tu));
    IdsWhereDistinct(tus, tu => NewlySkipped(input, tu));
  }

  lemma MembersConcat(a: seq<string>, b: seq<string>)
    ensures Members(a + b) == Members(a) + Members(b)
  {
    forall id ensures id in a + b <==> id in a || id in b {}
  }

  lemma AppendDistinct(ids: seq<string>, id: string, known: set<string>)
    requires Members(ids) <= known
    ensures NoRepeats(ids) && id !in known ==> NoRepeats(ids + [id])
  {
    if NoRepeats(ids) && id !in known {
      forall i | 0 <= i < |ids| ensures ids[i] != id {
        assert ids[i] in Members(ids);
      }
    }
  }

  lemma {:induction false} NoRepeatsCounts(ids: seq<string>)
    ensures |Members(ids)| <= |ids|
    ensures NoRepeats(ids) <==> |Members(ids)| == |ids|
  {
    if ids != [] {
      var before := ids[..|ids| - 1];
      var last := ids[|ids| - 1];
      NoRepeatsCounts(before);
      assert ids == before + [last];
      assert Members(ids) == Members(before) + {last};
      if last in Members(before) {
        assert Members(ids) == Members(before);
        var i :| 0 <= i < |before| && before[i] == last;
        assert ids[i] == ids[|ids| - 1];
      } else {
        AppendDistinct(before, last, Members(before));
        assert NoRepeats(ids) ==> NoRepeats(before);
      }
    }
  }

  // ----- a whole day -----

  /** What the stored list and the day's rows say after the trips `seen` have been counted. */
  ghost predicate CountsExactly(stored: seq<string>, sum: int, seen: set<string>) {
    && Members(stored) == seen
    && NoRepeats(stored)
    && sum == |seen|
  }

  const DAY_MS := 25 * 60 * 60 * 1000

  /** A list written for the day stays readable until the day is over, even a 25-hour one. */
  ghost predicate LastsTheDay(m: Redis.Keyspace<seq<string>>, day: string, start: int) {
    day in m ==> m[day].expiresAt >= start + DAY_MS
  }

  ghost predicate DayInv(s: Sampler, day: string, start: int, cancelled: set<string>, skipped: set<string>) {
    && LastsTheDay(s.cancelledSeen, day, start)
    && LastsTheDay(s.skippedSeen, day, start)
    && CountsExactly(SeenIds(s.cancelledSeen, day, start), DaySum(s.daily, day, CancelledOf), cancelled)
    && CountsExactly(SeenIds(s.skippedSeen, day, start), DaySum(s.daily, day, SkippedOf), skipped)
  }

  ghost predicate DuringDay(f: Firing, day: string, start: int) {
    f.day == day && start <= f.now <= start + DAY_MS
  }

  lemma SeenAllDay(m: Redis.Keyspace<seq<string>>, day: string, start: int, now: int)
    requires LastsTheDay(m, day, start) && start <= now <= start + DAY_MS
    ensures SeenIds(m, day, now) == SeenIds(m, day, start)
  {
  }

  lemma ConcatDistinct(a: seq<string>, b: seq<string>)
    requires NoRepeats(a) && NoRepeats(b) && Members(a) !! Members(b)
    ensures NoRepeats(a + b)
  {
    forall i, j | 0 <= i < |a| && 0 <= j < |b| ensures a[i] != b[j] {
      assert a[i] in Members(a) && b[j] in Members(b);
    }
  }

  lemma ListGrows(stored: seq<string>, newly: seq<string>, sum: int, seen: set<string>, present: set<string>)
    requires CountsExactly(stored, sum, seen)
    requires Members(newly) == present - seen && NoRepeats(newly)
    ensures CountsExactly(Once(stored + newly), sum + |newly|, seen + present)
  {
    OnceFacts(stored + newly);
    MembersConcat(stored, newly);
    assert Members(stored + newly) == seen + present;
    ConcatDistinct(stored, newly);
    NoRepeatsCounts(stored + newly);
    NoRepeatsCounts(stored);
  }

  lemma RememberWrites(m: Redis.Keyspace<seq<string>>, f: Firing, start: int, newly: seq<string>)
    requires LastsTheDay(m, f.day, start) && start <= f.now <= start + DAY_MS
    ensures LastsTheDay(Remember(m, f, newly), f.day, start)
    ensures SeenIds(Remember(m, f, newly), f.day, start) == Once(SeenIds(m, f.day, start) + newly)
  {
    SeenAllDay(m, f.day, start, f.now);
    if newly == [] {
      assert SeenIds(m, f.day, start) + newly == SeenIds(m, f.day, start);
      OnceFacts(StoredIds(m, f.day, start));
      OnceFacts(SeenIds(m, f.day, start));
    }
  }

  ghost predicate Healthy(f: Firing) {
    IdsDistinct(f.feed.tripUpdates) && (f.fault == NoFault || f.fault == TransactionFails)
  }

  lemma FireCommits(s: Sampler, f: Firing)
    requires Commits(s, f)
    ensures Fire(s, f).0.daily == Committed(s, f).0.daily
    ensures Fire(s, f).0.cancelledSeen == Committed(s, f).0.cancelledSeen
    ensures Fire(s, f).0.skippedSeen == Committed(s, f).0.skippedSeen
  {
    assert Attempt(s, f) == Committed(s, f);
  }

  lemma CommittedRows(s: Sampler, f: Firing)
    ensures Committed(s, f).0.daily == UpsertRows(s.daily, f.day, RowsOf(s, f))
  {
  }

  lemma CommittedCancels(s: Sampler, f: Firing)
    ensures var newly := Sampled(InputFor(s, f)).newlyCancelled;
            Committed(s, f).0.cancelledSeen ==
              if f.fault == CancelledWriteFails then s.cancelledSeen else Remember(s.cancelledSeen, f, newly)
  {
  }

  /** The skipped list is written after the cancelled one, so it is lost with either failure. */
  ghost predicate SkippedWriteLost(s: Sampler, f: Firing) {
    f.fault == SkippedWriteFails || (f.fault == CancelledWriteFails && Sampled(InputFor(s, f)).newlyCancelled != [])
  }

  lemma CommittedSkips(s: Sampler, f: Firing)
    ensures var newly := Sampled(InputFor(s, f)).newlySkipped;
            Committed(s, f).0.skippedSeen ==
              if SkippedWriteLost(s, f) then s.skippedSeen else Remember(s.skippedSeen, f, newly)
  {
  }

  lemma CommittedState(s: Sampler, f: Firing)
    requires Commits(s, f)
    ensures var r := Sampled(InputFor(s, f));
            var s' := Fire(s, f).0;
            && s'.daily == UpsertRows(s.daily, f.day, RowsOf(s, f))
            && s'.cancelledSeen ==
                 (if f.fault == CancelledWriteFails then s.cancelledSeen
                  else Remember(s.cancelledSeen, f, r.newlyCancelled))
            && s'.skippedSeen ==
                 (if SkippedWriteLost(s, f) then s.skippedSeen else Remember(s.skippedSeen, f, r.newlySkipped))
  {
    FireCommits(s, f);
    CommittedRows(s, f);
    CommittedCancels(s, f);
    CommittedSkips(s, f);
  }

  lemma CommitMovesSums(s: Sampler, f: Firing)
    ensures DaySum(UpsertRows(s.daily, f.day, RowsOf(s, f)), f.day, CancelledOf)
            == DaySum(s.daily, f.day, CancelledOf) + |Sampled(InputFor(s, f)).newlyCancelled|
    ensures DaySum(UpsertRows(s.daily, f.day, RowsOf(s, f)), f.day, SkippedOf)
            == DaySum(s.daily, f.day, SkippedOf) + |Sampled(InputFor(s, f)).newlySkipped|
  {
    RowSumsAreNewIds(s, f);
    UpsertAddsToDay(s.daily, f.day, RowsOf(s, f), CancelledOf);
    UpsertAddsToDay(s.daily, f.day, RowsOf(s, f), SkippedOf);
  }

  /**
   * One firing. Whatever the outcome, the lists and sums stay exact for the trips counted so far, provided the
   * feed does not list a trip twice and, if the transaction committed, both lists were then written.
   */
  lemma FireKeepsDayInv(s: Sampler, f: Firing, start: int, cancelled: set<string>, skipped: set<string>)
    requires DayInv(s, f.day, start, cancelled, skipped) && DuringDay(f, f.day, start) && Healthy(f)
    ensures var tus := f.feed.tripUpdates;
            if Commits(s, f) then
              DayInv(Fire(s, f).0, f.day, start, cancelled + CancelledTripIds(tus), skipped + SkippedTripIds(tus))
            else DayInv(Fire(s, f).0, f.day, start, cancelled, skipped)
  {
    if Commits(s, f) {
      var tus := f.feed.tripUpdates;
      var input := InputFor(s, f);
      CommittedState(s, f);
      CommitMovesSums(s, f);
      SeenAllDay(s.cancelledSeen, f.day, start, f.now);
      SeenAllDay(s.skippedSeen, f.day, start, f.now);
      NewIdsExact(input, tus);
      NewIdsDistinct(input, tus);
      RememberWrites(s.cancelledSeen, f, start, CancelledIds(input, tus));
      RememberWrites(s.skippedSeen, f, start, SkippedIds(input, tus));
      ListGrows(SeenIds(s.cancelledSeen, f.day, start), CancelledIds(input, tus),
                DaySum(s.daily, f.day, CancelledOf), cancelled, CancelledTripIds(tus));
      ListGrows(SeenIds(s.skippedSeen, f.day, start), SkippedIds(input, tus),
                DaySum(s.daily, f.day, SkippedOf), skipped, SkippedTripIds(tus));
    }
  }

  ghost function After(s: Sampler, firings: seq<Firing>): Sampler {
    if firings == [] then s else Fire(After(s, firings[..|firings| - 1]), firings[|firings| - 1]).0
  }

  ghost function CountedCancelled(s: Sampler, firings: seq<Firing>): set<string> {
    if firings == [] then {}
    else
      var before := firings[..|firings| - 1];
      var last := firings[|firings| - 1];
      CountedCancelled(s, before)
      + (if Commits(After(s, before), last) then CancelledTripIds(last.feed.tripUpdates) else {})
  }

  ghost function CountedSkipped(s: Sampler, firings: seq<Firing>): set<string> {
    if firings == [] then {}
    else
      var before := firings[..|firings| - 1];
      var last := firings[|firings| - 1];
      CountedSkipped(s, before)
      + (if Commits(After(s, before), last) then SkippedTripIds(last.feed.tripUpdates) else {})
  }

  lemma NothingCounted(s: Sampler, day: string, start: int, cancelled: set<string>, skipped: set<string>)
    requires DayInv(s, day, start, cancelled, skipped)
    ensures DayInv(s, day, start, cancelled + {}, skipped + {})
  {
    assert cancelled + {} == cancelled && skipped + {} == skipped;
  }

  lemma {:induction false} DayRun(s: Sampler, firings: seq<Firing>, day: string, start: int)
    requires OfDay(s.daily, day) == map[] && day !in s.cancelledSeen && day !in s.skippedSeen
    requires forall i :: 0 <= i < |firings| ==> DuringDay(firings[i], day, start) && Healthy(firings[i])
    ensures DayInv(After(s, firings), day, start, CountedCancelled(s, firings), CountedSkipped(s, firings))
  {
    if firings != [] {
      var before, last := firings[..|firings| - 1], firings[|firings| - 1];
      var cancelled, skipped := CountedCancelled(s, before), CountedSkipped(s, before);
      DayRun(s, before, day, start);
      FireKeepsDayInv(After(s, before), last, start, cancelled, skipped);
      if !Commits(After(s, before), last) {
        NothingCounted(After(s, firings), day, start, cancelled, skipped);
      }
    }
  }

  /**
   * The whole day: however often the sampler fires, the cancellations in the day's rows add up to the number of
   * distinct trips that were cancelled in a stored sample, and likewise for skipped stops.
   */
  lemma WholeDayCounts(s: Sampler, firings: seq<Firing>, day: string, start: int)
    requires OfDay(s.daily, day) == map[] && day !in s.cancelledSeen && day !in s.skippedSeen
    requires forall i :: 0 <= i < |firings| ==> DuringDay(firings[i], day, start) && Healthy(firings[i])
    ensures DaySum(After(s, firings).daily, day, CancelledOf) == |CountedCancelled(s, firings)|
    ensures DaySum(After(s, firings).daily, day, SkippedOf) == |CountedSkipped(s, firings)|
    ensures Members(SeenIds(After(s, firings).cancelledSeen, day, start)) == CountedCancelled(s, firings)
    ensures Members(SeenIds(After(s, firings).skippedSeen, day, start)) == CountedSkipped(s, firings)
  {
    DayRun(s, firings, day, start);
  }

  // ----- the lock that is never released -----

  ghost predicate Admitted(s: Sampler, firings: seq<Firing>, i: nat)
    requires i < |firings|
  {
    Fire(After(s, firings[..i]), firings[i]).1 != LockHeld
  }

  /** What a run does to the locks alone: whoever finds the lock free takes it. */
  ghost function LocksAfter(locks: Redis.Keyspace<()>, firings: seq<Firing>): Redis.Keyspace<()> {
    if firings == [] then locks
    else
      var before := LocksAfter(locks, firings[..|firings| - 1]);
      var now := firings[|firings| - 1].now;
      if Redis.Alive(before, SAMPLER_LOCK_KEY, now) then before
      else Redis.Put(before, SAMPLER_LOCK_KEY, (), SAMPLER_LOCK_TTL_SECONDS, now)
  }

  lemma FireLock(s: Sampler, f: Firing)
    ensures Fire(s, f).1 == LockHeld <==> Redis.Alive(s.locks, SAMPLER_LOCK_KEY, f.now)
    ensures Fire(s, f).0.locks ==
      if Redis.Alive(s.locks, SAMPLER_LOCK_KEY, f.now) then s.locks
      else Redis.Put(s.locks, SAMPLER_LOCK_KEY, (), SAMPLER_LOCK_TTL_SECONDS, f.now)
  {
  }

  lemma {:induction false} LocksFollow(s: Sampler, firings: seq<Firing>)
    ensures After(s, firings).locks == LocksAfter(s.locks, firings)
  {
    if firings != [] {
      LocksFollow(s, firings[..|firings| - 1]);
      FireLock(After(s, firings[..|firings| - 1]), firings[|firings| - 1]);
    }
  }

  lemma {:induction false} LockOutlives(locks: Redis.Keyspace<()>, firings: seq<Firing>, i: nat, j: nat)
    requires i < j <= |firings|
    requires !Redis.Alive(LocksAfter(locks, firings[..i]), SAMPLER_LOCK_KEY, firings[i].now)
    ensures var after := LocksAfter(locks, firings[..j]);
            SAMPLER_LOCK_KEY in after && after[SAMPLER_LOCK_KEY].expiresAt >= firings[i].now + 240_000
  {
    assert firings[..j][..j - 1] == firings[..j - 1];
    if j > i + 1 {
      LockOutlives(locks, firings, i, j - 1);
    }
  }

  /** Across all replicas, two samples that get past the lock start more than 240 s apart. */
  lemma AdmittedApart(s: Sampler, firings: seq<Firing>, i: nat, j: nat)
    requires i < j < |firings| && Admitted(s, firings, i) && Admitted(s, firings, j)
    ensures firings[j].now > firings[i].now + 240_000
  {
    LocksFollow(s, firings[..i]);
    LocksFollow(s, firings[..j]);
    FireLock(After(s, firings[..i]), firings[i]);
    FireLock(After(s, firings[..j]), firings[j]);
    LockOutlives(s.locks, firings, i, j);
  }
}
