/** One firing of the sampler in figures: when it samples, what it answers, and what it leaves in the lock, the rows and the lists. */
module FiringOutcomes {
  import opened Basics
  import opened HistoryAggregate
  import opened SnapshotRow
  import opened DailyRollup
  import opened CancellationDedup
  import Ledger = HistoryLedger
  import Redis

  const LOCK := "history:sampler:lock"

  /** A key is there up to and including the instant it expires. */
  predicate Readable<T>(m: Redis.Keyspace<T>, key: string, now: int) { key in m && now <= m[key].expiresAt }

  /** The ids in the day's list. */
  function IdsRead(m: Redis.Keyspace<seq<string>>, day: string, now: int): set<string> {
    if Readable(m, day, now) then set id | id in m[day].value else {}
  }

  /** The sample that the firing aggregates: its feed, less the trips the day has counted already. */
  ghost function Aggregated(s: Sampler, f: Firing): Output {
    Sampled(f.feed.(alreadyCancelled := IdsRead(s.cancelledSeen, f.day, f.now),
                    alreadySkipped := IdsRead(s.skippedSeen, f.day, f.now)))
  }

  /** Two rows of the same fifty are for the same mode and line. */
  ghost predicate Clash(rows: seq<Row>) {
    exists i, j :: 0 <= i < j < |rows| && i / 50 == j / 50 && rows[i].mode == rows[j].mode && rows[i].line == rows[j].line
  }

  /** The list is written over with the ids read, each once, and the new ones, for 26 hours; without new ids it is left alone. */
  ghost predicate Noted(
    before: Redis.Keyspace<seq<string>>, after: Redis.Keyspace<seq<string>>, day: string, now: int, newly: seq<string>)
  {
    if newly == [] then after == before
    else
      exists known :: NoRepeats(known) && (forall id :: id in known <==> id in IdsRead(before, day, now))
        && after == before[day := Redis.Entry(known + newly, now + 93_600_000)]
  }

  lemma InputIs(s: Sampler, f: Firing)
    ensures InputFor(s, f) == f.feed.(alreadyCancelled := IdsRead(s.cancelledSeen, f.day, f.now),
                                      alreadySkipped := IdsRead(s.skippedSeen, f.day, f.now))
  {
    OnceFacts(StoredIds(s.cancelledSeen, f.day, f.now));
    OnceFacts(StoredIds(s.skippedSeen, f.day, f.now));
    assert Members(SeenIds(s.cancelledSeen, f.day, f.now)) == IdsRead(s.cancelledSeen, f.day, f.now);
    assert Members(SeenIds(s.skippedSeen, f.day, f.now)) == IdsRead(s.skippedSeen, f.day, f.now);
  }

  lemma RememberNotes(m: Redis.Keyspace<seq<string>>, f: Firing, newly: seq<string>)
    ensures Noted(m, Remember(m, f, newly), f.day, f.now, newly)
  {
    OnceFacts(StoredIds(m, f.day, f.now));
    var known := SeenIds(m, f.day, f.now);
    assert forall id :: id in known <==> id in IdsRead(m, f.day, f.now);
  }

  lemma ClashIff(day: string, rows: seq<Row>)
    ensures Clash(rows) <==> !ChunksDistinct(day, rows)
  {
    if i, j :| 0 <= i < j < |rows| && i / 50 == j / 50 && rows[i].mode == rows[j].mode && rows[i].line == rows[j].line {
      assert RowKey(day, rows[i]) == RowKey(day, rows[j]);
    }
  }

  /** A stale feed, a sample without lines, and a transaction that fails or meets a clash write nothing. */
  ghost predicate Persists(s: Sampler, f: Firing) {
    var r := Aggregated(s, f);
    && !r.feedStale && r.byLine.order != [] && f.fault != TransactionFails
    && (forall key :: key in r.byLine.order ==> key in r.byLine.entries) && !Clash(Rows(r.byLine))
  }

  lemma PersistsIff(s: Sampler, f: Firing)
    ensures Commits(s, f) <==> !Readable(s.locks, LOCK, f.now) && Persists(s, f)
    ensures Sampled(InputFor(s, f)) == Aggregated(s, f)
    ensures var lines := Sampled(InputFor(s, f)).byLine; forall key :: key in lines.order ==> key in lines.entries
    ensures RowsOf(s, f) == Rows(Sampled(InputFor(s, f)).byLine)
  {
    InputIs(s, f);
    Ledger.SampleLedger(InputFor(s, f));
    ClashIff(f.day, RowsOf(s, f));
  }

  /** The rows and the lists after a sample that is stored; the cancelled list is written first. */
  lemma StoredSays(s: Sampler, f: Firing)
    requires !Readable(s.locks, LOCK, f.now) && Persists(s, f)
    ensures var after, r := Fire(s, f).0, Aggregated(s, f);
            && after.daily == UpsertRows(s.daily, f.day, Rows(r.byLine))
            && (if f.fault == CancelledWriteFails then after.cancelledSeen == s.cancelledSeen
                else Noted(s.cancelledSeen, after.cancelledSeen, f.day, f.now, r.newlyCancelled))
            && (if f.fault == SkippedWriteFails || (f.fault == CancelledWriteFails && r.newlyCancelled != [])
                then after.skippedSeen == s.skippedSeen
                else Noted(s.skippedSeen, after.skippedSeen, f.day, f.now, r.newlySkipped))
  {
    PersistsIff(s, f);
    CommittedState(s, f);
    RememberNotes(s.cancelledSeen, f, Sampled(InputFor(s, f)).newlyCancelled);
    RememberNotes(s.skippedSeen, f, Sampled(InputFor(s, f)).newlySkipped);
  }

  /** Any other firing leaves rows and lists alone. */
  lemma UnstoredSays(s: Sampler, f: Firing)
    requires Readable(s.locks, LOCK, f.now) || !Persists(s, f)
    ensures var after := Fire(s, f).0;
            after.daily == s.daily && after.cancelledSeen == s.cancelledSeen && after.skippedSeen == s.skippedSeen
  {
    PersistsIff(s, f);
    if !Redis.Alive(s.locks, SAMPLER_LOCK_KEY, f.now) { assert Attempt(s, f).0 == s; }
  }

  lemma AttemptAnswer(s: Sampler, f: Firing)
    ensures var r := Sampled(InputFor(s, f));
            Attempt(s, f).1
            == if r.feedStale then StaleFeed
               else if r.byLine.order == [] then EmptySample
               else if f.fault == TransactionFails || !ChunksDistinct(f.day, RowsOf(s, f)) then Failed
               else if (f.fault == CancelledWriteFails && r.newlyCancelled != [])
                       || (f.fault == SkippedWriteFails && r.newlySkipped != []) then Failed else Stored
  {
  }

  /**
   * While the lock is readable a firing does nothing. Otherwise it takes the lock for 240 s, whatever follows, and its answer
   * depends on the feed, the transaction and the writes of the two lists.
   */
  lemma FiringSays(s: Sampler, f: Firing)
    ensures var (after, outcome) := Fire(s, f);
            var r := Aggregated(s, f);
            if Readable(s.locks, LOCK, f.now) then after == s && outcome == LockHeld
            else
              && after.locks == s.locks[LOCK := Redis.Entry((), f.now + 240_000)]
              && outcome == if r.feedStale then StaleFeed
                            else if r.byLine.order == [] then EmptySample
                            else if !Persists(s, f) then Failed
                            else if (f.fault == CancelledWriteFails && r.newlyCancelled != [])
                                    || (f.fault == SkippedWriteFails && r.newlySkipped != []) then Failed else Stored
  {
    PersistsIff(s, f);
    AttemptAnswer(s, f);
    assert Readable(s.locks, LOCK, f.now) <==> Redis.Alive(s.locks, SAMPLER_LOCK_KEY, f.now);
    assert Fire(s, f).1 == if Redis.Alive(s.locks, SAMPLER_LOCK_KEY, f.now) then LockHeld else Attempt(s, f).1;
  }
}
