/**
 * Samples that outlive the lock and overlap: reading the day's two lists, committing and writing each list are
 * separate steps of any number of samples, in any order.
 */
module OverlappingSamples {
  import opened Basics
  import opened HistoryAggregate
  import opened SnapshotRow
  import opened DailyRollup
  import opened CancellationDedup
  import opened DayCounts
  import Ledger = HistoryLedger
  import Redis

  /** A sample that has read the lists; `input` is its feed with the ids it read. */
  datatype Flight = Flight(input: Input, readCancelled: seq<string>, readSkipped: seq<string>, committed: bool)

  /** The daily rows and the two lists of one day, and every sample of it. */
  datatype World = World(daily: Table, cancelled: seq<string>, skipped: seq<string>, flights: seq<Flight>)

  datatype Step = Begin(feed: Input) | Commit(i: nat) | Write(k: Kind, i: nat)

  function ListOf(k: Kind, w: World): seq<string> { if k.Cancellation? then w.cancelled else w.skipped }

  function ReadBy(k: Kind, f: Flight): seq<string> { if k.Cancellation? then f.readCancelled else f.readSkipped }

  function Started(w: World, feed: Input): Flight {
    Flight(feed.(alreadyCancelled := Members(w.cancelled), alreadySkipped := Members(w.skipped)),
           Once(w.cancelled), Once(w.skipped), false)
  }

  ghost function FlightRows(f: Flight): seq<Row> {
    Ledger.SampleLedger(f.input);
    Rows(Sampled(f.input).byLine)
  }

  function Newly(k: Kind, f: Flight): seq<string> { NewIds(k, f.input, f.input.tripUpdates) }

  /** The trips its feed shows cancelled, or running with a skipped stop. */
  ghost function PresentIn(k: Kind, f: Flight): set<string> { DayCounts.Present(k, f.input.tripUpdates) }

  /** The sample commits now. */
  ghost predicate Lands(w: World, i: nat, day: string) {
    i < |w.flights| && !w.flights[i].committed && ChunksDistinct(day, FlightRows(w.flights[i]))
  }

  function Noted(w: World, k: Kind, ids: seq<string>): World {
    if k.Cancellation? then w.(cancelled := ids) else w.(skipped := ids)
  }

  /** A list is written over with what was read and the new ids, whatever others have written meanwhile. */
  ghost function Apply(w: World, day: string, step: Step): World {
    match step
    case Begin(feed) => w.(flights := w.flights + [Started(w, feed)])
    case Commit(i) =>
      if Lands(w, i, day) then
        w.(daily := UpsertRows(w.daily, day, FlightRows(w.flights[i])),
           flights := w.flights[i := w.flights[i].(committed := true)])
      else w
    case Write(k, i) =>
      if i < |w.flights| && w.flights[i].committed && Newly(k, w.flights[i]) != [] then
        Noted(w, k, ReadBy(k, w.flights[i]) + Newly(k, w.flights[i]))
      else w
  }

  ghost function Run(w: World, day: string, steps: seq<Step>): World {
    if steps == [] then w else Apply(Run(w, day, steps[..|steps| - 1]), day, steps[|steps| - 1])
  }

  /** All trips that some committed sample saw cancelled (or skipping a stop). */
  ghost function Seen(k: Kind, w: World, day: string, steps: seq<Step>): set<string> {
    if steps == [] then {}
    else
      var before, last := steps[..|steps| - 1], steps[|steps| - 1];
      Seen(k, w, day, before)
      + (if last.Commit? && Lands(Run(w, day, before), last.i, day)
         then PresentIn(k, Run(w, day, before).flights[last.i]) else {})
  }

  /** The sample lists no unseen trip twice, and none that was counted by now but was not in the list when it was read. */
  ghost predicate CountsOnce(k: Kind, f: Flight, counted: set<string>) {
    && DistinctWhere(f.input.tripUpdates, tu => Unseen(k, f.input, tu))
    && PresentIn(k, f) * counted <= Members(ReadBy(k, f))
  }

  ghost predicate EachCountsOnce(k: Kind, w: World, day: string, steps: seq<Step>) {
    steps == [] ||
    var before, last := steps[..|steps| - 1], steps[|steps| - 1];
    && EachCountsOnce(k, w, day, before)
    && (last.Commit? && Lands(Run(w, day, before), last.i, day) ==>
          CountsOnce(k, Run(w, day, before).flights[last.i], Seen(k, w, day, before)))
  }

  ghost predicate ReadsRight(f: Flight) {
    f.input.alreadyCancelled == Members(f.readCancelled) && f.input.alreadySkipped == Members(f.readSkipped)
  }

  /** Lists, and what samples have read of them, hold only trips that were counted. */
  ghost predicate OnlyCounted(k: Kind, w: World, counted: set<string>) {
    && Members(ListOf(k, w)) <= counted
    && (forall i :: 0 <= i < |w.flights| ==> ReadsRight(w.flights[i]) && Members(ReadBy(k, w.flights[i])) <= counted)
    && (forall i :: 0 <= i < |w.flights| && w.flights[i].committed ==> Members(Newly(k, w.flights[i])) <= counted)
  }

  lemma NewlyExact(k: Kind, f: Flight)
    requires ReadsRight(f)
    ensures Members(Newly(k, f)) == PresentIn(k, f) - Members(ReadBy(k, f))
  {
    NewIdsExact(f.input, f.input.tripUpdates);
  }

  lemma CommitOnlyCounted(k: Kind, w: World, day: string, i: nat, counted: set<string>)
    requires OnlyCounted(k, w, counted) && Lands(w, i, day)
    ensures OnlyCounted(k, Apply(w, day, Commit(i)), counted + PresentIn(k, w.flights[i]))
  {
    NewlyExact(k, w.flights[i]);
  }

  lemma WriteOnlyCounted(k: Kind, w: World, day: string, k': Kind, i: nat, counted: set<string>)
    requires OnlyCounted(k, w, counted)
    ensures OnlyCounted(k, Apply(w, day, Write(k', i)), counted)
  {
    if i < |w.flights| && w.flights[i].committed {
      MembersConcat(ReadBy(k, w.flights[i]), Newly(k, w.flights[i]));
    }
  }

  lemma ReadOnce(w: World, feed: Input)
    ensures ReadsRight(Started(w, feed))
    ensures Members(Once(w.cancelled)) == Members(w.cancelled) && Members(Once(w.skipped)) == Members(w.skipped)
  {
    OnceFacts(w.cancelled);
    OnceFacts(w.skipped);
  }

  lemma BeginOnlyCounted(k: Kind, w: World, day: string, feed: Input, counted: set<string>)
    requires OnlyCounted(k, w, counted)
    ensures OnlyCounted(k, Apply(w, day, Begin(feed)), counted)
  {
    ReadOnce(w, feed);
    var f := Started(w, feed);
    assert Members(ReadBy(k, f)) <= counted && !f.committed;
  }

  lemma StepOnlyCounted(k: Kind, w: World, day: string, step: Step, counted: set<string>)
    requires OnlyCounted(k, w, counted)
    ensures var more := if step.Commit? && Lands(w, step.i, day) then PresentIn(k, w.flights[step.i]) else {};
            OnlyCounted(k, Apply(w, day, step), counted + more)
  {
    assert counted + {} == counted;
    match step
    case Begin(feed) => BeginOnlyCounted(k, w, day, feed, counted);
    case Commit(i) => if Lands(w, i, day) { CommitOnlyCounted(k, w, day, i, counted); }
    case Write(k', i) => WriteOnlyCounted(k, w, day, k', i, counted);
  }

  ghost function DayTotal(k: Kind, w: World, day: string): int {
    DaySum(w.daily, day, if k.Cancellation? then CancelledOf else SkippedOf)
  }

  lemma CommitAdds(k: Kind, w: World, day: string, i: nat)
    requires Lands(w, i, day)
    ensures DayTotal(k, Apply(w, day, Commit(i)), day) == DayTotal(k, w, day) + |Newly(k, w.flights[i])|
  {
    var f := w.flights[i];
    Ledger.SampleLedger(f.input);
    RowSumsAreTotals(Sampled(f.input).byLine);
    UpsertAddsToDay(w.daily, day, FlightRows(f), CancelledOf);
    UpsertAddsToDay(w.daily, day, FlightRows(f), SkippedOf);
  }

  lemma CommitCounts(k: Kind, w: World, day: string, i: nat, counted: set<string>)
    requires OnlyCounted(k, w, counted) && Lands(w, i, day)
    ensures var f := w.flights[i];
            var grown := |counted + PresentIn(k, f)| - |counted|;
            var added := DayTotal(k, Apply(w, day, Commit(i)), day) - DayTotal(k, w, day);
            added >= grown && (added == grown <==> CountsOnce(k, f, counted))
  {
    var f := w.flights[i];
    CommitAdds(k, w, day, i);
    NewlyExact(k, f);
    CountMoves(Newly(k, f), PresentIn(k, f), Members(ReadBy(k, f)), counted);
    NewIdsAre(k, f.input, f.input.tripUpdates);
    NoRepeatsIff(f.input.tripUpdates, tu => Unseen(k, f.input, tu));
  }

  ghost predicate DayBegins(w: World, day: string) {
    OfDay(w.daily, day) == map[] && w.cancelled == [] && w.skipped == [] && w.flights == []
  }

  lemma {:induction false} RunOnlyCounted(k: Kind, w: World, day: string, steps: seq<Step>)
    requires DayBegins(w, day)
    ensures OnlyCounted(k, Run(w, day, steps), Seen(k, w, day, steps))
  {
    if steps != [] {
      var before, last := steps[..|steps| - 1], steps[|steps| - 1];
      RunOnlyCounted(k, w, day, before);
      StepOnlyCounted(k, Run(w, day, before), day, last, Seen(k, w, day, before));
    }
  }

  lemma OthersAddNothing(k: Kind, w: World, day: string, step: Step)
    requires !(step.Commit? && Lands(w, step.i, day))
    ensures DayTotal(k, Apply(w, day, step), day) == DayTotal(k, w, day)
  {
  }

  /**
   * Over any interleaving of any number of samples in a day, with any commit or list write missing: the day's sum is
   * never below the number of distinct trips counted, and equals it exactly when each committed sample counted once,
   * judged by the list it read, however long ago.
   */
  lemma {:induction false} OverlapsCountIff(k: Kind, w: World, day: string, steps: seq<Step>)
    requires DayBegins(w, day)
    ensures DayTotal(k, Run(w, day, steps), day) >= |Seen(k, w, day, steps)|
    ensures DayTotal(k, Run(w, day, steps), day) == |Seen(k, w, day, steps)| <==> EachCountsOnce(k, w, day, steps)
  {
    if steps != [] {
      var before, last := steps[..|steps| - 1], steps[|steps| - 1];
      var mid, counted := Run(w, day, before), Seen(k, w, day, before);
      OverlapsCountIff(k, w, day, before);
      if last.Commit? && Lands(mid, last.i, day) {
        RunOnlyCounted(k, w, day, before);
        CommitCounts(k, mid, day, last.i, counted);
      } else {
        OthersAddNothing(k, mid, day, last);
        assert counted + {} == counted;
      }
    }
  }

  /** The four steps of a sample that nothing disturbs. */
  ghost function Undisturbed(w: World, f: Firing): World {
    var i := |w.flights|;
    var committed := Apply(Apply(w, f.day, Begin(f.feed)), f.day, Commit(i));
    Apply(Apply(committed, f.day, Write(Cancellation, i)), f.day, Write(Skip, i))
  }

  /** Four steps in a row are one firing of the schedule. */
  lemma FiringIsFourSteps(s: Sampler, f: Firing, w: World)
    requires Commits(s, f) && f.fault == NoFault && w.daily == s.daily
    requires w.cancelled == StoredIds(s.cancelledSeen, f.day, f.now) && w.skipped == StoredIds(s.skippedSeen, f.day, f.now)
    ensures var after, s' := Undisturbed(w, f), Fire(s, f).0;
            && after.daily == s'.daily
            && after.cancelled == StoredIds(s'.cancelledSeen, f.day, f.now)
            && after.skipped == StoredIds(s'.skippedSeen, f.day, f.now)
  {
    var i, r := |w.flights|, Sampled(InputFor(s, f));
    var begun := Apply(w, f.day, Begin(f.feed));
    OnceFacts(w.cancelled);
    OnceFacts(w.skipped);
    assert begun.flights[i] == Flight(InputFor(s, f), Once(w.cancelled), Once(w.skipped), false);
    assert FlightRows(begun.flights[i]) == RowsOf(s, f);
    ListedIds(s, f);
    CommittedState(s, f);
    var committed := Apply(begun, f.day, Commit(i));
    assert Newly(Cancellation, committed.flights[i]) == r.newlyCancelled;
    assert Newly(Skip, committed.flights[i]) == r.newlySkipped;
    RememberNow(s.cancelledSeen, f, r.newlyCancelled);
    RememberNow(s.skippedSeen, f, r.newlySkipped);
    assert !SkippedWriteLost(s, f);
  }

  lemma RememberNow(m: Redis.Keyspace<seq<string>>, f: Firing, newly: seq<string>)
    ensures StoredIds(Remember(m, f, newly), f.day, f.now)
            == if newly == [] then StoredIds(m, f.day, f.now) else SeenIds(m, f.day, f.now) + newly
  {
  }
}
