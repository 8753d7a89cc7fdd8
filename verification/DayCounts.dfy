/**
 * Exactly when a day's counts are right, over any run of samples with any failures: when the sums equal the stored
 * lists, and when they equal the number of distinct trips counted.
 */
module DayCounts {
  import opened Basics
  import opened HistoryAggregate
  import opened CancellationDedup
  import opened DailyRollup

  // ----- ids listed by a feed -----

  ghost predicate AnyWhere(tus: seq<TripUpdate>, p: TripUpdate -> bool) {
    exists i :: 0 <= i < |tus| && p(tus[i])
  }

  lemma {:induction false} NoIdsIff(tus: seq<TripUpdate>, p: TripUpdate -> bool)
    ensures IdsWhere(tus, p) == [] <==> !AnyWhere(tus, p)
  {
    if tus != [] {
      var before := tus[..|tus| - 1];
      NoIdsIff(before, p);
      if AnyWhere(before, p) {
        var i :| 0 <= i < |before| && p(before[i]);
        assert p(tus[i]);
      }
      if AnyWhere(tus, p) {
        var i :| 0 <= i < |tus| && p(tus[i]);
        assert i < |before| ==> p(before[i]);
      }
    }
  }

  lemma DistinctSplit(tus: seq<TripUpdate>, p: TripUpdate -> bool)
    requires tus != []
    ensures var before, last := tus[..|tus| - 1], tus[|tus| - 1];
            DistinctWhere(tus, p) <==> DistinctWhere(before, p) && (p(last) ==> last.tripId !in IdSet(before, p))
  {
    var before, last := tus[..|tus| - 1], tus[|tus| - 1];
    assert forall i :: 0 <= i < |before| ==> before[i] == tus[i];
    if DistinctWhere(before, p) && (p(last) ==> last.tripId !in IdSet(before, p)) {
      forall i, j | 0 <= i < j < |tus| && p(tus[i]) && p(tus[j]) ensures tus[i].tripId != tus[j].tripId {
        assert before[i] == tus[i];
        if j == |before| {
          assert before[i].tripId in IdSet(before, p);
        } else {
          assert before[j] == tus[j];
        }
      }
    }
  }

  lemma {:induction false} NoRepeatsIff(tus: seq<TripUpdate>, p: TripUpdate -> bool)
    ensures NoRepeats(IdsWhere(tus, p)) <==> DistinctWhere(tus, p)
  {
    if tus != [] {
      var before, last := tus[..|tus| - 1], tus[|tus| - 1];
      var ids := IdsWhere(before, p);
      NoRepeatsIff(before, p);
      DistinctSplit(tus, p);
      IdsWhereMembers(before, p);
      assert last.tripId in ids <==> last.tripId in Members(ids);
      OneMoreId(ids, last.tripId);
      if !p(last) {
        assert IdsWhere(tus, p) == ids;
      }
    }
  }

  lemma OneMoreId(ids: seq<string>, id: string)
    ensures NoRepeats(ids + [id]) <==> NoRepeats(ids) && id !in ids
  {
    var longer := ids + [id];
    assert longer[|ids|] == id && forall i :: 0 <= i < |ids| ==> longer[i] == ids[i];
  }

  // ----- one list and one sum -----

  /** The distance between a sum and its list, before and after: it never shrinks. */
  lemma GapMoves(stored: seq<string>, newly: seq<string>, lost: bool)
    requires Members(stored) !! Members(newly)
    ensures var after := if lost then stored else Once(stored + newly);
            && |newly| - |Members(after)| >= -|Members(stored)|
            && (|newly| - |Members(after)| == -|Members(stored)| <==> NoRepeats(newly) && (lost ==> newly == []))
  {
    MembersConcat(stored, newly);
    OnceFacts(stored + newly);
    assert Members(Once(stored + newly)) == Members(stored + newly);
    NoRepeatsCounts(newly);
    assert |Members(stored) + Members(newly)| == |Members(stored)| + |Members(newly)|;
  }

  /** Newly listed ids against all ids counted so far: the sum runs ahead exactly by repeats and by ids counted before. */
  lemma CountMoves(newly: seq<string>, present: set<string>, stored: set<string>, counted: set<string>)
    requires Members(newly) == present - stored && stored <= counted
    ensures |newly| >= |counted + present| - |counted|
    ensures |newly| == |counted + present| - |counted| <==> NoRepeats(newly) && present * counted <= stored
  {
    NoRepeatsCounts(newly);
    var unmet, again := present - counted, (present * counted) - stored;
    assert counted + present == counted + unmet;
    assert |counted + unmet| == |counted| + |unmet|;
    assert Members(newly) == unmet + again;
    assert |unmet + again| == |unmet| + |again|;
    assert again == {} <==> present * counted <= stored;
  }

  // ----- the two things counted -----

  /** Cancelled trips, and running trips with a skipped stop: each with its sum, its list and its write. */
  datatype Kind = Cancellation | Skip

  function Unseen(k: Kind, input: Input, tu: TripUpdate): bool {
    if k.Cancellation? then NewlyCancelled(input, tu) else NewlySkipped(input, tu)
  }

  function NewIds(k: Kind, input: Input, tus: seq<TripUpdate>): seq<string> {
    if k.Cancellation? then CancelledIds(input, tus) else SkippedIds(input, tus)
  }

  ghost function Present(k: Kind, tus: seq<TripUpdate>): set<string> {
    if k.Cancellation? then CancelledTripIds(tus) else SkippedTripIds(tus)
  }

  function List(k: Kind, s: Sampler, day: string, now: int): seq<string> {
    SeenIds(if k.Cancellation? then s.cancelledSeen else s.skippedSeen, day, now)
  }

  ghost function SumOf(k: Kind, s: Sampler, day: string): int {
    DaySum(s.daily, day, if k.Cancellation? then CancelledOf else SkippedOf)
  }

  ghost function Counted(k: Kind, s: Sampler, firings: seq<Firing>): set<string> {
    if k.Cancellation? then CountedCancelled(s, firings) else CountedSkipped(s, firings)
  }

  /** Whether the list will not be written: its own write fails, or for skips the write of a list of cancellations before it. */
  ghost predicate Lost(k: Kind, s: Sampler, f: Firing) {
    match k
    case Cancellation => f.fault == CancelledWriteFails
    case Skip =>
      f.fault == SkippedWriteFails
      || (f.fault == CancelledWriteFails
          && AnyWhere(f.feed.tripUpdates, tu => Unseen(Cancellation, InputFor(s, f), tu)))
  }

  /** The feed lists no unseen trip twice, and none at all when the list is not going to be written. */
  ghost predicate KeepsUp(k: Kind, s: Sampler, f: Firing) {
    var unseen := tu => Unseen(k, InputFor(s, f), tu);
    DistinctWhere(f.feed.tripUpdates, unseen) && (Lost(k, s, f) ==> !AnyWhere(f.feed.tripUpdates, unseen))
  }

  /** How far the day's sum is ahead of the stored list. */
  ghost function Excess(k: Kind, s: Sampler, day: string, start: int): int {
    SumOf(k, s, day) - |Members(List(k, s, day, start))|
  }

  // ----- what one firing does -----

  ghost predicate ListsLast(s: Sampler, day: string, start: int) {
    LastsTheDay(s.cancelledSeen, day, start) && LastsTheDay(s.skippedSeen, day, start)
  }

  lemma NewIdsAre(k: Kind, input: Input, tus: seq<TripUpdate>)
    ensures NewIds(k, input, tus) == IdsWhere(tus, tu => Unseen(k, input, tu))
  {
    if k.Cancellation? {
      SameIds(tus, tu => NewlyCancelled(input, tu), tu => Unseen(k, input, tu));
    } else {
      SameIds(tus, tu => NewlySkipped(input, tu), tu => Unseen(k, input, tu));
    }
  }

  lemma {:induction false} SameIds(tus: seq<TripUpdate>, p: TripUpdate -> bool, q: TripUpdate -> bool)
    requires forall tu :: p(tu) <==> q(tu)
    ensures IdsWhere(tus, p) == IdsWhere(tus, q)
  {
    if tus != [] { SameIds(tus[..|tus| - 1], p, q); }
  }

  lemma ListedIds(s: Sampler, f: Firing)
    ensures var input := InputFor(s, f);
            && Sampled(input).newlyCancelled == CancelledIds(input, f.feed.tripUpdates)
            && Sampled(input).newlySkipped == SkippedIds(input, f.feed.tripUpdates)
  {
  }

  lemma UncommittedKeeps(s: Sampler, f: Firing)
    requires !Commits(s, f)
    ensures var s' := Fire(s, f).0;
            s'.daily == s.daily && s'.cancelledSeen == s.cancelledSeen && s'.skippedSeen == s.skippedSeen
  {
  }

  /** What a committed firing does to a sum and its list, the list written or lost. */
  lemma FiringMoves(k: Kind, s: Sampler, f: Firing, start: int)
    requires Commits(s, f) && DuringDay(f, f.day, start) && ListsLast(s, f.day, start)
    ensures var newly := NewIds(k, InputFor(s, f), f.feed.tripUpdates);
            var stored := List(k, s, f.day, start);
            var s' := Fire(s, f).0;
            && ListsLast(s', f.day, start)
            && List(k, s', f.day, start) == (if Lost(k, s, f) then stored else Once(stored + newly))
            && SumOf(k, s', f.day) == SumOf(k, s, f.day) + |newly|
            && Members(newly) == Present(k, f.feed.tripUpdates) - Members(stored)
  {
    var input, tus := InputFor(s, f), f.feed.tripUpdates;
    ListedIds(s, f);
    NewIdsAre(Cancellation, input, tus);
    NoIdsIff(tus, tu => Unseen(Cancellation, input, tu));
    CommittedState(s, f);
    CommitMovesSums(s, f);
    SeenAllDay(s.cancelledSeen, f.day, start, f.now);
    SeenAllDay(s.skippedSeen, f.day, start, f.now);
    NewIdsExact(input, tus);
    RememberWrites(s.cancelledSeen, f, start, CancelledIds(input, tus));
    RememberWrites(s.skippedSeen, f, start, SkippedIds(input, tus));
  }

  /** One committed sample never lets the list catch up with the sum, and keeps the distance exactly when it keeps up. */
  lemma ExcessMoves(k: Kind, s: Sampler, f: Firing, start: int)
    requires Commits(s, f) && DuringDay(f, f.day, start) && ListsLast(s, f.day, start)
    ensures Excess(k, Fire(s, f).0, f.day, start) >= Excess(k, s, f.day, start)
    ensures Excess(k, Fire(s, f).0, f.day, start) == Excess(k, s, f.day, start) <==> KeepsUp(k, s, f)
  {
    var input, tus := InputFor(s, f), f.feed.tripUpdates;
    FiringMoves(k, s, f, start);
    GapMoves(List(k, s, f.day, start), NewIds(k, input, tus), Lost(k, s, f));
    NewIdsAre(k, input, tus);
    NoRepeatsIff(tus, tu => Unseen(k, input, tu));
    NoIdsIff(tus, tu => Unseen(k, input, tu));
  }

  // ----- whole days -----

  ghost predicate AlwaysKeepsUp(k: Kind, s: Sampler, firings: seq<Firing>) {
    firings == [] ||
    var before, last := firings[..|firings| - 1], firings[|firings| - 1];
    AlwaysKeepsUp(k, s, before) && (Commits(After(s, before), last) ==> KeepsUp(k, After(s, before), last))
  }

  ghost predicate NewDay(s: Sampler, day: string) {
    OfDay(s.daily, day) == map[] && day !in s.cancelledSeen && day !in s.skippedSeen
  }

  ghost predicate WithinDay(firings: seq<Firing>, day: string, start: int) {
    forall i :: 0 <= i < |firings| ==> DuringDay(firings[i], day, start)
  }

  /**
   * Over any run of firings in a day, whatever fails: the sum in the day's rows never falls below the number of stored
   * ids, and equals it exactly when no stored sample listed an unseen trip twice or lost the write of a list it had
   * ids for.
   */
  lemma {:induction false} SumMatchesListIff(k: Kind, s: Sampler, firings: seq<Firing>, day: string, start: int)
    requires NewDay(s, day) && WithinDay(firings, day, start)
    ensures ListsLast(After(s, firings), day, start)
    ensures Excess(k, After(s, firings), day, start) >= 0
    ensures Excess(k, After(s, firings), day, start) == 0 <==> AlwaysKeepsUp(k, s, firings)
  {
    if firings != [] {
      var before, last := firings[..|firings| - 1], firings[|firings| - 1];
      SumMatchesListIff(k, s, before, day, start);
      if Commits(After(s, before), last) {
        FiringMoves(k, After(s, before), last, start);
        ExcessMoves(k, After(s, before), last, start);
      } else {
        UncommittedKeeps(After(s, before), last);
      }
    }
  }

  /** No stored sample listed an unseen trip twice, or one that was counted before but is missing from the list. */
  ghost predicate NeverRecounted(k: Kind, s: Sampler, firings: seq<Firing>) {
    firings == [] ||
    var before, last := firings[..|firings| - 1], firings[|firings| - 1];
    && NeverRecounted(k, s, before)
    && (Commits(After(s, before), last) ==>
          && DistinctWhere(last.feed.tripUpdates, tu => Unseen(k, InputFor(After(s, before), last), tu))
          && Present(k, last.feed.tripUpdates) * Counted(k, s, before)
             <= Members(List(k, After(s, before), last.day, last.now)))
  }

  lemma ListMembers(stored: seq<string>, newly: seq<string>)
    ensures Members(Once(stored + newly)) == Members(stored) + Members(newly)
  {
    OnceFacts(stored + newly);
    MembersConcat(stored, newly);
  }

  lemma ListKnown(k: Kind, s: Sampler, f: Firing, start: int, counted: set<string>)
    requires Commits(s, f) && DuringDay(f, f.day, start) && ListsLast(s, f.day, start)
    requires Members(List(k, s, f.day, start)) <= counted
    ensures Members(List(k, Fire(s, f).0, f.day, start)) <= counted + Present(k, f.feed.tripUpdates)
  {
    FiringMoves(k, s, f, start);
    ListMembers(List(k, s, f.day, start), NewIds(k, InputFor(s, f), f.feed.tripUpdates));
  }

  /** One committed sample, against all trips counted before it. */
  lemma CountedMoves(k: Kind, s: Sampler, f: Firing, start: int, counted: set<string>)
    requires Commits(s, f) && DuringDay(f, f.day, start) && ListsLast(s, f.day, start)
    requires Members(List(k, s, f.day, start)) <= counted
    ensures var present := Present(k, f.feed.tripUpdates);
            var moved, grown := SumOf(k, Fire(s, f).0, f.day) - SumOf(k, s, f.day), |counted + present| - |counted|;
            && moved >= grown
            && (moved == grown
                <==> && DistinctWhere(f.feed.tripUpdates, tu => Unseen(k, InputFor(s, f), tu))
                     && present * counted <= Members(List(k, s, f.day, f.now)))
  {
    var input, tus := InputFor(s, f), f.feed.tripUpdates;
    FiringMoves(k, s, f, start);
    CountMoves(NewIds(k, input, tus), Present(k, tus), Members(List(k, s, f.day, start)), counted);
    NewIdsAre(k, input, tus);
    NoRepeatsIff(tus, tu => Unseen(k, input, tu));
    SeenAllDay(s.cancelledSeen, f.day, start, f.now);
    SeenAllDay(s.skippedSeen, f.day, start, f.now);
  }

  /**
   * Over any run of firings in a day, whatever fails: the day's sum is never below the number of distinct trips
   * counted, and equals it exactly when no trip was ever recounted.
   */
  lemma {:induction false} SumIsDistinctIff(k: Kind, s: Sampler, firings: seq<Firing>, day: string, start: int)
    requires NewDay(s, day) && WithinDay(firings, day, start)
    ensures Members(List(k, After(s, firings), day, start)) <= Counted(k, s, firings)
    ensures SumOf(k, After(s, firings), day) >= |Counted(k, s, firings)|
    ensures SumOf(k, After(s, firings), day) == |Counted(k, s, firings)| <==> NeverRecounted(k, s, firings)
  {
    if firings != [] {
      var before, last := firings[..|firings| - 1], firings[|firings| - 1];
      var mid, counted := After(s, before), Counted(k, s, before);
      SumIsDistinctIff(k, s, before, day, start);
      SumMatchesListIff(k, s, before, day, start);
      if Commits(mid, last) {
        ListKnown(k, mid, last, start, counted);
        CountedMoves(k, mid, last, start, counted);
      } else {
        UncommittedKeeps(mid, last);
      }
    }
  }

  // ----- overlapping samples -----

  /** The daily rows after two samples that both read the seen lists before either had written. */
  ghost function AfterOverlap(s: Sampler, f: Firing, g: Firing): Table {
    UpsertRows(UpsertRows(s.daily, f.day, RowsOf(s, f)), g.day, RowsOf(s, g))
  }

  /**
   * A sample that outlives the lock can overlap the next one. The two then add the distinct unseen trips of both feeds
   * exactly when neither feed lists one twice and no unseen cancelled trip is in both.
   */
  lemma OverlapCountsRightIff(s: Sampler, f: Firing, g: Firing)
    requires f.day == g.day
    ensures var newF, newG := CancelledIds(InputFor(s, f), f.feed.tripUpdates), CancelledIds(InputFor(s, g), g.feed.tripUpdates);
            var added := DaySum(AfterOverlap(s, f, g), f.day, CancelledOf) - DaySum(s.daily, f.day, CancelledOf);
            && added == |newF| + |newG|
            && (added == |Members(newF) + Members(newG)|
                <==> && DistinctWhere(f.feed.tripUpdates, tu => NewlyCancelled(InputFor(s, f), tu))
                     && DistinctWhere(g.feed.tripUpdates, tu => NewlyCancelled(InputFor(s, g), tu))
                     && Members(newF) !! Members(newG))
  {
    var newF, newG := CancelledIds(InputFor(s, f), f.feed.tripUpdates), CancelledIds(InputFor(s, g), g.feed.tripUpdates);
    ListedIds(s, f);
    ListedIds(s, g);
    RowSumsAreNewIds(s, f);
    RowSumsAreNewIds(s, g);
    UpsertAddsToDay(s.daily, f.day, RowsOf(s, f), CancelledOf);
    UpsertAddsToDay(UpsertRows(s.daily, f.day, RowsOf(s, f)), g.day, RowsOf(s, g), CancelledOf);
    NoRepeatsIff(f.feed.tripUpdates, tu => NewlyCancelled(InputFor(s, f), tu));
    NoRepeatsIff(g.feed.tripUpdates, tu => NewlyCancelled(InputFor(s, g), tu));
    TwoLists(newF, newG);
  }

  lemma TwoLists(a: seq<string>, b: seq<string>)
    ensures |a| + |b| >= |Members(a) + Members(b)|
    ensures |a| + |b| == |Members(a) + Members(b)| <==> NoRepeats(a) && NoRepeats(b) && Members(a) !! Members(b)
  {
    NoRepeatsCounts(a);
    NoRepeatsCounts(b);
    var x, y := Members(a), Members(b);
    assert x + y == x + (y - x);
    assert |x + (y - x)| == |x| + |y - x|;
    assert y == (y - x) + (x * y);
    assert |(y - x) + (x * y)| == |y - x| + |x * y|;
  }
}
