/** The purge deletes only what an archive holds, unless an event is recorded after its window was sealed. */
module ArchivePurge {
  import opened Wrappers
  import opened AuditArchive
  import opened ArchiveChain
  import opened ArchiveVerification
  import Canonical = CanonicalJson
  import Sorting

  // ----- the lists the purge works with -----

  lemma {:induction false} LessMembers(events: seq<Event>, gone: seq<Event>)
    ensures forall e :: e in Less(events, gone) <==> e in events && e !in gone
  {
    if events != [] {
      LessMembers(events[..|events| - 1], gone);
      assert events == events[..|events| - 1] + [events[|events| - 1]];
    }
  }

  lemma {:induction false} PurgeableMembers(s: State, events: seq<Event>, now: int, cutoff: int)
    ensures forall e :: e in AllPurgeable(s, events, now, cutoff) <==> e in events && Purgeable(s, e, now, cutoff)
  {
    if events != [] {
      PurgeableMembers(s, events[..|events| - 1], now, cutoff);
      assert events == events[..|events| - 1] + [events[|events| - 1]];
    }
  }

  lemma {:induction false} WithinMembers(events: seq<Event>, windowStart: int, windowEnd: int)
    ensures forall e :: e in Within(events, windowStart, windowEnd) <==> e in events && InWindow(e, windowStart, windowEnd)
  {
    if events != [] {
      WithinMembers(events[..|events| - 1], windowStart, windowEnd);
      assert events == events[..|events| - 1] + [events[|events| - 1]];
    }
  }

  lemma SelectedMembers(events: seq<Event>, windowStart: int, windowEnd: int)
    ensures forall e :: e in Selected(events, windowStart, windowEnd) <==> e in events && InWindow(e, windowStart, windowEnd)
  {
    var within := Within(events, windowStart, windowEnd);
    WithinMembers(events, windowStart, windowEnd);
    Sorting.SortKeepsElements(within, BySequence);
    forall e ensures e in Selected(events, windowStart, windowEnd) <==> e in within {
      Sorting.SameMembers(Sorting.Sort(within, BySequence), within, e);
    }
  }

  /** An event of the row's window has this sequence. */
  ghost predicate Occurs(events: seq<Event>, row: Row, sequence: int) {
    exists i :: 0 <= i < |events| && InWindow(events[i], row.windowStart, row.windowEnd) && events[i].sequence == sequence
  }

  lemma EventOccurs(events: seq<Event>, row: Row, e: Event)
    requires e in events && InWindow(e, row.windowStart, row.windowEnd)
    ensures Occurs(events, row, e.sequence)
  {
    var i :| 0 <= i < |events| && events[i] == e;
    assert InWindow(events[i], row.windowStart, row.windowEnd);
  }

  predicate Inside(events: seq<Event>, row: Row, e: Event) {
    e in events && InWindow(e, row.windowStart, row.windowEnd)
  }

  /** The ends of the selected list are events of the window, and no event of the window lies outside them. */
  lemma SelectedEnds(events: seq<Event>, row: Row, e: Event)
    ensures var selected := Selected(events, row.windowStart, row.windowEnd);
            && (Inside(events, row, e) ==>
                  selected != [] && selected[0].sequence <= e.sequence <= selected[|selected| - 1].sequence)
            && (selected != [] ==> Inside(events, row, selected[0]) && Inside(events, row, selected[|selected| - 1]))
  {
    var selected := Selected(events, row.windowStart, row.windowEnd);
    SelectedMembers(events, row.windowStart, row.windowEnd);
    Sorting.SortSorts(Within(events, row.windowStart, row.windowEnd), BySequence);
    if selected != [] {
      assert selected[0] in selected && selected[|selected| - 1] in selected;
    }
    if Inside(events, row, e) {
      var i :| 0 <= i < |selected| && selected[i] == e;
      assert i > 0 ==> BySequence(selected[0], selected[i]);
      assert i < |selected| - 1 ==> BySequence(selected[i], selected[|selected| - 1]);
    }
  }

  lemma SealNames(env: Env, s: State, k: nat, now: int)
    requires k < |s.rows|
    ensures var selected := Selected(s.events, s.rows[k].windowStart, s.rows[k].windowEnd);
            var seal := SealOf(env, s, k, now);
            seal.rowCount == |selected| && seal.firstSequence == FirstSequence(selected)
            && seal.lastSequence == LastSequence(selected)
  {
  }

  /** What a seal says of its window: how many events, and the least and greatest sequence among them. */
  lemma SealDescribesWindow(env: Env, s: State, k: nat, now: int, e: Event)
    requires k < |s.rows|
    ensures var row, seal := s.rows[k], SealOf(env, s, k, now);
            && seal.rowCount == |Within(s.events, row.windowStart, row.windowEnd)|
            && (seal.rowCount == 0 <==> seal.firstSequence.None?)
            && (seal.rowCount == 0 <==> seal.lastSequence.None?)
            && (Inside(s.events, row, e) ==>
                  && seal.firstSequence.Some? && seal.lastSequence.Some?
                  && seal.firstSequence.value <= e.sequence <= seal.lastSequence.value)
            && (seal.rowCount > 0 ==>
                  && Occurs(s.events, row, seal.firstSequence.value) && Occurs(s.events, row, seal.lastSequence.value))
  {
    var row := s.rows[k];
    var selected := Selected(s.events, row.windowStart, row.windowEnd);
    SealNames(env, s, k, now);
    SelectedEnds(s.events, row, e);
    if selected != [] {
      EventOccurs(s.events, row, selected[0]);
      EventOccurs(s.events, row, selected[|selected| - 1]);
    }
  }

  /** The oldest purgeable events go, at most `PURGE_LIMIT` at a time. */
  lemma PurgedMembers(s: State, now: int, cutoff: int)
    ensures forall e :: e in Purged(s, now, cutoff) ==> e in s.events && Purgeable(s, e, now, cutoff)
    ensures |AllPurgeable(s, s.events, now, cutoff)| <= PURGE_LIMIT ==>
      forall e :: e in s.events && Purgeable(s, e, now, cutoff) ==> e in Purged(s, now, cutoff)
  {
    var all := AllPurgeable(s, s.events, now, cutoff);
    var sorted := Sorting.Sort(all, OldestFirst);
    PurgeableMembers(s, s.events, now, cutoff);
    Sorting.SortKeepsElements(all, OldestFirst);
    forall e ensures e in sorted <==> e in all {
      Sorting.SameMembers(sorted, all, e);
    }
  }

  lemma PurgeRemoves(s: State, now: int, cutoff: int, e: Event)
    requires e in s.events
    ensures e !in Purge(s, now, cutoff).events ==> Purgeable(s, e, now, cutoff)
    ensures |AllPurgeable(s, s.events, now, cutoff)| <= PURGE_LIMIT && Purgeable(s, e, now, cutoff) ==>
      e !in Purge(s, now, cutoff).events
  {
    PurgedMembers(s, now, cutoff);
    LessMembers(s.events, Purged(s, now, cutoff));
  }

  // ----- what a stored archive holds -----

  /** One line of the text, from position `i` on. */
  predicate LineAt(text: string, i: nat, line: string) {
    && i + |line| < |text| && text[i..i + |line|] == line && text[i + |line|] == '\n'
    && (i == 0 || text[i - 1] == '\n')
  }

  predicate HasLine(text: string, line: string) {
    exists i: nat :: i < |text| && LineAt(text, i, line)
  }

  lemma LineAfter(head: string, rest: string, line: string)
    requires HasLine(rest, line)
    ensures HasLine(head + "\n" + rest, line)
  {
    var i: nat :| i < |rest| && LineAt(rest, i, line);
    var text := head + "\n" + rest;
    var j := |head| + 1 + i;
    assert text[j..j + |line|] == rest[i..i + |line|];
    assert text[j - 1] == if i == 0 then '\n' else rest[i - 1];
    assert LineAt(text, j, line);
  }

  /** Every event printed has its line. */
  lemma {:induction false} PrintedLine(env: Env, events: seq<Event>, e: Event)
    requires e in events
    ensures HasLine(Lines(env, events), CanonicalText(env, e.content))
  {
    var head := CanonicalText(env, events[0].content);
    var rest := Lines(env, events[1..]);
    var text := Lines(env, events);
    assert text == head + "\n" + rest;
    if e == events[0] {
      assert text[0..0 + |head|] == head;
      assert LineAt(text, 0, head);
    } else {
      PrintedLine(env, events[1..], e);
      LineAfter(head, rest, CanonicalText(env, e.content));
    }
  }

  ghost predicate Unzips(env: Env) { forall text :: env.gunzip(env.gzip(text)) == text }

  /** The object is the one the seal speaks of, and its unpacked text has the event's line. */
  predicate ObjectHolds(env: Env, o: Stored, seal: Seal, e: Event) {
    env.sha256(o.body) == seal.checksum && HasLine(env.gunzip(o.body), CanonicalText(env, e.content))
  }

  /** The data object stored for this sealed row holds the event. */
  predicate HeldBy(env: Env, s: State, row: Row, e: Event) {
    row.seal.Some? && row.dataKey in s.objects && ObjectHolds(env, s.objects[row.dataKey], row.seal.value, e)
  }

  predicate Archived(env: Env, s: State, e: Event) {
    exists k :: 0 <= k < |s.rows| && HeldBy(env, s, s.rows[k], e)
  }

  // ----- nothing is lost -----

  /** Every online event of a sealed window is in that window's stored archive. */
  predicate RowCovers(env: Env, s: State, row: Row) {
    forall e :: e in s.events && InWindow(e, row.windowStart, row.windowEnd) ==> HeldBy(env, s, row, e)
  }

  predicate Covered(env: Env, s: State) {
    forall k :: 0 <= k < |s.rows| && s.rows[k].status == Verified ==> RowCovers(env, s, s.rows[k])
  }

  /** The event is recorded before its window is sealed. */
  predicate InTime(s: State, e: Event) {
    forall k :: 0 <= k < |s.rows| && s.rows[k].status == Verified ==>
      !InWindow(e, s.rows[k].windowStart, s.rows[k].windowEnd)
  }

  /** The key is not that of a sealed row's data. */
  predicate NoSealedData(s: State, key: string) {
    forall k :: 0 <= k < |s.rows| && s.rows[k].seal.Some? ==> s.rows[k].dataKey != key
  }

  /** No event comes late, and nothing outside touches the data of a sealed archive. */
  predicate Careful(s: State, step: Step) {
    match step
    case Record(e) => InTime(s, e)
    case Outside(key, o) => NoSealedData(s, key)
    case _ => true
  }

  predicate AllCareful(env: Env, s: State, steps: seq<Step>) {
    steps == []
    || (AllCareful(env, s, steps[..|steps| - 1]) && Careful(Run(env, s, steps[..|steps| - 1]), steps[|steps| - 1]))
  }

  predicate SameData(a: State, b: State, row: Row) { At(a.objects, row.dataKey) == At(b.objects, row.dataKey) }

  lemma HeldStays(env: Env, a: State, b: State, row: Row, row': Row, e: Event)
    requires HeldBy(env, a, row, e) && Kept(row, row') && SameData(a, b, row)
    ensures HeldBy(env, b, row', e)
  {
  }

  lemma KeptCovers(env: Env, a: State, b: State, row: Row, row': Row)
    requires RowCovers(env, a, row) && Kept(row, row') && SameData(a, b, row) && b.events == a.events
    ensures RowCovers(env, b, row')
  {
    forall e | e in b.events && InWindow(e, row'.windowStart, row'.windowEnd) ensures HeldBy(env, b, row', e) {
      HeldStays(env, a, b, row, row', e);
    }
  }

  /** A row whose stored data was printed from the events online covers them. */
  lemma PrintedCovers(env: Env, s: State, row: Row)
    requires Unzips(env) && row.seal.Some? && row.dataKey in s.objects
    requires s.objects[row.dataKey].body == DataOf(env, Selected(s.events, row.windowStart, row.windowEnd))
    requires row.seal.value.checksum == env.sha256(s.objects[row.dataKey].body)
    ensures RowCovers(env, s, row)
  {
    var events := Selected(s.events, row.windowStart, row.windowEnd);
    SelectedMembers(s.events, row.windowStart, row.windowEnd);
    assert env.gunzip(DataOf(env, events)) == Lines(env, events);
    forall e | e in s.events && InWindow(e, row.windowStart, row.windowEnd) ensures HeldBy(env, s, row, e) {
      PrintedLine(env, events, e);
    }
  }

  /** What a call may do to the archives: sealed rows keep their data, and new seals are printed from the events online. */
  predicate SealsFromEvents(env: Env, s: State, after: State) {
    && Grows(s.rows, after.rows) && after.events == s.events
    && forall k :: 0 <= k < |after.rows| && after.rows[k].status == Verified ==>
         (k < |s.rows| && s.rows[k].seal.Some? && SameData(s, after, s.rows[k])) || RowCovers(env, after, after.rows[k])
  }

  lemma CoveredAfter(env: Env, s: State, after: State)
    requires Inv(env, s.rows) && Covered(env, s) && SealsFromEvents(env, s, after)
    ensures Covered(env, after)
  {
    forall k | 0 <= k < |after.rows| && after.rows[k].status == Verified ensures RowCovers(env, after, after.rows[k]) {
      if k < |s.rows| && s.rows[k].seal.Some? && SameData(s, after, s.rows[k]) {
        assert Kept(s.rows[k], after.rows[k]) && SealMatches(s.rows[k]);
        KeptCovers(env, s, after, s.rows[k], after.rows[k]);
      }
    }
  }

  lemma ConcludedCovers(env: Env, s: State, k: nat, now: int, t: Trouble)
    requires Unzips(env) && Inv(env, s.rows) && k < |s.rows| && s.rows[k].seal.None? && !Unseals(s.rows[k], now, t)
    ensures var after := Concluded(env, s, k, now, t).0;
            k < |after.rows| && after.rows == s.rows[k := after.rows[k]]
            && (after.rows[k].status == Verified ==> RowCovers(env, after, after.rows[k]))
  {
    AttemptRows(env, s, k, now, t);
    var after := Concluded(env, s, k, now, t).0;
    assert SealMatches(s.rows[k]);
    if GetsThrough(s.rows[k], now, t) && t.update != Refused {
      AttemptSeals(env, s, k, now, t);
      PrintedCovers(env, after, after.rows[k]);
    }
  }

  lemma ConcludedSeals(env: Env, s: State, k: nat, now: int, t: Trouble)
    requires Unzips(env) && Inv(env, s.rows) && k < |s.rows| && s.rows[k].seal.None? && !Unseals(s.rows[k], now, t)
    ensures SealsFromEvents(env, s, Concluded(env, s, k, now, t).0)
  {
    var after := Concluded(env, s, k, now, t).0;
    ConcludedKeeps(env, s, k, now, t);
    ConcludedCovers(env, s, k, now, t);
    forall j | 0 <= j < |after.rows| && after.rows[j].status == Verified && j != k
      ensures s.rows[j].seal.Some? && SameData(s, after, s.rows[j]) {
      assert SealMatches(s.rows[j]) && Placed(env, s.rows[j]) && Placed(env, s.rows[k]);
      ConcludedElsewhere(env, s, k, now, t, s.rows[j]);
    }
  }

  lemma ArchiveCovers(env: Env, s: State, windowStart: int, windowEnd: int, call: Call)
    requires Unzips(env) && Inv(env, s.rows) && Covered(env, s) && !CallUnseals(env, s.rows, windowStart, windowEnd, call)
    requires RowOf(s.rows, windowStart, windowEnd) == |s.rows| ==> FreshId(s.rows, call.id)
    ensures Covered(env, Archive(env, s, windowStart, windowEnd, call).0)
  {
    var k := RowOf(s.rows, windowStart, windowEnd);
    var t := call.trouble;
    var after := Archive(env, s, windowStart, windowEnd, call).0;
    if t.find && k < |s.rows| && s.rows[k].status != Verified {
      assert SealMatches(s.rows[k]);
      ConcludedSeals(env, s, k, call.now, t);
      CoveredAfter(env, s, after);
    } else if t.find && k == |s.rows| && t.insert != Refused {
      InsertKeeps(env, s.rows, windowStart, windowEnd, call.id);
      var s1 := s.(rows := s.rows + [NewRow(env, windowStart, windowEnd, call.id)]);
      forall i | 0 <= i < |s1.rows| && s1.rows[i].status == Verified ensures RowCovers(env, s1, s1.rows[i]) {
        assert RowCovers(env, s, s.rows[i]);
      }
      if t.insert != LostAck {
        ConcludedSeals(env, s1, k, call.now, t);
        CoveredAfter(env, s1, after);
      }
    }
  }

  lemma {:induction false} RetryCovers(env: Env, s: State, todo: seq<Row>, calls: seq<Call>)
    requires Unzips(env) && Inv(env, s.rows) && Covered(env, s)
    requires |todo| <= |calls| && !RetryUnseals(env, s, todo, calls)
    requires forall i :: 0 <= i < |todo| ==> Known(s.rows, todo[i])
    ensures Covered(env, RetryAll(env, s, todo, calls))
    decreases |todo|
  {
    if todo != [] {
      assert Known(s.rows, todo[0]);
      ArchiveKeeps(env, s, todo[0].windowStart, todo[0].windowEnd, calls[0]);
      ArchiveCovers(env, s, todo[0].windowStart, todo[0].windowEnd, calls[0]);
      var r := Archive(env, s, todo[0].windowStart, todo[0].windowEnd, calls[0]);
      if r.1 {
        StillKnown(s.rows, r.0.rows, todo);
        RetryCovers(env, r.0, todo[1..], calls[1..]);
      }
    }
  }

  lemma FewerEventsCovered(env: Env, s: State, after: State)
    requires Covered(env, s) && after.rows == s.rows && after.objects == s.objects
    requires forall e :: e in after.events ==> e in s.events
    ensures Covered(env, after)
  {
    forall k | 0 <= k < |after.rows| && after.rows[k].status == Verified ensures RowCovers(env, after, after.rows[k]) {
      assert RowCovers(env, s, s.rows[k]);
    }
  }

  lemma RecordCovers(env: Env, s: State, e: Event)
    requires Covered(env, s) && InTime(s, e)
    ensures Covered(env, s.(events := s.events + [e]))
  {
    var after := s.(events := s.events + [e]);
    forall k | 0 <= k < |after.rows| && after.rows[k].status == Verified ensures RowCovers(env, after, after.rows[k]) {
      assert RowCovers(env, s, s.rows[k]);
    }
  }

  lemma OutsideCovers(env: Env, s: State, key: string, o: Option<Stored>)
    requires Inv(env, s.rows) && Covered(env, s) && NoSealedData(s, key)
    ensures Covered(env, Apply(env, s, Outside(key, o)))
  {
    var after := Apply(env, s, Outside(key, o));
    forall k | 0 <= k < |after.rows| && after.rows[k].status == Verified ensures RowCovers(env, after, after.rows[k]) {
      assert SealMatches(s.rows[k]);
      KeptCovers(env, s, after, s.rows[k], s.rows[k]);
    }
  }

  lemma VerificationCovers(env: Env, s: State, id: string, now: int)
    requires Inv(env, s.rows) && Covered(env, s)
    ensures Covered(env, Verification(env, s, id, now).0)
  {
    VerificationKeeps(env, s, id, now);
    var after := Verification(env, s, id, now).0;
    forall k | 0 <= k < |after.rows| && after.rows[k].status == Verified
      ensures k < |s.rows| && s.rows[k].seal.Some? {
      assert Kept(s.rows[k], after.rows[k]) && SealMatches(s.rows[k]);
    }
    CoveredAfter(env, s, after);
  }

  lemma StepCovers(env: Env, s: State, step: Step)
    requires Unzips(env) && Inv(env, s.rows) && Covered(env, s) && Allowed(env, s, step) && Careful(s, step)
    ensures Covered(env, Apply(env, s, step))
  {
    match step {
      case ArchiveDay(windowStart, windowEnd, call) => ArchiveCovers(env, s, windowStart, windowEnd, call);
      case RetryFailed(a, b, c) =>
        ToRetryKnown(s.rows);
        RetryCovers(env, s, ToRetry(s.rows), [a, b, c]);
      case VerifyOne(id, now) => VerificationCovers(env, s, id, now);
      case Record(e) => RecordCovers(env, s, e);
      case PurgeOld(now, cutoff) =>
        LessMembers(s.events, Purged(s, now, cutoff));
        FewerEventsCovered(env, s, Purge(s, now, cutoff));
      case Outside(key, o) => OutsideCovers(env, s, key, o);
    }
  }

  /** A step keeps the data object of a sealed row. */
  lemma StepKeepsData(env: Env, s: State, step: Step, k: nat)
    requires Inv(env, s.rows) && Allowed(env, s, step) && Careful(s, step) && k < |s.rows| && s.rows[k].seal.Some?
    ensures SameData(s, Apply(env, s, step), s.rows[k])
  {
    if !step.Outside? {
      StepElsewhere(env, s, step, k);
    }
  }

  lemma ArchivedStays(env: Env, s: State, step: Step, e: Event)
    requires Inv(env, s.rows) && Allowed(env, s, step) && Careful(s, step) && Archived(env, s, e)
    ensures Archived(env, Apply(env, s, step), e)
  {
    var after := Apply(env, s, step);
    var k :| 0 <= k < |s.rows| && HeldBy(env, s, s.rows[k], e);
    StepKeeps(env, s, step);
    StepKeepsData(env, s, step, k);
    assert Kept(s.rows[k], after.rows[k]);
    HeldStays(env, s, after, s.rows[k], after.rows[k], e);
  }

  /** In a covered state the purge takes only what an archive holds. */
  lemma PurgeTakesArchived(env: Env, s: State, now: int, cutoff: int, e: Event)
    requires Covered(env, s) && e in s.events
    ensures e in Purge(s, now, cutoff).events || Archived(env, s, e)
  {
    PurgeRemoves(s, now, cutoff, e);
    if e !in Purge(s, now, cutoff).events {
      var k :| 0 <= k < |s.rows| && Covers(s.rows[k], e, now);
      assert RowCovers(env, s, s.rows[k]);
      assert HeldBy(env, s, s.rows[k], e);
    }
  }

  lemma StepLosesNothing(env: Env, s: State, step: Step, e: Event)
    requires Inv(env, s.rows) && Covered(env, s) && Allowed(env, s, step) && Careful(s, step)
    requires e in s.events || Archived(env, s, e)
    ensures e in Apply(env, s, step).events || Archived(env, Apply(env, s, step), e)
  {
    if Archived(env, s, e) {
      ArchivedStays(env, s, step, e);
    } else {
      match step {
        case ArchiveDay(windowStart, windowEnd, call) => ArchiveKeeps(env, s, windowStart, windowEnd, call);
        case RetryFailed(a, b, c) =>
          ToRetryKnown(s.rows);
          RetryKeeps(env, s, ToRetry(s.rows), [a, b, c]);
        case PurgeOld(now, cutoff) => PurgeTakesArchived(env, s, now, cutoff, e);
        case _ =>
      }
    }
  }

  /**
   * Over every run that takes no seal back, records no event into a window already sealed and leaves the data of
   * sealed archives alone, an event that was ever online is still online, or its line is in the stored data of an
   * archive.
   */
  lemma {:induction false} NothingLost(env: Env, s: State, steps: seq<Step>, e: Event)
    requires Unzips(env) && Inv(env, s.rows) && Covered(env, s) && Legal(env, s, steps) && AllCareful(env, s, steps)
    requires e in s.events || Archived(env, s, e)
    ensures Covered(env, Run(env, s, steps))
    ensures e in Run(env, s, steps).events || Archived(env, Run(env, s, steps), e)
  {
    if steps != [] {
      var before := Run(env, s, steps[..|steps| - 1]);
      NothingLost(env, s, steps[..|steps| - 1], e);
      SealsAreFinal(env, s, steps[..|steps| - 1]);
      StepCovers(env, before, steps[|steps| - 1]);
      StepLosesNothing(env, before, steps[|steps| - 1], e);
    }
  }

  // ----- when an event is lost -----

  /**
   * The purge asks for a verified window around the event, not for the event in that window's archive: an event
   * recorded late goes with the others. When one purge can take all that is due, it takes exactly those.
   */
  lemma LateEventGoesIff(s: State, e: Event, now: int, cutoff: int)
    requires |AllPurgeable(s, s.events + [e], now, cutoff)| <= PURGE_LIMIT
    ensures var recorded := s.(events := s.events + [e]);
            e !in Purge(recorded, now, cutoff).events
            <==> e.occurredAt < cutoff && exists k :: 0 <= k < |s.rows| && Covers(s.rows[k], e, now)
  {
    var recorded := s.(events := s.events + [e]);
    SamePurgeable(s, recorded, recorded.events, now, cutoff);
    PurgeRemoves(recorded, now, cutoff, e);
  }

  predicate HeldIfInside(env: Env, s: State, row: Row, e: Event) {
    InWindow(e, row.windowStart, row.windowEnd) ==> HeldBy(env, s, row, e)
  }

  /** Recording keeps every sealed window covered exactly when each sealed window around the event already holds it. */
  lemma RecordCoversIff(env: Env, s: State, e: Event)
    requires Covered(env, s)
    ensures Covered(env, s.(events := s.events + [e]))
            <==> forall k :: 0 <= k < |s.rows| && s.rows[k].status == Verified ==> HeldIfInside(env, s, s.rows[k], e)
  {
    var after := s.(events := s.events + [e]);
    assert e in after.events;
    if Covered(env, after) {
      forall k | 0 <= k < |s.rows| && s.rows[k].status == Verified ensures HeldIfInside(env, s, s.rows[k], e) {
        assert RowCovers(env, after, after.rows[k]);
      }
    } else {
      var k :| 0 <= k < |s.rows| && s.rows[k].status == Verified && !RowCovers(env, after, s.rows[k]);
      assert RowCovers(env, s, s.rows[k]);
    }
  }

  /**
   * One purge that can take all that is due loses an online event, out of the table and in no archive, exactly
   * when the event is due and no archive holds it: the purge does not ask whether one does.
   */
  lemma PurgeLosesIff(env: Env, s: State, e: Event, now: int, cutoff: int)
    requires e in s.events && |AllPurgeable(s, s.events, now, cutoff)| <= PURGE_LIMIT
    ensures var after := Purge(s, now, cutoff);
            e !in after.events && !Archived(env, after, e)
            <==> Purgeable(s, e, now, cutoff) && !Archived(env, s, e)
  {
    PurgeRemoves(s, now, cutoff, e);
  }

  /** So an event recorded into a sealed window that no archive holds is lost exactly when it is due. */
  lemma LateEventLostIff(env: Env, s: State, e: Event, now: int, cutoff: int)
    requires |AllPurgeable(s, s.events + [e], now, cutoff)| <= PURGE_LIMIT && !Archived(env, s, e)
    ensures var after := Purge(s.(events := s.events + [e]), now, cutoff);
            e !in after.events && !Archived(env, after, e)
            <==> e.occurredAt < cutoff && exists k :: 0 <= k < |s.rows| && Covers(s.rows[k], e, now)
  {
    LateEventGoesIff(s, e, now, cutoff);
    assert Purge(s.(events := s.events + [e]), now, cutoff).rows == s.rows;
  }

  lemma {:induction false} SamePurgeable(s: State, r: State, events: seq<Event>, now: int, cutoff: int)
    requires r.rows == s.rows
    ensures AllPurgeable(r, events, now, cutoff) == AllPurgeable(s, events, now, cutoff)
  {
    if events != [] {
      SamePurgeable(s, r, events[..|events| - 1], now, cutoff);
      assert Purgeable(r, events[|events| - 1], now, cutoff) <==> Purgeable(s, events[|events| - 1], now, cutoff);
    }
  }

  /** Deleting the data object of an archive loses what the purge took exactly when no other archive holds it. */
  lemma DeletionLosesIff(env: Env, s: State, k: nat, e: Event)
    requires Inv(env, s.rows) && k < |s.rows|
    ensures var after := Apply(env, s, Outside(s.rows[k].dataKey, None));
            Archived(env, after, e) <==> exists j :: 0 <= j < |s.rows| && j != k && HeldBy(env, s, s.rows[j], e)
  {
    var after := Apply(env, s, Outside(s.rows[k].dataKey, None));
    forall j | 0 <= j < |s.rows| ensures HeldBy(env, after, s.rows[j], e) <==> j != k && HeldBy(env, s, s.rows[j], e) {
      assert Placed(env, s.rows[k]) && Placed(env, s.rows[j]);
      if j != k {
        RowKeysApart(env, s.rows[k], s.rows[j]);
      }
    }
  }

  // ----- late events after a seal was taken back -----

  /** An archive whose seal was taken back still verifies, and so becomes verified again. */
  lemma TakenBackVerifies(env: Env, s: State, k: nat, now: int, t: Trouble, at: int)
    requires Canonical.Decides(env.keyOrder) && ReadsManifests(env)
    requires k < |s.rows| && Placed(env, s.rows[k]) && Unseals(s.rows[k], now, t)
    ensures var first := Concluded(env, s, k, now, t).0;
            k < |first.rows| && Check(env, first, first.rows[k], at) == Ok(at < s.rows[k].windowEnd + RETENTION)
  {
    var row := s.rows[k];
    var events, previous := Selected(s.events, row.windowStart, row.windowEnd), PreviousChecksum(s.rows, row.windowEnd);
    var fields := UnsignedFields(env, row, events, previous, now);
    AttemptRows(env, s, k, now, t);
    AttemptSeals(env, s, k, now, t);
    ManifestKeysDistinct(env, row, events, previous, now);
    assert ReadsManifest(env, fields);
    var first := Concluded(env, s, k, now, t).0;
    assert UnsignedFields(env, Attempt(env, s, k, now, t).0.rows[k], events, previous, now) == fields;
    CheckWhenUnchanged(env, first, first.rows[k], fields, at);
  }

  lemma FoundApart(rows: seq<Row>, k: nat)
    requires RowsApart(rows) && k < |rows|
    ensures RowById(rows, rows[k].id) == k
  {
  }

  /**
   * Between a seal taken back and the next verification an event of that window counts as in time, but the sealed data
   * lacks it. If no other archive covers it, it is lost in the end exactly when the verification succeeds and the event
   * is due while the retention lasts.
   */
  lemma RecordedAfterTakenBackIff(env: Env, s: State, k: nat, e: Event, at: int, now: int, cutoff: int)
    requires RowsApart(s.rows) && k < |s.rows| && s.rows[k].seal.Some? && s.rows[k].status != Verified
    requires InWindow(e, s.rows[k].windowStart, s.rows[k].windowEnd) && !Archived(env, s, e)
    requires forall j :: 0 <= j < |s.rows| ==> !Covers(s.rows[j], e, now)
    requires var verified := Verification(env, s.(events := s.events + [e]), s.rows[k].id, at).0;
             |AllPurgeable(verified, verified.events, now, cutoff)| <= PURGE_LIMIT
    ensures var verified := Verification(env, s.(events := s.events + [e]), s.rows[k].id, at).0;
            var after := Purge(verified, now, cutoff);
            e !in after.events && !Archived(env, after, e)
            <==> Check(env, s, s.rows[k], at) == Ok(true) && e.occurredAt < cutoff && s.rows[k].windowEnd + RETENTION > now
  {
    var recorded := s.(events := s.events + [e]);
    FoundApart(s.rows, k);
    assert Check(env, recorded, s.rows[k], at) == Check(env, s, s.rows[k], at);
    var verified := Verification(env, recorded, s.rows[k].id, at).0;
    PurgeRemoves(verified, now, cutoff, e);
    var after := Purge(verified, now, cutoff);
    forall j | 0 <= j < |s.rows| ensures HeldBy(env, after, after.rows[j], e) <==> HeldBy(env, s, s.rows[j], e) {
    }
    forall j | 0 <= j < |s.rows|
      ensures Covers(verified.rows[j], e, now)
              <==> j == k && Check(env, s, s.rows[k], at) == Ok(true) && s.rows[k].windowEnd + RETENTION > now {
    }
  }
}
