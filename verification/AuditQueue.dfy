/**
 * Best-effort audit delivery: an event that cannot be inserted goes to a Redis
 * stream and is replayed later. Inserts are idempotent on the event id; every
 * database and Redis call may fail, or succeed and lose its reply.
 */
module AuditQueue {
  import opened Wrappers
  import AuditText

  datatype Actor = Actor(kind: string, id: Option<string>)

  /** What a caller passes in; `payload` stands for the columns stored as they are given. */
  datatype Event = Event(
    id: string, action: string, actor: Option<Actor>, reason: Option<string>, occurredAt: Option<int>,
    source: Option<string>, correlationId: Option<string>, payload: string)

  /** The request an event arises in; `request` stands for its id, method, route, address and user agent. */
  datatype Context = Context(actor: Actor, source: string, correlationId: Option<string>, request: string)

  /** A job has no context. */
  datatype Origin = Origin(context: Option<Context>, now: int)

  datatype Row = Row(
    id: string, action: string, actor: Actor, reason: Option<string>, occurredAt: int, source: string,
    correlationId: Option<string>, request: Option<string>, payload: string)

  datatype Entry = Entry(streamId: nat, event: Event)

  /** A write that is done, not done, or done although its caller sees an error. */
  datatype Fate = Done | NotDone | ReplyLost

  datatype Audit = Audit(table: seq<Row>, queue: seq<Entry>, gaps: set<string>, nextStreamId: nat)

  const HIGH_RISK: set<string> := {
    "admin.user.role_changed", "admin.user.ban_changed", "admin.user.deleted",
    "admin.user.impersonation_started", "api_key.elevated_permission_changed", "gtfs.ingest.attempted",
    "history.backfill.attempted", "history.purge.attempted", "cache.flush.attempted",
    "admin.notification.test", "admin.notification.service_alert",
    "admin.notification.line_alert_resolved", "admin.notification.device_link_code_created"}

  // ----- which events can be inserted at all -----

  predicate Blank(reason: Option<string>) { reason.None? || AuditText.Trim(reason.value) == "" }

  predicate IsSystem(actor: Option<Actor>) { actor.Some? && actor.value.kind == "system" }

  function ActorIn(context: Option<Context>): Option<Actor> {
    if context.Some? then Some(context.value.actor) else None
  }

  /** The reason to store, or none if the event is refused. */
  function ReasonFor(e: Event, context: Option<Context>): Result<Option<string>, ()> {
    var clean := if e.reason.Some? then Some(AuditText.Sanitize(e.reason.value, 1000)) else None;
    if e.action !in HIGH_RISK then Ok(clean)
    else if (IsSystem(e.actor) || IsSystem(ActorIn(context))) && Blank(e.reason) then
      Ok(Some("Automatic backend operation: " + e.action))
    else if clean.Some? && |clean.value| >= 10 then Ok(clean)
    else Err(())
  }

  predicate Refused(e: Event, context: Option<Context>) { ReasonFor(e, context).Err? }

  // ----- the row stored -----

  const SYSTEM := Actor("system", None)

  function Clean(text: Option<string>, max: nat): Option<string> {
    if text.Some? then Some(AuditText.Sanitize(text.value, max)) else None
  }

  function Or<T>(first: Option<T>, second: Option<T>): Option<T> { if first.Some? then first else second }

  function OrElse<T>(first: Option<T>, second: T): T { if first.Some? then first.value else second }

  /** What the event does not say of itself is filled in from the request it arises in. */
  function RowFor(e: Event, origin: Origin, reason: Option<string>): Row {
    var c := origin.context;
    var actor := OrElse(Or(e.actor, ActorIn(c)), SYSTEM);
    Row(e.id, e.action, Actor(actor.kind, Clean(actor.id, 200)), reason,
        OrElse(e.occurredAt, origin.now),
        OrElse(Or(e.source, if c.Some? then Some(c.value.source) else None), "job"),
        Or(Clean(e.correlationId, 200), if c.Some? then c.value.correlationId else None),
        if c.Some? then Some(c.value.request) else None,
        e.payload)
  }

  predicate Recorded(table: seq<Row>, id: string) {
    exists i :: 0 <= i < |table| && table[i].id == id
  }

  /** Insert unless the id is there already. */
  function InsertOnce(table: seq<Row>, row: Row): seq<Row> {
    if Recorded(table, row.id) then table else table + [row]
  }

  // ----- the operations -----

  function Record(s: Audit, e: Event, origin: Origin, fate: Fate): (Audit, bool) {
    var reason := ReasonFor(e, origin.context);
    if reason.Err? || fate == NotDone then (s, false)
    else (s.(table := InsertOnce(s.table, RowFor(e, origin, reason.value))), fate == Done)
  }

  function Enqueue(s: Audit, e: Event, fate: Fate): (Audit, bool) {
    if fate == NotDone then (s, false)
    else (s.(queue := s.queue + [Entry(s.nextStreamId, e)], nextStreamId := s.nextStreamId + 1), fate == Done)
  }

  function BestEffort(s: Audit, e: Event, origin: Origin, insert: Fate, enqueue: Fate): Audit {
    var (recorded, ok) := Record(s, e, origin, insert);
    if ok then recorded
    else
      var (queued, queuedOk) := Enqueue(recorded, e, enqueue);
      if queuedOk then queued else queued.(gaps := queued.gaps + {e.id})
  }

  function Without(queue: seq<Entry>, streamId: nat): seq<Entry> {
    if queue == [] then []
    else if queue[0].streamId == streamId then Without(queue[1..], streamId)
    else [queue[0]] + Without(queue[1..], streamId)
  }

  datatype Luck = Luck(insert: Fate, ack: Fate)

  function LuckAt(lucks: seq<Luck>, i: nat): Luck { if i < |lucks| then lucks[i] else Luck(Done, Done) }

  /** One entry of the replay loop: recorded, then acknowledged. */
  function ReplayOne(s: Audit, entry: Entry, now: int, luck: Luck): (Audit, bool) {
    var (recorded, ok) := Record(s, entry.event, Origin(None, now), luck.insert);
    if !ok then (recorded, false)
    else if luck.ack == NotDone then (recorded, false)
    else (recorded.(queue := Without(recorded.queue, entry.streamId)), luck.ack == Done)
  }

  /** Replays the entries read, in order, up to the first that is not both recorded and acknowledged. */
  function Replay(s: Audit, read: seq<Entry>, now: int, lucks: seq<Luck>): (Audit, nat)
    decreases |read|
  {
    if read == [] then (s, 0)
    else
      var (after, completed) := ReplayOne(s, read[0], now, LuckAt(lucks, 0));
      if !completed then (after, 0)
      else
        var (last, n) := Replay(after, read[1..], now, Drop(lucks, 1));
        (last, n + 1)
  }

  function Drop(lucks: seq<Luck>, i: nat): seq<Luck> { if i <= |lucks| then lucks[i..] else [] }

  /** The replay seen from position `i` of the list read. */
  lemma ReplayFrom(s: Audit, read: seq<Entry>, now: int, lucks: seq<Luck>, i: nat)
    requires i < |read|
    ensures var (after, completed) := ReplayOne(s, read[i], now, LuckAt(lucks, i));
            var rest := Replay(after, read[i + 1..], now, Drop(lucks, i + 1));
            Replay(s, read[i..], now, Drop(lucks, i)) == if completed then (rest.0, rest.1 + 1) else (after, 0)
  {
    assert read[i..][1..] == read[i + 1..];
    assert LuckAt(Drop(lucks, i), 0) == LuckAt(lucks, i);
    assert Drop(Drop(lucks, i), 1) == Drop(lucks, i + 1);
  }

  function Head(queue: seq<Entry>, limit: nat): seq<Entry> {
    if |queue| > limit then queue[..limit] else queue
  }

  function Retry(s: Audit, limit: nat, now: int, lucks: seq<Luck>): (Audit, nat) {
    Replay(s, Head(s.queue, limit), now, lucks)
  }

  class AuditService {
    var table: seq<Row>
    var queue: seq<Entry>
    var gaps: set<string>
    var nextStreamId: nat

    ghost function View(): Audit
      reads this
    {
      Audit(table, queue, gaps, nextStreamId)
    }

    constructor ()
      ensures View() == Audit([], [], {}, 0)
    {
      table, queue, gaps, nextStreamId := [], [], {}, 0;
    }

    method RecordEvent(e: Event, origin: Origin, fate: Fate) returns (ok: bool)
      modifies this`table
      ensures (View(), ok) == Record(old(View()), e, origin, fate)
    {
      var reason := ReasonFor(e, origin.context);
      if reason.Err? || fate == NotDone {
        return false;
      }
      if !Recorded(table, e.id) {
        table := table + [RowFor(e, origin, reason.value)];
      }
      return fate == Done;
    }

    method RecordBestEffort(e: Event, origin: Origin, insert: Fate, enqueue: Fate)
      modifies this
      ensures View() == BestEffort(old(View()), e, origin, insert, enqueue)
    {
      var ok := RecordEvent(e, origin, insert);
      if !ok {
        if enqueue != NotDone {
          queue := queue + [Entry(nextStreamId, e)];
          nextStreamId := nextStreamId + 1;
        }
        if enqueue != Done {
          gaps := gaps + {e.id};
        }
      }
    }

    method ReplayEntry(entry: Entry, now: int, luck: Luck) returns (completed: bool)
      modifies this
      ensures (View(), completed) == ReplayOne(old(View()), entry, now, luck)
    {
      completed := RecordEvent(entry.event, Origin(None, now), luck.insert);
      if completed {
        if luck.ack != NotDone {
          queue := Without(queue, entry.streamId);
        }
        completed := luck.ack == Done;
      }
    }

    method RetryQueued(limit: nat, now: int, lucks: seq<Luck>) returns (completed: nat)
      modifies this
      ensures (View(), completed) == Retry(old(View()), limit, now, lucks)
    {
      var queued := Head(queue, limit);
      completed := 0;
      ghost var whole := Replay(View(), queued, now, lucks);
      while completed < |queued|
        invariant completed <= |queued|
        invariant whole.0 == Replay(View(), queued[completed..], now, Drop(lucks, completed)).0
        invariant whole.1 == completed + Replay(View(), queued[completed..], now, Drop(lucks, completed)).1
      {
        ReplayFrom(View(), queued, now, lucks, completed);
        var ok := ReplayEntry(queued[completed], now, LuckAt(lucks, completed));
        if !ok {
          break;
        }
        completed := completed + 1;
      }
    }
  }

  // ----- every run -----

  datatype Step =
    | DoRecord(e: Event, origin: Origin, insert: Fate)
    | DoBestEffort(e: Event, origin: Origin, insert: Fate, enqueue: Fate)
    | DoRetry(limit: nat, now: int, lucks: seq<Luck>)

  function Apply(s: Audit, step: Step): Audit {
    match step
    case DoRecord(e, origin, insert) => Record(s, e, origin, insert).0
    case DoBestEffort(e, origin, insert, enqueue) => BestEffort(s, e, origin, insert, enqueue)
    case DoRetry(limit, now, lucks) => Retry(s, limit, now, lucks).0
  }

  function Run(s: Audit, steps: seq<Step>): Audit {
    if steps == [] then s else Apply(Run(s, steps[..|steps| - 1]), steps[|steps| - 1])
  }

  predicate Queued(queue: seq<Entry>, id: string) {
    exists i :: 0 <= i < |queue| && queue[i].event.id == id
  }

  /** Recorded, waiting, or reported as a gap. */
  predicate AccountedFor(s: Audit, id: string) {
    Recorded(s.table, id) || Queued(s.queue, id) || id in s.gaps
  }

  ghost predicate Inv(s: Audit) {
    && (forall i, j :: 0 <= i < j < |s.table| ==> s.table[i].id != s.table[j].id)
    && (forall i, j :: 0 <= i < j < |s.queue| ==> s.queue[i].streamId < s.queue[j].streamId)
    && (forall i :: 0 <= i < |s.queue| ==> s.queue[i].streamId < s.nextStreamId)
  }

  /** Rows are only ever appended, and nothing accounted for gets lost. */
  ghost predicate KeepsAll(s: Audit, s': Audit) {
    && s.table <= s'.table
    && s.gaps <= s'.gaps
    && (forall id :: AccountedFor(s, id) ==> AccountedFor(s', id))
  }

  lemma RecordKeeps(s: Audit, e: Event, origin: Origin, fate: Fate)
    requires Inv(s)
    ensures var (s', ok) := Record(s, e, origin, fate);
            && Inv(s') && KeepsAll(s, s')
            && s' == s.(table := s'.table)
            && (ok ==> Recorded(s'.table, e.id))
  {
    var (s', ok) := Record(s, e, origin, fate);
    forall id | Recorded(s.table, id) ensures Recorded(s'.table, id) {
      var i :| 0 <= i < |s.table| && s.table[i].id == id;
      assert s'.table[i].id == id;
    }
    if ok && !Recorded(s.table, e.id) {
      assert s'.table[|s.table|].id == e.id;
    }
  }

  lemma {:induction false} WithoutFacts(queue: seq<Entry>, streamId: nat)
    requires forall i, j :: 0 <= i < j < |queue| ==> queue[i].streamId < queue[j].streamId
    ensures forall x :: x in Without(queue, streamId) <==> x in queue && x.streamId != streamId
    ensures forall i, j :: 0 <= i < j < |Without(queue, streamId)|
              ==> Without(queue, streamId)[i].streamId < Without(queue, streamId)[j].streamId
  {
    if queue != [] {
      WithoutFacts(queue[1..], streamId);
      var rest := Without(queue[1..], streamId);
      assert queue == [queue[0]] + queue[1..];
      forall i | 0 <= i < |rest| ensures rest[i] in queue[1..] {
        assert rest[i] in rest;
      }
    }
  }

  lemma QueuedByMember(queue: seq<Entry>, id: string)
    ensures Queued(queue, id) <==> exists x :: x in queue && x.event.id == id
  {
  }

  lemma AckKeeps(s: Audit, x: Entry)
    requires Inv(s) && Recorded(s.table, x.event.id)
    requires forall y :: y in s.queue && y.streamId == x.streamId ==> y == x
    ensures var s' := s.(queue := Without(s.queue, x.streamId));
            Inv(s') && KeepsAll(s, s')
  {
    var s' := s.(queue := Without(s.queue, x.streamId));
    WithoutFacts(s.queue, x.streamId);
    forall i | 0 <= i < |s'.queue| ensures s'.queue[i].streamId < s.nextStreamId {
      assert s'.queue[i] in s.queue;
    }
    forall id | AccountedFor(s, id) ensures AccountedFor(s', id) {
      QueuedByMember(s.queue, id);
      QueuedByMember(s'.queue, id);
    }
  }

  /** The entries read are still the ones the queue holds under their stream ids. */
  ghost predicate ReadFrom(s: Audit, read: seq<Entry>) {
    && (forall i :: 0 <= i < |read| ==> forall y :: y in s.queue && y.streamId == read[i].streamId ==> y == read[i])
    && (forall i, j :: 0 <= i < j < |read| ==> read[i].streamId < read[j].streamId)
  }

  lemma OneKeeps(s: Audit, x: Entry, now: int, luck: Luck)
    requires Inv(s) && forall y :: y in s.queue && y.streamId == x.streamId ==> y == x
    ensures var (s', completed) := ReplayOne(s, x, now, luck);
            && Inv(s') && KeepsAll(s, s')
            && (forall y :: y in s'.queue ==> y in s.queue)
            && (forall y :: y in s.queue && y !in s'.queue ==> y == x && Recorded(s'.table, x.event.id))
            && (completed ==> Recorded(s'.table, x.event.id) && x !in s'.queue)
  {
    RecordKeeps(s, x.event, Origin(None, now), luck.insert);
    var (recorded, ok) := Record(s, x.event, Origin(None, now), luck.insert);
    if ok && luck.ack != NotDone {
      AckKeeps(recorded, x);
      WithoutFacts(s.queue, x.streamId);
    }
  }

  /**
   * The replay loop: the entries completed are a prefix of those read and each of them has its row; an entry
   * leaves the queue only if it was read and has its row; every other entry stays.
   */
  lemma {:induction false} ReplayKeeps(s: Audit, read: seq<Entry>, now: int, lucks: seq<Luck>)
    requires Inv(s) && ReadFrom(s, read)
    ensures var (s', n) := Replay(s, read, now, lucks);
            && Inv(s') && KeepsAll(s, s')
            && n <= |read|
            && (forall i :: 0 <= i < n ==> Recorded(s'.table, read[i].event.id) && read[i] !in s'.queue)
            && (forall x :: x in s.queue && x !in s'.queue ==> x in read && Recorded(s'.table, x.event.id))
            && (forall x :: x in s'.queue ==> x in s.queue)
    decreases |read|
  {
    if read != [] {
      var luck := LuckAt(lucks, 0);
      OneKeeps(s, read[0], now, luck);
      var (after, completed) := ReplayOne(s, read[0], now, luck);
      if completed {
        ReplayKeeps(after, read[1..], now, Drop(lucks, 1));
        var (s', n) := Replay(after, read[1..], now, Drop(lucks, 1));
        AccountedStays(after.table, s'.table, read[0].event.id);
        assert read == [read[0]] + read[1..];
      }
    }
  }

  lemma AccountedStays(table: seq<Row>, table': seq<Row>, id: string)
    requires table <= table' && Recorded(table, id)
    ensures Recorded(table', id)
  {
    var i :| 0 <= i < |table| && table[i].id == id;
    assert table'[i].id == id;
  }

  lemma BestEffortKeeps(s: Audit, e: Event, origin: Origin, insert: Fate, enqueue: Fate)
    requires Inv(s)
    ensures var s' := BestEffort(s, e, origin, insert, enqueue);
            Inv(s') && KeepsAll(s, s') && AccountedFor(s', e.id)
  {
    RecordKeeps(s, e, origin, insert);
    var (recorded, ok) := Record(s, e, origin, insert);
    var s' := BestEffort(s, e, origin, insert, enqueue);
    if !ok && enqueue != NotDone {
      assert s'.queue[|s.queue|].event == e;
      forall id | Queued(s.queue, id) ensures Queued(s'.queue, id) {
        var i :| 0 <= i < |s.queue| && s.queue[i].event.id == id;
        assert s'.queue[i].event.id == id;
      }
    }
  }

  lemma StepKeeps(s: Audit, step: Step)
    requires Inv(s)
    ensures Inv(Apply(s, step)) && KeepsAll(s, Apply(s, step))
    ensures step.DoBestEffort? ==> AccountedFor(Apply(s, step), step.e.id)
  {
    match step
    case DoRecord(e, origin, insert) => RecordKeeps(s, e, origin, insert);
    case DoBestEffort(e, origin, insert, enqueue) => BestEffortKeeps(s, e, origin, insert, enqueue);
    case DoRetry(limit, now, lucks) =>
      assert ReadFrom(s, Head(s.queue, limit));
      ReplayKeeps(s, Head(s.queue, limit), now, lucks);
  }

  /**
   * Over any run of failures, lost replies and retries: at most one row per event id, rows are never changed
   * or removed, and every best-effort event is in the table, in the queue or reported as a gap.
   */
  lemma {:induction false} NothingLost(s: Audit, steps: seq<Step>, i: nat)
    requires Inv(s) && i < |steps| && steps[i].DoBestEffort?
    ensures Inv(Run(s, steps)) && s.table <= Run(s, steps).table
    ensures AccountedFor(Run(s, steps), steps[i].e.id)
    decreases |steps|
  {
    var before := steps[..|steps| - 1];
    RunKeeps(s, before);
    StepKeeps(Run(s, before), steps[|steps| - 1]);
    if i < |before| {
      NothingLost(s, before, i);
    }
  }

  lemma {:induction false} RunKeeps(s: Audit, steps: seq<Step>)
    requires Inv(s)
    ensures Inv(Run(s, steps)) && KeepsAll(s, Run(s, steps))
  {
    if steps != [] {
      RunKeeps(s, steps[..|steps| - 1]);
      StepKeeps(Run(s, steps[..|steps| - 1]), steps[|steps| - 1]);
    }
  }

  // ----- when the queue drains -----

  /** How many leading entries a replay job can insert. */
  function AcceptedPrefix(read: seq<Entry>): nat {
    if read == [] || Refused(read[0].event, None) then 0 else 1 + AcceptedPrefix(read[1..])
  }

  /**
   * With the database and Redis healthy, a retry completes exactly the entries in front of the first one whose
   * reason the job refuses, and removes exactly those.
   */
  lemma {:induction false} HealthyReplay(s: Audit, read: seq<Entry>, now: int)
    requires Inv(s) && read <= s.queue
    ensures var n := AcceptedPrefix(read);
            n <= |read| && Replay(s, read, now, []).1 == n && Replay(s, read, now, []).0.queue == s.queue[n..]
    decreases |read|
  {
    if read != [] && !Refused(read[0].event, None) {
      var recorded := Record(s, read[0].event, Origin(None, now), Done).0;
      RecordKeeps(s, read[0].event, Origin(None, now), Done);
      assert s.queue[0] == read[0];
      KeepOthers(s.queue[1..], read[0].streamId);
      assert Without(s.queue, read[0].streamId) == s.queue[1..];
      var acked := recorded.(queue := s.queue[1..]);
      assert Inv(acked);
      assert Drop([], 1) == [];
      HealthyReplay(acked, read[1..], now);
    }
  }

  lemma {:induction false} KeepOthers(queue: seq<Entry>, streamId: nat)
    requires forall i :: 0 <= i < |queue| ==> queue[i].streamId != streamId
    ensures Without(queue, streamId) == queue
  {
    if queue != [] { KeepOthers(queue[1..], streamId); }
  }

  lemma {:induction false} AllAccepted(read: seq<Entry>)
    ensures AcceptedPrefix(read) <= |read|
    ensures AcceptedPrefix(read) == |read| <==> forall i :: 0 <= i < |read| ==> !Refused(read[i].event, None)
  {
    if read != [] { AllAccepted(read[1..]); }
  }

  /** A healthy retry of the whole queue empties it if and only if no queued event is refused. */
  lemma QueueDrainsIff(s: Audit, now: int)
    requires Inv(s)
    ensures Retry(s, |s.queue|, now, []).0.queue == []
            <==> forall i :: 0 <= i < |s.queue| ==> !Refused(s.queue[i].event, None)
  {
    HealthyReplay(s, s.queue, now);
    AllAccepted(s.queue);
  }

  /** A refused event at the head is a dam: in every later state it is still there and no retry completes anything. */
  lemma {:induction false} RefusedHeadBlocks(s: Audit, steps: seq<Step>, limit: nat, now: int, lucks: seq<Luck>)
    requires s.queue != [] && Refused(s.queue[0].event, None)
    ensures var s' := Run(s, steps);
            s.queue <= s'.queue && Retry(s', limit, now, lucks) == (s', 0)
    decreases |steps|
  {
    if steps != [] {
      RefusedHeadBlocks(s, steps[..|steps| - 1], 0, now, []);
      var before := Run(s, steps[..|steps| - 1]);
      match steps[|steps| - 1]
      case DoRetry(limit', now', lucks') => assert Retry(before, limit', now', lucks') == (before, 0);
      case DoRecord(_, _, _) =>
      case DoBestEffort(_, _, _, _) =>
    }
  }

  /** How an event becomes such a dam: it is refused where it arises, with the database perfectly healthy. */
  lemma RefusedEventIsQueued(s: Audit, e: Event, origin: Origin, insert: Fate)
    requires Refused(e, origin.context)
    ensures var s' := BestEffort(s, e, origin, insert, Done);
            s'.table == s.table && s'.queue == s.queue + [Entry(s.nextStreamId, e)]
    ensures Refused(e, None)
  {
  }

  // ----- what a replayed row says -----

  /** A job refuses an event that its request accepted exactly when only the request made it a system event without a reason. */
  lemma RefusedOnlyInReplayIff(e: Event, context: Option<Context>)
    requires !Refused(e, context)
    ensures Refused(e, None)
            <==> e.action in HIGH_RISK && Blank(e.reason) && IsSystem(ActorIn(context)) && !IsSystem(e.actor)
  {
    if Blank(e.reason) && e.reason.Some? {
      assert AuditText.Sanitize(e.reason.value, 1000) == "";
    }
  }

  /**
   * An event queued in its request and replayed by the job is stored with the columns the request would have given it
   * only where it carries them itself. Column by column, and as a whole: the row is the one a direct insert would have
   * made exactly when there was no request and the event has its own time (or the clock has not moved).
   */
  lemma ReplayedRowIff(e: Event, origin: Origin, now: int)
    requires !Refused(e, origin.context) && !Refused(e, None)
    ensures var direct := RowFor(e, origin, ReasonFor(e, origin.context).value);
            var replayed := RowFor(e, Origin(None, now), ReasonFor(e, None).value);
            var c := origin.context;
            && replayed.id == direct.id && replayed.action == direct.action && replayed.payload == direct.payload
            && replayed.reason == direct.reason
            && (replayed.actor == direct.actor <==>
                  e.actor.Some? || c.None? || Actor(c.value.actor.kind, Clean(c.value.actor.id, 200)) == SYSTEM)
            && (replayed.occurredAt == direct.occurredAt <==> e.occurredAt.Some? || now == origin.now)
            && (replayed.source == direct.source <==> e.source.Some? || c.None? || c.value.source == "job")
            && (replayed.correlationId == direct.correlationId <==>
                  e.correlationId.Some? || c.None? || c.value.correlationId.None?)
            && (replayed.request == direct.request <==> c.None?)
            && (replayed == direct <==> c.None? && (e.occurredAt.Some? || now == origin.now))
  {
    RefusedOnlyInReplayIff(e, origin.context);
  }
}
