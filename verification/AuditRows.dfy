/**
 * What the audit trail stores of an event, column by column: which text is kept, when an event is refused, what the
 * request adds, and where a delivery or a replay stops.
 */
module AuditRows {
  import opened Wrappers
  import opened AuditText
  import opened AuditQueue

  // ----- text -----

  predicate WhiteSpace(c: char) {
    var n := c as int;
    9 <= n <= 13 || n == 32 || n == 0xA0 || n == 0x1680 || 0x2000 <= n <= 0x200A || n == 0x2028 || n == 0x2029
    || n == 0x202F || n == 0x205F || n == 0x3000 || n == 0xFEFF
  }

  /** Below a space, except tab, line feed and carriage return. */
  predicate Unprintable(c: char) { var n := c as int; n < 32 && n != 9 && n != 10 && n != 13 }

  predicate AllWhite(s: string) { forall i :: 0 <= i < |s| ==> WhiteSpace(s[i]) }

  /** `core` is `s` without the white space at its ends. */
  ghost predicate Trimmed(s: string, core: string) {
    && (exists left, right :: s == left + core + right && AllWhite(left) && AllWhite(right))
    && (core != "" ==> !WhiteSpace(core[0]) && !WhiteSpace(core[|core| - 1]))
  }

  /** `kept` is `s` without its unprintable characters. */
  predicate Printed(s: string, kept: string) {
    if s == "" then kept == ""
    else if Unprintable(s[0]) then Printed(s[1..], kept)
    else kept != "" && kept[0] == s[0] && Printed(s[1..], kept[1..])
  }

  /** The first `max` printable characters of the trimmed text. */
  ghost predicate Tidied(s: string, max: nat, out: string) {
    exists core, kept :: Trimmed(s, core) && Printed(core, kept) && out == if |kept| > max then kept[..max] else kept
  }

  ghost predicate AllSpace(s: string) { forall i :: 0 <= i < |s| ==> IsSpace(s[i]) }

  lemma {:induction false} TrimsLeft(s: string)
    ensures exists left :: s == left + TrimLeft(s) && AllSpace(left)
    ensures TrimLeft(s) != "" ==> !IsSpace(TrimLeft(s)[0])
  {
    if s != "" && IsSpace(s[0]) {
      TrimsLeft(s[1..]);
      var left :| s[1..] == left + TrimLeft(s) && AllSpace(left);
      assert s == ([s[0]] + left) + TrimLeft(s) && AllSpace([s[0]] + left);
    } else {
      assert s == "" + s && AllSpace("");
    }
  }

  lemma {:induction false} TrimsRight(s: string)
    ensures exists right :: s == TrimRight(s) + right && AllSpace(right)
    ensures TrimRight(s) != "" ==> !IsSpace(TrimRight(s)[|TrimRight(s)| - 1]) && TrimRight(s)[0] == s[0]
  {
    if s != "" && IsSpace(s[|s| - 1]) {
      var before, last := s[..|s| - 1], s[|s| - 1];
      TrimsRight(before);
      var right :| before == TrimRight(s) + right && AllSpace(right);
      assert s == TrimRight(s) + (right + [last]) && AllSpace(right + [last]);
    } else {
      assert s == s + "" && AllSpace("");
    }
  }

  lemma SameCharacters(c: char)
    ensures IsSpace(c) <==> WhiteSpace(c)
    ensures IsControl(c) <==> Unprintable(c)
  {
  }

  lemma SameSpace(s: string)
    ensures AllSpace(s) <==> AllWhite(s)
  {
    forall i | 0 <= i < |s| ensures IsSpace(s[i]) <==> WhiteSpace(s[i]) { SameCharacters(s[i]); }
  }

  lemma TrimSays(s: string)
    ensures Trimmed(s, Trim(s))
    ensures Trim(s) == "" <==> AllWhite(s)
  {
    var core := Trim(s);
    TrimsLeft(s);
    TrimsRight(TrimLeft(s));
    var left :| s == left + TrimLeft(s) && AllSpace(left);
    var right :| TrimLeft(s) == core + right && AllSpace(right);
    assert s == left + core + right;
    SameSpace(left);
    SameSpace(right);
    if core != "" {
      SameCharacters(core[0]);
      SameCharacters(core[|core| - 1]);
      assert s[|left|] == core[0];
    }
  }

  lemma {:induction false} StripSays(s: string)
    ensures Printed(s, StripControls(s))
  {
    if s != "" {
      StripSays(s[1..]);
      SameCharacters(s[0]);
      if !IsControl(s[0]) { assert ([s[0]] + StripControls(s[1..]))[1..] == StripControls(s[1..]); }
    }
  }

  /** Stored text is trimmed, then stripped of what does not print, then cut. */
  lemma SanitizeSays(s: string, max: nat)
    ensures Tidied(s, max, Sanitize(s, max))
    ensures AllWhite(s) ==> Sanitize(s, max) == ""
  {
    TrimSays(s);
    StripSays(Trim(s));
  }

  /** An optional text, tidied. */
  ghost predicate TidiedOption(text: Option<string>, max: nat, out: Option<string>) {
    if text.Some? then out.Some? && Tidied(text.value, max, out.value) else out.None?
  }

  // ----- refusal, and the reason stored -----

  /** The operations that need a reason. */
  predicate NeedsReason(action: string) {
    || action == "admin.user.role_changed" || action == "admin.user.ban_changed" || action == "admin.user.deleted"
    || action == "admin.user.impersonation_started" || action == "api_key.elevated_permission_changed"
    || action == "gtfs.ingest.attempted" || action == "history.backfill.attempted"
    || action == "history.purge.attempted" || action == "cache.flush.attempted"
    || action == "admin.notification.test" || action == "admin.notification.service_alert"
    || action == "admin.notification.line_alert_resolved" || action == "admin.notification.device_link_code_created"
  }

  predicate BySystem(e: Event, context: Option<Context>) {
    || (e.actor.Some? && e.actor.value.kind == "system")
    || (context.Some? && context.value.actor.kind == "system")
  }

  predicate GivesNoReason(e: Event) { e.reason.None? || AllWhite(e.reason.value) }

  ghost predicate ReasonColumn(e: Event, context: Option<Context>, reason: Option<string>) {
    if NeedsReason(e.action) && BySystem(e, context) && GivesNoReason(e)
    then reason == Some("Automatic backend operation: " + e.action)
    else TidiedOption(e.reason, 1000, reason)
  }

  /**
   * An event is refused exactly when its operation needs a reason, it is not the system's own without one, and what is
   * left of the reason after tidying is shorter than ten characters. The system's own gets a standard reason.
   */
  lemma ReasonRule(e: Event, context: Option<Context>)
    ensures Refused(e, context)
            <==> && NeedsReason(e.action) && !(BySystem(e, context) && GivesNoReason(e))
                 && (e.reason.None? || |Sanitize(e.reason.value, 1000)| < 10)
    ensures !Refused(e, context) ==> ReasonColumn(e, context, ReasonFor(e, context).value)
  {
    HighRiskListed(e.action);
    if e.reason.Some? {
      TrimSays(e.reason.value);
      SanitizeSays(e.reason.value, 1000);
    }
  }

  lemma HighRiskListed(action: string)
    ensures action in HIGH_RISK <==> NeedsReason(action)
  {
  }

  // ----- the row -----

  ghost predicate ActorColumns(e: Event, context: Option<Context>, actor: Actor) {
    var given := if e.actor.Some? then e.actor.value
                 else if context.Some? then context.value.actor else Actor("system", None);
    actor.kind == given.kind && TidiedOption(given.id, 200, actor.id)
  }

  ghost predicate SourceColumns(e: Event, context: Option<Context>, row: Row) {
    && row.source == (if e.source.Some? then e.source.value
                      else if context.Some? then context.value.source else "job")
    && (if e.correlationId.Some? then TidiedOption(e.correlationId, 200, row.correlationId)
        else row.correlationId == if context.Some? then context.value.correlationId else None)
    && row.request == (if context.Some? then Some(context.value.request) else None)
  }

  ghost predicate RowOf(e: Event, origin: Origin, row: Row) {
    && row.id == e.id && row.action == e.action && row.payload == e.payload
    && row.occurredAt == (if e.occurredAt.Some? then e.occurredAt.value else origin.now)
    && ActorColumns(e, origin.context, row.actor)
    && ReasonColumn(e, origin.context, row.reason)
    && SourceColumns(e, origin.context, row)
  }

  lemma RowSays(e: Event, origin: Origin)
    requires !Refused(e, origin.context)
    ensures RowOf(e, origin, RowFor(e, origin, ReasonFor(e, origin.context).value))
  {
    var c := origin.context;
    ReasonRule(e, c);
    var actor := if e.actor.Some? then e.actor.value else if c.Some? then c.value.actor else Actor("system", None);
    if actor.id.Some? { SanitizeSays(actor.id.value, 200); }
    if e.correlationId.Some? { SanitizeSays(e.correlationId.value, 200); }
  }

  // ----- delivery -----

  predicate HasId(table: seq<Row>, id: string) { exists row :: row in table && row.id == id }

  /** A delivery adds the event's row unless the id has one, the event is refused or the write is not done. */
  lemma RecordSays(s: Audit, e: Event, origin: Origin, fate: Fate)
    ensures var (after, ok) := Record(s, e, origin, fate);
            && (ok <==> !Refused(e, origin.context) && fate == Done)
            && after.queue == s.queue && after.gaps == s.gaps && after.nextStreamId == s.nextStreamId
            && (if !Refused(e, origin.context) && fate != NotDone && !HasId(s.table, e.id)
                then |after.table| == |s.table| + 1 && after.table[..|s.table|] == s.table
                     && RowOf(e, origin, after.table[|s.table|])
                else after.table == s.table)
  {
    assert Recorded(s.table, e.id) <==> HasId(s.table, e.id);
    if !Refused(e, origin.context) { RowSays(e, origin); }
  }

  /**
   * A best-effort event that is not known to be inserted goes to the end of the queue as it was passed in, and is reported
   * as a gap when that is not known to have worked either.
   */
  lemma BestEffortSays(s: Audit, e: Event, origin: Origin, insert: Fate, enqueue: Fate)
    ensures var after, failed := BestEffort(s, e, origin, insert, enqueue), Refused(e, origin.context) || insert != Done;
            && after.table == Record(s, e, origin, insert).0.table
            && (if failed && enqueue != NotDone
                then |after.queue| == |s.queue| + 1 && after.queue[..|s.queue|] == s.queue
                     && after.queue[|s.queue|].event == e && after.queue[|s.queue|].streamId == s.nextStreamId
                     && after.nextStreamId == s.nextStreamId + 1
                else after.queue == s.queue && after.nextStreamId == s.nextStreamId)
            && after.gaps == (if failed && enqueue != Done then s.gaps + {e.id} else s.gaps)
  {
  }

  /** The entry is delivered and acknowledged. */
  predicate Completes(entry: Entry, luck: Luck) {
    !Refused(entry.event, None) && luck.insert == Done && luck.ack == Done
  }

  /** It leaves the queue also when only the answer to its acknowledgement is lost. */
  predicate Leaves(entry: Entry, luck: Luck) {
    !Refused(entry.event, None) && luck.insert == Done && luck.ack != NotDone
  }

  lemma OneSays(s: Audit, entry: Entry, now: int, luck: Luck)
    requires Inv(s) && entry in s.queue
    ensures var (after, completed) := ReplayOne(s, entry, now, luck);
            && Inv(after) && (completed <==> Completes(entry, luck))
            && (forall x :: x in after.queue <==> x in s.queue && !(x == entry && Leaves(entry, luck)))
            && after.table == Record(s, entry.event, Origin(None, now), luck.insert).0.table
  {
    RecordKeeps(s, entry.event, Origin(None, now), luck.insert);
    forall y | y in s.queue && y.streamId == entry.streamId ensures y == entry {
    }
    OneKeeps(s, entry, now, luck);
    WithoutFacts(s.queue, entry.streamId);
  }

  /** Gone from the queue after the first `n` of the entries read were completed. */
  predicate Gone(x: Entry, read: seq<Entry>, n: nat, lucks: seq<Luck>) {
    exists i :: 0 <= i < |read| && read[i] == x && (i < n || (i == n && Leaves(x, LuckAt(lucks, n))))
  }

  lemma GoneStep(x: Entry, read: seq<Entry>, n: nat, lucks: seq<Luck>)
    requires read != []
    ensures Gone(x, read, n + 1, lucks) <==> x == read[0] || Gone(x, read[1..], n, Drop(lucks, 1))
  {
    assert LuckAt(Drop(lucks, 1), n) == LuckAt(lucks, n + 1);
    if i :| 0 <= i < |read[1..]| && read[1..][i] == x && (i < n || (i == n && Leaves(x, LuckAt(Drop(lucks, 1), n)))) {
      assert read[i + 1] == x;
    }
    if i :| 0 <= i < |read| && read[i] == x && (i < n + 1 || (i == n + 1 && Leaves(x, LuckAt(lucks, n + 1)))) {
      if i > 0 { assert read[1..][i - 1] == x; }
    }
  }

  lemma ReadRest(s: Audit, one: Audit, read: seq<Entry>, lucks: seq<Luck>)
    requires read != [] && ReadFrom(s, read) && forall i :: 0 <= i < |read| ==> read[i] in s.queue
    requires forall x :: x in one.queue <==> x in s.queue && x != read[0]
    ensures ReadFrom(one, read[1..]) && forall i :: 0 <= i < |read[1..]| ==> read[1..][i] in one.queue
    ensures forall i: nat :: LuckAt(Drop(lucks, 1), i) == LuckAt(lucks, i + 1)
  {
  }

  /** The first `n` entries are completed, and no further one. */
  ghost predicate StopsAt(read: seq<Entry>, n: nat, lucks: seq<Luck>) {
    && n <= |read|
    && (forall i :: 0 <= i < n ==> Completes(read[i], LuckAt(lucks, i)))
    && (n < |read| ==> !Completes(read[n], LuckAt(lucks, n)))
  }

  lemma OneMore(read: seq<Entry>, n: nat, lucks: seq<Luck>)
    requires read != [] && Completes(read[0], LuckAt(lucks, 0)) && StopsAt(read[1..], n, Drop(lucks, 1))
    requires forall i: nat :: LuckAt(Drop(lucks, 1), i) == LuckAt(lucks, i + 1)
    ensures StopsAt(read, n + 1, lucks)
    ensures forall x :: Gone(x, read, n + 1, lucks) <==> x == read[0] || Gone(x, read[1..], n, Drop(lucks, 1))
  {
    forall i | 0 <= i < n + 1 ensures Completes(read[i], LuckAt(lucks, i)) {
      if i > 0 { assert Completes(read[1..][i - 1], LuckAt(Drop(lucks, 1), i - 1)); }
    }
    if n + 1 < |read| { assert !Completes(read[1..][n], LuckAt(Drop(lucks, 1), n)); }
    forall x ensures Gone(x, read, n + 1, lucks) <==> x == read[0] || Gone(x, read[1..], n, Drop(lucks, 1)) {
      GoneStep(x, read, n, lucks);
    }
  }

  /**
   * A replay completes entries in order up to the first that is refused or meets a fault. Those leave the queue, and so
   * does that first one if only the answer to its acknowledgement was lost; no other entry does.
   */
  lemma {:induction false} ReplayStops(s: Audit, read: seq<Entry>, now: int, lucks: seq<Luck>)
    requires Inv(s) && ReadFrom(s, read) && forall i :: 0 <= i < |read| ==> read[i] in s.queue
    ensures var (after, n) := Replay(s, read, now, lucks);
            && StopsAt(read, n, lucks)
            && (forall x :: x in after.queue <==> x in s.queue && !Gone(x, read, n, lucks))
    decreases |read|
  {
    if read != [] {
      OneSays(s, read[0], now, LuckAt(lucks, 0));
      var (one, completed) := ReplayOne(s, read[0], now, LuckAt(lucks, 0));
      if completed {
        var rest := read[1..];
        ReadRest(s, one, read, lucks);
        ReplayStops(one, rest, now, Drop(lucks, 1));
        var n := Replay(one, rest, now, Drop(lucks, 1)).1;
        OneMore(read, n, lucks);
      } else {
        assert forall x :: Gone(x, read, 0, lucks) <==> x == read[0] && Leaves(x, LuckAt(lucks, 0));
      }
    }
  }
}
