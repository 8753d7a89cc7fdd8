/**
 * Line-health alerts: rows opened and resolved by the five-minute commute scan,
 * by an administrator, or by their own expiry; and the scan's push notifications
 * with a per-line cooldown and quiet hours.
 */
module LineAlerts {
  import opened Wrappers

  const ALERT_TTL_MS := 3 * 60 * 60 * 1000
  const COOLDOWN_MS := 45 * 60 * 1000
  const MIN_TRACKED_TRIPS := 5
  const RAIL_LINES :=
    ["T1", "T2", "T3", "T4", "T5", "T6", "T7", "T8", "T9", "M1", "CCN", "BMT", "HUN", "SCO", "SHL"]

  datatype Severity = Delays | Cancellations | Disruption

  datatype Alert = Alert(
    id: nat, line: string, severity: Severity, title: string,
    createdAt: int, updatedAt: int, resolvedAt: Option<int>, expiresAt: int)

  datatype Table = Table(rows: seq<Alert>, nextId: nat)

  predicate Open(a: Alert) { a.resolvedAt.None? }

  predicate HasOpen(rows: seq<Alert>, line: string) {
    exists i :: 0 <= i < |rows| && Open(rows[i]) && rows[i].line == line
  }

  /** The first open alert of a line, or the number of rows if there is none. */
  function FirstOpen(rows: seq<Alert>, line: string): (i: nat)
    ensures i <= |rows|
    ensures i < |rows| ==> Open(rows[i]) && rows[i].line == line
    ensures forall j :: 0 <= j < i ==> !(Open(rows[j]) && rows[j].line == line)
  {
    if rows == [] || (Open(rows[0]) && rows[0].line == line) then 0 else 1 + FirstOpen(rows[1..], line)
  }

  function ResolveWhere(rows: seq<Alert>, p: Alert -> bool, now: int): seq<Alert> {
    seq(|rows|, i requires 0 <= i < |rows| =>
      if Open(rows[i]) && p(rows[i]) then rows[i].(resolvedAt := Some(now)) else rows[i])
  }

  function UpsertActive(t: Table, line: string, severity: Severity, title: string, now: int): Table {
    var i := FirstOpen(t.rows, line);
    if i < |t.rows| then
      t.(rows := t.rows[i := t.rows[i].(severity := severity, title := title, updatedAt := now, expiresAt := now + ALERT_TTL_MS)])
    else
      Table(t.rows + [Alert(t.nextId, line, severity, title, now, now, None, now + ALERT_TTL_MS)], t.nextId + 1)
  }

  /**
   * What goes wrong in one scan: one of the two updates of the clean-up, whose failure is swallowed, or a call made for
   * snapshot `at`, which throws and so ends the scan. An upsert may throw after its row was written.
   */
  datatype Fault = NoFault | ClearFails | ExpireFails | UpsertThrows(at: nat, written: bool) | PushThrows(at: nat)

  predicate Cleared(tracked: seq<string>, degraded: set<string>, a: Alert) {
    a.line in tracked && a.line !in degraded
  }

  function ResolveStale(t: Table, tracked: seq<string>, degraded: set<string>, now: int, fault: Fault): Table {
    if fault == ClearFails then t
    else
      var cleared := t.(rows := ResolveWhere(t.rows, (a: Alert) => Cleared(tracked, degraded, a), now));
      if fault == ExpireFails then cleared
      else cleared.(rows := ResolveWhere(cleared.rows, (a: Alert) => a.expiresAt <= now, now))
  }

  function ResolveManually(t: Table, line: string, now: int): Table {
    t.(rows := ResolveWhere(t.rows, (a: Alert) => a.line == line, now))
  }

  class LineHealthAlertsService {
    var table: Table

    constructor ()
      ensures table == Table([], 0)
    {
      table := Table([], 0);
    }

    method Upsert(line: string, severity: Severity, title: string, now: int)
      modifies this
      ensures table == UpsertActive(old(table), line, severity, title, now)
    {
      var existing := 0;
      while existing < |table.rows| && !(Open(table.rows[existing]) && table.rows[existing].line == line)
        invariant existing <= |table.rows|
        invariant forall j :: 0 <= j < existing ==> !(Open(table.rows[j]) && table.rows[j].line == line)
      {
        existing := existing + 1;
      }
      assert existing == FirstOpen(table.rows, line);
      if existing < |table.rows| {
        var row := table.rows[existing];
        row := row.(severity := severity, title := title, updatedAt := now, expiresAt := now + ALERT_TTL_MS);
        table := table.(rows := table.rows[existing := row]);
        return;
      }
      var row := Alert(table.nextId, line, severity, title, now, now, None, now + ALERT_TTL_MS);
      table := Table(table.rows + [row], table.nextId + 1);
    }

    method Resolve(tracked: seq<string>, degraded: set<string>, now: int, fault: Fault)
      modifies this
      ensures table == ResolveStale(old(table), tracked, degraded, now, fault)
    {
      var noLongerDegraded := set l | l in tracked && l !in degraded;
      if fault == ClearFails {
        return;
      }
      assert forall l :: l in noLongerDegraded <==> l in tracked && l !in degraded;
      if noLongerDegraded != {} {
        table := table.(rows := ResolveWhere(table.rows, (a: Alert) => a.line in noLongerDegraded, now));
      }
      assert table.rows == ResolveStale(old(table), tracked, degraded, now, ExpireFails).rows;
      if fault == ExpireFails {
        return;
      }
      table := table.(rows := ResolveWhere(table.rows, (a: Alert) => a.expiresAt <= now, now));
    }

    method ResolveLine(line: string, now: int) returns (resolved: bool)
      modifies this
      ensures table == ResolveManually(old(table), line, now)
      ensures resolved <==> HasOpen(old(table).rows, line)
    {
      resolved := HasOpen(table.rows, line);
      table := table.(rows := ResolveWhere(table.rows, (a: Alert) => a.line == line, now));
    }

    /** Every open and unexpired alert by line; a later row of a line wins. */
    method ActiveByLine(now: int) returns (active: map<string, Alert>)
      ensures forall line :: line in active <==>
        exists i :: 0 <= i < |table.rows| && table.rows[i].line == line && Open(table.rows[i]) && table.rows[i].expiresAt > now
      ensures forall line :: line in active ==>
        active[line] in table.rows && Open(active[line]) && active[line].line == line && active[line].expiresAt > now
    {
      active := map[];
      for i := 0 to |table.rows|
        invariant forall line :: line in active <==>
          exists j :: 0 <= j < i && table.rows[j].line == line && Open(table.rows[j]) && table.rows[j].expiresAt > now
        invariant forall line :: line in active ==>
          active[line] in table.rows && Open(active[line]) && active[line].line == line && active[line].expiresAt > now
      {
        var row := table.rows[i];
        if Open(row) && row.expiresAt > now {
          active := active[row.line := row];
        }
      }
    }
  }

  // ----- the scan -----

  datatype Snapshot = Snapshot(
    line: string, trackedTrips: nat, delayedTrips: nat, cancelledTrips: nat, activeDisruptions: nat)

  predicate Widespread(s: Snapshot) { 10 * s.delayedTrips >= 3 * s.trackedTrips }

  predicate SevereDisruption(s: Snapshot) { s.activeDisruptions > 0 && 100 * s.delayedTrips > 15 * s.trackedTrips }

  predicate ManyCancellations(s: Snapshot) { s.cancelledTrips >= 3 }

  predicate Degraded(s: Snapshot) {
    && s.line in RAIL_LINES
    && s.trackedTrips >= MIN_TRACKED_TRIPS
    && (Widespread(s) || SevereDisruption(s) || ManyCancellations(s))
  }

  function SeverityOf(s: Snapshot): Severity {
    if ManyCancellations(s) then Cancellations else if SevereDisruption(s) then Disruption else Delays
  }

  function TitleOf(s: Snapshot): string { s.line + " line delays" }

  predicate Quiet(hour: int) { hour >= 22 || hour < 5 }

  datatype Push = Push(line: string, at: int, hour: int)

  datatype World = World(table: Table, lastAlertAt: map<string, int>, pushes: seq<Push>)

  predicate CooledDown(lastAlertAt: map<string, int>, line: string, now: int) {
    now - (if line in lastAlertAt then lastAlertAt[line] else 0) >= COOLDOWN_MS
  }

  function ScanOne(w: World, s: Snapshot, hour: int, now: int): World {
    if !Degraded(s) then w
    else
      var raised := w.(table := UpsertActive(w.table, s.line, SeverityOf(s), TitleOf(s), now));
      if Quiet(hour) || !CooledDown(w.lastAlertAt, s.line, now) then raised
      else raised.(lastAlertAt := w.lastAlertAt[s.line := now], pushes := w.pushes + [Push(s.line, now, hour)])
  }

  function ScanAll(w: World, snaps: seq<Snapshot>, hour: int, now: int): World {
    if snaps == [] then w else ScanOne(ScanAll(w, snaps[..|snaps| - 1], hour, now), snaps[|snaps| - 1], hour, now)
  }

  function DegradedLines(snaps: seq<Snapshot>): set<string> {
    set i | 0 <= i < |snaps| && Degraded(snaps[i]) :: snaps[i].line
  }

  predicate Pushes(w: World, s: Snapshot, hour: int, now: int) {
    Degraded(s) && !Quiet(hour) && CooledDown(w.lastAlertAt, s.line, now)
  }

  /** A call made for this snapshot throws. */
  predicate StopsAt(w: World, s: Snapshot, i: nat, hour: int, now: int, fault: Fault) {
    match fault
    case UpsertThrows(at, _) => at == i && Degraded(s)
    case PushThrows(at) => at == i && Pushes(w, s, hour, now)
    case _ => false
  }

  /** What is left when that happens. */
  function Stopped(w: World, s: Snapshot, hour: int, now: int, fault: Fault): World {
    if fault.UpsertThrows? then
      if fault.written then w.(table := UpsertActive(w.table, s.line, SeverityOf(s), TitleOf(s), now)) else w
    else ScanOne(w, s, hour, now)
  }

  /** The scan gets to the call that throws. */
  predicate Throws(w: World, snaps: seq<Snapshot>, hour: int, now: int, fault: Fault) {
    (fault.UpsertThrows? || fault.PushThrows?) && fault.at < |snaps|
    && StopsAt(ScanAll(w, snaps[..fault.at], hour, now), snaps[fault.at], fault.at, hour, now, fault)
  }

  /** The snapshots that were done with, or whose push was started, when the scan ended. */
  function Done(w: World, snaps: seq<Snapshot>, hour: int, now: int, fault: Fault): seq<Snapshot> {
    if !Throws(w, snaps, hour, now, fault) then snaps
    else if fault.UpsertThrows? then snaps[..fault.at] else snaps[..fault.at + 1]
  }

  /** The snapshots whose alert was written, if they called for one. */
  function Written(w: World, snaps: seq<Snapshot>, hour: int, now: int, fault: Fault): seq<Snapshot> {
    if !Throws(w, snaps, hour, now, fault) then snaps
    else if fault.UpsertThrows? && !fault.written then snaps[..fault.at] else snaps[..fault.at + 1]
  }

  function Scan(w: World, snaps: seq<Snapshot>, hour: int, now: int, fault: Fault): World {
    if Throws(w, snaps, hour, now, fault) then
      Stopped(ScanAll(w, snaps[..fault.at], hour, now), snaps[fault.at], hour, now, fault)
    else
      var scanned := ScanAll(w, snaps, hour, now);
      scanned.(table := ResolveStale(scanned.table, RAIL_LINES, DegradedLines(snaps), now, fault))
  }

  class CommuteAlertService {
    var lastAlertAt: map<string, int>
    var pushes: seq<Push>
    const alerts: LineHealthAlertsService

    ghost function View(): World
      reads this, alerts
    {
      World(alerts.table, lastAlertAt, pushes)
    }

    constructor (alerts: LineHealthAlertsService)
      ensures this.alerts == alerts && View() == World(alerts.table, map[], [])
    {
      this.alerts := alerts;
      lastAlertAt, pushes := map[], [];
    }

    /** One snapshot of the scan; `threw` when one of its calls ends the scan. */
    method Consider(snap: Snapshot, i: nat, hour: int, now: int, fault: Fault) returns (degraded: bool, threw: bool)
      modifies this, alerts
      ensures degraded == Degraded(snap)
      ensures threw <==> StopsAt(old(View()), snap, i, hour, now, fault)
      ensures View() == if threw then Stopped(old(View()), snap, hour, now, fault) else ScanOne(old(View()), snap, hour, now)
    {
      degraded, threw := false, false;
      if snap.line !in RAIL_LINES || snap.trackedTrips < MIN_TRACKED_TRIPS {
        return;
      }
      if !Widespread(snap) && !SevereDisruption(snap) && !ManyCancellations(snap) {
        return;
      }
      degraded := true;
      if fault == UpsertThrows(i, false) {
        threw := true;
        return;
      }
      alerts.Upsert(snap.line, SeverityOf(snap), TitleOf(snap), now);
      if fault == UpsertThrows(i, true) {
        threw := true;
        return;
      }
      if Quiet(hour) {
        return;
      }
      var last := if snap.line in lastAlertAt then lastAlertAt[snap.line] else 0;
      if now - last < COOLDOWN_MS {
        return;
      }
      lastAlertAt := lastAlertAt[snap.line := now];
      pushes := pushes + [Push(snap.line, now, hour)];
      threw := fault == PushThrows(i);
    }

    method Evaluate(snaps: seq<Snapshot>, hour: int, now: int, fault: Fault)
      modifies this, alerts
      ensures View() == Scan(old(View()), snaps, hour, now, fault)
    {
      var degradedLines: set<string> := {};
      for i := 0 to |snaps|
        invariant View() == ScanAll(old(View()), snaps[..i], hour, now)
        invariant degradedLines == DegradedLines(snaps[..i])
        invariant Throws(old(View()), snaps, hour, now, fault) ==> i <= fault.at
      {
        assert snaps[..i + 1][..i] == snaps[..i];
        DegradedSplit(snaps, i);
        var degraded, threw := Consider(snaps[i], i, hour, now, fault);
        if threw {
          return;
        }
        if degraded {
          degradedLines := degradedLines + {snaps[i].line};
        }
      }
      assert snaps[..|snaps|] == snaps;
      alerts.Resolve(RAIL_LINES, degradedLines, now, fault);
    }
  }

  lemma DegradedSplit(snaps: seq<Snapshot>, i: nat)
    requires i < |snaps|
    ensures DegradedLines(snaps[..i + 1])
            == DegradedLines(snaps[..i]) + (if Degraded(snaps[i]) then {snaps[i].line} else {})
  {
    var longer := snaps[..i + 1];
    forall line ensures line in DegradedLines(longer)
        <==> line in DegradedLines(snaps[..i]) || (Degraded(snaps[i]) && line == snaps[i].line) {
      if line in DegradedLines(snaps[..i]) {
        var j :| 0 <= j < i && Degraded(snaps[..i][j]) && snaps[..i][j].line == line;
        assert longer[j] == snaps[..i][j];
      }
      if Degraded(snaps[i]) && line == snaps[i].line {
        assert longer[i] == snaps[i];
      }
      if line in DegradedLines(longer) {
        var j :| 0 <= j < |longer| && Degraded(longer[j]) && longer[j].line == line;
        assert j < i ==> snaps[..i][j] == longer[j];
      }
    }
  }

  // ----- one open alert per line -----

  ghost predicate OneOpen(rows: seq<Alert>) {
    forall i, j :: 0 <= i < j < |rows| && Open(rows[i]) && Open(rows[j]) ==> rows[i].line != rows[j].line
  }

  ghost predicate Inv(t: Table) {
    && OneOpen(t.rows)
    && (forall i, j :: 0 <= i < j < |t.rows| ==> t.rows[i].id < t.rows[j].id)
    && (forall i :: 0 <= i < |t.rows| ==> t.rows[i].id < t.nextId)
  }

  /** Rows are never removed, keep their identity, and once resolved never change. */
  ghost predicate Onward(t: Table, t': Table) {
    && |t.rows| <= |t'.rows|
    && (forall i :: 0 <= i < |t.rows| ==> t'.rows[i].id == t.rows[i].id && t'.rows[i].line == t.rows[i].line)
    && (forall i :: 0 <= i < |t.rows| && !Open(t.rows[i]) ==> t'.rows[i] == t.rows[i])
  }

  lemma UpsertKeeps(t: Table, line: string, severity: Severity, title: string, now: int)
    requires Inv(t)
    ensures var t' := UpsertActive(t, line, severity, title, now);
            && Inv(t') && Onward(t, t')
            && (forall l :: HasOpen(t'.rows, l) <==> HasOpen(t.rows, l) || l == line)
            && (forall i :: 0 <= i < |t.rows| && t.rows[i].line != line ==> t'.rows[i] == t.rows[i])
            && (forall i :: 0 <= i < |t'.rows| && Open(t'.rows[i]) && t'.rows[i].line == line ==>
                  t'.rows[i].expiresAt == now + ALERT_TTL_MS && t'.rows[i].severity == severity)
  {
    UpsertOpens(t, line, severity, title, now);
    UpsertChanges(t, line, severity, title, now);
  }

  lemma RefreshKeeps(t: Table, at: nat, a: Alert)
    requires Inv(t) && at < |t.rows| && Open(t.rows[at]) && Open(a)
    requires a.id == t.rows[at].id && a.line == t.rows[at].line
    ensures Inv(t.(rows := t.rows[at := a])) && Onward(t, t.(rows := t.rows[at := a]))
  {
  }

  lemma AppendKeeps(t: Table, a: Alert)
    requires Inv(t) && a.id == t.nextId && !HasOpen(t.rows, a.line)
    ensures Inv(Table(t.rows + [a], t.nextId + 1)) && Onward(t, Table(t.rows + [a], t.nextId + 1))
  {
  }

  lemma UpsertChanges(t: Table, line: string, severity: Severity, title: string, now: int)
    requires Inv(t)
    ensures var t' := UpsertActive(t, line, severity, title, now);
            && Inv(t') && Onward(t, t')
            && (forall i :: 0 <= i < |t.rows| && t.rows[i].line != line ==> t'.rows[i] == t.rows[i])
            && (forall i :: 0 <= i < |t'.rows| && Open(t'.rows[i]) && t'.rows[i].line == line ==>
                  t'.rows[i].expiresAt == now + ALERT_TTL_MS && t'.rows[i].severity == severity)
  {
    var at := FirstOpen(t.rows, line);
    var t' := UpsertActive(t, line, severity, title, now);
    if at < |t.rows| {
      RefreshKeeps(t, at, t'.rows[at]);
    } else {
      AppendKeeps(t, t'.rows[|t.rows|]);
    }
  }

  lemma UpsertOpens(t: Table, line: string, severity: Severity, title: string, now: int)
    ensures var t' := UpsertActive(t, line, severity, title, now);
            forall l :: HasOpen(t'.rows, l) <==> HasOpen(t.rows, l) || l == line
  {
    var t' := UpsertActive(t, line, severity, title, now);
    var at := FirstOpen(t.rows, line);
    assert at < |t'.rows| && (Open(t'.rows[at]) && t'.rows[at].line == line);
    forall l ensures HasOpen(t'.rows, l) <==> HasOpen(t.rows, l) || l == line {
      if HasOpen(t.rows, l) {
        var i :| 0 <= i < |t.rows| && Open(t.rows[i]) && t.rows[i].line == l;
        assert Open(t'.rows[i]) && t'.rows[i].line == l;
      }
      if HasOpen(t'.rows, l) && l != line {
        var i :| 0 <= i < |t'.rows| && Open(t'.rows[i]) && t'.rows[i].line == l;
        assert i < |t.rows| && t.rows[i].line == l;
      }
    }
  }

  lemma ResolveKeeps(t: Table, p: Alert -> bool, now: int)
    requires Inv(t)
    ensures var t' := t.(rows := ResolveWhere(t.rows, p, now));
            Inv(t') && Onward(t, t')
  {
  }

  lemma StaleKeeps(t: Table, tracked: seq<string>, degraded: set<string>, now: int, fault: Fault)
    requires Inv(t)
    ensures var t' := ResolveStale(t, tracked, degraded, now, fault);
            Inv(t') && Onward(t, t')
  {
    ResolveKeeps(t, (a: Alert) => Cleared(tracked, degraded, a), now);
    var cleared := t.(rows := ResolveWhere(t.rows, (a: Alert) => Cleared(tracked, degraded, a), now));
    ResolveKeeps(cleared, (a: Alert) => a.expiresAt <= now, now);
  }

  datatype Step =
    | DoScan(snaps: seq<Snapshot>, hour: int, now: int, fault: Fault)
    | AdminUpsert(line: string, severity: Severity, title: string, now: int)
    | AdminResolve(line: string, now: int)

  function Apply(w: World, step: Step): World {
    match step
    case DoScan(snaps, hour, now, fault) => Scan(w, snaps, hour, now, fault)
    case AdminUpsert(line, severity, title, now) => w.(table := UpsertActive(w.table, line, severity, title, now))
    case AdminResolve(line, now) => w.(table := ResolveManually(w.table, line, now))
  }

  function Run(w: World, steps: seq<Step>): World {
    if steps == [] then w else Apply(Run(w, steps[..|steps| - 1]), steps[|steps| - 1])
  }

  /** What a scan's upserts for the rail lines `degraded` have done to a table. */
  ghost predicate Raised(t: Table, t': Table, degraded: set<string>, now: int) {
    && Inv(t') && Onward(t, t')
    && (forall l :: HasOpen(t'.rows, l) <==> HasOpen(t.rows, l) || l in degraded)
    && (forall i :: 0 <= i < |t.rows| && t.rows[i].line !in RAIL_LINES ==> t'.rows[i] == t.rows[i])
    && (forall i :: |t.rows| <= i < |t'.rows| ==> t'.rows[i].line in RAIL_LINES)
    && (forall i :: 0 <= i < |t'.rows| && Open(t'.rows[i]) && t'.rows[i].line in degraded ==>
          t'.rows[i].expiresAt == now + ALERT_TTL_MS)
  }

  lemma RaisedMore(t: Table, t': Table, degraded: set<string>, s: Snapshot, now: int)
    requires Inv(t) && Raised(t, t', degraded, now) && Degraded(s)
    ensures Raised(t, UpsertActive(t', s.line, SeverityOf(s), TitleOf(s), now), degraded + {s.line}, now)
  {
    UpsertKeeps(t', s.line, SeverityOf(s), TitleOf(s), now);
  }

  lemma {:induction false} ScanAllKeeps(w: World, snaps: seq<Snapshot>, hour: int, now: int)
    requires Inv(w.table)
    ensures Raised(w.table, ScanAll(w, snaps, hour, now).table, DegradedLines(snaps), now)
  {
    if snaps != [] {
      var last := snaps[|snaps| - 1];
      var before := ScanAll(w, snaps[..|snaps| - 1], hour, now);
      ScanAllKeeps(w, snaps[..|snaps| - 1], hour, now);
      assert snaps[..|snaps| - 1 + 1] == snaps;
      DegradedSplit(snaps, |snaps| - 1);
      if Degraded(last) {
        RaisedMore(w.table, before.table, DegradedLines(snaps[..|snaps| - 1]), last, now);
      } else {
        assert DegradedLines(snaps) == DegradedLines(snaps[..|snaps| - 1]);
      }
    } else {
      assert DegradedLines(snaps) == {};
    }
  }

  /** The table of a scan is that of its upserts, cleaned up unless a call threw. */
  lemma ScanRaises(w: World, snaps: seq<Snapshot>, hour: int, now: int, fault: Fault)
    requires Inv(w.table)
    ensures var raised := ScanAll(w, Written(w, snaps, hour, now, fault), hour, now).table;
            && Raised(w.table, raised, DegradedLines(Written(w, snaps, hour, now, fault)), now)
            && Scan(w, snaps, hour, now, fault).table ==
                 if Throws(w, snaps, hour, now, fault) then raised
                 else ResolveStale(raised, RAIL_LINES, DegradedLines(snaps), now, fault)
  {
    ScanAllKeeps(w, Written(w, snaps, hour, now, fault), hour, now);
    if Throws(w, snaps, hour, now, fault) {
      assert snaps[..fault.at + 1][..fault.at] == snaps[..fault.at];
    }
  }

  lemma ScanKeeps(w: World, snaps: seq<Snapshot>, hour: int, now: int, fault: Fault)
    requires Inv(w.table)
    ensures var after := Scan(w, snaps, hour, now, fault).table;
            Inv(after) && Onward(w.table, after)
  {
    var raised := ScanAll(w, Written(w, snaps, hour, now, fault), hour, now).table;
    ScanRaises(w, snaps, hour, now, fault);
    if !Throws(w, snaps, hour, now, fault) {
      StaleKeeps(raised, RAIL_LINES, DegradedLines(snaps), now, fault);
    }
  }

  /** In every reachable state each line has at most one open alert, and resolved alerts stay as they are. */
  lemma {:induction false} AtMostOneOpen(w: World, steps: seq<Step>)
    requires Inv(w.table)
    ensures Inv(Run(w, steps).table) && Onward(w.table, Run(w, steps).table)
  {
    if steps != [] {
      var before := Run(w, steps[..|steps| - 1]);
      AtMostOneOpen(w, steps[..|steps| - 1]);
      match steps[|steps| - 1]
      case DoScan(snaps, hour, now, fault) =>
        ScanKeeps(before, snaps, hour, now, fault);
      case AdminUpsert(line, severity, title, now) => UpsertKeeps(before.table, line, severity, title, now);
      case AdminResolve(line, now) => ResolveKeeps(before.table, (a: Alert) => a.line == line, now);
    }
  }

  /** The clean-up, as far as it works, in one row. */
  lemma StaleRow(t: Table, degraded: set<string>, now: int, fault: Fault, i: nat)
    requires i < |t.rows|
    ensures var after := ResolveStale(t, RAIL_LINES, degraded, now, fault).rows;
            && |after| == |t.rows| && after[i].line == t.rows[i].line
            && (Open(after[i]) <==>
                  && Open(t.rows[i])
                  && (fault == ClearFails || !Cleared(RAIL_LINES, degraded, t.rows[i]))
                  && (fault == ClearFails || fault == ExpireFails || t.rows[i].expiresAt > now))
  {
  }

  /**
   * Right after any scan a rail line has an open alert exactly when a snapshot whose alert was written degraded it, or
   * when it had one before and the clean-up was not reached or its first update failed.
   */
  lemma ScanDecidesRailLines(w: World, snaps: seq<Snapshot>, hour: int, now: int, fault: Fault, line: string)
    requires Inv(w.table) && line in RAIL_LINES
    ensures HasOpen(Scan(w, snaps, hour, now, fault).table.rows, line)
            <==> line in DegradedLines(Written(w, snaps, hour, now, fault))
                 || (HasOpen(w.table.rows, line) && (Throws(w, snaps, hour, now, fault) || fault == ClearFails))
  {
    ScanRaises(w, snaps, hour, now, fault);
    if !Throws(w, snaps, hour, now, fault) {
      StaleDecides(w.table, ScanAll(w, snaps, hour, now).table, DegradedLines(snaps), now, fault, line);
    }
  }

  lemma StaleDecides(t: Table, scanned: Table, degraded: set<string>, now: int, fault: Fault, line: string)
    requires Raised(t, scanned, degraded, now) && line in RAIL_LINES
    ensures HasOpen(ResolveStale(scanned, RAIL_LINES, degraded, now, fault).rows, line)
            <==> line in degraded || (HasOpen(t.rows, line) && fault == ClearFails)
  {
    var after := ResolveStale(scanned, RAIL_LINES, degraded, now, fault).rows;
    if line in degraded {
      assert HasOpen(scanned.rows, line);
      var i :| 0 <= i < |scanned.rows| && Open(scanned.rows[i]) && scanned.rows[i].line == line;
      StaleRow(scanned, degraded, now, fault, i);
      assert Open(after[i]) && after[i].line == line;
    } else if fault != ClearFails {
      forall i | 0 <= i < |after| && after[i].line == line ensures !Open(after[i]) {
        StaleRow(scanned, degraded, now, fault, i);
      }
    }
  }

  lemma WrittenDegrade(w: World, snaps: seq<Snapshot>, hour: int, now: int, fault: Fault, line: string)
    requires line in DegradedLines(Written(w, snaps, hour, now, fault))
    ensures line in DegradedLines(snaps)
  {
    var written := Written(w, snaps, hour, now, fault);
    var i :| 0 <= i < |written| && Degraded(written[i]) && written[i].line == line;
    assert snaps[i] == written[i];
  }

  /**
   * When a rail line's alert is right, open exactly if some snapshot of the scan degraded the line: a degraded line lacks
   * its alert only if the scan ended before writing it and none was open; another keeps an open alert only if the
   * clean-up was not reached or its first update failed.
   */
  lemma ScanRightIff(w: World, snaps: seq<Snapshot>, hour: int, now: int, fault: Fault, line: string)
    requires Inv(w.table) && line in RAIL_LINES
    ensures var after, was := Scan(w, snaps, hour, now, fault).table.rows, HasOpen(w.table.rows, line);
            (HasOpen(after, line) <==> exists i :: 0 <= i < |snaps| && snaps[i].line == line && Degraded(snaps[i]))
            <==> if line in DegradedLines(snaps) then was || line in DegradedLines(Written(w, snaps, hour, now, fault))
                 else !was || !(Throws(w, snaps, hour, now, fault) || fault == ClearFails)
  {
    ScanDecidesRailLines(w, snaps, hour, now, fault, line);
    if line in DegradedLines(Written(w, snaps, hour, now, fault)) {
      WrittenDegrade(w, snaps, hour, now, fault, line);
    }
  }

  /** A scan touches another line's alert only to close it once it has expired, if its clean-up works, and opens none. */
  lemma ScanLeavesOtherLines(w: World, snaps: seq<Snapshot>, hour: int, now: int, fault: Fault, i: nat)
    requires Inv(w.table)
    requires i < |Scan(w, snaps, hour, now, fault).table.rows|
    requires Scan(w, snaps, hour, now, fault).table.rows[i].line !in RAIL_LINES
    ensures i < |w.table.rows|
    ensures var before := w.table.rows[i];
            var cleans := !Throws(w, snaps, hour, now, fault) && fault != ClearFails && fault != ExpireFails;
            Scan(w, snaps, hour, now, fault).table.rows[i] ==
              if cleans && Open(before) && before.expiresAt <= now then before.(resolvedAt := Some(now)) else before
  {
    ScanRaises(w, snaps, hour, now, fault);
    var raised := ScanAll(w, Written(w, snaps, hour, now, fault), hour, now).table;
    assert raised.rows[i].line !in RAIL_LINES;
  }

  // ----- pushes -----

  ghost predicate PushesOk(w: World, now: int) {
    && (forall i :: 0 <= i < |w.pushes| ==> !Quiet(w.pushes[i].hour) && w.pushes[i].at <= now)
    && (forall i, j :: 0 <= i < j < |w.pushes| && w.pushes[i].line == w.pushes[j].line ==>
          w.pushes[j].at - w.pushes[i].at >= COOLDOWN_MS)
    && (forall i :: 0 <= i < |w.pushes| ==>
          w.pushes[i].line in w.lastAlertAt && w.pushes[i].at <= w.lastAlertAt[w.pushes[i].line])
    && (forall line :: line in w.lastAlertAt ==> w.lastAlertAt[line] <= now)
  }

  lemma {:induction false} ScanAllPushes(w: World, snaps: seq<Snapshot>, hour: int, now: int)
    requires PushesOk(w, now)
    ensures PushesOk(ScanAll(w, snaps, hour, now), now)
  {
    if snaps != [] {
      ScanAllPushes(w, snaps[..|snaps| - 1], hour, now);
    }
  }

  /** Pushes and cooldowns are those of the snapshots the scan got done with. */
  lemma ScanDone(w: World, snaps: seq<Snapshot>, hour: int, now: int, fault: Fault)
    ensures var after, done := Scan(w, snaps, hour, now, fault), ScanAll(w, Done(w, snaps, hour, now, fault), hour, now);
            after.pushes == done.pushes && after.lastAlertAt == done.lastAlertAt
  {
    if Throws(w, snaps, hour, now, fault) {
      assert snaps[..fault.at + 1][..fault.at] == snaps[..fault.at];
    }
  }

  predicate TimesGrow(steps: seq<Step>) {
    forall i, j :: 0 <= i < j < |steps| ==> steps[i].now <= steps[j].now
  }

  /** Over any run on a clock that does not go back, pushes for one line are at least 45 minutes apart and none is sent in quiet hours. */
  lemma {:induction false} PushesSpaced(w: World, steps: seq<Step>)
    requires w.pushes == [] && w.lastAlertAt == map[] && TimesGrow(steps)
    ensures var p := Run(w, steps).pushes;
            && (forall i :: 0 <= i < |p| ==> !Quiet(p[i].hour))
            && (forall i, j :: 0 <= i < j < |p| && p[i].line == p[j].line ==> p[j].at - p[i].at >= 45 * 60 * 1000)
    ensures steps != [] ==> PushesOk(Run(w, steps), steps[|steps| - 1].now)
  {
    if steps != [] {
      var earlier := steps[..|steps| - 1];
      PushesSpaced(w, earlier);
      var now := steps[|steps| - 1].now;
      assert earlier != [] ==> earlier[|earlier| - 1].now <= now;
      assert PushesOk(Run(w, earlier), now);
      if steps[|steps| - 1].DoScan? {
        var step, before := steps[|steps| - 1], Run(w, earlier);
        ScanAllPushes(before, Done(before, step.snaps, step.hour, now, step.fault), step.hour, now);
        ScanDone(before, step.snaps, step.hour, now, step.fault);
      }
    }
  }

  predicate Pushed(pushes: seq<Push>, from: nat, line: string) {
    exists i :: from <= i < |pushes| && pushes[i].line == line
  }

  lemma {:induction false} PushedBy(w: World, snaps: seq<Snapshot>, hour: int, now: int, line: string)
    ensures var w' := ScanAll(w, snaps, hour, now);
            && w.pushes <= w'.pushes
            && (Pushed(w'.pushes, |w.pushes|, line)
                <==> !Quiet(hour) && line in DegradedLines(snaps) && CooledDown(w.lastAlertAt, line, now))
            && (if Pushed(w'.pushes, |w.pushes|, line)
                then line in w'.lastAlertAt && w'.lastAlertAt[line] == now
                else line in w'.lastAlertAt <==> line in w.lastAlertAt)
            && (!Pushed(w'.pushes, |w.pushes|, line) && line in w.lastAlertAt ==> w'.lastAlertAt[line] == w.lastAlertAt[line])
  {
    if snaps != [] {
      var before := ScanAll(w, snaps[..|snaps| - 1], hour, now);
      var after := ScanAll(w, snaps, hour, now);
      PushedBy(w, snaps[..|snaps| - 1], hour, now, line);
      assert snaps[..|snaps| - 1 + 1] == snaps;
      DegradedSplit(snaps, |snaps| - 1);
      if Pushed(before.pushes, |w.pushes|, line) {
        var i :| |w.pushes| <= i < |before.pushes| && before.pushes[i].line == line;
        assert after.pushes[i].line == line;
      } else if |after.pushes| > |before.pushes| {
        assert after.pushes[|before.pushes|].line == snaps[|snaps| - 1].line;
        forall i | |w.pushes| <= i < |before.pushes| ensures after.pushes[i].line != line {
          assert after.pushes[i] == before.pushes[i];
        }
      }
    }
  }

  /**
   * A scan starts a push for a line exactly when it is not quiet hours, a snapshot it got done with degraded the line
   * and the line's cooldown was over; then, and only then, the cooldown starts anew.
   */
  lemma PushedIff(w: World, snaps: seq<Snapshot>, hour: int, now: int, fault: Fault, line: string)
    ensures var w' := Scan(w, snaps, hour, now, fault);
            && w.pushes <= w'.pushes
            && (Pushed(w'.pushes, |w.pushes|, line)
                <==> && !Quiet(hour) && CooledDown(w.lastAlertAt, line, now)
                     && line in DegradedLines(Done(w, snaps, hour, now, fault)))
            && (if Pushed(w'.pushes, |w.pushes|, line)
                then line in w'.lastAlertAt && w'.lastAlertAt[line] == now
                else line in w'.lastAlertAt <==> line in w.lastAlertAt)
            && (!Pushed(w'.pushes, |w.pushes|, line) && line in w.lastAlertAt ==> w'.lastAlertAt[line] == w.lastAlertAt[line])
  {
    PushedBy(w, Done(w, snaps, hour, now, fault), hour, now, line);
    ScanDone(w, snaps, hour, now, fault);
  }
}
