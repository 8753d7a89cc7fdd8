/** When the commute scan calls a line degraded, what alert it then shows, and whom it tells: the rules in figures. */
module AlertRules {
  import opened Wrappers
  import opened LineAlerts

  /** The lines the scan looks at. */
  predicate RailLine(line: string) {
    || line == "T1" || line == "T2" || line == "T3" || line == "T4" || line == "T5" || line == "T6" || line == "T7"
    || line == "T8" || line == "T9" || line == "M1" || line == "CCN" || line == "BMT" || line == "HUN" || line == "SCO"
    || line == "SHL"
  }

  /** At least 5 tracked trips, and 30 % late, or a disruption and more than 15 % late, or 3 cancellations. */
  predicate InTrouble(s: Snapshot) {
    && s.trackedTrips >= 5
    && (|| 100 * s.delayedTrips >= 30 * s.trackedTrips
        || (s.activeDisruptions >= 1 && 100 * s.delayedTrips > 15 * s.trackedTrips)
        || s.cancelledTrips >= 3)
  }

  ghost predicate InTroubleAt(snaps: seq<Snapshot>, line: string, i: nat) {
    i < |snaps| && snaps[i].line == line && InTrouble(snaps[i])
  }

  /** Some snapshot of the line is in trouble. */
  ghost predicate LineInTrouble(snaps: seq<Snapshot>, line: string) { exists i: nat :: InTroubleAt(snaps, line, i) }

  lemma RailLinesListed(line: string)
    ensures line in RAIL_LINES <==> RailLine(line)
  {
    assert RAIL_LINES[0] == "T1" && RAIL_LINES[1] == "T2" && RAIL_LINES[2] == "T3" && RAIL_LINES[3] == "T4"
        && RAIL_LINES[4] == "T5" && RAIL_LINES[5] == "T6" && RAIL_LINES[6] == "T7" && RAIL_LINES[7] == "T8"
        && RAIL_LINES[8] == "T9" && RAIL_LINES[9] == "M1" && RAIL_LINES[10] == "CCN" && RAIL_LINES[11] == "BMT"
        && RAIL_LINES[12] == "HUN" && RAIL_LINES[13] == "SCO" && RAIL_LINES[14] == "SHL" && |RAIL_LINES| == 15;
  }

  lemma DegradedRule(s: Snapshot)
    ensures Degraded(s) <==> RailLine(s.line) && InTrouble(s)
  {
    RailLinesListed(s.line);
  }

  lemma DegradedLinesRule(snaps: seq<Snapshot>, line: string)
    ensures line in DegradedLines(snaps) <==> RailLine(line) && LineInTrouble(snaps, line)
  {
    if line in DegradedLines(snaps) {
      var i: nat :| i < |snaps| && Degraded(snaps[i]) && snaps[i].line == line;
      DegradedRule(snaps[i]);
      assert InTroubleAt(snaps, line, i);
    }
    if RailLine(line) && LineInTrouble(snaps, line) {
      var i: nat :| InTroubleAt(snaps, line, i);
      DegradedRule(snaps[i]);
    }
  }

  /** After a scan in which nothing fails, a rail line has an open alert exactly when some snapshot of it is in trouble. */
  lemma AlertIff(w: World, snaps: seq<Snapshot>, hour: int, now: int, line: string)
    requires Inv(w.table) && RailLine(line)
    ensures HasOpen(Scan(w, snaps, hour, now, NoFault).table.rows, line) <==> LineInTrouble(snaps, line)
  {
    RailLinesListed(line);
    DegradedLinesRule(snaps, line);
    ScanDecidesRailLines(w, snaps, hour, now, NoFault, line);
  }

  // ----- what the alert says -----

  /** Snapshot `i` is the line's last one in trouble. */
  ghost predicate LastInTrouble(snaps: seq<Snapshot>, line: string, i: nat) {
    InTroubleAt(snaps, line, i) && forall j: nat :: i < j ==> !InTroubleAt(snaps, line, j)
  }

  /** Cancellations first, then a disruption with more than 15 % late, then delays. */
  predicate Says(a: Alert, s: Snapshot, now: int) {
    && a.severity == (if s.cancelledTrips >= 3 then Cancellations
                      else if s.activeDisruptions >= 1 && 100 * s.delayedTrips > 15 * s.trackedTrips then Disruption
                      else Delays)
    && a.title == s.line + " line delays"
    && a.updatedAt == now && a.expiresAt == now + 3 * 60 * 60 * 1000
  }

  ghost predicate OpenSays(rows: seq<Alert>, line: string, s: Snapshot, now: int) {
    forall k :: 0 <= k < |rows| && Open(rows[k]) && rows[k].line == line ==> Says(rows[k], s, now)
  }

  lemma UpsertSays(t: Table, s: Snapshot, now: int)
    requires Inv(t)
    ensures OpenSays(UpsertActive(t, s.line, SeverityOf(s), TitleOf(s), now).rows, s.line, s, now)
  {
    var at := FirstOpen(t.rows, s.line);
    var after := UpsertActive(t, s.line, SeverityOf(s), TitleOf(s), now);
    UpsertKeeps(t, s.line, SeverityOf(s), TitleOf(s), now);
    assert at < |after.rows| && Open(after.rows[at]) && Says(after.rows[at], s, now);
    forall k | 0 <= k < |after.rows| && Open(after.rows[k]) && after.rows[k].line == s.line ensures k == at {
    }
  }

  lemma UpsertLeaves(t: Table, s: Snapshot, now: int, line: string, told: Snapshot)
    requires Inv(t) && s.line != line && OpenSays(t.rows, line, told, now)
    ensures OpenSays(UpsertActive(t, s.line, SeverityOf(s), TitleOf(s), now).rows, line, told, now)
  {
    UpsertKeeps(t, s.line, SeverityOf(s), TitleOf(s), now);
    UpsertNames(t, s, now);
  }

  /** Rows an upsert adds are its own line's. */
  lemma UpsertNames(t: Table, s: Snapshot, now: int)
    ensures var rows := UpsertActive(t, s.line, SeverityOf(s), TitleOf(s), now).rows;
            forall k :: |t.rows| <= k < |rows| ==> rows[k].line == s.line
  {
  }

  lemma {:induction false} ScanSays(w: World, snaps: seq<Snapshot>, hour: int, now: int, line: string, i: nat)
    requires Inv(w.table) && RailLine(line) && LastInTrouble(snaps, line, i)
    ensures Inv(ScanAll(w, snaps, hour, now).table)
    ensures OpenSays(ScanAll(w, snaps, hour, now).table.rows, line, snaps[i], now)
  {
    var n := |snaps| - 1;
    var before := ScanAll(w, snaps[..n], hour, now);
    ScanAllKeeps(w, snaps, hour, now);
    ScanAllKeeps(w, snaps[..n], hour, now);
    DegradedRule(snaps[n]);
    if i == n {
      UpsertSays(before.table, snaps[n], now);
    } else {
      assert forall j: nat :: j < n ==> (InTroubleAt(snaps[..n], line, j) <==> InTroubleAt(snaps, line, j));
      ScanSays(w, snaps[..n], hour, now, line, i);
      assert !InTroubleAt(snaps, line, n);
      if Degraded(snaps[n]) {
        UpsertLeaves(before.table, snaps[n], now, line, snaps[i]);
      }
    }
  }

  /** The open alert of a line in trouble, after such a scan, is the one its last snapshot in trouble calls for. */
  lemma AlertSays(w: World, snaps: seq<Snapshot>, hour: int, now: int, line: string, i: nat)
    requires Inv(w.table) && RailLine(line) && LastInTrouble(snaps, line, i)
    ensures OpenSays(Scan(w, snaps, hour, now, NoFault).table.rows, line, snaps[i], now)
  {
    ScanSays(w, snaps, hour, now, line, i);
    RailLinesListed(line);
    assert InTroubleAt(snaps, line, i);
    DegradedLinesRule(snaps, line);
    var scanned := ScanAll(w, snaps, hour, now).table;
    var after := Scan(w, snaps, hour, now, NoFault).table.rows;
    forall k | 0 <= k < |after| && Open(after[k]) && after[k].line == line ensures Says(after[k], snaps[i], now) {
      StaleRow(scanned, DegradedLines(snaps), now, NoFault, k);
      assert after[k] == scanned.rows[k];
    }
  }

  // ----- the push -----

  /** A scan starts a push for a rail line in trouble from five in the morning to ten at night, 45 minutes after its last one. */
  lemma PushRule(w: World, snaps: seq<Snapshot>, hour: int, now: int, line: string)
    requires RailLine(line)
    ensures var w' := Scan(w, snaps, hour, now, NoFault);
            && w.pushes <= w'.pushes
            && ((exists i :: |w.pushes| <= i < |w'.pushes| && w'.pushes[i].line == line)
                <==> && 5 <= hour < 22 && LineInTrouble(snaps, line)
                     && now - (if line in w.lastAlertAt then w.lastAlertAt[line] else 0) >= 45 * 60 * 1000)
  {
    DegradedLinesRule(snaps, line);
    PushedIff(w, snaps, hour, now, NoFault, line);
  }

  // ----- one upsert and one resolution -----

  /**
   * Opening a line's alert: an open one keeps its id, line and creation time and is refreshed in place; otherwise one
   * row is added, open, with the next id. No other row changes.
   */
  lemma UpsertMeans(t: Table, line: string, severity: Severity, title: string, now: int)
    requires Inv(t)
    ensures var after := UpsertActive(t, line, severity, title, now);
            if HasOpen(t.rows, line) then
              && |after.rows| == |t.rows| && after.nextId == t.nextId
              && (forall k :: 0 <= k < |t.rows| ==>
                    after.rows[k] ==
                      if Open(t.rows[k]) && t.rows[k].line == line
                      then t.rows[k].(severity := severity, title := title, updatedAt := now, expiresAt := now + 10_800_000)
                      else t.rows[k])
            else
              && |after.rows| == |t.rows| + 1 && after.rows[..|t.rows|] == t.rows && after.nextId == t.nextId + 1
              && after.rows[|t.rows|] == Alert(t.nextId, line, severity, title, now, now, None, now + 10_800_000)
  {
    var at := FirstOpen(t.rows, line);
    if HasOpen(t.rows, line) {
      var i :| 0 <= i < |t.rows| && Open(t.rows[i]) && t.rows[i].line == line;
      assert at < |t.rows|;
      assert forall k :: 0 <= k < |t.rows| && Open(t.rows[k]) && t.rows[k].line == line ==> k == at;
    }
  }

  /** An administrator's resolution closes exactly the line's open alerts, now, and changes nothing else. */
  lemma ResolveMeans(t: Table, line: string, now: int)
    ensures var after := ResolveManually(t, line, now);
            && |after.rows| == |t.rows| && after.nextId == t.nextId
            && forall k :: 0 <= k < |t.rows| ==>
                 after.rows[k] ==
                   if t.rows[k].resolvedAt.None? && t.rows[k].line == line then t.rows[k].(resolvedAt := Some(now))
                   else t.rows[k]
  {
    var after := ResolveManually(t, line, now);
    forall k | 0 <= k < |t.rows|
      ensures after.rows[k] == if t.rows[k].resolvedAt.None? && t.rows[k].line == line
                               then t.rows[k].(resolvedAt := Some(now)) else t.rows[k] {
      assert Open(t.rows[k]) <==> t.rows[k].resolvedAt.None?;
    }
  }
}
