/** What an ingest leaves under each key, which files it refuses, and how it batches and counts, in figures. */
module IngestRules {
  import opened Wrappers
  import opened GtfsIngest
  import StreamCounts

  // ----- the last line of each key -----

  ghost predicate LastAt(rows: seq<Row>, k: string, i: nat) {
    i < |rows| && rows[i].key == k && forall j :: i < j < |rows| ==> rows[j].key != k
  }

  /** A key that is not empty and stands in some line. */
  predicate Listed(rows: seq<Row>, k: string) { k != "" && exists row :: row in rows && row.key == k }

  lemma {:induction false} LastRows(rows: seq<Row>, k: string)
    ensures k in LastPerKey(rows).rows <==> Listed(rows, k)
    ensures k in LastPerKey(rows).rows ==> exists i: nat :: LastAt(rows, k, i) && LastPerKey(rows).rows[k] == rows[i]
  {
    if rows != [] {
      var before, last := rows[..|rows| - 1], rows[|rows| - 1];
      LastRows(before, k);
      assert rows == before + [last];
      if k == last.key {
        assert LastAt(rows, k, |rows| - 1);
      } else if k in LastPerKey(before).rows {
        var i: nat :| LastAt(before, k, i) && LastPerKey(before).rows[k] == before[i];
        assert LastAt(rows, k, i) && rows[i] == before[i];
      }
    }
  }

  /** Where a key first stands. */
  ghost predicate FirstAt(rows: seq<Row>, k: string, i: nat) {
    i < |rows| && rows[i].key == k && forall j :: 0 <= j < i ==> rows[j].key != k
  }

  lemma FirstOfListed(rows: seq<Row>, k: string)
    requires Listed(rows, k)
    ensures exists i: nat :: FirstAt(rows, k, i)
  {
    var row :| row in rows && row.key == k;
    var j: nat :| j < |rows| && rows[j] == row;
    FirstBefore(rows, k, j);
  }

  lemma {:induction false} FirstBefore(rows: seq<Row>, k: string, j: nat)
    requires j < |rows| && rows[j].key == k
    ensures exists i: nat :: FirstAt(rows, k, i)
  {
    if i: nat :| i < j && rows[i].key == k {
      FirstBefore(rows, k, i);
    } else {
      assert FirstAt(rows, k, j);
    }
  }

  ghost predicate EarlierKey(rows: seq<Row>, a: string, b: string) {
    exists i: nat, j: nat :: i < j && FirstAt(rows, a, i) && FirstAt(rows, b, j)
  }

  ghost predicate ByFirst(rows: seq<Row>, keys: seq<string>) {
    forall a, b :: 0 <= a < b < |keys| ==> EarlierKey(rows, keys[a], keys[b])
  }

  lemma {:induction false} KeysInOrder(rows: seq<Row>)
    ensures ByFirst(rows, LastPerKey(rows).keys)
  {
    if rows != [] {
      var before, last := rows[..|rows| - 1], rows[|rows| - 1];
      KeysInOrder(before);
      var known, keys := LastPerKey(before).keys, LastPerKey(rows).keys;
      assert keys == known || (keys == known + [last.key] && last.key != "");
      assert rows == before + [last];
      forall a, b | 0 <= a < b < |keys| ensures EarlierKey(rows, keys[a], keys[b]) {
        if b < |known| {
          EarlierStays(rows, before, last, known[a], known[b]);
        } else {
          assert keys[a] in known;
          LastRows(before, keys[a]);
          LastRows(before, last.key);
          NewKeyLast(rows, before, last, keys[a]);
        }
      }
    }
  }

  lemma EarlierStays(rows: seq<Row>, before: seq<Row>, last: Row, a: string, b: string)
    requires rows == before + [last] && EarlierKey(before, a, b)
    ensures EarlierKey(rows, a, b)
  {
    var i: nat, j: nat :| i < j && FirstAt(before, a, i) && FirstAt(before, b, j);
    assert FirstAt(rows, a, i) && FirstAt(rows, b, j);
  }

  lemma NewKeyLast(rows: seq<Row>, before: seq<Row>, last: Row, a: string)
    requires rows == before + [last] && Listed(before, a) && !Listed(before, last.key) && last.key != ""
    ensures EarlierKey(rows, a, last.key)
  {
    FirstOfListed(before, a);
    var i: nat :| FirstAt(before, a, i);
    forall j | 0 <= j < |before| ensures rows[j].key != last.key {
      assert before[j] in before;
    }
    assert FirstAt(rows, a, i) && FirstAt(rows, last.key, |before|);
  }

  /** Reducing keeps, for each key, its last line, in the order in which the keys first stand; lines without a key are dropped. */
  lemma DedupeSays(rows: seq<Row>)
    ensures var d := Dedupe(rows);
            && (forall k :: Listed(rows, k) <==> exists i: nat :: i < |d| && d[i].key == k)
            && (forall i :: 0 <= i < |d| ==> exists j: nat :: LastAt(rows, d[i].key, j) && d[i] == rows[j])
            && (forall a, b :: 0 <= a < b < |d| ==> EarlierKey(rows, d[a].key, d[b].key))
  {
    var d, m := Dedupe(rows), LastPerKey(rows);
    LastPerKeyFacts(rows);
    KeysInOrder(rows);
    forall i | 0 <= i < |d| ensures d[i].key == m.keys[i] && m.keys[i] in m.rows && d[i] == m.rows[m.keys[i]] {
      assert m.keys[i] in m.keys;
    }
    forall k ensures Listed(rows, k) <==> exists i: nat :: i < |d| && d[i].key == k {
      LastRows(rows, k);
      if k in m.rows {
        var i: nat :| i < |m.keys| && m.keys[i] == k;
        assert d[i].key == k;
      }
    }
    forall i | 0 <= i < |d| ensures exists j: nat :: LastAt(rows, d[i].key, j) && d[i] == rows[j] {
      LastRows(rows, d[i].key);
    }
  }

  // ----- a table after the ingest -----

  ghost predicate LastRecord(records: seq<Record>, k: string, i: nat) {
    i < |records| && records[i].key == k && forall j :: i < j < |records| ==> records[j].key != k
  }

  /** The lines of the file that feeds a table; none feeds the routes of a stop. */
  function LinesOf(files: Files, t: TableName): seq<Record> {
    if t in files && t != StopRoutes then files[t] else []
  }

  /**
   * After a replace, a key that stands in the feed's file holds its last line with the feed's name; any other key holds
   * what it held before, unless that was the feed's own.
   */
  lemma ReplacedSays(table: Table, feedKey: string, files: Files, t: TableName, k: string)
    ensures var after, records := Replaced(table, feedKey, RowsOf(files, t, feedKey)), LinesOf(files, t);
            if k != "" && exists record :: record in records && record.key == k then
              exists i: nat :: LastRecord(records, k, i) && k in after && after[k] == Row(k, feedKey, records[i].data)
            else
              && (k in after <==> k in table && table[k].feedKey != feedKey)
              && (k in after ==> after[k] == table[k])
  {
    var rows, records := RowsOf(files, t, feedKey), LinesOf(files, t);
    UpsertOverlays(WithoutFeed(table, feedKey), rows);
    LastRows(rows, k);
    assert |rows| == |records| && forall i :: 0 <= i < |rows| ==> rows[i] == Row(records[i].key, feedKey, records[i].data);
    if record :| record in records && record.key == k {
      var j :| 0 <= j < |records| && records[j] == record;
      assert rows[j] in rows;
    }
    if Listed(rows, k) {
      var row :| row in rows && row.key == k;
      var j :| 0 <= j < |rows| && rows[j] == row;
      assert records[j] in records && records[j].key == k;
      var i: nat :| LastAt(rows, k, i) && LastPerKey(rows).rows[k] == rows[i];
      assert LastRecord(records, k, i);
    }
  }

  // ----- what is refused, batched and counted -----

  predicate HasKey(rows: seq<Row>) { exists row :: row in rows && row.key != "" }

  lemma EmptyIff(rows: seq<Row>)
    ensures Dedupe(rows) == [] <==> !HasKey(rows)
  {
    DedupeSays(rows);
    if row :| row in rows && row.key != "" { assert Listed(rows, row.key); }
    if Dedupe(rows) != [] {
      LastPerKeyFacts(rows);
      assert LastPerKey(rows).keys[0] in LastPerKey(rows).keys;
      LastRows(rows, LastPerKey(rows).keys[0]);
    }
  }

  predicate Keyless(records: seq<Record>) { forall record :: record in records ==> record.key == "" }

  lemma KeylessIff(files: Files, t: TableName, feedKey: string)
    ensures Dedupe(RowsOf(files, t, feedKey)) == [] <==> Keyless(LinesOf(files, t))
  {
    var rows, records := RowsOf(files, t, feedKey), LinesOf(files, t);
    EmptyIff(rows);
    forall i | 0 <= i < |records| ensures rows[i] in rows && records[i] in records && rows[i].key == records[i].key {
    }
  }

  /** A feed is refused without a routes file, with stops but none that has an id, and without a route that has one. */
  lemma RefusedFilesIff(files: Files, feedKey: string)
    ensures CheckedFiles(files, feedKey)
            == if Routes !in files then Some(MissingRoutesFile)
               else if LinesOf(files, Stops) != [] && Keyless(LinesOf(files, Stops)) then Some(NoValidStops)
               else if Keyless(LinesOf(files, Routes)) then Some(NoRoutes)
               else None
  {
    KeylessIff(files, Stops, feedKey);
    KeylessIff(files, Routes, feedKey);
    assert |RowsOf(files, Stops, feedKey)| == |LinesOf(files, Stops)|;
  }

  /** A streamed file goes out in batches of five hundred lines, the last one smaller. */
  lemma BatchesSay(records: seq<Row>)
    ensures var batches := Batches(records);
            && Flatten(batches) == records
            && (forall k :: 0 <= k < |batches| - 1 ==> |batches[k]| == 500)
            && (forall k :: 0 <= k < |batches| ==> 1 <= |batches[k]| <= 500)
  {
    BatchesConcat(records);
  }

  /** The statements that count: all when the last batch is partial and has a key, otherwise those answered at the end of the file. */
  function Answers(records: seq<Row>, answered: nat): nat {
    var batches := Batches(records);
    if batches != [] && |batches[|batches| - 1]| < 500 && HasKey(batches[|batches| - 1]) then |batches|
    else if answered > |batches| then |batches| else answered
  }

  /** A refusal is met when it hits a batch that has a key, among those that count. */
  predicate MeetsRefusal(records: seq<Row>, r: Replies) {
    r.refused.Some? && r.refused.value < Answers(records, r.answered) && r.refused.value < |Batches(records)|
    && HasKey(Batches(records)[r.refused.value])
  }

  /** How many distinct keys the first `n` batches have, each batch counted for itself. */
  function KeysSent(batches: seq<seq<Row>>, n: nat): nat
    requires n <= |batches|
  {
    if n == 0 then 0 else KeysSent(batches, n - 1) + |KeysOf(batches[n - 1])|
  }

  function KeysOf(rows: seq<Row>): set<string> { set row | row in rows && row.key != "" :: row.key }

  lemma DedupeSize(rows: seq<Row>)
    ensures |Dedupe(rows)| == |KeysOf(rows)|
  {
    StreamCounts.KeyCount(rows);
    forall k ensures k in LastPerKey(rows).rows <==> k in KeysOf(rows) {
      LastRows(rows, k);
    }
    assert KeysOf(rows) == LastPerKey(rows).rows.Keys;
  }

  lemma {:induction false} InsertedKeys(batches: seq<seq<Row>>, n: nat)
    requires n <= |batches|
    ensures InsertedCount(batches[..n]) == KeysSent(batches, n)
  {
    if n > 0 {
      InsertedKeys(batches, n - 1);
      assert batches[..n][..n - 1] == batches[..n - 1];
      DedupeSize(batches[n - 1]);
    }
  }

  lemma SettledIs(records: seq<Row>, r: Replies)
    ensures Settled(records, r) == Answers(records, r.answered)
  {
    var batches, rest := Batches(records), Rest(records);
    EmptyIff(rest);
    if rest == [] {
      assert batches == FullBatches(records);
    } else {
      assert batches[|batches| - 1] == rest;
    }
  }

  /** A streamed file fails when it meets a refusal, and otherwise reports the keys of the batches that count. */
  lemma StreamSays(records: seq<Row>, r: Replies)
    ensures StreamResult(records, r)
            == if MeetsRefusal(records, r) then Failed else Counted(KeysSent(Batches(records), Answers(records, r.answered)))
  {
    var batches := Batches(records);
    SettledIs(records, r);
    InsertedKeys(batches, Settled(records, r));
    if r.refused.Some? && r.refused.value < |batches| { EmptyIff(batches[r.refused.value]); }
  }

  /**
   * What is written although the transaction is undone: after a refusal that was met, the batches not yet started when it
   * became known, in batches of their own; otherwise nothing.
   */
  lemma StraysSay(records: seq<Row>, r: Replies)
    ensures var batches := Batches(records);
            if !MeetsRefusal(records, r) then Strays(records, r) == []
            else
              var known := if r.started > r.refused.value then r.started else r.refused.value + 1;
              Strays(records, r) == if known > |batches| then [] else batches[known..]
  {
    StreamSays(records, r);
  }

  /** The answer of an ingest: a feed that is not acceptable, a refusal that was met, or the reported number of stop times. */
  lemma OutcomeSays(files: Files, feedKey: string, r: Replies)
    ensures var times, answer := RowsOf(files, StopTimes, feedKey), IngestOutcome(files, feedKey, r);
            if Routes !in files then answer == Err(MissingRoutesFile)
            else if LinesOf(files, Stops) != [] && Keyless(LinesOf(files, Stops)) then answer == Err(NoValidStops)
            else if Keyless(LinesOf(files, Routes)) then answer == Err(NoRoutes)
            else if MeetsRefusal(times, r) then answer == Err(StatementRefused)
            else answer == Ok(KeysSent(Batches(times), Answers(times, r.answered)))
  {
    RefusedFilesIff(files, feedKey);
    StreamSays(RowsOf(files, StopTimes, feedKey), r);
  }
}
