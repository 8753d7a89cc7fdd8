/**
 * Static timetable ingest: a feed's rows are deleted and its files upserted in
 * batches, each batch first reduced to the last row per key. The lemmas relate
 * that to upserting the file one row at a time.
 */
module GtfsIngest {
  import opened Basics
  import opened Wrappers

  const BATCH_SIZE := 500

  /** A stored row; `data` stands for the columns that are neither key nor owner. */
  datatype Row = Row(key: string, feedKey: string, data: string)

  type Table = map<string, Row>

  // ----- keeping the last row per key -----

  /** A map that lists its keys in order of first insertion. */
  datatype Ordered = Ordered(keys: seq<string>, rows: map<string, Row>)

  function SetLast(m: Ordered, row: Row): Ordered {
    if row.key == "" then m
    else Ordered(if row.key in m.rows then m.keys else m.keys + [row.key], m.rows[row.key := row])
  }

  function LastPerKey(rows: seq<Row>): (m: Ordered)
    ensures forall k :: k in m.keys <==> k in m.rows
  {
    if rows == [] then Ordered([], map[]) else SetLast(LastPerKey(rows[..|rows| - 1]), rows[|rows| - 1])
  }

  ghost predicate Keyed(m: Ordered) {
    NoRepeats(m.keys) && (forall k :: k in m.rows ==> m.rows[k].key == k && k != "")
  }

  lemma {:induction false} LastPerKeyFacts(rows: seq<Row>)
    ensures Keyed(LastPerKey(rows))
  {
    if rows != [] {
      LastPerKeyFacts(rows[..|rows| - 1]);
      var before := LastPerKey(rows[..|rows| - 1]);
      assert LastPerKey(rows) == SetLast(before, rows[|rows| - 1]);
    }
  }

  predicate Names(rows: seq<Row>, k: string) {
    exists i :: 0 <= i < |rows| && rows[i].key == k
  }

  /** Each row is the one the overlay holds under its key. */
  ghost predicate TakenFrom(rows: seq<Row>, overlay: Table) {
    forall i :: 0 <= i < |rows| ==> rows[i].key != "" && rows[i].key in overlay && overlay[rows[i].key] == rows[i]
  }

  function Dedupe(rows: seq<Row>): (d: seq<Row>)
  {
    var m := LastPerKey(rows);
    seq(|m.keys|, i requires 0 <= i < |m.keys| => m.rows[m.keys[i]])
  }

  method DedupeByKey(rows: seq<Row>) returns (d: seq<Row>)
    ensures d == Dedupe(rows)
  {
    var keys: seq<string> := [];
    var last: map<string, Row> := map[];
    for i := 0 to |rows|
      invariant Ordered(keys, last) == LastPerKey(rows[..i])
    {
      assert rows[..i + 1][..i] == rows[..i];
      if rows[i].key != "" {
        if rows[i].key !in last {
          keys := keys + [rows[i].key];
        }
        last := last[rows[i].key := rows[i]];
      }
    }
    assert rows[..|rows|] == rows;
    d := seq(|keys|, i requires 0 <= i < |keys| => last[keys[i]]);
  }

  // ----- upserts -----

  ghost predicate KeysDistinct(batch: seq<Row>) {
    forall i, j :: 0 <= i < j < |batch| ==> batch[i].key != batch[j].key
  }

  /** One row at a time, in file order; rows without a key are passed over. */
  function UpsertEach(table: Table, rows: seq<Row>): Table {
    if rows == [] then table
    else
      var before := UpsertEach(table, rows[..|rows| - 1]);
      var last := rows[|rows| - 1];
      if last.key == "" then before else before[last.key := last]
  }

  /** One statement: the database refuses a batch that names a key twice. */
  ghost function UpsertBatch(table: Table, batch: seq<Row>): Option<Table> {
    if KeysDistinct(batch) then Some(UpsertEach(table, batch)) else None
  }

  lemma {:induction false} UpsertConcat(table: Table, a: seq<Row>, b: seq<Row>)
    ensures UpsertEach(table, a + b) == UpsertEach(UpsertEach(table, a), b)
  {
    if b == [] {
      assert a + b == a;
    } else {
      assert (a + b)[..|a + b| - 1] == a + b[..|b| - 1];
      UpsertConcat(table, a, b[..|b| - 1]);
    }
  }

  /** Upserting rows overlays the table with the last row per key. */
  lemma {:induction false} UpsertOverlays(table: Table, rows: seq<Row>)
    ensures UpsertEach(table, rows) == table + LastPerKey(rows).rows
  {
    if rows != [] {
      UpsertOverlays(table, rows[..|rows| - 1]);
    }
  }

  /** Applying rows taken from an overlay puts the overlay's row under every key they name. */
  lemma {:induction false} ApplyListed(table: Table, d: seq<Row>, overlay: Table)
    requires TakenFrom(d, overlay)
    ensures forall k :: k in UpsertEach(table, d) <==> k in table || Names(d, k)
    ensures forall k :: k in UpsertEach(table, d) ==>
      UpsertEach(table, d)[k] == if Names(d, k) then overlay[k] else table[k]
  {
    if d != [] {
      var before := d[..|d| - 1];
      assert TakenFrom(before, overlay);
      ApplyListed(table, before, overlay);
      forall k ensures Names(d, k) <==> Names(before, k) || d[|d| - 1].key == k {
        NamesSplit(d, k);
      }
    }
  }

  lemma NamesSplit(d: seq<Row>, k: string)
    requires d != []
    ensures Names(d, k) <==> Names(d[..|d| - 1], k) || d[|d| - 1].key == k
  {
    var before := d[..|d| - 1];
    if i :| 0 <= i < |before| && before[i].key == k {
      assert d[i].key == k;
    }
    if i :| 0 <= i < |d| && d[i].key == k {
      assert i < |before| ==> before[i].key == k;
    }
  }

  lemma DedupeListsKeys(batch: seq<Row>)
    ensures KeysDistinct(Dedupe(batch))
    ensures TakenFrom(Dedupe(batch), LastPerKey(batch).rows)
    ensures forall k :: k in LastPerKey(batch).rows <==> Names(Dedupe(batch), k)
  {
    LastPerKeyFacts(batch);
    var m := LastPerKey(batch);
    var d := Dedupe(batch);
    forall i | 0 <= i < |d| ensures d[i].key == m.keys[i] && m.keys[i] in m.rows && d[i] == m.rows[m.keys[i]] {
      assert m.keys[i] in m.keys;
    }
    forall k | k in m.rows ensures Names(d, k) {
      assert k in m.keys;
      var i :| 0 <= i < |m.keys| && m.keys[i] == k;
      assert d[i].key == k;
    }
  }

  /** No deduplicated batch is refused, and it leaves the table as the batch's rows would one at a time. */
  lemma DedupedBatchRefines(table: Table, batch: seq<Row>)
    ensures UpsertBatch(table, Dedupe(batch)) == Some(UpsertEach(table, batch))
  {
    DedupeListsKeys(batch);
    var overlay := LastPerKey(batch).rows;
    ApplyListed(table, Dedupe(batch), overlay);
    UpsertOverlays(table, batch);
    SameTables(UpsertEach(table, Dedupe(batch)), table + overlay);
  }

  lemma SameTables(a: Table, b: Table)
    requires forall k :: k in a <==> k in b
    requires forall k :: k in a ==> a[k] == b[k]
    ensures a == b
  {
  }

  function Flatten(batches: seq<seq<Row>>): seq<Row> {
    if batches == [] then [] else Flatten(batches[..|batches| - 1]) + batches[|batches| - 1]
  }

  ghost function UpsertBatches(table: Table, batches: seq<seq<Row>>): Option<Table> {
    if batches == [] then Some(table)
    else
      var before := UpsertBatches(table, batches[..|batches| - 1]);
      if before.None? then None else UpsertBatch(before.value, Dedupe(batches[|batches| - 1]))
  }

  /** However a file is split into batches, the table ends as if its rows had been upserted one by one, last wins. */
  lemma {:induction false} BatchingRefines(table: Table, batches: seq<seq<Row>>)
    ensures UpsertBatches(table, batches) == Some(UpsertEach(table, Flatten(batches)))
  {
    if batches != [] {
      var before := batches[..|batches| - 1];
      var last := batches[|batches| - 1];
      BatchingRefines(table, before);
      DedupedBatchRefines(UpsertEach(table, Flatten(before)), last);
      UpsertConcat(table, Flatten(before), last);
    }
  }

  function InsertedCount(batches: seq<seq<Row>>): nat {
    if batches == [] then 0 else InsertedCount(batches[..|batches| - 1]) + |Dedupe(batches[|batches| - 1])|
  }

  // ----- a streamed file -----

  function FullBatches(records: seq<Row>): seq<seq<Row>> {
    seq(|records| / BATCH_SIZE, i requires 0 <= i < |records| / BATCH_SIZE =>
      records[i * BATCH_SIZE..(i + 1) * BATCH_SIZE])
  }

  /** What is left in the buffer at the end of the file. */
  function Rest(records: seq<Row>): seq<Row> { records[|records| / BATCH_SIZE * BATCH_SIZE..] }

  function Batches(records: seq<Row>): seq<seq<Row>> {
    FullBatches(records) + if Rest(records) == [] then [] else [Rest(records)]
  }

  /**
   * How the database answers the batches of one file. They share a connection, so their statements run and are answered
   * in the order they were sent. `answered` of them are when the parser reports the end of the file; `refused` is
   * the first one refused, if any; `started` have been started when that refusal arrives.
   */
  datatype Replies = Replies(answered: nat, refused: Option<nat>, started: nat)

  datatype Streamed = Counted(inserted: nat) | Failed

  /** The batches started so far: the size of each reduced batch, those sent outside the transaction, and its fate. */
  datatype Sending = Sending(sizes: seq<nat>, strays: seq<seq<Row>>, aborted: bool)

  /** The end of the file waits for the statement of the last, partial batch, and so for all before it; for nothing else. */
  predicate Awaited(records: seq<Row>) { Rest(records) != [] && Dedupe(Rest(records)) != [] }

  /** How many rows each batch's statement has. */
  function Sizes(batches: seq<seq<Row>>): seq<nat> {
    seq(|batches|, i requires 0 <= i < |batches| => |Dedupe(batches[i])|)
  }

  /** A batch without any key sends no statement that could be refused. */
  function FirstRefusal(sizes: seq<nat>, refused: Option<nat>): Option<nat> {
    if refused.Some? && refused.value < |sizes| && sizes[refused.value] > 0 then refused else None
  }

  predicate Refuses(records: seq<Row>, r: Replies) { FirstRefusal(Sizes(Batches(records)), r.refused).Some? }

  /** How many batches have been answered when the file counts as read. */
  function Settled(records: seq<Row>, r: Replies): (n: nat)
    ensures n <= |Batches(records)|
  {
    if Awaited(records) || r.answered > |Batches(records)| then |Batches(records)| else r.answered
  }

  function StreamResult(records: seq<Row>, r: Replies): Streamed {
    var settled := Settled(records, r);
    if Refuses(records, r) && r.refused.value < settled then Failed
    else Counted(InsertedCount(Batches(records)[..settled]))
  }

  /** How many batches are sent inside the transaction: once the refusal is known, the rest goes to the pool. */
  function Inside(records: seq<Row>, r: Replies): (n: nat)
    ensures n <= |Batches(records)|
    ensures Refuses(records, r) ==> r.refused.value < n
  {
    if StreamResult(records, r).Counted? || r.started > |Batches(records)| then |Batches(records)|
    else if r.started > r.refused.value then r.started else r.refused.value + 1
  }

  lemma {:induction false} FullConcat(records: seq<Row>, n: nat)
    requires n <= |FullBatches(records)|
    ensures n * BATCH_SIZE <= |records| && Flatten(FullBatches(records)[..n]) == records[..n * BATCH_SIZE]
  {
    var full := FullBatches(records);
    if n > 0 {
      FullConcat(records, n - 1);
      assert full[..n][..n - 1] == full[..n - 1];
      assert records[..n * BATCH_SIZE] == records[..(n - 1) * BATCH_SIZE] + full[n - 1];
    }
  }

  lemma BatchesConcat(records: seq<Row>)
    ensures Flatten(Batches(records)) == records
  {
    var full, rest := FullBatches(records), Rest(records);
    FullConcat(records, |full|);
    assert full[..|full|] == full;
    if rest != [] {
      assert Batches(records)[..|full|] == full;
    } else {
      assert Batches(records) == full;
    }
    assert records[..|full| * BATCH_SIZE] + rest == records;
  }

  // ----- replacing a feed -----

  datatype TableName = StopRoutes | StopTimes | CalendarDates | Calendar | Trips | Routes | Stops

  const DELETE_ORDER := [StopRoutes, StopTimes, CalendarDates, Calendar, Trips, Routes, Stops]

  type Database = map<TableName, Table>

  function TableOf(db: Database, t: TableName): Table { if t in db then db[t] else map[] }

  datatype IngestError = MissingRoutesFile | NoValidStops | NoRoutes | StatementRefused

  function WithoutFeed(table: Table, feedKey: string): Table {
    map k | k in table && table[k].feedKey != feedKey :: table[k]
  }

  /** A line of a file: its key and its remaining columns. */
  datatype Record = Record(key: string, data: string)

  type Files = map<TableName, seq<Record>>

  /** The rows a file contributes, stamped with the feed; an absent file contributes none, and no file feeds `StopRoutes`. */
  function RowsOf(files: Files, t: TableName, feedKey: string): (rows: seq<Row>)
    ensures forall i :: 0 <= i < |rows| ==> rows[i].feedKey == feedKey
  {
    if t !in files || t == StopRoutes then []
    else seq(|files[t]|, i requires 0 <= i < |files[t]| => Row(files[t][i].key, feedKey, files[t][i].data))
  }

  function Replaced(table: Table, feedKey: string, rows: seq<Row>): Table {
    UpsertEach(WithoutFeed(table, feedKey), rows)
  }

  function CheckedFiles(files: Files, feedKey: string): Option<IngestError> {
    if Routes !in files then Some(MissingRoutesFile)
    else if RowsOf(files, Stops, feedKey) != [] && Dedupe(RowsOf(files, Stops, feedKey)) == [] then Some(NoValidStops)
    else if Dedupe(RowsOf(files, Routes, feedKey)) == [] then Some(NoRoutes)
    else None
  }

  /** The number of stop times reported, or the error that ends the transaction. */
  function IngestOutcome(files: Files, feedKey: string, r: Replies): Result<nat, IngestError> {
    var times := RowsOf(files, StopTimes, feedKey);
    if CheckedFiles(files, feedKey).Some? then Err(CheckedFiles(files, feedKey).value)
    else if StreamResult(times, r).Failed? then Err(StatementRefused)
    else Ok(StreamResult(times, r).inserted)
  }

  /** The stop times written outside the transaction, by batches started after a refusal was known. */
  function Strays(records: seq<Row>, r: Replies): seq<seq<Row>> { Batches(records)[Inside(records, r)..] }

  function StraysOf(files: Files, feedKey: string, r: Replies, t: TableName): seq<Row> {
    if t == StopTimes && IngestOutcome(files, feedKey, r) == Err(StatementRefused)
    then Flatten(Strays(RowsOf(files, t, feedKey), r)) else []
  }

  class GtfsStaticService {
    var db: Database

    constructor (db: Database)
      ensures this.db == db
    {
      this.db := db;
    }

    method InsertBatch(t: TableName, batch: seq<Row>)
      requires KeysDistinct(batch)
      modifies this
      ensures db == old(db)[t := UpsertEach(TableOf(old(db), t), batch)]
    {
      var table := TableOf(db, t);
      for i := 0 to |batch|
        invariant db == old(db)
        invariant table == UpsertEach(TableOf(db, t), batch[..i])
      {
        assert batch[..i + 1][..i] == batch[..i];
        if batch[i].key != "" {
          table := table[batch[i].key := batch[i]];
        }
      }
      assert batch[..|batch|] == batch;
      db := db[t := table];
    }

    method InsertSlices(t: TableName, rows: seq<Row>)
      requires KeysDistinct(rows)
      modifies this
      ensures TableOf(db, t) == UpsertEach(TableOf(old(db), t), rows)
      ensures forall u :: u != t ==> TableOf(db, u) == TableOf(old(db), u)
    {
      var i := 0;
      while i < |rows|
        invariant 0 <= i <= |rows|
        invariant TableOf(db, t) == UpsertEach(TableOf(old(db), t), rows[..i])
        invariant forall u :: u != t ==> TableOf(db, u) == TableOf(old(db), u)
      {
        var end := if i + BATCH_SIZE < |rows| then i + BATCH_SIZE else |rows|;
        NextSlice(TableOf(old(db), t), rows, i, end);
        InsertBatch(t, rows[i..end]);
        i := end;
      }
      assert rows[..|rows|] == rows;
    }

    /** A small file: reduced to one row per key as a whole, then inserted in slices. */
    method IngestWhole(t: TableName, records: seq<Row>) returns (count: nat)
      modifies this
      ensures TableOf(db, t) == UpsertEach(TableOf(old(db), t), records)
      ensures forall u :: u != t ==> TableOf(db, u) == TableOf(old(db), u)
      ensures count == |Dedupe(records)|
    {
      var mapped := DedupeByKey(records);
      DedupeListsKeys(records);
      DedupedBatchRefines(TableOf(db, t), records);
      InsertSlices(t, mapped);
      count := |mapped|;
    }

    /** Sends one batch's statement, if it needs one and the transaction still takes it. */
    method StartBatch(t: TableName, buffer: seq<Row>, inside: bool, refused: bool, aborted: bool)
      returns (size: nat, aborted': bool)
      modifies this
      ensures size == |Dedupe(buffer)|
      ensures aborted' <==> aborted || (inside && refused && size > 0)
      ensures inside && !aborted' ==> TableOf(db, t) == UpsertEach(TableOf(old(db), t), buffer)
      ensures forall u :: u != t ==> TableOf(db, u) == TableOf(old(db), u)
    {
      var batch := DedupeByKey(buffer);
      size, aborted' := |batch|, aborted;
      DedupedBatchRefines(TableOf(db, t), buffer);
      if inside && refused && size > 0 {
        aborted' := true;
      } else if inside && !aborted {
        InsertBatch(t, batch);
      }
    }

    method SendBatch(t: TableName, buffer: seq<Row>, inside: nat, refused: Option<nat>, before: Sending, ghost p: Plan)
      returns (after: Sending)
      requires |before.sizes| < |p.batches| && p.batches[|before.sizes|] == buffer
      requires Follows(p) && Splits(p, inside, refused) && Sent(p, inside, refused, before)
      requires !before.aborted ==> TableOf(db, t) == p.tables[|before.sizes|]
      modifies this
      ensures |after.sizes| == |before.sizes| + 1 && Sent(p, inside, refused, after)
      ensures !after.aborted ==> TableOf(db, t) == p.tables[|after.sizes|]
      ensures forall u :: u != t ==> TableOf(db, u) == TableOf(old(db), u)
    {
      var k := |before.sizes|;
      var size, aborted := StartBatch(t, buffer, k < inside, refused == Some(k), before.aborted);
      assert size == p.sizes[k] && p.tables[k + 1] == UpsertEach(p.tables[k], buffer);
      after := Sending(before.sizes + [size], if k < inside then before.strays else before.strays + [buffer], aborted);
      SentOneMore(p, inside, refused, before, after);
    }

    /** Reads the file to its end; returns what was started and what is left in the buffer. */
    method ReadAll(t: TableName, records: seq<Row>, inside: nat, refused: Option<nat>, ghost p: Plan)
      returns (sent: Sending, buffer: seq<Row>)
      requires p.batches == Batches(records) && Follows(p) && Splits(p, inside, refused) && p.tables[0] == TableOf(db, t)
      modifies this
      ensures Sent(p, inside, refused, sent) && Reading(records, |records|, |sent.sizes|, buffer)
      ensures !sent.aborted ==> TableOf(db, t) == p.tables[|sent.sizes|]
      ensures forall u :: u != t ==> TableOf(db, u) == TableOf(old(db), u)
    {
      sent, buffer := Sending([], [], false), [];
      for i := 0 to |records|
        invariant Reading(records, i, |sent.sizes|, buffer)
        invariant Sent(p, inside, refused, sent)
        invariant !sent.aborted ==> TableOf(db, t) == p.tables[|sent.sizes|]
        invariant forall u :: u != t ==> TableOf(db, u) == TableOf(old(db), u)
      {
        BufferOne(records, i, |sent.sizes|, buffer);
        buffer := buffer + [records[i]];
        if |buffer| >= BATCH_SIZE {
          sent := SendBatch(t, buffer, inside, refused, sent, p);
          buffer := [];
        }
      }
    }

    /**
     * A large file. Each full buffer is reduced and its statement sent, but not awaited; at the end of the file only the
     * last partial one is. Once a statement is refused the transaction takes no more of them (`aborted`), and
     * what is started after the refusal is known is handed to the pool instead (`strays`).
     */
    method IngestStreamed(t: TableName, records: seq<Row>, r: Replies) returns (result: Streamed, sent: Sending)
      modifies this
      ensures result == StreamResult(records, r) && sent.strays == Strays(records, r)
      ensures sent.aborted == Refuses(records, r)
      ensures !sent.aborted ==> TableOf(db, t) == UpsertEach(TableOf(old(db), t), records)
      ensures forall u :: u != t ==> TableOf(db, u) == TableOf(old(db), u)
    {
      ghost var p := PlanOf(TableOf(db, t), records);
      var inside := Inside(records, r);
      PlanFollows(TableOf(db, t), records, r);
      var buffer: seq<Row>;
      sent, buffer := ReadAll(t, records, inside, r.refused, p);
      LastBatch(records, |sent.sizes|, buffer);
      if |buffer| > 0 {
        sent := SendBatch(t, buffer, inside, r.refused, sent, p);
      }
      AllSent(TableOf(old(db), t), records, r, sent);
      result := Answer(records, sent.sizes, |buffer| > 0 && sent.sizes[|sent.sizes| - 1] > 0, r);
    }

    /** The replies that come in until the file counts as read, in order. */
    method Answer(records: seq<Row>, sizes: seq<nat>, awaited: bool, r: Replies) returns (result: Streamed)
      requires sizes == Sizes(Batches(records)) && awaited == Awaited(records)
      ensures result == StreamResult(records, r)
    {
      ghost var batches := Batches(records);
      var settled := if awaited || r.answered > |sizes| then |sizes| else r.answered;
      var inserted := 0;
      for j := 0 to settled
        invariant inserted == InsertedCount(batches[..j])
        invariant forall k :: FirstRefusal(sizes, r.refused) == Some(k) ==> k >= j
      {
        if r.refused == Some(j) && sizes[j] > 0 {
          return Failed;
        }
        CountOneMore(batches, j);
        inserted := inserted + sizes[j];
      }
      result := Counted(inserted);
    }

    method DeleteFeed(feedKey: string)
      modifies this
      ensures forall t: TableName :: TableOf(db, t) == WithoutFeed(TableOf(old(db), t), feedKey)
    {
      var i := 0;
      while i < |DELETE_ORDER|
        invariant 0 <= i <= |DELETE_ORDER|
        invariant forall t: TableName | t in DELETE_ORDER[..i] :: TableOf(db, t) == WithoutFeed(TableOf(old(db), t), feedKey)
        invariant forall t: TableName | t !in DELETE_ORDER[..i] :: TableOf(db, t) == TableOf(old(db), t)
      {
        var t := DELETE_ORDER[i];
        assert DELETE_ORDER[..i + 1] == DELETE_ORDER[..i] + [t];
        NotYetDeleted(i);
        db := db[t := WithoutFeed(TableOf(db, t), feedKey)];
        i := i + 1;
      }
      assert DELETE_ORDER[..|DELETE_ORDER|] == DELETE_ORDER;
      forall t: TableName ensures t in DELETE_ORDER {
        InDeleteOrder(t);
      }
    }

    /**
     * One transaction. It is rolled back on any error, and also, without an error, when a statement whose answer nobody
     * waited for is refused: the database ends a transaction it has aborted by undoing it.
     */
    method ProcessZip(feedKey: string, files: Files, r: Replies) returns (result: Result<nat, IngestError>)
      modifies this
      ensures result == IngestOutcome(files, feedKey, r)
      ensures result.Err? ==>
        forall t: TableName :: TableOf(db, t) == UpsertEach(TableOf(old(db), t), StraysOf(files, feedKey, r, t))
      ensures result.Ok? && Refuses(RowsOf(files, StopTimes, feedKey), r) ==> db == old(db)
      ensures result.Ok? && !Refuses(RowsOf(files, StopTimes, feedKey), r) ==>
        forall t: TableName :: TableOf(db, t) == Replaced(TableOf(old(db), t), feedKey, RowsOf(files, t, feedKey))
    {
      if Routes !in files {
        return Err(MissingRoutesFile);
      }
      var saved := db;
      DeleteFeed(feedKey);
      ghost var deleted := db;
      var error := IngestStopsAndRoutes(files, feedKey);
      if error.Some? {
        db := saved;
        return Err(error.value);
      }
      ghost var withRoutes := db;
      var streamed, sent := IngestTimetable(files, feedKey, r);
      if streamed.Counted? && !sent.aborted {
        FeedReplaced(saved, deleted, withRoutes, db, feedKey, files);
      }
      result := EndTransaction(saved, streamed, sent);
    }

    method IngestStopsAndRoutes(files: Files, feedKey: string) returns (error: Option<IngestError>)
      requires Routes in files
      modifies this
      ensures error == CheckedFiles(files, feedKey)
      ensures error.None? ==>
        forall t: TableName :: TableOf(db, t) == if t == Stops || t == Routes
          then UpsertEach(TableOf(old(db), t), RowsOf(files, t, feedKey)) else TableOf(old(db), t)
    {
      var stops := IngestWhole(Stops, RowsOf(files, Stops, feedKey));
      if RowsOf(files, Stops, feedKey) != [] && stops == 0 {
        return Some(NoValidStops);
      }
      var routes := IngestWhole(Routes, RowsOf(files, Routes, feedKey));
      if routes < 1 {
        return Some(NoRoutes);
      }
      return None;
    }

    method EndTransaction(saved: Database, streamed: Streamed, sent: Sending) returns (result: Result<nat, IngestError>)
      modifies this
      ensures streamed.Failed? ==>
        result == Err(StatementRefused)
        && TableOf(db, StopTimes) == UpsertEach(TableOf(saved, StopTimes), Flatten(sent.strays))
        && forall u :: u != StopTimes ==> TableOf(db, u) == TableOf(saved, u)
      ensures streamed.Counted? ==>
        result == Ok(streamed.inserted) && db == if sent.aborted then saved else old(db)
    {
      if streamed.Failed? {
        db := saved;
        WriteStrays(StopTimes, sent.strays);
        return Err(StatementRefused);
      }
      if sent.aborted {
        db := saved;
      }
      result := Ok(streamed.inserted);
    }

    method WriteStrays(t: TableName, strays: seq<seq<Row>>)
      modifies this
      ensures TableOf(db, t) == UpsertEach(TableOf(old(db), t), Flatten(strays))
      ensures forall u :: u != t ==> TableOf(db, u) == TableOf(old(db), u)
    {
      for i := 0 to |strays|
        invariant TableOf(db, t) == UpsertEach(TableOf(old(db), t), Flatten(strays[..i]))
        invariant forall u :: u != t ==> TableOf(db, u) == TableOf(old(db), u)
      {
        assert strays[..i + 1] == strays[..i] + [strays[i]];
        OneMoreBatch(TableOf(old(db), t), strays[..i], strays[i]);
        var size, aborted := StartBatch(t, strays[i], true, false, false);
      }
      assert strays[..|strays|] == strays;
    }

    method IngestTimetable(files: Files, feedKey: string, r: Replies)
      returns (streamed: Streamed, sent: Sending)
      modifies this
      ensures var times := RowsOf(files, StopTimes, feedKey);
              && streamed == StreamResult(times, r) && sent.strays == Strays(times, r) && sent.aborted == Refuses(times, r)
              && (!sent.aborted ==> TableOf(db, StopTimes) == UpsertEach(TableOf(old(db), StopTimes), times))
      ensures TableOf(db, StopRoutes) == TableOf(old(db), StopRoutes)
      ensures TableOf(db, Stops) == TableOf(old(db), Stops)
      ensures TableOf(db, Routes) == TableOf(old(db), Routes)
      ensures TableOf(db, Trips) == UpsertEach(TableOf(old(db), Trips), RowsOf(files, Trips, feedKey))
      ensures TableOf(db, Calendar) == UpsertEach(TableOf(old(db), Calendar), RowsOf(files, Calendar, feedKey))
      ensures TableOf(db, CalendarDates) == UpsertEach(TableOf(old(db), CalendarDates), RowsOf(files, CalendarDates, feedKey))
    {
      var _ := IngestWhole(Trips, RowsOf(files, Trips, feedKey));
      var _ := IngestWhole(Calendar, RowsOf(files, Calendar, feedKey));
      var _ := IngestWhole(CalendarDates, RowsOf(files, CalendarDates, feedKey));
      streamed, sent := IngestStreamed(StopTimes, RowsOf(files, StopTimes, feedKey), r);
    }
  }

  /** The batches of a file, the sizes of their statements, and the table before and after each. */
  datatype Plan = Plan(batches: seq<seq<Row>>, sizes: seq<nat>, tables: seq<Table>)

  ghost predicate Follows(p: Plan) {
    && |p.sizes| == |p.batches| && |p.tables| == |p.batches| + 1
    && forall k :: 0 <= k < |p.batches| ==>
         p.sizes[k] == |Dedupe(p.batches[k])| && p.tables[k + 1] == UpsertEach(p.tables[k], p.batches[k])
  }

  ghost function PlanOf(table: Table, records: seq<Row>): Plan {
    var batches := Batches(records);
    Plan(batches, Sizes(batches),
         seq(|batches| + 1, n requires 0 <= n <= |batches| => UpsertEach(table, Flatten(batches[..n]))))
  }

  lemma AfterOneMore(table: Table, batches: seq<seq<Row>>, k: nat)
    requires k < |batches|
    ensures UpsertEach(table, Flatten(batches[..k + 1])) == UpsertEach(UpsertEach(table, Flatten(batches[..k])), batches[k])
  {
    assert batches[..k + 1] == batches[..k] + [batches[k]];
    OneMoreBatch(table, batches[..k], batches[k]);
  }

  lemma CountOneMore(batches: seq<seq<Row>>, k: nat)
    requires k < |batches|
    ensures InsertedCount(batches[..k + 1]) == InsertedCount(batches[..k]) + Sizes(batches)[k]
  {
    assert batches[..k + 1] == batches[..k] + [batches[k]];
    OneMoreBatch(map[], batches[..k], batches[k]);
  }

  /** Nothing goes outside the transaction before a refusal. */
  ghost predicate Splits(p: Plan, inside: nat, refused: Option<nat>) {
    var first := FirstRefusal(p.sizes, refused);
    && inside <= |p.batches|
    && (first.Some? ==> first.value < inside)
    && (inside < |p.batches| ==> first.Some?)
  }

  /** `sent` is what starting the first `|sent.sizes|` batches comes to. */
  ghost predicate Sent(p: Plan, inside: nat, refused: Option<nat>, sent: Sending)
    requires Splits(p, inside, refused) && |p.sizes| == |p.batches|
  {
    var n, first := |sent.sizes|, FirstRefusal(p.sizes, refused);
    && n <= |p.batches|
    && sent.sizes == p.sizes[..n]
    && sent.aborted == (first.Some? && first.value < n)
    && sent.strays == if n <= inside then [] else p.batches[inside..n]
  }

  lemma SentOneMore(p: Plan, inside: nat, refused: Option<nat>, before: Sending, after: Sending)
    requires |p.sizes| == |p.batches| && Splits(p, inside, refused) && |before.sizes| < |p.batches|
    requires Sent(p, inside, refused, before)
    requires var k := |before.sizes|;
             && after.sizes == before.sizes + [p.sizes[k]]
             && after.strays == (if k < inside then before.strays else before.strays + [p.batches[k]])
             && after.aborted == (before.aborted || (k < inside && refused == Some(k) && p.sizes[k] > 0))
    ensures Sent(p, inside, refused, after)
  {
    var k := |before.sizes|;
    assert p.sizes[..k + 1] == p.sizes[..k] + [p.sizes[k]];
    if inside <= k {
      assert p.batches[inside..k + 1] == p.batches[inside..k] + [p.batches[k]];
    }
  }

  lemma PlanFollows(table: Table, records: seq<Row>, r: Replies)
    ensures var p := PlanOf(table, records);
            && p.batches == Batches(records) && Follows(p) && Splits(p, Inside(records, r), r.refused)
            && p.tables[0] == table
  {
    var p := PlanOf(table, records);
    forall k | 0 <= k < |p.batches| ensures p.tables[k + 1] == UpsertEach(p.tables[k], p.batches[k]) {
      AfterOneMore(table, p.batches, k);
    }
  }

  lemma AllSent(table: Table, records: seq<Row>, r: Replies, sent: Sending)
    requires var p := PlanOf(table, records);
             && |sent.sizes| == |p.batches| && |p.sizes| == |p.batches|
             && Splits(p, Inside(records, r), r.refused) && Sent(p, Inside(records, r), r.refused, sent)
    ensures sent.sizes == Sizes(Batches(records)) && sent.strays == Strays(records, r)
    ensures sent.aborted == Refuses(records, r)
    ensures PlanOf(table, records).tables[|sent.sizes|] == UpsertEach(table, records)
  {
    BatchesConcat(records);
    assert Batches(records)[..|sent.sizes|] == Batches(records);
  }

  /** `k` batches and the buffer make up the first `i` records. */
  ghost predicate Reading(records: seq<Row>, i: nat, k: nat, buffer: seq<Row>) {
    i <= |records| && |buffer| < BATCH_SIZE && i == k * BATCH_SIZE + |buffer| && buffer == records[k * BATCH_SIZE..i]
  }

  lemma BufferOne(records: seq<Row>, i: nat, k: nat, buffer: seq<Row>)
    requires Reading(records, i, k, buffer) && i < |records|
    ensures var next := buffer + [records[i]];
            if |next| < BATCH_SIZE then Reading(records, i + 1, k, next)
            else k < |Batches(records)| && Batches(records)[k] == next && Reading(records, i + 1, k + 1, [])
  {
    var next := buffer + [records[i]];
    if |next| == BATCH_SIZE {
      assert (k + 1) * BATCH_SIZE == i + 1 <= |records|;
      assert k < |records| / BATCH_SIZE;
      assert FullBatches(records)[k] == next;
    }
  }

  lemma LastBatch(records: seq<Row>, k: nat, buffer: seq<Row>)
    requires Reading(records, |records|, k, buffer)
    ensures k == |FullBatches(records)| && buffer == Rest(records)
    ensures |Batches(records)| == k + (if buffer == [] then 0 else 1)
    ensures buffer != [] ==> Batches(records)[k] == buffer && (Awaited(records) <==> Sizes(Batches(records))[k] > 0)
    ensures buffer == [] ==> !Awaited(records)
  {
    assert |records| / BATCH_SIZE == k;
  }

  ghost predicate Ingested(before: Database, after: Database, files: Files, t: TableName, feedKey: string) {
    TableOf(after, t) == UpsertEach(TableOf(before, t), RowsOf(files, t, feedKey))
  }

  lemma FeedReplaced(saved: Database, deleted: Database, withRoutes: Database, db: Database, feedKey: string, files: Files)
    requires forall t: TableName :: TableOf(deleted, t) == WithoutFeed(TableOf(saved, t), feedKey)
    requires Ingested(deleted, withRoutes, files, Stops, feedKey) && Ingested(deleted, withRoutes, files, Routes, feedKey)
    requires forall t :: t != Stops && t != Routes ==> TableOf(withRoutes, t) == TableOf(deleted, t)
    requires Ingested(withRoutes, db, files, Trips, feedKey) && Ingested(withRoutes, db, files, Calendar, feedKey)
    requires Ingested(withRoutes, db, files, CalendarDates, feedKey) && Ingested(withRoutes, db, files, StopTimes, feedKey)
    requires TableOf(db, StopRoutes) == TableOf(withRoutes, StopRoutes)
    requires TableOf(db, Stops) == TableOf(withRoutes, Stops) && TableOf(db, Routes) == TableOf(withRoutes, Routes)
    ensures forall t: TableName :: TableOf(db, t) == Replaced(TableOf(saved, t), feedKey, RowsOf(files, t, feedKey))
  {
    forall t: TableName ensures TableOf(db, t) == Replaced(TableOf(saved, t), feedKey, RowsOf(files, t, feedKey)) {
      match t
      case StopRoutes =>
      case Stops =>
      case Routes =>
      case _ =>
    }
  }

  lemma NextSlice(table: Table, rows: seq<Row>, i: nat, end: nat)
    requires i <= end <= |rows|
    ensures UpsertEach(table, rows[..end]) == UpsertEach(UpsertEach(table, rows[..i]), rows[i..end])
    ensures KeysDistinct(rows) ==> KeysDistinct(rows[i..end])
  {
    UpsertConcat(table, rows[..i], rows[i..end]);
    assert rows[..i] + rows[i..end] == rows[..end];
  }

  lemma OneMoreBatch(table: Table, batches: seq<seq<Row>>, buffer: seq<Row>)
    ensures Flatten(batches + [buffer]) == Flatten(batches) + buffer
    ensures InsertedCount(batches + [buffer]) == InsertedCount(batches) + |Dedupe(buffer)|
    ensures UpsertEach(table, Flatten(batches + [buffer])) == UpsertEach(UpsertEach(table, Flatten(batches)), buffer)
  {
    assert (batches + [buffer])[..|batches|] == batches;
    UpsertConcat(table, Flatten(batches), buffer);
  }

  lemma NotYetDeleted(i: nat)
    requires i < |DELETE_ORDER|
    ensures DELETE_ORDER[i] !in DELETE_ORDER[..i]
  {
  }

  lemma InDeleteOrder(t: TableName)
    ensures t in DELETE_ORDER
  {
    match t
    case StopRoutes => assert DELETE_ORDER[0] == t;
    case StopTimes => assert DELETE_ORDER[1] == t;
    case CalendarDates => assert DELETE_ORDER[2] == t;
    case Calendar => assert DELETE_ORDER[3] == t;
    case Trips => assert DELETE_ORDER[4] == t;
    case Routes => assert DELETE_ORDER[5] == t;
    case Stops => assert DELETE_ORDER[6] == t;
  }

  lemma {:induction false} LastRowsComeFromFile(rows: seq<Row>, feedKey: string)
    requires forall i :: 0 <= i < |rows| ==> rows[i].feedKey == feedKey
    ensures forall k :: k in LastPerKey(rows).rows ==> LastPerKey(rows).rows[k].feedKey == feedKey
  {
    if rows != [] { LastRowsComeFromFile(rows[..|rows| - 1], feedKey); }
  }

  /** After a replace the feed's rows are exactly its file, last row per key; another feed's row survives unless the file has its key. */
  lemma ReplacedExactly(table: Table, feedKey: string, rows: seq<Row>, k: string)
    requires forall i :: 0 <= i < |rows| ==> rows[i].feedKey == feedKey
    ensures var after := Replaced(table, feedKey, rows);
            var image := LastPerKey(rows).rows;
            && (k in after && after[k].feedKey == feedKey <==> k in image)
            && (k in image ==> after[k] == image[k])
            && (k in table && table[k].feedKey != feedKey ==>
                  k in after && (after[k] == table[k] <==> k !in image))
            && (k in after && after[k].feedKey != feedKey ==> k in table && after[k] == table[k])
  {
    UpsertOverlays(WithoutFeed(table, feedKey), rows);
    LastRowsComeFromFile(rows, feedKey);
  }

  /** Ingesting the same feed again leaves the same rows. */
  lemma ReplaceIsIdempotent(table: Table, feedKey: string, rows: seq<Row>)
    requires forall i :: 0 <= i < |rows| ==> rows[i].feedKey == feedKey
    ensures Replaced(Replaced(table, feedKey, rows), feedKey, rows) == Replaced(table, feedKey, rows)
  {
    var once := Replaced(table, feedKey, rows);
    UpsertOverlays(WithoutFeed(table, feedKey), rows);
    UpsertOverlays(WithoutFeed(once, feedKey), rows);
    LastRowsComeFromFile(rows, feedKey);
  }
}
