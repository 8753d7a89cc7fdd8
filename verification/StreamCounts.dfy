/**
 * What the count reported for a streamed file is worth: the statements of its full batches are not awaited, and a key in
 * two batches is counted twice.
 */
module StreamCounts {
  import opened Basics
  import opened Wrappers
  import opened GtfsIngest

  // ----- keys and batches -----

  predicate HasKey(batch: seq<Row>, k: string) { k in LastPerKey(batch).rows }

  ghost predicate SomeHasKey(batches: seq<seq<Row>>, k: string) {
    exists i :: 0 <= i < |batches| && HasKey(batches[i], k)
  }

  ghost predicate NoKeySpansBatches(batches: seq<seq<Row>>) {
    forall i, j, k :: 0 <= i < j < |batches| && HasKey(batches[i], k) ==> !HasKey(batches[j], k)
  }

  lemma {:induction false} KeyCount(rows: seq<Row>)
    ensures |Dedupe(rows)| == |LastPerKey(rows).rows.Keys|
  {
    LastPerKeyFacts(rows);
    DistinctLength(LastPerKey(rows).keys, LastPerKey(rows).rows.Keys);
  }

  lemma {:induction false} DistinctLength(keys: seq<string>, s: set<string>)
    requires forall i, j :: 0 <= i < j < |keys| ==> keys[i] != keys[j]
    requires forall k :: k in s <==> k in keys
    ensures |keys| == |s|
    decreases |keys|
  {
    if keys == [] {
      assert s == {};
    } else {
      var last := keys[|keys| - 1];
      var before := keys[..|keys| - 1];
      assert keys == before + [last];
      assert last in s && last !in before;
      DistinctLength(before, s - {last});
    }
  }

  lemma OverlayCount(a: set<string>, b: set<string>)
    ensures |a + b| + |a * b| == |a| + |b|
    ensures |a * b| == 0 <==> a !! b
  {
    assert a !! b <==> a * b == {};
    assert a + b == a + (b - a);
    assert |a + (b - a)| == |a| + |b - a|;
    assert b == (b - a) + (a * b);
    assert |(b - a) + (a * b)| == |b - a| + |a * b|;
  }

  ghost function KeysOf(batches: seq<seq<Row>>): set<string> { LastPerKey(Flatten(batches)).rows.Keys }

  /** The last batch repeats no key of the batches before it. */
  ghost predicate FreshTo(before: seq<seq<Row>>, last: seq<Row>) {
    KeysOf(before) !! LastPerKey(last).rows.Keys
  }

  ghost predicate EachFresh(batches: seq<seq<Row>>) {
    batches == [] || (EachFresh(batches[..|batches| - 1]) && FreshTo(batches[..|batches| - 1], batches[|batches| - 1]))
  }

  lemma {:induction false} EachFreshIffApart(batches: seq<seq<Row>>)
    ensures EachFresh(batches) <==> NoKeySpansBatches(batches)
  {
    if batches != [] {
      var before, last := batches[..|batches| - 1], batches[|batches| - 1];
      EachFreshIffApart(before);
      DisjointKeys(before, last);
      assert batches == before + [last];
      SpansSplit(before, last);
    }
  }

  ghost predicate NewKeysOnly(before: seq<seq<Row>>, last: seq<Row>) {
    forall i, k :: 0 <= i < |before| && HasKey(before[i], k) ==> !HasKey(last, k)
  }

  lemma DisjointKeys(before: seq<seq<Row>>, last: seq<Row>)
    ensures FreshTo(before, last) <==> NewKeysOnly(before, last)
  {
    forall k ensures k in LastPerKey(Flatten(before)).rows.Keys <==> SomeHasKey(before, k) {
      KeyFromSomeBatch(before, k);
    }
    if NewKeysOnly(before, last) {
      forall k | SomeHasKey(before, k) ensures !HasKey(last, k) {
        var i :| 0 <= i < |before| && HasKey(before[i], k);
      }
    } else {
      var i, k :| 0 <= i < |before| && HasKey(before[i], k) && HasKey(last, k);
      assert SomeHasKey(before, k);
      assert k in LastPerKey(Flatten(before)).rows.Keys && k in LastPerKey(last).rows.Keys;
    }
  }

  lemma SpansSplit(before: seq<seq<Row>>, last: seq<Row>)
    ensures NoKeySpansBatches(before + [last]) <==> NoKeySpansBatches(before) && NewKeysOnly(before, last)
  {
    var batches := before + [last];
    assert forall i :: 0 <= i < |before| ==> batches[i] == before[i];
    assert batches[|before|] == last;
    if NoKeySpansBatches(batches) {
      forall i, j, k | 0 <= i < j < |before| && HasKey(before[i], k) ensures !HasKey(before[j], k) {
        assert HasKey(batches[i], k) && batches[j] == before[j];
      }
      forall i, k | 0 <= i < |before| && HasKey(before[i], k) ensures !HasKey(last, k) {
        assert HasKey(batches[i], k);
      }
    }
  }

  lemma OverlayOfConcat(a: seq<Row>, b: seq<Row>)
    ensures LastPerKey(a + b).rows == LastPerKey(a).rows + LastPerKey(b).rows
  {
    EmptyOverlay(a);
    EmptyOverlay(a + b);
    UpsertConcat(map[], a, b);
    UpsertOverlays(LastPerKey(a).rows, b);
  }

  lemma EmptyOverlay(rows: seq<Row>)
    ensures UpsertEach(map[], rows) == LastPerKey(rows).rows
  {
    UpsertOverlays(map[], rows);
    assert map[] + LastPerKey(rows).rows == LastPerKey(rows).rows;
  }

  lemma {:induction false} KeyFromSomeBatch(batches: seq<seq<Row>>, k: string)
    ensures HasKey(Flatten(batches), k) <==> SomeHasKey(batches, k)
  {
    if batches != [] {
      var before := batches[..|batches| - 1];
      KeyFromSomeBatch(before, k);
      OverlayOfConcat(Flatten(before), batches[|batches| - 1]);
      if SomeHasKey(before, k) {
        var i :| 0 <= i < |before| && HasKey(before[i], k);
        assert HasKey(batches[i], k);
      }
      if SomeHasKey(batches, k) {
        var i :| 0 <= i < |batches| && HasKey(batches[i], k);
        assert i < |before| ==> HasKey(before[i], k);
      }
    }
  }

  // ----- the exact count -----

  /** The number of distinct keys of a file. */
  function Distinct(records: seq<Row>): nat { |LastPerKey(records).rows.Keys| }

  /** How often a batch holds a key that an earlier batch holds already. */
  ghost function Repeats(batches: seq<seq<Row>>): nat {
    if batches == [] then 0
    else
      var before, last := batches[..|batches| - 1], batches[|batches| - 1];
      Repeats(before) + |KeysOf(before) * LastPerKey(last).rows.Keys|
  }

  lemma {:induction false} CountsBalance(batches: seq<seq<Row>>)
    ensures InsertedCount(batches) == |KeysOf(batches)| + Repeats(batches)
  {
    if batches != [] {
      var before, last := batches[..|batches| - 1], batches[|batches| - 1];
      CountsBalance(before);
      KeyCount(last);
      OverlayOfConcat(Flatten(before), last);
      assert KeysOf(batches) == KeysOf(before) + LastPerKey(last).rows.Keys;
      OverlayCount(KeysOf(before), LastPerKey(last).rows.Keys);
    }
  }

  lemma {:induction false} NoRepeatsIff(batches: seq<seq<Row>>)
    ensures Repeats(batches) == 0 <==> EachFresh(batches)
  {
    if batches != [] {
      var before, last := batches[..|batches| - 1], batches[|batches| - 1];
      NoRepeatsIff(before);
      OverlayCount(KeysOf(before), LastPerKey(last).rows.Keys);
    }
  }

  lemma {:induction false} CountSplit(batches: seq<seq<Row>>, n: nat)
    requires n <= |batches|
    ensures InsertedCount(batches) == InsertedCount(batches[..n]) + InsertedCount(batches[n..])
    decreases |batches|
  {
    if n == |batches| {
      assert batches[..n] == batches;
    } else {
      var before := batches[..|batches| - 1];
      CountSplit(before, n);
      assert before[..n] == batches[..n];
      assert batches[n..][..|batches[n..]| - 1] == before[n..];
    }
  }

  ghost predicate NoStatements(batches: seq<seq<Row>>) {
    forall i :: 0 <= i < |batches| ==> Dedupe(batches[i]) == []
  }

  lemma {:induction false} NoneIff(batches: seq<seq<Row>>)
    ensures InsertedCount(batches) == 0 <==> NoStatements(batches)
  {
    if batches != [] {
      var n := |batches| - 1;
      NoneIff(batches[..n]);
      if NoStatements(batches[..n]) && Dedupe(batches[n]) == [] {
        forall i | 0 <= i < |batches| ensures Dedupe(batches[i]) == [] {
          assert i < n ==> batches[..n][i] == batches[i];
        }
      }
    }
  }

  /** The rows of statements still unanswered when the file counts as read. */
  function Unsettled(records: seq<Row>, r: Replies): nat { InsertedCount(Batches(records)[Settled(records, r)..]) }

  /**
   * The exact count. What is reported falls short of the distinct keys by the rows still unanswered and exceeds
   * them by the keys that batches repeat, so it is right exactly when the two are equal.
   */
  lemma ReportedCountIff(records: seq<Row>, r: Replies)
    requires StreamResult(records, r).Counted?
    ensures var reported := StreamResult(records, r).inserted;
            && reported + Unsettled(records, r) == Distinct(records) + Repeats(Batches(records))
            && (reported == Distinct(records) <==> Unsettled(records, r) == Repeats(Batches(records)))
    ensures Unsettled(records, r) == 0 <==> NoStatements(Batches(records)[Settled(records, r)..])
    ensures Repeats(Batches(records)) == 0 <==> NoKeySpansBatches(Batches(records))
  {
    var batches := Batches(records);
    BatchesConcat(records);
    CountsBalance(batches);
    CountSplit(batches, Settled(records, r));
    NoneIff(batches[Settled(records, r)..]);
    NoRepeatsIff(batches);
    EachFreshIffApart(batches);
  }

  /** The count is right when so many statements have been answered at the end of the file and none is refused. */
  ghost predicate RightAfter(records: seq<Row>, answered: nat) {
    StreamResult(records, Replies(answered, None, 0)) == Counted(Distinct(records))
  }

  lemma RightWhenAllAnswered(records: seq<Row>)
    ensures RightAfter(records, |Batches(records)|) <==> NoKeySpansBatches(Batches(records))
    ensures Awaited(records) ==> forall n: nat :: RightAfter(records, n) <==> NoKeySpansBatches(Batches(records))
  {
    var all := Replies(|Batches(records)|, None, 0);
    ReportedCountIff(records, all);
    assert Unsettled(records, all) == 0;
    forall n: nat | Awaited(records) ensures RightAfter(records, n) <==> RightAfter(records, |Batches(records)|) {
    }
  }

  /**
   * The count can be relied on, however the answers are timed, exactly when no key is in two batches and the last,
   * partial batch sends a statement, whose answer is awaited (or no row of the file has a key at all).
   */
  lemma AlwaysRightIff(records: seq<Row>)
    ensures (forall n: nat :: RightAfter(records, n))
            <==> NoKeySpansBatches(Batches(records)) && (Awaited(records) || Distinct(records) == 0)
  {
    RightWhenAllAnswered(records);
    if !Awaited(records) {
      assert Settled(records, Replies(0, None, 0)) == 0;
      assert RightAfter(records, 0) <==> Distinct(records) == 0;
      if Distinct(records) == 0 && NoKeySpansBatches(Batches(records)) {
        forall n: nat ensures RightAfter(records, n) {
          ReportedCountIff(records, Replies(n, None, 0));
        }
      }
    }
  }

  /** When every row has a key, as every stop time has, the end of the file waits unless it falls on a full batch. */
  lemma AwaitedIff(records: seq<Row>)
    requires forall i :: 0 <= i < |records| ==> records[i].key != ""
    ensures Awaited(records) <==> |records| % BATCH_SIZE != 0
  {
    var rest := Rest(records);
    assert |rest| == |records| % BATCH_SIZE;
    if rest != [] {
      var last := rest[|rest| - 1];
      assert last == records[|records| - 1];
      assert last.key in LastPerKey(rest).rows;
      assert last.key in LastPerKey(rest).keys;
    }
  }

  // ----- a file of exactly one batch -----

  lemma {:induction false} KeysAreNamed(rows: seq<Row>)
    ensures forall k :: k in LastPerKey(rows).rows ==> Names(rows, k)
  {
    if rows != [] {
      var before := rows[..|rows| - 1];
      KeysAreNamed(before);
      forall k | k in LastPerKey(rows).rows ensures Names(rows, k) {
        NamesSplit(rows, k);
      }
    }
  }

  lemma {:induction false} DistinctWhenApart(records: seq<Row>)
    requires KeysDistinct(records) && forall i :: 0 <= i < |records| ==> records[i].key != ""
    ensures Distinct(records) == |records|
  {
    if records != [] {
      var before, last := records[..|records| - 1], records[|records| - 1];
      DistinctWhenApart(before);
      KeysAreNamed(before);
      assert last.key !in LastPerKey(before).rows;
      assert LastPerKey(records).rows.Keys == LastPerKey(before).rows.Keys + {last.key};
    }
  }

  function OneBatch(): seq<Row> {
    seq(BATCH_SIZE, (i: nat) => Row(seq(i + 1, _ => 'k'), "feed", ""))
  }

  lemma OneBatchKeys()
    ensures KeysDistinct(OneBatch()) && forall i :: 0 <= i < |OneBatch()| ==> OneBatch()[i].key != ""
  {
    var records := OneBatch();
    forall i, j | 0 <= i < j < |records| ensures records[i].key != records[j].key {
      assert |records[i].key| == i + 1 && |records[j].key| == j + 1;
    }
    forall i | 0 <= i < |records| ensures records[i].key != "" {
      assert |records[i].key| == i + 1;
    }
  }

  /** 500 records with 500 keys: nothing is awaited, and the reported count is 0 until the one statement is answered. */
  lemma OneBatchReportsNothing()
    ensures Distinct(OneBatch()) == BATCH_SIZE && NoKeySpansBatches(Batches(OneBatch()))
    ensures StreamResult(OneBatch(), Replies(0, None, 0)) == Counted(0)
    ensures StreamResult(OneBatch(), Replies(1, None, 0)) == Counted(BATCH_SIZE)
  {
    var records := OneBatch();
    OneBatchKeys();
    DistinctWhenApart(records);
    assert Rest(records) == [];
    assert |Batches(records)| == 1;
    RightWhenAllAnswered(records);
  }

  // ----- a refusal nobody waits for -----

  /**
   * A refused statement ends the ingest with an error exactly when its answer comes before the file counts as read;
   * otherwise a count is reported although the transaction is undone. That cannot happen when the last batch is awaited.
   */
  lemma RefusalMissedIff(records: seq<Row>, r: Replies)
    requires Refuses(records, r)
    ensures StreamResult(records, r).Counted? <==> !Awaited(records) && r.answered <= r.refused.value
  {
  }
}
