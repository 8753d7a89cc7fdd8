/**
 * Which rows are retried and where a retry stops, what a verification answers, and which events a purge takes, in figures.
 */
module ArchiveOrder {
  import opened Wrappers
  import opened JsonValues
  import opened AuditArchive
  import opened ArchivePurge
  import Canonical = CanonicalJson
  import Sorting

  /** `few` are the first of `all`, at most `limit`: nothing left out comes strictly before one of them. */
  ghost predicate FirstFew<T(!new)>(all: seq<T>, limit: nat, le: (T, T) -> bool, few: seq<T>) {
    && |few| == (if |all| > limit then limit else |all|)
    && (forall x :: x in few ==> x in all)
    && (forall i, j :: 0 <= i < j < |few| ==> le(few[i], few[j]))
    && (forall x :: x in all && x !in few ==> |few| == limit && forall y :: y in few ==> le(y, x))
  }

  lemma SortedFirst<T(!new)>(all: seq<T>, limit: nat, le: (T, T) -> bool)
    requires Sorting.TotalOrder(le)
    ensures var sorted := Sorting.Sort(all, le);
            FirstFew(all, limit, le, if |sorted| > limit then sorted[..limit] else sorted)
  {
    var sorted := Sorting.Sort(all, le);
    var few := if |sorted| > limit then sorted[..limit] else sorted;
    Sorting.SortSorts(all, le);
    Sorting.SortKeepsElements(all, le);
    forall x ensures x in sorted <==> x in all {
      Sorting.SameMembers(sorted, all, x);
    }
    forall x, y | x in all && x !in few && y in few ensures |few| == limit && le(y, x) {
      var i :| 0 <= i < |sorted| && sorted[i] == x;
      var j :| 0 <= j < |few| && few[j] == y;
      assert i >= |few| && sorted[j] == y;
    }
    if x :| x in all && x !in few && few == [] {
      var i :| 0 <= i < |sorted| && sorted[i] == x;
    }
  }

  // ----- the hourly retry -----

  lemma {:induction false} FailedMembers(rows: seq<Row>)
    ensures forall row :: row in FailedRows(rows) <==> row in rows && row.status == Failed
  {
    if rows != [] {
      FailedMembers(rows[..|rows| - 1]);
      assert rows == rows[..|rows| - 1] + [rows[|rows| - 1]];
    }
  }

  /** A retry takes up to three failed rows, in the order of their windows, and leaves out none that starts before one of them. */
  lemma RetryTakes(rows: seq<Row>)
    ensures var todo := ToRetry(rows);
            && |todo| <= 3
            && (forall row :: row in todo ==> row in rows && row.status == Failed)
            && (forall i, j :: 0 <= i < j < |todo| ==> todo[i].windowStart <= todo[j].windowStart)
            && (forall row :: row in rows && row.status == Failed && row !in todo ==>
                  |todo| == 3 && forall one :: one in todo ==> one.windowStart <= row.windowStart)
  {
    FailedMembers(rows);
    SortedFirst(FailedRows(rows), 3, ByStart);
    var todo := ToRetry(rows);
    forall i, j | 0 <= i < j < |todo| ensures todo[i].windowStart <= todo[j].windowStart {
      assert ByStart(todo[i], todo[j]);
    }
    forall row, one | row in rows && row.status == Failed && row !in todo && one in todo
      ensures one.windowStart <= row.windowStart {
      assert ByStart(one, row);
    }
  }

  /** The state and the answer after `n` archivings, one after the other. */
  function After(env: Env, s: State, todo: seq<Row>, calls: seq<Call>, n: nat): (State, bool)
    requires n <= |todo| <= |calls|
    decreases n
  {
    if n == 0 then (s, true)
    else
      var r := Archive(env, s, todo[0].windowStart, todo[0].windowEnd, calls[0]);
      if n == 1 then r else After(env, r.0, todo[1..], calls[1..], n - 1)
  }

  /** Every archiving before the `n`-th succeeded, and fewer than all are made only when that one failed. */
  ghost predicate StopsAt(env: Env, s: State, todo: seq<Row>, calls: seq<Call>, n: nat)
    requires |todo| <= |calls|
  {
    && n <= |todo|
    && (forall i :: 0 <= i < n ==> After(env, s, todo, calls, i).1)
    && (n < |todo| ==> !After(env, s, todo, calls, n).1)
  }

  lemma OneMore(env: Env, s: State, first: State, todo: seq<Row>, calls: seq<Call>, m: nat)
    requires todo != [] && |todo| <= |calls|
    requires (first, true) == Archive(env, s, todo[0].windowStart, todo[0].windowEnd, calls[0])
    requires StopsAt(env, first, todo[1..], calls[1..], m)
    ensures StopsAt(env, s, todo, calls, m + 1)
    ensures After(env, s, todo, calls, m + 1).0 == After(env, first, todo[1..], calls[1..], m).0
  {
    assert After(env, s, todo, calls, 1) == (first, true);
    forall i | 0 <= i < m + 1 ensures After(env, s, todo, calls, i).1 {
      if i > 1 { assert After(env, first, todo[1..], calls[1..], i - 1).1; }
    }
  }

  /** A retry archives one row after the other until one archiving fails. */
  lemma {:induction false} RetryStops(env: Env, s: State, todo: seq<Row>, calls: seq<Call>) returns (n: nat)
    requires |todo| <= |calls|
    ensures StopsAt(env, s, todo, calls, n) && RetryAll(env, s, todo, calls) == After(env, s, todo, calls, n).0
    decreases |todo|
  {
    if todo == [] {
      n := 0;
    } else {
      var r := Archive(env, s, todo[0].windowStart, todo[0].windowEnd, calls[0]);
      if r.1 {
        var m := RetryStops(env, r.0, todo[1..], calls[1..]);
        OneMore(env, s, r.0, todo, calls, m);
        n := m + 1;
      } else {
        n := 1;
        FirstAlone(env, s, todo, calls);
      }
    }
  }

  lemma FirstAlone(env: Env, s: State, todo: seq<Row>, calls: seq<Call>)
    requires todo != [] && |todo| <= |calls|
    ensures After(env, s, todo, calls, 0) == (s, true)
    ensures After(env, s, todo, calls, 1) == Archive(env, s, todo[0].windowStart, todo[0].windowEnd, calls[0])
  {
    assert After(env, s, todo, calls, 0) == (s, true);
  }

  // ----- verification -----

  /** `u` is the manifest without its signature entries. */
  ghost predicate SignaturePulled(m: Value, signature: string, u: Value) {
    && m.Obj? && Field("signature", Str(signature)) in m.fields
    && u.Obj? && forall f :: f in u.fields <==> f in m.fields && f.key != "signature"
  }

  /** The two bodies have the row's checksums. */
  predicate BodiesMatch(env: Env, s: State, row: Row)
    requires row.dataKey in s.objects && row.manifestKey in s.objects
  {
    row.seal.Some? && env.sha256(s.objects[row.dataKey].body) == row.seal.value.checksum
    && env.sha256(s.objects[row.manifestKey].body) == row.seal.value.manifestChecksum
  }

  predicate BothLocked(s: State, row: Row, now: int)
    requires row.dataKey in s.objects && row.manifestKey in s.objects
  {
    s.objects[row.dataKey].lockedUntil > now && s.objects[row.manifestKey].lockedUntil > now
  }

  lemma {:induction false} WithoutIs(fields: seq<Field>, key: string)
    ensures forall f :: f in Canonical.Without(fields, key) <==> f in fields && f.key != key
  {
    if fields != [] {
      WithoutIs(fields[1..], key);
      assert fields == [fields[0]] + fields[1..];
    }
  }

  lemma PulledIs(m: Value)
    requires SignatureOf(m).Some?
    ensures SignaturePulled(m, SignatureOf(m).value, Unsigned(m))
  {
    WithoutIs(m.fields, "signature");
    var i := Canonical.At(m.fields, "signature");
    assert m.fields[i] == Field("signature", Str(SignatureOf(m).value));
  }

  /** Checking a row: a missing object, an unreadable manifest, a body that changed, a missing or a wrong signature, a lock. */
  lemma CheckSays(env: Env, s: State, row: Row, now: int)
    ensures var r := Check(env, s, row, now);
            if row.dataKey !in s.objects || row.manifestKey !in s.objects then r == Err(StoreError)
            else
              var parsed := env.parse(s.objects[row.manifestKey].body);
              if parsed.None? || parsed == Some(Null) then r == Err(NotJson)
              else if !BodiesMatch(env, s, row) then r == Ok(false)
              else
                && (r == Err(BadSignature) || r.Ok?)
                && (r == Ok(true) ==>
                      BothLocked(s, row, now)
                      && exists u, signature :: SignaturePulled(parsed.value, signature, u)
                           && env.fromHex(signature) == env.fromHex(env.hmac(CanonicalText(env, u))))
                && (r == Err(BadSignature) <==> SignatureOf(parsed.value).None?)
                && (r == Ok(false) && BothLocked(s, row, now) ==>
                      exists u, signature :: SignaturePulled(parsed.value, signature, u)
                        && env.fromHex(signature) != env.fromHex(env.hmac(CanonicalText(env, u))))
  {
    if row.dataKey in s.objects && row.manifestKey in s.objects {
      var parsed := env.parse(s.objects[row.manifestKey].body);
      if parsed.Some? && SignatureOf(parsed.value).Some? { PulledIs(parsed.value); }
    }
  }

  /** A verification answers for the first row with that id, and marks it verified now exactly when the check says yes. */
  lemma VerifySays(env: Env, s: State, id: string, now: int)
    ensures var (after, r) := Verification(env, s, id, now);
            if forall row :: row in s.rows ==> row.id != id then r == Err(NotFound) && after == s
            else
              exists k :: 0 <= k < |s.rows| && s.rows[k].id == id && (forall j :: 0 <= j < k ==> s.rows[j].id != id)
                && r == Check(env, s, s.rows[k], now)
                && after == if r != Ok(true) then s
                            else s.(rows := s.rows[k := s.rows[k].(status := Verified, verifiedAt := Some(now))])
  {
    var k := RowById(s.rows, id);
    FirstById(s.rows, id);
    if k < |s.rows| { assert s.rows[k] in s.rows; }
  }

  lemma {:induction false} FirstById(rows: seq<Row>, id: string)
    ensures forall j :: 0 <= j < RowById(rows, id) ==> rows[j].id != id
  {
    if rows != [] && rows[0].id != id { FirstById(rows[1..], id); }
  }

  // ----- the purge -----

  /** An event may go when it is old enough and a verified archive, within its seven years, covers its time. */
  predicate MayGo(s: State, e: Event, now: int, cutoff: int) {
    e.occurredAt < cutoff && exists row :: row in s.rows && Vouches(row, e, now)
  }

  predicate Vouches(row: Row, e: Event, now: int) {
    row.status == Verified && row.verifiedAt.Some? && row.windowEnd + 220_903_200_000 > now
    && row.windowStart <= e.occurredAt < row.windowEnd
  }

  lemma MayGoIff(s: State, e: Event, now: int, cutoff: int)
    ensures Purgeable(s, e, now, cutoff) <==> MayGo(s, e, now, cutoff)
  {
    if k :| 0 <= k < |s.rows| && Covers(s.rows[k], e, now) {
      assert s.rows[k] in s.rows && Vouches(s.rows[k], e, now);
    }
    if row :| row in s.rows && Vouches(row, e, now) {
      var k :| 0 <= k < |s.rows| && s.rows[k] == row;
      assert Covers(s.rows[k], e, now);
    }
  }

  /** `kept` are the events of `events` outside `gone`, in their order. */
  predicate Drops(events: seq<Event>, gone: seq<Event>, kept: seq<Event>) {
    if events == [] then kept == []
    else
      var last := events[|events| - 1];
      if last in gone then Drops(events[..|events| - 1], gone, kept)
      else kept != [] && kept[|kept| - 1] == last && Drops(events[..|events| - 1], gone, kept[..|kept| - 1])
  }

  lemma {:induction false} LessDrops(events: seq<Event>, gone: seq<Event>)
    ensures Drops(events, gone, Less(events, gone))
  {
    if events != [] {
      LessDrops(events[..|events| - 1], gone);
      var before := Less(events[..|events| - 1], gone);
      assert before + [] == before && (before + [events[|events| - 1]])[..|before|] == before;
    }
  }

  predicate Earlier(a: Event, b: Event) {
    a.occurredAt < b.occurredAt || (a.occurredAt == b.occurredAt && a.sequence <= b.sequence)
  }

  /**
   * A purge takes the oldest of the events that may go, ten thousand at most, and nothing else: rows, objects and the order
   * of the other events stay.
   */
  lemma PurgeTakes(s: State, now: int, cutoff: int) returns (gone: seq<Event>)
    ensures Purge(s, now, cutoff).rows == s.rows && Purge(s, now, cutoff).objects == s.objects
    ensures Drops(s.events, gone, Purge(s, now, cutoff).events)
    ensures |gone| <= 10_000 && forall e :: e in gone ==> e in s.events && MayGo(s, e, now, cutoff)
    ensures forall e :: e in s.events && e !in gone && MayGo(s, e, now, cutoff) ==>
              |gone| == 10_000 && forall g :: g in gone ==> Earlier(g, e)
  {
    var all := AllPurgeable(s, s.events, now, cutoff);
    gone := Purged(s, now, cutoff);
    PurgeableMembers(s, s.events, now, cutoff);
    SortedFirst(all, 10_000, OldestFirst);
    LessDrops(s.events, gone);
    forall e ensures Purgeable(s, e, now, cutoff) <==> MayGo(s, e, now, cutoff) {
      MayGoIff(s, e, now, cutoff);
    }
    forall e, g | e in s.events && e !in gone && MayGo(s, e, now, cutoff) && g in gone ensures Earlier(g, e) {
      assert OldestFirst(g, e);
    }
  }
}
