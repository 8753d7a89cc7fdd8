/**
 * The archive of audit events: sealed day windows chained by manifest checksum, their verification, and the
 * purge of events the archive already holds. A call to the table or the object store may be refused, or take
 * effect and still report failure.
 */
module AuditArchive {
  import opened Wrappers
  import opened JsonValues
  import Canonical = CanonicalJson
  import Sorting

  /** Seven years of 365.25 days, in milliseconds. */
  const RETENTION := 220_903_200_000
  const RETRY_LIMIT := 3
  const PURGE_LIMIT := 10_000

  /** What the platform supplies; the secret is inside `hmac`, and `gunzip` is what a reader of an archive applies. */
  datatype Env = Env(
    keyOrder: Canonical.KeyOrder,
    stringify: Value -> string,
    parse: string -> Option<Value>,
    gzip: string -> string,
    gunzip: string -> string,
    sha256: string -> string,
    hmac: string -> string,
    fromHex: string -> string,
    iso: int -> IsoText)

  datatype Event = Event(occurredAt: int, sequence: int, content: Value)

  datatype Status = Pending | Failed | Verified

  /** The columns one successful archiving writes together. */
  datatype Seal = Seal(
    rowCount: nat, firstSequence: Option<int>, lastSequence: Option<int>,
    checksum: string, manifestChecksum: string, previous: Option<string>, signature: string)

  datatype Row = Row(
    id: string, windowStart: int, windowEnd: int, dataKey: string, manifestKey: string,
    seal: Option<Seal>, status: Status, attempts: nat, verifiedAt: Option<int>)

  datatype Stored = Stored(body: string, lockedUntil: int)

  datatype State = State(rows: seq<Row>, objects: map<string, Stored>, events: seq<Event>)

  datatype Reply = Done | Refused | LostAck

  /** How each call inside one archiving goes; `true` is success. */
  datatype Trouble = Trouble(
    find: bool, insert: Reply, read: bool, putData: Reply, putManifest: Reply, readBack: bool, update: Reply,
    markFailed: Reply)

  /** The surroundings of one archiving: a fresh id, the clock, and the troubles met. */
  datatype Call = Call(id: string, now: int, trouble: Trouble)

  // ----- what is written -----

  function CanonicalText(env: Env, v: Value): string { env.stringify(Canonical.Canonicalize(v, env.keyOrder)) }

  function Sign(env: Env, v: Value): string { env.hmac(CanonicalText(env, v)) }

  function Lines(env: Env, events: seq<Event>): string {
    if events == [] then "" else CanonicalText(env, events[0].content) + "\n" + Lines(env, events[1..])
  }

  function DataOf(env: Env, events: seq<Event>): string { env.gzip(Lines(env, events)) }

  predicate InWindow(e: Event, windowStart: int, windowEnd: int) { windowStart <= e.occurredAt < windowEnd }

  function Within(events: seq<Event>, windowStart: int, windowEnd: int): seq<Event> {
    if events == [] then []
    else
      Within(events[..|events| - 1], windowStart, windowEnd)
      + (if InWindow(events[|events| - 1], windowStart, windowEnd) then [events[|events| - 1]] else [])
  }

  function BySequence(a: Event, b: Event): bool { a.sequence <= b.sequence }

  function Selected(events: seq<Event>, windowStart: int, windowEnd: int): seq<Event> {
    Sorting.Sort(Within(events, windowStart, windowEnd), BySequence)
  }

  /** The row with the latest window end before `end`. */
  function LatestBefore(rows: seq<Row>, end: int): (r: Option<Row>)
    ensures r.Some? ==> r.value in rows && r.value.windowEnd < end
    ensures forall x :: x in rows && x.windowEnd < end ==> r.Some? && x.windowEnd <= r.value.windowEnd
  {
    if rows == [] then None
    else
      var before := LatestBefore(rows[..|rows| - 1], end);
      var last := rows[|rows| - 1];
      assert forall x :: x in rows ==> x in rows[..|rows| - 1] || x == last;
      if last.windowEnd < end && (before.None? || before.value.windowEnd < last.windowEnd) then Some(last) else before
  }

  function FirstSequence(events: seq<Event>): Option<int> { if events == [] then None else Some(events[0].sequence) }

  function LastSequence(events: seq<Event>): Option<int> {
    if events == [] then None else Some(events[|events| - 1].sequence)
  }

  function OrNull(n: Option<int>): Value { if n.Some? then Num(n.value) else Null }

  function TextOrNull(t: Option<string>): Value { if t.Some? then Str(t.value) else Null }

  function UnsignedFields(env: Env, row: Row, events: seq<Event>, previous: Option<string>, now: int): seq<Field> {
    [ Field("version", Num(1)),
      Field("archiveId", Str(row.id)),
      Field("windowStart", Str(env.iso(row.windowStart))),
      Field("windowEnd", Str(env.iso(row.windowEnd))),
      Field("firstSequence", OrNull(FirstSequence(events))),
      Field("lastSequence", OrNull(LastSequence(events))),
      Field("rowCount", Num(|events|)),
      Field("dataChecksumSha256", Str(env.sha256(DataOf(env, events)))),
      Field("previousManifestChecksum", TextOrNull(previous)),
      Field("retentionUntil", Str(env.iso(row.windowEnd + RETENTION))),
      Field("createdAt", Str(env.iso(now))) ]
  }

  function Manifest(env: Env, fields: seq<Field>): Value {
    Obj(fields + [Field("signature", Str(Sign(env, Obj(fields))))])
  }

  function ManifestText(env: Env, fields: seq<Field>): string { CanonicalText(env, Manifest(env, fields)) }

  function PreviousChecksum(rows: seq<Row>, end: int): Option<string> {
    var p := LatestBefore(rows, end);
    if p.Some? && p.value.seal.Some? then Some(p.value.seal.value.manifestChecksum) else None
  }

  function SealFor(env: Env, row: Row, events: seq<Event>, previous: Option<string>, now: int): Seal {
    var fields := UnsignedFields(env, row, events, previous, now);
    Seal(|events|, FirstSequence(events), LastSequence(events), env.sha256(DataOf(env, events)),
         env.sha256(ManifestText(env, fields)), previous, Sign(env, Obj(fields)))
  }

  function Day(env: Env, time: int): string { if |env.iso(time)| > 10 then env.iso(time)[..10] else env.iso(time) }

  function KeyStem(env: Env, windowStart: int, id: string): string {
    "audit/archive/" + Day(env, windowStart) + "/" + id
  }

  function DataKey(env: Env, windowStart: int, id: string): string { KeyStem(env, windowStart, id) + ".jsonl.gz" }

  function ManifestKey(env: Env, windowStart: int, id: string): string {
    KeyStem(env, windowStart, id) + ".manifest.json"
  }

  // ----- archiving one window -----

  function RowOf(rows: seq<Row>, windowStart: int, windowEnd: int): (k: nat)
    ensures k <= |rows|
    ensures k < |rows| ==> rows[k].windowStart == windowStart && rows[k].windowEnd == windowEnd
    ensures k == |rows| ==>
      forall j :: 0 <= j < |rows| ==> rows[j].windowStart != windowStart || rows[j].windowEnd != windowEnd
  {
    if rows == [] then 0
    else if rows[0].windowStart == windowStart && rows[0].windowEnd == windowEnd then 0
    else 1 + RowOf(rows[1..], windowStart, windowEnd)
  }

  function Written(objects: map<string, Stored>, key: string, o: Stored, reply: Reply): map<string, Stored> {
    if reply == Refused then objects else objects[key := o]
  }

  predicate ReadsBack(env: Env, objects: map<string, Stored>, key: string, checksum: string, now: int) {
    key in objects && env.sha256(objects[key].body) == checksum && objects[key].lockedUntil > now
  }

  function Sealed(row: Row, seal: Seal, now: int): Row {
    row.(seal := Some(seal), status := Verified, verifiedAt := Some(now))
  }

  /** The body of the `try`: the state it leaves and whether it got through. */
  function Attempt(env: Env, s: State, k: nat, now: int, t: Trouble): (State, bool)
    requires k < |s.rows|
  {
    var row := s.rows[k];
    var events := Selected(s.events, row.windowStart, row.windowEnd);
    var previous := PreviousChecksum(s.rows, row.windowEnd);
    var fields := UnsignedFields(env, row, events, previous, now);
    var seal := SealFor(env, row, events, previous, now);
    var until := row.windowEnd + RETENTION;
    if !t.read then (s, false)
    else
      var s1 := s.(objects := Written(s.objects, row.dataKey, Stored(DataOf(env, events), until), t.putData));
      if t.putData != Done then (s1, false)
      else
        var s2 := s1.(objects :=
          Written(s1.objects, row.manifestKey, Stored(ManifestText(env, fields), until), t.putManifest));
        if t.putManifest != Done || !t.readBack
           || !ReadsBack(env, s2.objects, row.dataKey, seal.checksum, now)
           || !ReadsBack(env, s2.objects, row.manifestKey, seal.manifestChecksum, now)
        then (s2, false)
        else if t.update == Refused then (s2, false)
        else (s2.(rows := s2.rows[k := Sealed(row, seal, now)]), t.update == Done)
  }

  function MarkFailed(s: State, k: nat, reply: Reply): State
    requires k < |s.rows|
  {
    if reply == Refused then s
    else s.(rows := s.rows[k := s.rows[k].(status := Failed, attempts := s.rows[k].attempts + 1)])
  }

  function NewRow(env: Env, windowStart: int, windowEnd: int, id: string): Row {
    Row(id, windowStart, windowEnd, DataKey(env, windowStart, id), ManifestKey(env, windowStart, id), None, Pending, 0, None)
  }

  /** The `try` and its `catch`. */
  function Concluded(env: Env, s: State, k: nat, now: int, t: Trouble): (State, bool)
    requires k < |s.rows|
  {
    var a := Attempt(env, s, k, now, t);
    if a.1 then a else (MarkFailed(a.0, k, t.markFailed), false)
  }

  /** `false` when the call throws. */
  function Archive(env: Env, s: State, windowStart: int, windowEnd: int, call: Call): (State, bool) {
    var k := RowOf(s.rows, windowStart, windowEnd);
    var t := call.trouble;
    if !t.find then (s, false)
    else if k < |s.rows| then
      if s.rows[k].status == Verified then (s, true) else Concluded(env, s, k, call.now, t)
    else if t.insert == Refused then (s, false)
    else
      var s1 := s.(rows := s.rows + [NewRow(env, windowStart, windowEnd, call.id)]);
      if t.insert == LostAck then (s1, false) else Concluded(env, s1, k, call.now, t)
  }

  // ----- the hourly retry -----

  function FailedRows(rows: seq<Row>): seq<Row> {
    if rows == [] then []
    else
      FailedRows(rows[..|rows| - 1]) + (if rows[|rows| - 1].status == Failed then [rows[|rows| - 1]] else [])
  }

  function ByStart(a: Row, b: Row): bool { a.windowStart <= b.windowStart }

  function ToRetry(rows: seq<Row>): (todo: seq<Row>)
    ensures |todo| <= RETRY_LIMIT
  {
    var failed := Sorting.Sort(FailedRows(rows), ByStart);
    if |failed| > RETRY_LIMIT then failed[..RETRY_LIMIT] else failed
  }

  /** Oldest first, stopping at the first that throws. */
  function RetryAll(env: Env, s: State, todo: seq<Row>, calls: seq<Call>): State
    requires |todo| <= |calls|
    decreases |todo|
  {
    if todo == [] then s
    else
      var r := Archive(env, s, todo[0].windowStart, todo[0].windowEnd, calls[0]);
      if r.1 then RetryAll(env, r.0, todo[1..], calls[1..]) else r.0
  }

  // ----- verification -----

  function RowById(rows: seq<Row>, id: string): (k: nat)
    ensures k <= |rows| && (k < |rows| ==> rows[k].id == id)
    ensures k == |rows| ==> forall j :: 0 <= j < |rows| ==> rows[j].id != id
  {
    if rows == [] then 0 else if rows[0].id == id then 0 else 1 + RowById(rows[1..], id)
  }

  function SignatureOf(m: Value): Option<string> {
    if m.Obj? && "signature" in Canonical.Keys(m.fields)
       && m.fields[Canonical.At(m.fields, "signature")].value.Str?
    then Some(m.fields[Canonical.At(m.fields, "signature")].value.s)
    else None
  }

  function Unsigned(m: Value): Value
    requires m.Obj?
  {
    Obj(Canonical.Without(m.fields, "signature"))
  }

  datatype VerifyError = NotFound | StoreError | NotJson | BadSignature

  function Check(env: Env, s: State, row: Row, now: int): Result<bool, VerifyError> {
    if row.dataKey !in s.objects || row.manifestKey !in s.objects then Err(StoreError)
    else
      var data, manifest := s.objects[row.dataKey], s.objects[row.manifestKey];
      var parsed := env.parse(manifest.body);
      if parsed.None? || parsed.value.Null? then Err(NotJson)
      else if row.seal.None? || env.sha256(data.body) != row.seal.value.checksum
              || env.sha256(manifest.body) != row.seal.value.manifestChecksum then Ok(false)
      else if SignatureOf(parsed.value).None? then Err(BadSignature)
      else
        Ok(env.fromHex(SignatureOf(parsed.value).value) == env.fromHex(Sign(env, Unsigned(parsed.value)))
           && data.lockedUntil > now && manifest.lockedUntil > now)
  }

  function Verification(env: Env, s: State, id: string, now: int): (State, Result<bool, VerifyError>) {
    var k := RowById(s.rows, id);
    if k == |s.rows| then (s, Err(NotFound))
    else
      var r := Check(env, s, s.rows[k], now);
      if r == Ok(true) then (s.(rows := s.rows[k := s.rows[k].(status := Verified, verifiedAt := Some(now))]), r)
      else (s, r)
  }

  // ----- the purge -----

  predicate Purgeable(s: State, e: Event, now: int, cutoff: int) {
    && e.occurredAt < cutoff
    && exists k :: 0 <= k < |s.rows| && Covers(s.rows[k], e, now)
  }

  predicate Covers(row: Row, e: Event, now: int) {
    row.status == Verified && row.verifiedAt.Some? && row.windowEnd + RETENTION > now
    && InWindow(e, row.windowStart, row.windowEnd)
  }

  function AllPurgeable(s: State, events: seq<Event>, now: int, cutoff: int): seq<Event> {
    if events == [] then []
    else
      AllPurgeable(s, events[..|events| - 1], now, cutoff)
      + (if Purgeable(s, events[|events| - 1], now, cutoff) then [events[|events| - 1]] else [])
  }

  function OldestFirst(a: Event, b: Event): bool {
    a.occurredAt < b.occurredAt || (a.occurredAt == b.occurredAt && a.sequence <= b.sequence)
  }

  function Purged(s: State, now: int, cutoff: int): (gone: seq<Event>)
    ensures |gone| <= PURGE_LIMIT
  {
    var all := Sorting.Sort(AllPurgeable(s, s.events, now, cutoff), OldestFirst);
    if |all| > PURGE_LIMIT then all[..PURGE_LIMIT] else all
  }

  function Less(events: seq<Event>, gone: seq<Event>): seq<Event> {
    if events == [] then []
    else Less(events[..|events| - 1], gone) + (if events[|events| - 1] in gone then [] else [events[|events| - 1]])
  }

  function Purge(s: State, now: int, cutoff: int): State {
    s.(events := Less(s.events, Purged(s, now, cutoff)))
  }

  /** The service, changing the table and the object store call by call. */
  class AuditArchiveService {
    const env: Env
    var rows: seq<Row>
    var objects: map<string, Stored>
    var events: seq<Event>

    ghost function View(): State
      reads this
    {
      State(rows, objects, events)
    }

    constructor (env: Env, s: State)
      ensures this.env == env && View() == s
    {
      this.env := env;
      rows, objects, events := s.rows, s.objects, s.events;
    }

    method PutImmutable(key: string, o: Stored, reply: Reply) returns (ok: bool)
      modifies this`objects
      ensures objects == Written(old(objects), key, o, reply) && ok == (reply == Done)
    {
      if reply != Refused {
        objects := objects[key := o];
      }
      ok := reply == Done;
    }

    /** Reads the window, writes both objects, reads them back and seals the row. */
    method SealWindow(k: nat, now: int, t: Trouble) returns (ok: bool)
      requires k < |rows|
      modifies this`rows, this`objects
      ensures (View(), ok) == Attempt(env, old(View()), k, now, t)
    {
      if !t.read {
        return false;
      }
      var row := rows[k];
      var selected := Selected(events, row.windowStart, row.windowEnd);
      var previous := PreviousChecksum(rows, row.windowEnd);
      var fields := UnsignedFields(env, row, selected, previous, now);
      var seal := SealFor(env, row, selected, previous, now);
      var until := row.windowEnd + RETENTION;
      ok := PutImmutable(row.dataKey, Stored(DataOf(env, selected), until), t.putData);
      if !ok {
        return;
      }
      ok := PutImmutable(row.manifestKey, Stored(ManifestText(env, fields), until), t.putManifest);
      if !ok {
        return;
      }
      if !t.readBack || !ReadsBack(env, objects, row.dataKey, seal.checksum, now)
         || !ReadsBack(env, objects, row.manifestKey, seal.manifestChecksum, now)
      {
        return false;
      }
      if t.update != Refused {
        rows := rows[k := Sealed(row, seal, now)];
      }
      ok := t.update == Done;
    }

    /** The `try` and its `catch`. */
    method SealOrMarkFailed(k: nat, now: int, t: Trouble) returns (ok: bool)
      requires k < |rows|
      modifies this`rows, this`objects
      ensures (View(), ok) == Concluded(env, old(View()), k, now, t)
    {
      ok := SealWindow(k, now, t);
      if !ok && t.markFailed != Refused {
        rows := rows[k := rows[k].(status := Failed, attempts := rows[k].attempts + 1)];
      }
    }

    method ArchiveWindow(windowStart: int, windowEnd: int, call: Call) returns (ok: bool)
      modifies this`rows, this`objects
      ensures (View(), ok) == Archive(env, old(View()), windowStart, windowEnd, call)
    {
      var t := call.trouble;
      if !t.find {
        return false;
      }
      var k := RowOf(rows, windowStart, windowEnd);
      if k < |rows| && rows[k].status == Verified {
        return true;
      }
      if k == |rows| {
        if t.insert == Refused {
          return false;
        }
        rows := rows + [NewRow(env, windowStart, windowEnd, call.id)];
        if t.insert == LostAck {
          return false;
        }
      }
      ok := SealOrMarkFailed(k, call.now, t);
    }

    method RetryFailedArchives(calls: seq<Call>)
      requires |calls| >= RETRY_LIMIT
      modifies this`rows, this`objects
      ensures View() == RetryAll(env, old(View()), ToRetry(old(rows)), calls)
    {
      var todo := ToRetry(rows);
      var i := 0;
      while i < |todo|
        invariant 0 <= i <= |todo|
        invariant RetryAll(env, View(), todo[i..], calls[i..]) == RetryAll(env, old(View()), todo, calls)
        invariant events == old(events)
      {
        assert todo[i..][1..] == todo[i + 1..] && calls[i..][1..] == calls[i + 1..];
        var ok := ArchiveWindow(todo[i].windowStart, todo[i].windowEnd, calls[i]);
        if !ok {
          return;
        }
        i := i + 1;
      }
    }

    method Verify(id: string, now: int) returns (r: Result<bool, VerifyError>)
      modifies this`rows
      ensures (View(), r) == Verification(env, old(View()), id, now)
    {
      var k := RowById(rows, id);
      if k == |rows| {
        return Err(NotFound);
      }
      r := Check(env, State(rows, objects, events), rows[k], now);
      if r == Ok(true) {
        rows := rows[k := rows[k].(status := Verified, verifiedAt := Some(now))];
      }
    }

    method PurgeExpiredOnlineEvents(now: int, cutoff: int)
      modifies this`events
      ensures View() == Purge(old(View()), now, cutoff)
    {
      var gone := Purged(State(rows, objects, events), now, cutoff);
      var kept: seq<Event> := [];
      for i := 0 to |events|
        invariant kept == Less(events[..i], gone)
      {
        assert events[..i + 1][..i] == events[..i];
        if events[i] !in gone {
          kept := kept + [events[i]];
        }
      }
      assert events[..|events|] == events;
      events := kept;
    }
  }
}
