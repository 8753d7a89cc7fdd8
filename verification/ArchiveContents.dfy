/**
 * What one archiving leaves behind, in figures: the events it takes, the entries of the manifest it stores and signs, the
 * columns of the row, and the answer for every combination of troubles.
 */
module ArchiveContents {
  import opened Wrappers
  import opened JsonValues
  import opened AuditArchive
  import opened ArchiveChain
  import opened ArchiveVerification
  import Canonical = CanonicalJson
  import Sorting

  /** Seven years of 365.25 days. */
  const SEVEN_YEARS := 220_903_200_000

  // ----- the events taken -----

  predicate Inside(e: Event, windowStart: int, windowEnd: int) { windowStart <= e.occurredAt && e.occurredAt < windowEnd }

  /** The events of the window, each as often as it is online, in the order of their sequence numbers. */
  ghost predicate Takes(online: seq<Event>, windowStart: int, windowEnd: int, taken: seq<Event>) {
    && (forall e :: multiset(taken)[e] == if Inside(e, windowStart, windowEnd) then multiset(online)[e] else 0)
    && (forall i, j :: 0 <= i < j < |taken| ==> taken[i].sequence <= taken[j].sequence)
  }

  lemma {:induction false} WithinCounts(events: seq<Event>, windowStart: int, windowEnd: int, e: Event)
    ensures multiset(Within(events, windowStart, windowEnd))[e]
            == if Inside(e, windowStart, windowEnd) then multiset(events)[e] else 0
  {
    if events != [] {
      var before, last := events[..|events| - 1], events[|events| - 1];
      WithinCounts(before, windowStart, windowEnd, e);
      assert events == before + [last];
    }
  }

  lemma SelectedTakes(events: seq<Event>, windowStart: int, windowEnd: int)
    ensures Takes(events, windowStart, windowEnd, Selected(events, windowStart, windowEnd))
  {
    var within := Within(events, windowStart, windowEnd);
    Sorting.SortKeepsElements(within, BySequence);
    Sorting.SortSorts(within, BySequence);
    forall e ensures multiset(within)[e] == if Inside(e, windowStart, windowEnd) then multiset(events)[e] else 0 {
      WithinCounts(events, windowStart, windowEnd, e);
    }
    var taken := Selected(events, windowStart, windowEnd);
    forall i, j | 0 <= i < j < |taken| ensures taken[i].sequence <= taken[j].sequence {
      assert BySequence(taken[i], taken[j]);
    }
  }

  // ----- the manifest -----

  ghost predicate Entry(m: Value, key: string, v: Value) { m.Obj? && Field(key, v) in m.fields }

  /** The checksum in the row whose window ends latest before this one, or none. */
  ghost predicate LinksTo(rows: seq<Row>, windowEnd: int, link: Option<string>) {
    if forall row :: row in rows ==> row.windowEnd >= windowEnd then link == None
    else
      exists row :: row in rows && row.windowEnd < windowEnd
        && (forall other :: other in rows && other.windowEnd < windowEnd ==> other.windowEnd <= row.windowEnd)
        && link == if row.seal.Some? then Some(row.seal.value.manifestChecksum) else None
  }

  /** The eleven entries that are signed. */
  ghost predicate DescribesArchive(
    env: Env, m: Value, row: Row, taken: seq<Event>, data: string, link: Option<string>, now: int)
  {
    && Entry(m, "version", Num(1))
    && Entry(m, "archiveId", Str(row.id))
    && Entry(m, "windowStart", Str(env.iso(row.windowStart)))
    && Entry(m, "windowEnd", Str(env.iso(row.windowEnd)))
    && Entry(m, "firstSequence", if |taken| > 0 then Num(taken[0].sequence) else Null)
    && Entry(m, "lastSequence", if |taken| > 0 then Num(taken[|taken| - 1].sequence) else Null)
    && Entry(m, "rowCount", Num(|taken|))
    && Entry(m, "dataChecksumSha256", Str(env.sha256(data)))
    && Entry(m, "previousManifestChecksum", if link.Some? then Str(link.value) else Null)
    && Entry(m, "retentionUntil", Str(env.iso(row.windowEnd + SEVEN_YEARS)))
    && Entry(m, "createdAt", Str(env.iso(now)))
  }

  predicate IsPlain(v: Value) { v.Str? || v.Num? || v.Null? }

  lemma PlainStays(v: Value, le: Canonical.KeyOrder)
    requires IsPlain(v)
    ensures Canonical.Canonicalize(v, le) == v
  {
  }

  /** Of plain entries, the canonical form is a reordering. */
  lemma PlainEntries(v: Value, le: Canonical.KeyOrder)
    requires v.Obj? && forall i :: 0 <= i < |v.fields| ==> IsPlain(v.fields[i].value)
    ensures var c := Canonical.Canonicalize(v, le);
            c.Obj? && |c.fields| == |v.fields| && forall f :: f in v.fields ==> f in c.fields
  {
    var s, c := Canonical.SortedFields(v, le), Canonical.CanonicalFields(v, le);
    forall i | 0 <= i < |s| ensures c[i] == s[i] {
      var j :| 0 <= j < |v.fields| && v.fields[j] == s[i];
      PlainStays(s[i].value, le);
    }
    Sorting.SortKeepsElements(v.fields, Canonical.ByKey(le));
    forall f | f in v.fields ensures f in c {
      Sorting.SameMembers(s, v.fields, f);
      var i :| 0 <= i < |s| && s[i] == f;
      assert c[i] == f;
    }
  }

  lemma EntryAt(m: Value, i: nat, key: string, v: Value)
    requires m.Obj? && i < |m.fields| && m.fields[i].key == key && m.fields[i].value == v
    ensures Entry(m, key, v)
  {
    assert m.fields[i] == Field(key, v);
  }

  lemma UnsignedIdentity(env: Env, row: Row, taken: seq<Event>, link: Option<string>, now: int)
    ensures var m := Obj(UnsignedFields(env, row, taken, link, now));
            |m.fields| == 11
            && Entry(m, "version", Num(1))
            && Entry(m, "archiveId", Str(row.id))
  {
    var m := Obj(UnsignedFields(env, row, taken, link, now));
    EntryAt(m, 0, "version", Num(1));
    EntryAt(m, 1, "archiveId", Str(row.id));
  }

  lemma UnsignedWindow(env: Env, row: Row, taken: seq<Event>, link: Option<string>, now: int)
    ensures var m := Obj(UnsignedFields(env, row, taken, link, now));
            |m.fields| == 11
            && Entry(m, "windowStart", Str(env.iso(row.windowStart)))
            && Entry(m, "windowEnd", Str(env.iso(row.windowEnd)))
  {
    var m := Obj(UnsignedFields(env, row, taken, link, now));
    EntryAt(m, 2, "windowStart", Str(env.iso(row.windowStart)));
    EntryAt(m, 3, "windowEnd", Str(env.iso(row.windowEnd)));
  }

  lemma UnsignedCounts(env: Env, row: Row, taken: seq<Event>, link: Option<string>, now: int)
    ensures var m := Obj(UnsignedFields(env, row, taken, link, now));
            |m.fields| == 11
            && Entry(m, "firstSequence", if |taken| > 0 then Num(taken[0].sequence) else Null)
            && Entry(m, "lastSequence", if |taken| > 0 then Num(taken[|taken| - 1].sequence) else Null)
            && Entry(m, "rowCount", Num(|taken|))
  {
    var m := Obj(UnsignedFields(env, row, taken, link, now));
    EntryAt(m, 4, "firstSequence", if |taken| > 0 then Num(taken[0].sequence) else Null);
    EntryAt(m, 5, "lastSequence", if |taken| > 0 then Num(taken[|taken| - 1].sequence) else Null);
    EntryAt(m, 6, "rowCount", Num(|taken|));
  }

  lemma UnsignedLinks(env: Env, row: Row, taken: seq<Event>, link: Option<string>, now: int)
    ensures var m := Obj(UnsignedFields(env, row, taken, link, now));
            |m.fields| == 11
            && Entry(m, "dataChecksumSha256", Str(env.sha256(DataOf(env, taken))))
            && Entry(m, "previousManifestChecksum", if link.Some? then Str(link.value) else Null)
  {
    var m := Obj(UnsignedFields(env, row, taken, link, now));
    EntryAt(m, 7, "dataChecksumSha256", Str(env.sha256(DataOf(env, taken))));
    EntryAt(m, 8, "previousManifestChecksum", if link.Some? then Str(link.value) else Null);
  }

  lemma UnsignedTimes(env: Env, row: Row, taken: seq<Event>, link: Option<string>, now: int)
    ensures var m := Obj(UnsignedFields(env, row, taken, link, now));
            |m.fields| == 11
            && Entry(m, "retentionUntil", Str(env.iso(row.windowEnd + SEVEN_YEARS)))
            && Entry(m, "createdAt", Str(env.iso(now)))
  {
    var m := Obj(UnsignedFields(env, row, taken, link, now));
    EntryAt(m, 9, "retentionUntil", Str(env.iso(row.windowEnd + SEVEN_YEARS)));
    EntryAt(m, 10, "createdAt", Str(env.iso(now)));
  }

  lemma UnsignedDescribes(env: Env, row: Row, taken: seq<Event>, link: Option<string>, now: int)
    ensures var fields := UnsignedFields(env, row, taken, link, now);
            |fields| == 11 && DescribesArchive(env, Obj(fields), row, taken, DataOf(env, taken), link, now)
  {
    UnsignedIdentity(env, row, taken, link, now);
    UnsignedWindow(env, row, taken, link, now);
    UnsignedCounts(env, row, taken, link, now);
    UnsignedLinks(env, row, taken, link, now);
    UnsignedTimes(env, row, taken, link, now);
  }

  lemma UnsignedPlain(env: Env, row: Row, taken: seq<Event>, link: Option<string>, now: int)
    ensures var fields := UnsignedFields(env, row, taken, link, now);
            forall i :: 0 <= i < |fields| ==> IsPlain(fields[i].value)
  {
  }

  lemma DescribesMore(
    env: Env, a: Value, b: Value, row: Row, taken: seq<Event>, data: string, link: Option<string>, now: int)
    requires DescribesArchive(env, a, row, taken, data, link, now) && b.Obj? && forall f :: f in a.fields ==> f in b.fields
    ensures DescribesArchive(env, b, row, taken, data, link, now)
  {
  }

  /** The eleven entries sorted by key, and nothing else, are what is signed. */
  ghost predicate SignedForm(
    env: Env, u: Value, row: Row, taken: seq<Event>, data: string, link: Option<string>, now: int)
  {
    u.Obj? && |u.fields| == 11 && KeysDistinct(u.fields) && DescribesArchive(env, u, row, taken, data, link, now)
    && Sorting.Sorted(u.fields, Canonical.ByKey(env.keyOrder))
  }

  /** The stored manifest: the eleven entries and the signature of their own canonical text. */
  ghost predicate StoredForm(
    env: Env, m: Value, signature: string, row: Row, taken: seq<Event>, data: string, link: Option<string>, now: int)
  {
    && m.Obj? && |m.fields| == 12 && KeysDistinct(m.fields) && DescribesArchive(env, m, row, taken, data, link, now)
    && Sorting.Sorted(m.fields, Canonical.ByKey(env.keyOrder))
    && Entry(m, "signature", Str(signature))
    && exists u :: SignedForm(env, u, row, taken, data, link, now) && signature == env.hmac(env.stringify(u))
  }

  lemma SignedSays(env: Env, row: Row, taken: seq<Event>, link: Option<string>, now: int)
    requires Sorting.TotalOrder(env.keyOrder)
    ensures var u := Canonical.Canonicalize(Obj(UnsignedFields(env, row, taken, link, now)), env.keyOrder);
            SignedForm(env, u, row, taken, DataOf(env, taken), link, now)
  {
    var v := Obj(UnsignedFields(env, row, taken, link, now));
    var u := Canonical.Canonicalize(v, env.keyOrder);
    UnsignedDescribes(env, row, taken, link, now);
    UnsignedPlain(env, row, taken, link, now);
    ManifestKeysDistinct(env, row, taken, link, now);
    PlainEntries(v, env.keyOrder);
    Canonical.CanonicalFieldsSorted(v, env.keyOrder);
    DescribesMore(env, v, u, row, taken, DataOf(env, taken), link, now);
  }

  lemma WithSignature(env: Env, fields: seq<Field>)
    requires Sorting.TotalOrder(env.keyOrder) && |fields| == 11 && forall i :: 0 <= i < |fields| ==> IsPlain(fields[i].value)
    requires Canonical.Distinct(Obj(fields)) && "signature" !in Canonical.Keys(fields)
    ensures var m := Canonical.Canonicalize(Manifest(env, fields), env.keyOrder);
            && m.Obj? && |m.fields| == 12 && KeysDistinct(m.fields)
            && Sorting.Sorted(m.fields, Canonical.ByKey(env.keyOrder))
            && (forall f :: f in fields ==> f in m.fields) && Entry(m, "signature", Str(Sign(env, Obj(fields))))
  {
    var whole := Manifest(env, fields);
    ManifestDistinct(env, fields);
    PlainEntries(whole, env.keyOrder);
    Canonical.CanonicalFieldsSorted(whole, env.keyOrder);
    EntryAt(whole, 11, "signature", Str(Sign(env, Obj(fields))));
    assert forall f :: f in fields ==> f in whole.fields;
  }

  lemma ManifestSays(env: Env, row: Row, taken: seq<Event>, link: Option<string>, now: int)
    requires Sorting.TotalOrder(env.keyOrder)
    ensures var fields := UnsignedFields(env, row, taken, link, now);
            StoredForm(env, Canonical.Canonicalize(Manifest(env, fields), env.keyOrder), Sign(env, Obj(fields)),
                       row, taken, DataOf(env, taken), link, now)
  {
    var fields := UnsignedFields(env, row, taken, link, now);
    UnsignedDescribes(env, row, taken, link, now);
    UnsignedPlain(env, row, taken, link, now);
    ManifestKeysDistinct(env, row, taken, link, now);
    WithSignature(env, fields);
    SignedSays(env, row, taken, link, now);
    DescribesMore(env, Obj(fields), Canonical.Canonicalize(Manifest(env, fields), env.keyOrder),
                  row, taken, DataOf(env, taken), link, now);
  }

  lemma PreviousLinks(rows: seq<Row>, windowEnd: int)
    ensures LinksTo(rows, windowEnd, PreviousChecksum(rows, windowEnd))
  {
    var p := LatestBefore(rows, windowEnd);
    if p.Some? { assert p.value in rows; }
  }

  // ----- the data -----

  /** One line for each event, in order: the canonical text of its contents. */
  ghost predicate Listed(env: Env, taken: seq<Event>, text: string) {
    if taken == [] then text == ""
    else exists rest ::
      Listed(env, taken[1..], rest)
      && text == env.stringify(Canonical.Canonicalize(taken[0].content, env.keyOrder)) + "\n" + rest
  }

  lemma {:induction false} LinesListed(env: Env, taken: seq<Event>)
    ensures Listed(env, taken, Lines(env, taken))
  {
    if taken != [] { LinesListed(env, taken[1..]); }
  }

  // ----- the columns -----

  predicate SealColumns(env: Env, seal: Seal, taken: seq<Event>, data: string, manifest: string, link: Option<string>) {
    && seal.rowCount == |taken|
    && seal.firstSequence == (if |taken| > 0 then Some(taken[0].sequence) else None)
    && seal.lastSequence == (if |taken| > 0 then Some(taken[|taken| - 1].sequence) else None)
    && seal.checksum == env.sha256(data) && seal.manifestChecksum == env.sha256(manifest) && seal.previous == link
  }

  function TextNow(env: Env, s: State, row: Row): string {
    Lines(env, Selected(s.events, row.windowStart, row.windowEnd))
  }

  function ManifestNow(env: Env, s: State, row: Row, now: int): string {
    ManifestText(env, UnsignedFields(env, row, Selected(s.events, row.windowStart, row.windowEnd),
                                     PreviousChecksum(s.rows, row.windowEnd), now))
  }

  /** The text, the manifest and the columns that an archiving of this row computes. */
  ghost predicate Prepared(env: Env, s: State, row: Row, now: int, text: string, manifest: string, seal: Seal) {
    exists taken, link, m ::
      && Takes(s.events, row.windowStart, row.windowEnd, taken) && Listed(env, taken, text)
      && LinksTo(s.rows, row.windowEnd, link)
      && StoredForm(env, m, seal.signature, row, taken, env.gzip(text), link, now) && manifest == env.stringify(m)
      && SealColumns(env, seal, taken, env.gzip(text), manifest, link)
  }

  lemma SealSays(env: Env, row: Row, taken: seq<Event>, link: Option<string>, now: int)
    ensures var fields := UnsignedFields(env, row, taken, link, now);
            SealColumns(env, SealFor(env, row, taken, link, now), taken, DataOf(env, taken), ManifestText(env, fields), link)
            && SealFor(env, row, taken, link, now).signature == Sign(env, Obj(fields))
  {
  }

  lemma Prepares(env: Env, s: State, k: nat, now: int)
    requires k < |s.rows| && Sorting.TotalOrder(env.keyOrder)
    ensures Prepared(env, s, s.rows[k], now, TextNow(env, s, s.rows[k]), ManifestNow(env, s, s.rows[k], now),
                     SealOf(env, s, k, now))
  {
    var row := s.rows[k];
    var taken, link := Selected(s.events, row.windowStart, row.windowEnd), PreviousChecksum(s.rows, row.windowEnd);
    var m := Canonical.Canonicalize(Manifest(env, UnsignedFields(env, row, taken, link, now)), env.keyOrder);
    SelectedTakes(s.events, row.windowStart, row.windowEnd);
    LinesListed(env, taken);
    PreviousLinks(s.rows, row.windowEnd);
    ManifestSays(env, row, taken, link, now);
    SealSays(env, row, taken, link, now);
    assert ManifestNow(env, s, row, now) == env.stringify(m);
  }

  // ----- one archiving, whatever goes wrong -----

  /** The row is sealed when all before it went well, both locks still hold, and the update is not refused. */
  predicate Seals(t: Trouble, row: Row, now: int) {
    t.read && t.putData == Done && t.putManifest == Done && t.readBack && row.windowEnd + SEVEN_YEARS > now
    && t.update != Refused
  }

  function FinalRow(row: Row, seal: Seal, now: int, t: Trouble): Row {
    var one := if Seals(t, row, now) then row.(seal := Some(seal), status := Verified, verifiedAt := Some(now)) else row;
    if (Seals(t, row, now) && t.update == Done) || t.markFailed == Refused then one
    else one.(status := Failed, attempts := row.attempts + 1)
  }

  lemma BothRead(env: Env, objects: map<string, Stored>, a: string, b: string, first: string, second: string, until: int, now: int)
    requires a != b
    ensures var after := objects[a := Stored(first, until)][b := Stored(second, until)];
            && (ReadsBack(env, after, a, env.sha256(first), now) <==> until > now)
            && (ReadsBack(env, after, b, env.sha256(second), now) <==> until > now)
  {
  }

  lemma AttemptSays(env: Env, s: State, k: nat, now: int, t: Trouble)
    requires k < |s.rows| && s.rows[k].dataKey != s.rows[k].manifestKey
    ensures var (after, ok) := Attempt(env, s, k, now, t);
            && (ok <==> Seals(t, s.rows[k], now) && t.update == Done)
            && after.events == s.events
            && after.rows == if Seals(t, s.rows[k], now) then
                 s.rows[k := s.rows[k].(seal := Some(SealOf(env, s, k, now)), status := Verified, verifiedAt := Some(now))]
                 else s.rows
  {
    var row := s.rows[k];
    BothRead(env, s.objects, row.dataKey, row.manifestKey, env.gzip(TextNow(env, s, row)), ManifestNow(env, s, row, now),
             row.windowEnd + SEVEN_YEARS, now);
  }

  /**
   * The answer of one archiving of a row, and the row it leaves: sealed when it got through, and otherwise failed with one
   * more attempt, on top of the seal of an update whose answer was lost.
   */
  lemma ArchivingRow(env: Env, s: State, k: nat, now: int, t: Trouble)
    requires k < |s.rows| && s.rows[k].dataKey != s.rows[k].manifestKey
    ensures var (after, ok) := Concluded(env, s, k, now, t);
            && (ok <==> Seals(t, s.rows[k], now) && t.update == Done)
            && after.events == s.events
            && after.rows == s.rows[k := FinalRow(s.rows[k], SealOf(env, s, k, now), now, t)]
  {
    AttemptSays(env, s, k, now, t);
    assert s.rows[k := s.rows[k]] == s.rows;
  }

  function StoredAt(s: State, key: string): Option<Stored> { if key in s.objects then Some(s.objects[key]) else None }

  lemma PutSays(objects: map<string, Stored>, at: string, o: Stored, reply: Reply, key: string)
    ensures key in Written(objects, at, o, reply) <==> (key == at && reply != Refused) || key in objects
    ensures key in Written(objects, at, o, reply) ==>
              Written(objects, at, o, reply)[key] == if key == at && reply != Refused then o else objects[key]
  {
  }

  /**
   * What it writes: the compressed lines unless that put is refused, then the manifest unless the first put failed or its own
   * is refused, both locked for seven years after the window; no other object.
   */
  lemma ArchivingObjects(env: Env, s: State, k: nat, now: int, t: Trouble, key: string)
    requires k < |s.rows| && s.rows[k].dataKey != s.rows[k].manifestKey
    ensures var row, after := s.rows[k], Concluded(env, s, k, now, t).0;
            StoredAt(after, key)
            == if key == row.dataKey && t.read && t.putData != Refused
               then Some(Stored(env.gzip(TextNow(env, s, row)), row.windowEnd + SEVEN_YEARS))
               else if key == row.manifestKey && t.read && t.putData == Done && t.putManifest != Refused
               then Some(Stored(ManifestNow(env, s, row, now), row.windowEnd + SEVEN_YEARS))
               else StoredAt(s, key)
  {
    var row, until := s.rows[k], s.rows[k].windowEnd + SEVEN_YEARS;
    var one := Written(s.objects, row.dataKey, Stored(env.gzip(TextNow(env, s, row)), until), t.putData);
    PutSays(s.objects, row.dataKey, Stored(env.gzip(TextNow(env, s, row)), until), t.putData, key);
    PutSays(one, row.manifestKey, Stored(ManifestNow(env, s, row, now), until), t.putManifest, key);
    assert Concluded(env, s, k, now, t).0.objects == Attempt(env, s, k, now, t).0.objects;
  }

  /** Which row a call archives: the window's own unless that is verified already, else a new one under the archive's path. */
  lemma CallSays(env: Env, s: State, windowStart: int, windowEnd: int, call: Call)
    ensures var (after, ok) := Archive(env, s, windowStart, windowEnd, call);
            var k, t := RowOf(s.rows, windowStart, windowEnd), call.trouble;
            if !t.find then after == s && !ok
            else if exists row :: row in s.rows && row.windowStart == windowStart && row.windowEnd == windowEnd then
              && k < |s.rows| && s.rows[k].windowStart == windowStart && s.rows[k].windowEnd == windowEnd
              && (if s.rows[k].status == Verified then after == s && ok
                  else (after, ok) == Concluded(env, s, k, call.now, t))
            else
              var s1 := s.(rows := s.rows + [FreshRow(env, windowStart, windowEnd, call.id)]);
              if t.insert == Refused then after == s && !ok
              else if t.insert == LostAck then after == s1 && !ok
              else k == |s.rows| && (after, ok) == Concluded(env, s1, k, call.now, t)
  {
    var k := RowOf(s.rows, windowStart, windowEnd);
    if k < |s.rows| { assert s.rows[k] in s.rows; }
  }

  function FreshRow(env: Env, windowStart: int, windowEnd: int, id: string): Row {
    var stem := "audit/archive/" + (if |env.iso(windowStart)| > 10 then env.iso(windowStart)[..10] else env.iso(windowStart))
                + "/" + id;
    Row(id, windowStart, windowEnd, stem + ".jsonl.gz", stem + ".manifest.json", None, Pending, 0, None)
  }
}
