/** When `verify` says yes: the objects are the ones that were sealed, and still locked. */
module ArchiveVerification {
  import opened Wrappers
  import opened JsonValues
  import opened AuditArchive
  import opened ArchiveChain
  import Canonical = CanonicalJson

  // ----- the signature survives printing and parsing -----

  lemma {:induction false} WithoutAppended(fields: seq<Field>, f: Field)
    requires f.key !in Canonical.Keys(fields)
    ensures Canonical.Without(fields + [f], f.key) == fields
  {
    if fields == [] {
      assert [f][1..] == [];
    } else {
      assert (fields + [f])[1..] == fields[1..] + [f];
      assert fields[0].key in Canonical.Keys(fields);
      forall k | k in Canonical.Keys(fields[1..]) ensures k in Canonical.Keys(fields) {
        assert fields[1 + Canonical.At(fields[1..], k)].key == k;
      }
      WithoutAppended(fields[1..], f);
    }
  }

  lemma ManifestDistinct(env: Env, fields: seq<Field>)
    requires Canonical.Distinct(Obj(fields)) && "signature" !in Canonical.Keys(fields)
    ensures Canonical.Distinct(Manifest(env, fields))
  {
    var all := Manifest(env, fields).fields;
    forall i, j | 0 <= i < j < |all| ensures all[i].key != all[j].key {
      assert fields[i].key in Canonical.Keys(fields);
    }
  }

  lemma SignatureFound(env: Env, fields: seq<Field>)
    requires Canonical.Distinct(Obj(fields)) && "signature" !in Canonical.Keys(fields)
    ensures SignatureOf(Canonical.Canonicalize(Manifest(env, fields), env.keyOrder)) == Some(Sign(env, Obj(fields)))
  {
    var m := Manifest(env, fields);
    ManifestDistinct(env, fields);
    assert m.fields[|fields|].key == "signature";
    Canonical.AtMember(m.fields, |fields|);
    Canonical.CanonicalAt(m, env.keyOrder, "signature");
  }

  lemma UnsignedSame(env: Env, fields: seq<Field>)
    requires Canonical.Decides(env.keyOrder)
    requires Canonical.Distinct(Obj(fields)) && "signature" !in Canonical.Keys(fields)
    ensures Sign(env, Unsigned(Canonical.Canonicalize(Manifest(env, fields), env.keyOrder))) == Sign(env, Obj(fields))
  {
    var m := Manifest(env, fields);
    var c := Canonical.Canonicalize(m, env.keyOrder);
    ManifestDistinct(env, fields);
    Canonical.MeaningKept(m, env.keyOrder);
    Canonical.WithoutMeaning(c.fields, "signature");
    Canonical.WithoutMeaning(m.fields, "signature");
    WithoutAppended(fields, Field("signature", Str(Sign(env, Obj(fields)))));
    assert Canonical.Meaning(Unsigned(c)) == Canonical.Meaning(Obj(fields));
    Canonical.SameMeaningSameForm(Unsigned(c), Obj(fields), env.keyOrder);
  }

  /** Length and first letter together tell the manifest's keys apart. */
  function Shape(key: string): (int, char) { if key == "" then (0, ' ') else (|key|, key[0]) }

  function ManifestShapes(): seq<(int, char)> {
    [(7, 'v'), (9, 'a'), (11, 'w'), (9, 'w'), (13, 'f'), (12, 'l'), (8, 'r'), (18, 'd'), (24, 'p'), (14, 'r'), (9, 'c')]
  }

  lemma ManifestKeyShapes(env: Env, row: Row, events: seq<Event>, previous: Option<string>, now: int)
    ensures var fields := UnsignedFields(env, row, events, previous, now);
            |fields| == |ManifestShapes()| && forall i :: 0 <= i < |fields| ==> Shape(fields[i].key) == ManifestShapes()[i]
  {
  }

  lemma ManifestValuesDistinct(env: Env, row: Row, events: seq<Event>, previous: Option<string>, now: int)
    ensures var fields := UnsignedFields(env, row, events, previous, now);
            forall i :: 0 <= i < |fields| ==> Canonical.Distinct(fields[i].value)
  {
  }

  lemma ShapesDistinct(fields: seq<Field>)
    requires |fields| == |ManifestShapes()|
    requires forall i :: 0 <= i < |fields| ==> Shape(fields[i].key) == ManifestShapes()[i]
    ensures KeysDistinct(fields) && "signature" !in Canonical.Keys(fields)
  {
    var shapes := ManifestShapes();
    forall i, j | 0 <= i < j < |fields| ensures fields[i].key != fields[j].key {
      assert shapes[i] != shapes[j];
    }
    forall i | 0 <= i < |fields| ensures fields[i].key != "signature" {
      assert shapes[i] != (9, 's') == Shape("signature");
    }
  }

  lemma ManifestKeysDistinct(env: Env, row: Row, events: seq<Event>, previous: Option<string>, now: int)
    ensures var fields := UnsignedFields(env, row, events, previous, now);
            Canonical.Distinct(Obj(fields)) && "signature" !in Canonical.Keys(fields)
  {
    var fields := UnsignedFields(env, row, events, previous, now);
    ManifestKeyShapes(env, row, events, previous, now);
    ManifestValuesDistinct(env, row, events, previous, now);
    ShapesDistinct(fields);
  }

  // ----- the verdict -----

  /** The row's seal is the one computed for these events at that time. */
  predicate SealedWith(env: Env, row: Row, events: seq<Event>, previous: Option<string>, at: int) {
    row.seal == Some(SealFor(env, row, events, previous, at))
  }

  ghost predicate Injective(f: string -> string) { forall a, b :: f(a) == f(b) ==> a == b }

  /** Parsing undoes printing for this manifest. */
  predicate ReadsManifest(env: Env, fields: seq<Field>) {
    env.parse(ManifestText(env, fields)) == Some(Canonical.Canonicalize(Manifest(env, fields), env.keyOrder))
  }

  predicate Holds(s: State, key: string, body: string, now: int) {
    key in s.objects && s.objects[key].body == body && s.objects[key].lockedUntil > now
  }

  lemma CheckWhenUnchanged(env: Env, s: State, row: Row, fields: seq<Field>, now: int)
    requires Canonical.Decides(env.keyOrder) && ReadsManifest(env, fields)
    requires Canonical.Distinct(Obj(fields)) && "signature" !in Canonical.Keys(fields)
    requires row.dataKey in s.objects && row.manifestKey in s.objects && row.seal.Some?
    requires env.sha256(s.objects[row.dataKey].body) == row.seal.value.checksum
    requires s.objects[row.manifestKey].body == ManifestText(env, fields)
    requires row.seal.value.manifestChecksum == env.sha256(ManifestText(env, fields))
    ensures Check(env, s, row, now)
            == Ok(s.objects[row.dataKey].lockedUntil > now && s.objects[row.manifestKey].lockedUntil > now)
  {
    SignatureFound(env, fields);
    UnsignedSame(env, fields);
  }

  /**
   * `verify` says yes exactly when both objects are byte for byte what was sealed and both are still locked
   * (given that checksums do not collide).
   */
  lemma ValidIff(env: Env, s: State, row: Row, events: seq<Event>, previous: Option<string>, at: int, now: int)
    requires Canonical.Decides(env.keyOrder) && Injective(env.sha256)
    requires SealedWith(env, row, events, previous, at) && ReadsManifest(env, UnsignedFields(env, row, events, previous, at))
    ensures Check(env, s, row, now) == Ok(true)
            <==> && Holds(s, row.dataKey, DataOf(env, events), now)
                 && Holds(s, row.manifestKey, ManifestText(env, UnsignedFields(env, row, events, previous, at)), now)
  {
    var fields := UnsignedFields(env, row, events, previous, at);
    ManifestKeysDistinct(env, row, events, previous, at);
    if row.dataKey in s.objects && row.manifestKey in s.objects
       && s.objects[row.dataKey].body == DataOf(env, events)
       && s.objects[row.manifestKey].body == ManifestText(env, fields)
    {
      CheckWhenUnchanged(env, s, row, fields, now);
    }
  }

  // ----- nobody else writes a sealed row's objects -----

  lemma DataKeysApart(env: Env, a: int, id: string, b: int, other: string)
    requires |id| == |other| == 36 && id != other
    ensures DataKey(env, a, id) != DataKey(env, b, other)
  {
    var x, y := DataKey(env, a, id), DataKey(env, b, other);
    assert x[|x| - 45..|x| - 9] == id;
    assert y[|y| - 45..|y| - 9] == other;
  }

  lemma ManifestKeysApart(env: Env, a: int, id: string, b: int, other: string)
    requires |id| == |other| == 36 && id != other
    ensures ManifestKey(env, a, id) != ManifestKey(env, b, other)
  {
    var x, y := ManifestKey(env, a, id), ManifestKey(env, b, other);
    assert x[|x| - 50..|x| - 14] == id;
    assert y[|y| - 50..|y| - 14] == other;
  }

  lemma RowKeysApart(env: Env, a: Row, b: Row)
    requires Placed(env, a) && Placed(env, b) && a.id != b.id
    ensures a.dataKey != b.dataKey && a.dataKey != b.manifestKey && a.manifestKey != b.dataKey
    ensures a.manifestKey != b.manifestKey
  {
    DataKeysApart(env, a.windowStart, a.id, b.windowStart, b.id);
    ManifestKeysApart(env, a.windowStart, a.id, b.windowStart, b.id);
    KindsApart(env, a.windowStart, a.id, b.windowStart, b.id);
    KindsApart(env, b.windowStart, b.id, a.windowStart, a.id);
  }

  function At(objects: map<string, Stored>, key: string): Option<Stored> {
    if key in objects then Some(objects[key]) else None
  }

  /** The row's two objects are the same in both stores. */
  predicate SameObjects(a: State, b: State, row: Row) {
    At(a.objects, row.dataKey) == At(b.objects, row.dataKey)
    && At(a.objects, row.manifestKey) == At(b.objects, row.manifestKey)
  }

  lemma AttemptElsewhere(env: Env, s: State, k: nat, now: int, t: Trouble, key: string)
    requires k < |s.rows| && key != s.rows[k].dataKey && key != s.rows[k].manifestKey
    ensures At(Attempt(env, s, k, now, t).0.objects, key) == At(s.objects, key)
  {
  }

  lemma ConcludedElsewhere(env: Env, s: State, k: nat, now: int, t: Trouble, row: Row)
    requires k < |s.rows| && Placed(env, s.rows[k]) && Placed(env, row) && row.id != s.rows[k].id
    ensures SameObjects(s, Concluded(env, s, k, now, t).0, row)
  {
    RowKeysApart(env, row, s.rows[k]);
    AttemptElsewhere(env, s, k, now, t, row.dataKey);
    AttemptElsewhere(env, s, k, now, t, row.manifestKey);
  }

  lemma ArchiveElsewhere(env: Env, s: State, windowStart: int, windowEnd: int, call: Call, k: nat)
    requires Inv(env, s.rows) && k < |s.rows| && s.rows[k].seal.Some?
    requires RowOf(s.rows, windowStart, windowEnd) == |s.rows| ==> FreshId(s.rows, call.id)
    ensures SameObjects(s, Archive(env, s, windowStart, windowEnd, call).0, s.rows[k])
  {
    var j := RowOf(s.rows, windowStart, windowEnd);
    var t := call.trouble;
    assert Placed(env, s.rows[k]) && SealMatches(s.rows[k]);
    if t.find && j < |s.rows| && s.rows[j].status != Verified {
      assert j != k && Placed(env, s.rows[j]);
      ConcludedElsewhere(env, s, j, call.now, t, s.rows[k]);
    } else if t.find && j == |s.rows| && t.insert == Done {
      var s1 := s.(rows := s.rows + [NewRow(env, windowStart, windowEnd, call.id)]);
      ConcludedElsewhere(env, s1, j, call.now, t, s.rows[k]);
    }
  }

  lemma {:induction false} RetryElsewhere(env: Env, s: State, todo: seq<Row>, calls: seq<Call>, k: nat)
    requires Inv(env, s.rows) && |todo| <= |calls| && k < |s.rows| && s.rows[k].seal.Some?
    requires !RetryUnseals(env, s, todo, calls)
    requires forall i :: 0 <= i < |todo| ==> Known(s.rows, todo[i])
    ensures SameObjects(s, RetryAll(env, s, todo, calls), s.rows[k])
    decreases |todo|
  {
    if todo != [] {
      assert Known(s.rows, todo[0]);
      ArchiveKeeps(env, s, todo[0].windowStart, todo[0].windowEnd, calls[0]);
      ArchiveElsewhere(env, s, todo[0].windowStart, todo[0].windowEnd, calls[0], k);
      var r := Archive(env, s, todo[0].windowStart, todo[0].windowEnd, calls[0]);
      assert Kept(s.rows[k], r.0.rows[k]);
      if r.1 {
        StillKnown(s.rows, r.0.rows, todo);
        RetryElsewhere(env, r.0, todo[1..], calls[1..], k);
      }
    }
  }

  predicate LeavesAlone(step: Step, row: Row) {
    step.Outside? ==> step.key != row.dataKey && step.key != row.manifestKey
  }

  lemma StepElsewhere(env: Env, s: State, step: Step, k: nat)
    requires Inv(env, s.rows) && Allowed(env, s, step) && k < |s.rows| && s.rows[k].seal.Some?
    requires LeavesAlone(step, s.rows[k])
    ensures SameObjects(s, Apply(env, s, step), s.rows[k])
  {
    match step {
      case ArchiveDay(windowStart, windowEnd, call) => ArchiveElsewhere(env, s, windowStart, windowEnd, call, k);
      case RetryFailed(a, b, c) =>
        ToRetryKnown(s.rows);
        RetryElsewhere(env, s, ToRetry(s.rows), [a, b, c], k);
      case VerifyOne(id, now) => VerificationKeeps(env, s, id, now);
      case _ =>
    }
  }

  lemma {:induction false} RunElsewhere(env: Env, s: State, steps: seq<Step>, k: nat)
    requires Inv(env, s.rows) && Legal(env, s, steps) && k < |s.rows| && s.rows[k].seal.Some?
    requires forall i :: 0 <= i < |steps| ==> LeavesAlone(steps[i], s.rows[k])
    ensures SameObjects(s, Run(env, s, steps), s.rows[k])
  {
    if steps != [] {
      var before := Run(env, s, steps[..|steps| - 1]);
      RunElsewhere(env, s, steps[..|steps| - 1], k);
      SealsAreFinal(env, s, steps[..|steps| - 1]);
      assert Kept(s.rows[k], before.rows[k]);
      StepElsewhere(env, before, steps[|steps| - 1], k);
    }
  }

  // ----- an untouched archive verifies -----

  /** Both objects hold what the seal was computed from, locked for the retention period. */
  predicate Intact(env: Env, s: State, k: nat, events: seq<Event>, previous: Option<string>, at: int)
    requires k < |s.rows|
  {
    var row := s.rows[k];
    var until := row.windowEnd + RETENTION;
    && SealedWith(env, row, events, previous, at)
    && At(s.objects, row.dataKey) == Some(Stored(DataOf(env, events), until))
    && At(s.objects, row.manifestKey) == Some(Stored(ManifestText(env, UnsignedFields(env, row, events, previous, at)), until))
  }

  lemma AttemptObjects(env: Env, s: State, k: nat, now: int, t: Trouble)
    requires k < |s.rows| && Placed(env, s.rows[k]) && GetsThrough(s.rows[k], now, t)
    ensures var row := s.rows[k];
            var events, until := Selected(s.events, row.windowStart, row.windowEnd), row.windowEnd + RETENTION;
            var fields := UnsignedFields(env, row, events, PreviousChecksum(s.rows, row.windowEnd), now);
            && row.dataKey != row.manifestKey
            && Attempt(env, s, k, now, t).0.objects
               == s.objects[row.dataKey := Stored(DataOf(env, events), until)]
                           [row.manifestKey := Stored(ManifestText(env, fields), until)]
  {
    KindsApart(env, s.rows[k].windowStart, s.rows[k].id, s.rows[k].windowStart, s.rows[k].id);
  }

  /** An attempt whose update takes effect, acknowledged or not, leaves its row intact. */
  lemma AttemptSeals(env: Env, s: State, k: nat, now: int, t: Trouble)
    requires k < |s.rows| && Placed(env, s.rows[k]) && GetsThrough(s.rows[k], now, t) && t.update != Refused
    ensures k < |Attempt(env, s, k, now, t).0.rows|
    ensures Intact(env, Attempt(env, s, k, now, t).0, k, Selected(s.events, s.rows[k].windowStart, s.rows[k].windowEnd),
                   PreviousChecksum(s.rows, s.rows[k].windowEnd), now)
  {
    var row := s.rows[k];
    var events, previous := Selected(s.events, row.windowStart, row.windowEnd), PreviousChecksum(s.rows, row.windowEnd);
    AttemptObjects(env, s, k, now, t);
    AttemptRows(env, s, k, now, t);
    var row' := Sealed(row, SealOf(env, s, k, now), now);
    assert UnsignedFields(env, row', events, previous, now) == UnsignedFields(env, row, events, previous, now);
  }

  /** The id finds the row again in any later state. */
  lemma FoundById(env: Env, rows: seq<Row>, k: nat)
    requires Inv(env, rows) && k < |rows|
    ensures RowById(rows, rows[k].id) == k
  {
  }

  /**
   * An archive that was written and whose two objects nobody replaced verifies as valid after any run of the
   * service, up to the end of its retention and not beyond.
   */
  lemma UntouchedVerifies(env: Env, s: State, steps: seq<Step>, k: nat, events: seq<Event>, previous: Option<string>,
                          at: int, now: int)
    requires Canonical.Decides(env.keyOrder)
    requires Inv(env, s.rows) && Legal(env, s, steps) && k < |s.rows|
    requires Intact(env, s, k, events, previous, at)
    requires ReadsManifest(env, UnsignedFields(env, s.rows[k], events, previous, at))
    requires forall i :: 0 <= i < |steps| ==> LeavesAlone(steps[i], s.rows[k])
    ensures Verification(env, Run(env, s, steps), s.rows[k].id, now).1 == Ok(now < s.rows[k].windowEnd + RETENTION)
  {
    var after := Run(env, s, steps);
    SealsAreFinal(env, s, steps);
    RunElsewhere(env, s, steps, k);
    assert Kept(s.rows[k], after.rows[k]);
    FoundById(env, after.rows, k);
    ManifestKeysDistinct(env, s.rows[k], events, previous, at);
    CheckWhenUnchanged(env, after, after.rows[k], UnsignedFields(env, s.rows[k], events, previous, at), now);
  }

  /** Parsing undoes printing for every manifest the service writes. */
  ghost predicate ReadsManifests(env: Env) {
    forall row: Row, events: seq<Event>, previous: Option<string>, at: int ::
      ReadsManifest(env, UnsignedFields(env, row, events, previous, at))
  }

  /**
   * From the call that archives a window on: whatever the service does next, `verify` on that archive says yes
   * until its retention ends, as long as nothing outside replaces its two objects.
   */
  lemma ArchivedThenVerifies(env: Env, s: State, windowStart: int, windowEnd: int, call: Call, steps: seq<Step>, now: int)
    requires Canonical.Decides(env.keyOrder) && ReadsManifests(env)
    requires Inv(env, s.rows)
    requires RowOf(s.rows, windowStart, windowEnd) == |s.rows| ==> FreshId(s.rows, call.id)
    requires Archive(env, s, windowStart, windowEnd, call).1
    requires var k := RowOf(s.rows, windowStart, windowEnd); k < |s.rows| ==> s.rows[k].status != Verified
    requires Legal(env, Archive(env, s, windowStart, windowEnd, call).0, steps)
    requires RowOf(s.rows, windowStart, windowEnd) < |Archive(env, s, windowStart, windowEnd, call).0.rows|
    requires forall i :: 0 <= i < |steps| ==>
      LeavesAlone(steps[i], Archive(env, s, windowStart, windowEnd, call).0.rows[RowOf(s.rows, windowStart, windowEnd)])
    ensures var written := Archive(env, s, windowStart, windowEnd, call).0;
            Verification(env, Run(env, written, steps), written.rows[RowOf(s.rows, windowStart, windowEnd)].id, now).1
            == Ok(now < written.rows[RowOf(s.rows, windowStart, windowEnd)].windowEnd + RETENTION)
  {
    var written := Archive(env, s, windowStart, windowEnd, call).0;
    var k := RowOf(s.rows, windowStart, windowEnd);
    ReturnedIsSafe(env, s, windowStart, windowEnd, call);
    ArchiveKeeps(env, s, windowStart, windowEnd, call);
    var s1 := if k < |s.rows| then s else s.(rows := s.rows + [NewRow(env, windowStart, windowEnd, call.id)]);
    assert Placed(env, s1.rows[k]);
    AttemptRows(env, s1, k, call.now, call.trouble);
    AttemptSeals(env, s1, k, call.now, call.trouble);
    var events := Selected(s1.events, s1.rows[k].windowStart, s1.rows[k].windowEnd);
    UntouchedVerifies(env, written, steps, k, events, PreviousChecksum(s1.rows, s1.rows[k].windowEnd), call.now, now);
  }
}
