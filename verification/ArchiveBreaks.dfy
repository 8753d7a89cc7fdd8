/**
 * Seals and links under every trouble, the lost acknowledgement of a seal included: what still holds over all
 * runs, and exactly when a seal is written over and a link names an archive that is not verified.
 */
module ArchiveBreaks {
  import opened Wrappers
  import opened JsonValues
  import opened AuditArchive
  import opened ArchiveChain
  import opened ArchiveVerification
  import Canonical = CanonicalJson

  // ----- what survives every trouble -----

  predicate SameRow(a: Row, b: Row) {
    b.id == a.id && b.windowStart == a.windowStart && b.windowEnd == a.windowEnd
    && b.dataKey == a.dataKey && b.manifestKey == a.manifestKey
  }

  /** A seal, if there is one, was computed for this row from some events at some time. */
  ghost predicate Genuine(env: Env, row: Row) {
    row.seal.Some? ==> exists events: seq<Event>, previous, at :: SealedWith(env, row, events, previous, at)
  }

  ghost predicate Sane(env: Env, rows: seq<Row>) {
    RowsApart(rows) && forall k :: 0 <= k < |rows| ==> Placed(env, rows[k]) && Genuine(env, rows[k])
  }

  lemma SameSeal(env: Env, a: Row, b: Row, events: seq<Event>, previous: Option<string>, at: int)
    requires SameRow(a, b)
    ensures SealFor(env, a, events, previous, at) == SealFor(env, b, events, previous, at)
  {
    assert UnsignedFields(env, a, events, previous, at) == UnsignedFields(env, b, events, previous, at);
  }

  lemma GenuineKept(env: Env, a: Row, b: Row)
    requires Genuine(env, a) && SameRow(a, b) && b.seal == a.seal
    ensures Genuine(env, b)
  {
    if a.seal.Some? {
      var events: seq<Event>, previous, at :| SealedWith(env, a, events, previous, at);
      SameSeal(env, a, b, events, previous, at);
      assert SealedWith(env, b, events, previous, at);
    }
  }

  lemma SealedIsGenuine(env: Env, s: State, k: nat, now: int, row: Row)
    requires k < |s.rows| && SameRow(s.rows[k], row) && row.seal == Some(SealOf(env, s, k, now))
    ensures Genuine(env, row)
  {
    var events := Selected(s.events, row.windowStart, row.windowEnd);
    SameSeal(env, s.rows[k], row, events, PreviousChecksum(s.rows, row.windowEnd), now);
    assert SealedWith(env, row, events, PreviousChecksum(s.rows, row.windowEnd), now);
  }

  lemma ReplaceSane(env: Env, rows: seq<Row>, k: nat, row: Row)
    requires Sane(env, rows) && k < |rows| && SameRow(rows[k], row) && Genuine(env, row)
    ensures Sane(env, rows[k := row])
  {
  }

  /** One attempt writes a seal exactly when it gets through and its update takes effect; the failure mark keeps it. */
  lemma ConcludedSeal(env: Env, s: State, k: nat, now: int, t: Trouble)
    requires k < |s.rows| && Placed(env, s.rows[k])
    ensures var rows := Concluded(env, s, k, now, t).0.rows;
            && k < |rows| && rows == s.rows[k := rows[k]] && SameRow(s.rows[k], rows[k])
            && rows[k].seal ==
                 if GetsThrough(s.rows[k], now, t) && t.update != Refused then Some(SealOf(env, s, k, now))
                 else s.rows[k].seal
  {
    AttemptRows(env, s, k, now, t);
  }

  lemma ConcludedSane(env: Env, s: State, k: nat, now: int, t: Trouble)
    requires Sane(env, s.rows) && k < |s.rows|
    ensures Sane(env, Concluded(env, s, k, now, t).0.rows)
    ensures forall row :: Known(s.rows, row) ==> Known(Concluded(env, s, k, now, t).0.rows, row)
  {
    assert Placed(env, s.rows[k]);
    ConcludedSeal(env, s, k, now, t);
    var row := Concluded(env, s, k, now, t).0.rows[k];
    if GetsThrough(s.rows[k], now, t) && t.update != Refused {
      SealedIsGenuine(env, s, k, now, row);
    } else {
      GenuineKept(env, s.rows[k], row);
    }
    ReplaceSane(env, s.rows, k, row);
    forall r | Known(s.rows, r) ensures Known(s.rows[k := row], r) {
      KnownBySame(s.rows, s.rows[k := row], r);
    }
  }

  lemma KnownBySame(a: seq<Row>, b: seq<Row>, row: Row)
    requires Known(a, row) && |a| <= |b| && forall i :: 0 <= i < |a| ==> SameRow(a[i], b[i])
    ensures Known(b, row)
  {
    var i := RowOf(a, row.windowStart, row.windowEnd);
    assert SameRow(a[i], b[i]);
  }

  lemma InsertSane(env: Env, rows: seq<Row>, windowStart: int, windowEnd: int, id: string)
    requires Sane(env, rows) && FreshId(rows, id) && RowOf(rows, windowStart, windowEnd) == |rows|
    ensures Sane(env, rows + [NewRow(env, windowStart, windowEnd, id)])
    ensures forall row :: Known(rows, row) ==> Known(rows + [NewRow(env, windowStart, windowEnd, id)], row)
  {
    var row := NewRow(env, windowStart, windowEnd, id);
    InsertApart(rows, row);
    forall r | Known(rows, r) ensures Known(rows + [row], r) {
      KnownBySame(rows, rows + [row], r);
    }
  }

  lemma ArchiveSane(env: Env, s: State, windowStart: int, windowEnd: int, call: Call)
    requires Sane(env, s.rows)
    requires RowOf(s.rows, windowStart, windowEnd) == |s.rows| ==> FreshId(s.rows, call.id)
    ensures Sane(env, Archive(env, s, windowStart, windowEnd, call).0.rows)
    ensures forall row :: Known(s.rows, row) ==> Known(Archive(env, s, windowStart, windowEnd, call).0.rows, row)
  {
    var k := RowOf(s.rows, windowStart, windowEnd);
    var t := call.trouble;
    if t.find && k < |s.rows| && s.rows[k].status != Verified {
      ConcludedSane(env, s, k, call.now, t);
    } else if t.find && k == |s.rows| && t.insert != Refused {
      InsertSane(env, s.rows, windowStart, windowEnd, call.id);
      if t.insert != LostAck {
        ConcludedSane(env, s.(rows := s.rows + [NewRow(env, windowStart, windowEnd, call.id)]), k, call.now, t);
      }
    }
  }

  lemma {:induction false} RetrySane(env: Env, s: State, todo: seq<Row>, calls: seq<Call>)
    requires Sane(env, s.rows) && |todo| <= |calls|
    requires forall i :: 0 <= i < |todo| ==> Known(s.rows, todo[i])
    ensures Sane(env, RetryAll(env, s, todo, calls).rows)
    decreases |todo|
  {
    if todo != [] {
      assert Known(s.rows, todo[0]);
      ArchiveSane(env, s, todo[0].windowStart, todo[0].windowEnd, calls[0]);
      var r := Archive(env, s, todo[0].windowStart, todo[0].windowEnd, calls[0]);
      if r.1 {
        forall i | 0 <= i < |todo[1..]| ensures Known(r.0.rows, todo[1..][i]) {
          assert Known(s.rows, todo[1 + i]);
        }
        RetrySane(env, r.0, todo[1..], calls[1..]);
      }
    }
  }

  lemma VerificationSane(env: Env, s: State, id: string, now: int)
    requires Sane(env, s.rows)
    ensures Sane(env, Verification(env, s, id, now).0.rows)
  {
    var k := RowById(s.rows, id);
    if k < |s.rows| && Check(env, s, s.rows[k], now) == Ok(true) {
      var row := s.rows[k].(status := Verified, verifiedAt := Some(now));
      GenuineKept(env, s.rows[k], row);
      ReplaceSane(env, s.rows, k, row);
    }
  }

  lemma StepSane(env: Env, s: State, step: Step)
    requires Sane(env, s.rows) && FreshStep(s, step)
    ensures Sane(env, Apply(env, s, step).rows)
  {
    match step {
      case ArchiveDay(windowStart, windowEnd, call) => ArchiveSane(env, s, windowStart, windowEnd, call);
      case RetryFailed(a, b, c) =>
        ToRetryKnown(s.rows);
        RetrySane(env, s, ToRetry(s.rows), [a, b, c]);
      case VerifyOne(id, now) => VerificationSane(env, s, id, now);
      case _ =>
    }
  }

  /** Over every run, whatever calls fail or lose their acknowledgement, rows stay apart and every seal is its own row's. */
  lemma {:induction false} RunSane(env: Env, s: State, steps: seq<Step>)
    requires Sane(env, s.rows) && FreshRun(env, s, steps)
    ensures Sane(env, Run(env, s, steps).rows)
  {
    if steps != [] {
      RunSane(env, s, steps[..|steps| - 1]);
      StepSane(env, Run(env, s, steps[..|steps| - 1]), steps[|steps| - 1]);
    }
  }

  // ----- manifest checksums tell rows and times apart -----

  lemma ManifestEntries(env: Env, row: Row, events: seq<Event>, previous: Option<string>, at: int)
    ensures var m := Manifest(env, UnsignedFields(env, row, events, previous, at));
            && Canonical.Distinct(m) && m.Obj?
            && "archiveId" in Canonical.Keys(m.fields) && "createdAt" in Canonical.Keys(m.fields)
            && Canonical.Meaning(m).entries["archiveId"] == Canonical.Plain(Str(row.id))
            && Canonical.Meaning(m).entries["createdAt"] == Canonical.Plain(Str(env.iso(at)))
  {
    var fields := UnsignedFields(env, row, events, previous, at);
    var m := Manifest(env, fields);
    ManifestKeysDistinct(env, row, events, previous, at);
    ManifestDistinct(env, fields);
    assert m.fields[1] == Field("archiveId", Str(row.id)) && m.fields[10] == Field("createdAt", Str(env.iso(at)));
    Canonical.AtMember(m.fields, 1);
    Canonical.AtMember(m.fields, 10);
  }

  ghost predicate Trusted(env: Env) {
    Canonical.Decides(env.keyOrder) && Injective(env.sha256) && ReadsManifests(env)
  }

  lemma SameChecksum(env: Env, row: Row, events: seq<Event>, previous: Option<string>, at: int,
                     row': Row, events': seq<Event>, previous': Option<string>, at': int)
    requires Trusted(env)
    requires SealFor(env, row, events, previous, at).manifestChecksum
          == SealFor(env, row', events', previous', at').manifestChecksum
    ensures row.id == row'.id && env.iso(at) == env.iso(at')
  {
    var fields, fields' := UnsignedFields(env, row, events, previous, at), UnsignedFields(env, row', events', previous', at');
    assert ManifestText(env, fields) == ManifestText(env, fields');
    assert ReadsManifest(env, fields) && ReadsManifest(env, fields');
    ManifestEntries(env, row, events, previous, at);
    ManifestEntries(env, row', events', previous', at');
    Canonical.SameFormIff(Manifest(env, fields), Manifest(env, fields'), env.keyOrder);
    assert Canonical.Meaning(Manifest(env, fields)) == Canonical.Meaning(Manifest(env, fields'));
  }

  // ----- links -----

  /**
   * In every reachable state, whatever went wrong before: the checksum that the next seal ending at `end` would be
   * linked to belongs to a verified earlier archive exactly when the latest earlier row is verified.
   */
  lemma LinkSoundIff(env: Env, rows: seq<Row>, end: int)
    requires Sane(env, rows) && Trusted(env) && PreviousChecksum(rows, end).Some?
    ensures EarlierHas(rows, end, PreviousChecksum(rows, end).value) <==> LatestBefore(rows, end).value.status == Verified
  {
    var p := LatestBefore(rows, end).value;
    var checksum := PreviousChecksum(rows, end).value;
    var j :| 0 <= j < |rows| && rows[j] == p;
    assert p.status == Verified ==> Carries(rows[j], end, checksum);
    if i :| 0 <= i < |rows| && Carries(rows[i], end, checksum) {
      assert Genuine(env, rows[i]) && Genuine(env, rows[j]);
      var a: seq<Event>, b, c :| SealedWith(env, rows[i], a, b, c);
      var a': seq<Event>, b', c' :| SealedWith(env, rows[j], a', b', c');
      SameChecksum(env, rows[i], a, b, c, rows[j], a', b', c');
      assert i == j;
    }
  }

  /** After a call that takes a seal back, the next window's seal is linked to an archive that is not verified. */
  lemma NextLinkBroken(env: Env, s: State, k: nat, now: int, t: Trouble, end: int)
    requires Sane(env, s.rows) && Trusted(env) && k < |s.rows| && Unseals(s.rows[k], now, t)
    requires LatestBefore(s.rows, end) == Some(s.rows[k])
    ensures var after := Concluded(env, s, k, now, t).0.rows;
            && PreviousChecksum(after, end) == Some(SealOf(env, s, k, now).manifestChecksum)
            && !EarlierHas(after, end, PreviousChecksum(after, end).value)
  {
    assert Placed(env, s.rows[k]);
    ConcludedUnseals(env, s, k, now, t);
    ConcludedSane(env, s, k, now, t);
    var after := Concluded(env, s, k, now, t).0.rows;
    LatestReplaced(s.rows, k, after[k], end);
    LinkSoundIff(env, after, end);
  }

  lemma {:induction false} LatestReplaced(rows: seq<Row>, k: nat, row: Row, end: int)
    requires k < |rows| && RowsApart(rows) && SameRow(rows[k], row) && LatestBefore(rows, end) == Some(rows[k])
    ensures LatestBefore(rows[k := row], end) == Some(row)
    decreases |rows|
  {
    var n := |rows| - 1;
    var after := rows[k := row];
    if k == n {
      assert after[..n] == rows[..n];
    } else {
      assert after[..n] == rows[..n][k := row];
      assert LatestBefore(rows[..n], end) == Some(rows[..n][k]);
      LatestReplaced(rows[..n], k, row, end);
    }
  }

  // ----- seals written over -----

  /**
   * The exact condition for one call, in any state: a later call for its window replaces the checksum of a sealed
   * row exactly when the row is not verified and the attempt gets through with its update taking effect.
   */
  lemma SealReplacedIff(env: Env, s: State, k: nat, call: Call, events: seq<Event>, previous: Option<string>, at: int)
    requires Sane(env, s.rows) && Trusted(env) && k < |s.rows|
    requires SealedWith(env, s.rows[k], events, previous, at) && env.iso(at) != env.iso(call.now)
    ensures var r := Archive(env, s, s.rows[k].windowStart, s.rows[k].windowEnd, call).0;
            && k < |r.rows| && r.rows[k].seal.Some?
            && (r.rows[k].seal.value.manifestChecksum != s.rows[k].seal.value.manifestChecksum
                <==> call.trouble.find && s.rows[k].status != Verified
                     && GetsThrough(s.rows[k], call.now, call.trouble) && call.trouble.update != Refused)
  {
    var row := s.rows[k];
    RowFound(s.rows, k);
    assert Placed(env, row);
    ConcludedSeal(env, s, k, call.now, call.trouble);
    var new', link := Selected(s.events, row.windowStart, row.windowEnd), PreviousChecksum(s.rows, row.windowEnd);
    if SealFor(env, row, events, previous, at).manifestChecksum == SealFor(env, row, new', link, call.now).manifestChecksum {
      SameChecksum(env, row, events, previous, at, row, new', link, call.now);
      assert false;
    }
  }

  lemma RowFound(rows: seq<Row>, k: nat)
    requires RowsApart(rows) && k < |rows|
    ensures RowOf(rows, rows[k].windowStart, rows[k].windowEnd) == k
  {
  }

  /**
   * How such a row comes about: a seal whose write took effect but reported failure is marked failed, and the next
   * attempt that gets through writes another manifest checksum over it.
   */
  lemma LostAckRewritesSeal(env: Env, s: State, k: nat, now: int, t: Trouble, later: int, retry: Trouble)
    requires Trusted(env)
    requires k < |s.rows| && Placed(env, s.rows[k]) && Unseals(s.rows[k], now, t) && env.iso(now) != env.iso(later)
    requires GetsThrough(s.rows[k], later, retry) && retry.update == Done
    ensures var first := Concluded(env, s, k, now, t).0;
            var second := Concluded(env, first, k, later, retry).0;
            && k < |first.rows| && first.rows[k].status == Failed && first.rows[k].seal.Some?
            && k < |second.rows| && second.rows[k].seal.Some?
            && second.rows[k].seal.value.manifestChecksum != first.rows[k].seal.value.manifestChecksum
  {
    ConcludedUnseals(env, s, k, now, t);
    var first := Concluded(env, s, k, now, t).0;
    ConcludedSeal(env, first, k, later, retry);
    var row, row' := s.rows[k], first.rows[k];
    var events, link := Selected(s.events, row.windowStart, row.windowEnd), PreviousChecksum(s.rows, row.windowEnd);
    var events', link' := Selected(first.events, row'.windowStart, row'.windowEnd), PreviousChecksum(first.rows, row'.windowEnd);
    if SealFor(env, row, events, link, now).manifestChecksum == SealFor(env, row', events', link', later).manifestChecksum {
      SameChecksum(env, row, events, link, now, row', events', link', later);
      assert false;
    }
  }
}
