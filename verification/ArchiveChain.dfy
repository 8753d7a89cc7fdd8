/** What every run of the archive keeps: seals, the chain of checksums, and the events themselves. */
module ArchiveChain {
  import opened Wrappers
  import opened AuditArchive
  import Sorting

  /** `Outside` is anything that happens to a stored object behind the service's back. */
  datatype Step =
    | ArchiveDay(windowStart: int, windowEnd: int, call: Call)
    | RetryFailed(first: Call, second: Call, third: Call)
    | VerifyOne(id: string, now: int)
    | Record(e: Event)
    | PurgeOld(now: int, cutoff: int)
    | Outside(key: string, o: Option<Stored>)

  function Apply(env: Env, s: State, step: Step): State {
    match step
    case ArchiveDay(windowStart, windowEnd, call) => Archive(env, s, windowStart, windowEnd, call).0
    case RetryFailed(a, b, c) => RetryAll(env, s, ToRetry(s.rows), [a, b, c])
    case VerifyOne(id, now) => Verification(env, s, id, now).0
    case Record(e) => s.(events := s.events + [e])
    case PurgeOld(now, cutoff) => Purge(s, now, cutoff)
    case Outside(key, o) =>
      s.(objects := if o.Some? then s.objects[key := o.value] else s.objects - {key})
  }

  function Run(env: Env, s: State, steps: seq<Step>): State {
    if steps == [] then s else Apply(env, Run(env, s, steps[..|steps| - 1]), steps[|steps| - 1])
  }

  // ----- the invariant -----

  predicate Placed(env: Env, row: Row) {
    && |row.id| == 36
    && row.dataKey == DataKey(env, row.windowStart, row.id)
    && row.manifestKey == ManifestKey(env, row.windowStart, row.id)
  }

  predicate SealMatches(row: Row) {
    (row.status == Verified <==> row.seal.Some?) && (row.seal.Some? ==> row.verifiedAt.Some?)
  }

  predicate RowsApart(rows: seq<Row>) {
    forall i, j :: 0 <= i < j < |rows| ==>
      rows[i].id != rows[j].id && (rows[i].windowStart != rows[j].windowStart || rows[i].windowEnd != rows[j].windowEnd)
  }

  /** An earlier, verified row carries this manifest checksum. */
  predicate EarlierHas(rows: seq<Row>, end: int, checksum: string) {
    exists j :: 0 <= j < |rows| && Carries(rows[j], end, checksum)
  }

  predicate Carries(row: Row, end: int, checksum: string) {
    row.windowEnd < end && row.status == Verified && row.seal.Some? && row.seal.value.manifestChecksum == checksum
  }

  predicate Linked(rows: seq<Row>, row: Row) {
    row.seal.Some? && row.seal.value.previous.Some? ==> EarlierHas(rows, row.windowEnd, row.seal.value.previous.value)
  }

  predicate AllLinked(rows: seq<Row>) {
    forall k {:trigger Linked(rows, rows[k])} :: 0 <= k < |rows| ==> Linked(rows, rows[k])
  }

  predicate Inv(env: Env, rows: seq<Row>) {
    && RowsApart(rows)
    && AllLinked(rows)
    && (forall k :: 0 <= k < |rows| ==> Placed(env, rows[k]) && SealMatches(rows[k]))
  }

  /** A row keeps its identity, and its seal once it has one. */
  predicate Kept(a: Row, b: Row) {
    && b.id == a.id && b.windowStart == a.windowStart && b.windowEnd == a.windowEnd
    && b.dataKey == a.dataKey && b.manifestKey == a.manifestKey
    && (a.seal.Some? ==> b.seal == a.seal && b.status == Verified)
  }

  predicate Grows(a: seq<Row>, b: seq<Row>) {
    |a| <= |b| && forall k :: 0 <= k < |a| ==> Kept(a[k], b[k])
  }

  // ----- the one call that takes a seal back -----

  /** Everything before the final update of the row goes well, and the retention is not over. */
  predicate GetsThrough(row: Row, now: int, t: Trouble) {
    t.read && t.putData == Done && t.putManifest == Done && t.readBack && row.windowEnd + RETENTION > now
  }

  /** The seal is written, the service does not hear of it, and the row is then marked failed. */
  predicate Unseals(row: Row, now: int, t: Trouble) {
    GetsThrough(row, now, t) && t.update == LostAck && t.markFailed != Refused
  }

  predicate CallUnseals(env: Env, rows: seq<Row>, windowStart: int, windowEnd: int, call: Call) {
    var k := RowOf(rows, windowStart, windowEnd);
    call.trouble.find &&
    if k < |rows| then rows[k].status != Verified && Unseals(rows[k], call.now, call.trouble)
    else call.trouble.insert == Done && Unseals(NewRow(env, windowStart, windowEnd, call.id), call.now, call.trouble)
  }

  predicate RetryUnseals(env: Env, s: State, todo: seq<Row>, calls: seq<Call>)
    requires |todo| <= |calls|
    decreases |todo|
  {
    todo != [] &&
    var r := Archive(env, s, todo[0].windowStart, todo[0].windowEnd, calls[0]);
    CallUnseals(env, s.rows, todo[0].windowStart, todo[0].windowEnd, calls[0])
    || (r.1 && RetryUnseals(env, r.0, todo[1..], calls[1..]))
  }

  predicate StepUnseals(env: Env, s: State, step: Step) {
    match step
    case ArchiveDay(windowStart, windowEnd, call) => CallUnseals(env, s.rows, windowStart, windowEnd, call)
    case RetryFailed(a, b, c) => RetryUnseals(env, s, ToRetry(s.rows), [a, b, c])
    case _ => false
  }

  predicate FreshId(rows: seq<Row>, id: string) {
    |id| == 36 && forall k :: 0 <= k < |rows| ==> rows[k].id != id
  }

  /** New ids are new. */
  predicate FreshStep(s: State, step: Step) { step.ArchiveDay? ==> FreshId(s.rows, step.call.id) }

  predicate FreshRun(env: Env, s: State, steps: seq<Step>) {
    steps == []
    || (FreshRun(env, s, steps[..|steps| - 1]) && FreshStep(Run(env, s, steps[..|steps| - 1]), steps[|steps| - 1]))
  }

  predicate Allowed(env: Env, s: State, step: Step) { FreshStep(s, step) && !StepUnseals(env, s, step) }

  /** No step of the run takes a seal back. */
  predicate Legal(env: Env, s: State, steps: seq<Step>) {
    steps == []
    || (Legal(env, s, steps[..|steps| - 1]) && Allowed(env, Run(env, s, steps[..|steps| - 1]), steps[|steps| - 1]))
  }

  lemma LinkedKept(a: seq<Row>, b: seq<Row>, row: Row)
    requires Linked(a, row) && Grows(a, b)
    ensures Linked(b, row)
  {
    if row.seal.Some? && row.seal.value.previous.Some? {
      var j :| 0 <= j < |a| && Carries(a[j], row.windowEnd, row.seal.value.previous.value);
      assert Kept(a[j], b[j]);
      assert Carries(b[j], row.windowEnd, row.seal.value.previous.value);
    }
  }

  lemma NewLink(env: Env, rows: seq<Row>, k: nat, row: Row)
    requires Inv(env, rows) && k < |rows| && Kept(rows[k], row)
    requires row.seal.Some? && rows[k].seal.None? ==> row.seal.value.previous == PreviousChecksum(rows, row.windowEnd)
    ensures Linked(rows, row)
  {
    assert Linked(rows, rows[k]);
    if row.seal.Some? && row.seal.value.previous.Some? && rows[k].seal.None? {
      var p := LatestBefore(rows, row.windowEnd).value;
      var j :| 0 <= j < |rows| && rows[j] == p;
      assert SealMatches(rows[j]);
      assert Carries(rows[j], row.windowEnd, row.seal.value.previous.value);
    }
  }

  lemma ReplaceApart(rows: seq<Row>, k: nat, row: Row)
    requires RowsApart(rows) && k < |rows| && Kept(rows[k], row)
    ensures RowsApart(rows[k := row])
  {
  }

  /** Replacing one row by a kept one that is itself in order keeps the invariant. */
  lemma ReplaceKeeps(env: Env, rows: seq<Row>, k: nat, row: Row)
    requires Inv(env, rows) && k < |rows| && Kept(rows[k], row) && SealMatches(row)
    requires row.seal.Some? && rows[k].seal.None? ==> row.seal.value.previous == PreviousChecksum(rows, row.windowEnd)
    ensures Inv(env, rows[k := row]) && Grows(rows, rows[k := row])
  {
    var after := rows[k := row];
    forall i | 0 <= i < |rows| ensures Kept(rows[i], after[i]) {
    }
    NewLink(env, rows, k, row);
    forall i | 0 <= i < |after| ensures Placed(env, after[i]) && SealMatches(after[i]) && Linked(after, after[i]) {
      assert i != k ==> after[i] == rows[i];
      LinkedKept(rows, after, after[i]);
    }
    ReplaceApart(rows, k, row);
  }

  lemma InsertApart(rows: seq<Row>, row: Row)
    requires RowsApart(rows) && FreshId(rows, row.id) && RowOf(rows, row.windowStart, row.windowEnd) == |rows|
    ensures RowsApart(rows + [row])
  {
  }

  lemma InsertKeeps(env: Env, rows: seq<Row>, windowStart: int, windowEnd: int, id: string)
    requires Inv(env, rows) && FreshId(rows, id) && RowOf(rows, windowStart, windowEnd) == |rows|
    ensures Inv(env, rows + [NewRow(env, windowStart, windowEnd, id)])
    ensures Grows(rows, rows + [NewRow(env, windowStart, windowEnd, id)])
  {
    var row := NewRow(env, windowStart, windowEnd, id);
    var after := rows + [row];
    assert Placed(env, row) && SealMatches(row);
    InsertApart(rows, row);
    forall i | 0 <= i < |rows| ensures Kept(rows[i], after[i]) {
    }
    forall i | 0 <= i < |after| ensures Placed(env, after[i]) && SealMatches(after[i]) && Linked(after, after[i]) {
      if i < |rows| { LinkedKept(rows, after, rows[i]); }
    }
  }

  lemma KindsApart(env: Env, a: int, id: string, b: int, other: string)
    ensures DataKey(env, a, id) != ManifestKey(env, b, other)
  {
    var x, y := DataKey(env, a, id), ManifestKey(env, b, other);
    assert x[|x| - 1] == 'z' && y[|y| - 1] == 'n';
  }

  /** The row is sealed when the attempt gets through and the update takes effect; the caller hears so only if it is acknowledged. */
  lemma AttemptRows(env: Env, s: State, k: nat, now: int, t: Trouble)
    requires k < |s.rows| && Placed(env, s.rows[k])
    ensures Attempt(env, s, k, now, t).0.events == s.events
    ensures Attempt(env, s, k, now, t).1 <==> GetsThrough(s.rows[k], now, t) && t.update == Done
    ensures Attempt(env, s, k, now, t).0.rows ==
      if GetsThrough(s.rows[k], now, t) && t.update != Refused then s.rows[k := Sealed(s.rows[k], SealOf(env, s, k, now), now)]
      else s.rows
  {
    KindsApart(env, s.rows[k].windowStart, s.rows[k].id, s.rows[k].windowStart, s.rows[k].id);
  }

  function SealOf(env: Env, s: State, k: nat, now: int): Seal
    requires k < |s.rows|
  {
    var row := s.rows[k];
    SealFor(env, row, Selected(s.events, row.windowStart, row.windowEnd), PreviousChecksum(s.rows, row.windowEnd), now)
  }

  lemma SealingKeeps(env: Env, rows: seq<Row>, k: nat, seal: Seal, now: int)
    requires Inv(env, rows) && k < |rows| && rows[k].seal.None?
    requires seal.previous == PreviousChecksum(rows, rows[k].windowEnd)
    ensures Inv(env, rows[k := Sealed(rows[k], seal, now)]) && Grows(rows, rows[k := Sealed(rows[k], seal, now)])
  {
    var row := Sealed(rows[k], seal, now);
    assert Kept(rows[k], row) && SealMatches(row) && row.windowEnd == rows[k].windowEnd;
    ReplaceKeeps(env, rows, k, row);
  }

  lemma UnsealedKeeps(env: Env, rows: seq<Row>, k: nat, row: Row)
    requires Inv(env, rows) && k < |rows| && Kept(rows[k], row) && row.seal.None? && row.status != Verified
    ensures Inv(env, rows[k := row]) && Grows(rows, rows[k := row])
  {
    ReplaceKeeps(env, rows, k, row);
  }

  lemma FailingKeeps(env: Env, s: State, k: nat, reply: Reply)
    requires Inv(env, s.rows) && k < |s.rows| && s.rows[k].seal.None?
    ensures Inv(env, MarkFailed(s, k, reply).rows) && Grows(s.rows, MarkFailed(s, k, reply).rows)
  {
    var rows := s.rows;
    if reply != Refused {
      UnsealedKeeps(env, rows, k, rows[k].(status := Failed, attempts := rows[k].attempts + 1));
    }
  }

  lemma SealLink(env: Env, s: State, k: nat, now: int)
    requires k < |s.rows|
    ensures SealOf(env, s, k, now).previous == PreviousChecksum(s.rows, s.rows[k].windowEnd)
  {
  }

  lemma ConcludedKeeps(env: Env, s: State, k: nat, now: int, t: Trouble)
    requires Inv(env, s.rows) && k < |s.rows| && s.rows[k].seal.None? && !Unseals(s.rows[k], now, t)
    ensures var c := Concluded(env, s, k, now, t);
            Inv(env, c.0.rows) && Grows(s.rows, c.0.rows) && c.0.events == s.events
  {
    AttemptRows(env, s, k, now, t);
    SealLink(env, s, k, now);
    var a := Attempt(env, s, k, now, t);
    if GetsThrough(s.rows[k], now, t) && t.update != Refused {
      SealingKeeps(env, s.rows, k, SealOf(env, s, k, now), now);
    } else {
      FailingKeeps(env, a.0, k, t.markFailed);
    }
  }

  lemma ConcludedUnseals(env: Env, s: State, k: nat, now: int, t: Trouble)
    requires k < |s.rows| && Placed(env, s.rows[k]) && Unseals(s.rows[k], now, t)
    ensures var rows := Concluded(env, s, k, now, t).0.rows;
            && k < |rows| && rows[k].seal == Some(SealOf(env, s, k, now)) && rows[k].status == Failed
            && rows == s.rows[k := rows[k]] && Kept(s.rows[k].(seal := None), rows[k])
  {
    AttemptRows(env, s, k, now, t);
  }

  /** One attempt on an unsealed row leaves its seal and its status in step unless it takes the seal back. */
  lemma SealMatchesIff(env: Env, s: State, k: nat, now: int, t: Trouble)
    requires Inv(env, s.rows) && k < |s.rows| && s.rows[k].seal.None?
    ensures var rows := Concluded(env, s, k, now, t).0.rows;
            k < |rows| && (SealMatches(rows[k]) <==> !Unseals(s.rows[k], now, t))
  {
    if Unseals(s.rows[k], now, t) {
      ConcludedUnseals(env, s, k, now, t);
    } else {
      ConcludedKeeps(env, s, k, now, t);
    }
  }

  lemma GrowsTransitive(a: seq<Row>, b: seq<Row>, c: seq<Row>)
    requires Grows(a, b) && Grows(b, c)
    ensures Grows(a, c)
  {
    forall k | 0 <= k < |a| ensures Kept(a[k], c[k]) {
      assert Kept(a[k], b[k]) && Kept(b[k], c[k]);
    }
  }

  lemma ArchiveKeeps(env: Env, s: State, windowStart: int, windowEnd: int, call: Call)
    requires Inv(env, s.rows) && !CallUnseals(env, s.rows, windowStart, windowEnd, call)
    requires RowOf(s.rows, windowStart, windowEnd) == |s.rows| ==> FreshId(s.rows, call.id)
    ensures var r := Archive(env, s, windowStart, windowEnd, call).0;
            Inv(env, r.rows) && Grows(s.rows, r.rows) && r.events == s.events
  {
    var k := RowOf(s.rows, windowStart, windowEnd);
    var t := call.trouble;
    if t.find && k < |s.rows| && s.rows[k].status != Verified {
      assert SealMatches(s.rows[k]);
      ConcludedKeeps(env, s, k, call.now, t);
    } else if t.find && k == |s.rows| && t.insert != Refused {
      InsertKeeps(env, s.rows, windowStart, windowEnd, call.id);
      var s1 := s.(rows := s.rows + [NewRow(env, windowStart, windowEnd, call.id)]);
      if t.insert != LostAck {
        ConcludedKeeps(env, s1, k, call.now, t);
        GrowsTransitive(s.rows, s1.rows, Concluded(env, s1, k, call.now, t).0.rows);
      }
    }
  }

  /** A call that returns has taken no seal back. */
  lemma ReturnedIsSafe(env: Env, s: State, windowStart: int, windowEnd: int, call: Call)
    requires Inv(env, s.rows) && Archive(env, s, windowStart, windowEnd, call).1
    requires RowOf(s.rows, windowStart, windowEnd) == |s.rows| ==> FreshId(s.rows, call.id)
    ensures !CallUnseals(env, s.rows, windowStart, windowEnd, call)
  {
    if CallUnseals(env, s.rows, windowStart, windowEnd, call) {
      ArchiveUnseals(env, s, windowStart, windowEnd, call);
    }
  }

  /** A call that takes a seal back throws, and leaves a failed row with a seal. */
  lemma ArchiveUnseals(env: Env, s: State, windowStart: int, windowEnd: int, call: Call)
    requires Inv(env, s.rows) && CallUnseals(env, s.rows, windowStart, windowEnd, call)
    requires RowOf(s.rows, windowStart, windowEnd) == |s.rows| ==> FreshId(s.rows, call.id)
    ensures var r := Archive(env, s, windowStart, windowEnd, call);
            !r.1 && !Inv(env, r.0.rows)
  {
    var k := RowOf(s.rows, windowStart, windowEnd);
    var s1 := if k < |s.rows| then s else s.(rows := s.rows + [NewRow(env, windowStart, windowEnd, call.id)]);
    assert Placed(env, s1.rows[k]);
    ConcludedUnseals(env, s1, k, call.now, call.trouble);
    AttemptRows(env, s1, k, call.now, call.trouble);
    assert Archive(env, s, windowStart, windowEnd, call) == Concluded(env, s1, k, call.now, call.trouble);
    assert !SealMatches(Archive(env, s, windowStart, windowEnd, call).0.rows[k]);
  }

  predicate Known(rows: seq<Row>, row: Row) { RowOf(rows, row.windowStart, row.windowEnd) < |rows| }

  lemma KnownStays(a: seq<Row>, b: seq<Row>, row: Row)
    requires Known(a, row) && Grows(a, b)
    ensures Known(b, row)
  {
    assert Kept(a[RowOf(a, row.windowStart, row.windowEnd)], b[RowOf(a, row.windowStart, row.windowEnd)]);
  }

  lemma {:induction false} RetryKeeps(env: Env, s: State, todo: seq<Row>, calls: seq<Call>)
    requires Inv(env, s.rows) && |todo| <= |calls| && !RetryUnseals(env, s, todo, calls)
    requires forall i :: 0 <= i < |todo| ==> Known(s.rows, todo[i])
    ensures var r := RetryAll(env, s, todo, calls);
            Inv(env, r.rows) && Grows(s.rows, r.rows) && r.events == s.events
    decreases |todo|
  {
    if todo != [] {
      assert Known(s.rows, todo[0]);
      ArchiveKeeps(env, s, todo[0].windowStart, todo[0].windowEnd, calls[0]);
      var r := Archive(env, s, todo[0].windowStart, todo[0].windowEnd, calls[0]);
      if r.1 {
        StillKnown(s.rows, r.0.rows, todo);
        RetryKeeps(env, r.0, todo[1..], calls[1..]);
        GrowsTransitive(s.rows, r.0.rows, RetryAll(env, r.0, todo[1..], calls[1..]).rows);
      }
    }
  }

  lemma StillKnown(a: seq<Row>, b: seq<Row>, todo: seq<Row>)
    requires Grows(a, b) && todo != [] && forall i :: 0 <= i < |todo| ==> Known(a, todo[i])
    ensures forall i :: 0 <= i < |todo[1..]| ==> Known(b, todo[1..][i])
  {
    forall i | 0 <= i < |todo[1..]| ensures Known(b, todo[1..][i]) {
      KnownStays(a, b, todo[1 + i]);
    }
  }

  lemma {:induction false} RetryBreaks(env: Env, s: State, todo: seq<Row>, calls: seq<Call>)
    requires Inv(env, s.rows) && |todo| <= |calls| && RetryUnseals(env, s, todo, calls)
    requires forall i :: 0 <= i < |todo| ==> Known(s.rows, todo[i])
    ensures !Inv(env, RetryAll(env, s, todo, calls).rows)
    decreases |todo|
  {
    assert Known(s.rows, todo[0]);
    if CallUnseals(env, s.rows, todo[0].windowStart, todo[0].windowEnd, calls[0]) {
      ArchiveUnseals(env, s, todo[0].windowStart, todo[0].windowEnd, calls[0]);
    } else {
      ArchiveKeeps(env, s, todo[0].windowStart, todo[0].windowEnd, calls[0]);
      var r := Archive(env, s, todo[0].windowStart, todo[0].windowEnd, calls[0]);
      StillKnown(s.rows, r.0.rows, todo);
      RetryBreaks(env, r.0, todo[1..], calls[1..]);
    }
  }

  lemma {:induction false} FailedRowsMembers(rows: seq<Row>)
    ensures forall r :: r in FailedRows(rows) ==> r in rows
  {
    if rows != [] { FailedRowsMembers(rows[..|rows| - 1]); }
  }

  lemma ToRetryKnown(rows: seq<Row>)
    ensures forall i :: 0 <= i < |ToRetry(rows)| ==> Known(rows, ToRetry(rows)[i])
  {
    var failed := FailedRows(rows);
    FailedRowsMembers(rows);
    Sorting.SortKeepsElements(failed, ByStart);
    forall i | 0 <= i < |ToRetry(rows)| ensures Known(rows, ToRetry(rows)[i]) {
      Sorting.SameMembers(Sorting.Sort(failed, ByStart), failed, ToRetry(rows)[i]);
      assert ToRetry(rows)[i] in rows;
    }
  }

  lemma VerificationKeeps(env: Env, s: State, id: string, now: int)
    requires Inv(env, s.rows)
    ensures var r := Verification(env, s, id, now).0;
            Inv(env, r.rows) && Grows(s.rows, r.rows) && r.objects == s.objects && r.events == s.events
  {
    var k := RowById(s.rows, id);
    if k < |s.rows| && Check(env, s, s.rows[k], now) == Ok(true) {
      assert s.rows[k].seal.Some? && SealMatches(s.rows[k]);
      ReplaceKeeps(env, s.rows, k, s.rows[k].(status := Verified, verifiedAt := Some(now)));
    }
  }

  lemma StepKeeps(env: Env, s: State, step: Step)
    requires Inv(env, s.rows) && Allowed(env, s, step)
    ensures Inv(env, Apply(env, s, step).rows) && Grows(s.rows, Apply(env, s, step).rows)
  {
    match step {
      case ArchiveDay(windowStart, windowEnd, call) => ArchiveKeeps(env, s, windowStart, windowEnd, call);
      case RetryFailed(a, b, c) =>
        ToRetryKnown(s.rows);
        RetryKeeps(env, s, ToRetry(s.rows), [a, b, c]);
      case VerifyOne(id, now) => VerificationKeeps(env, s, id, now);
      case _ =>
    }
  }

  /** One step keeps the invariant exactly when it takes no seal back. */
  lemma StepKeepsIff(env: Env, s: State, step: Step)
    requires Inv(env, s.rows) && FreshStep(s, step)
    ensures Inv(env, Apply(env, s, step).rows) <==> !StepUnseals(env, s, step)
  {
    if StepUnseals(env, s, step) {
      match step {
        case ArchiveDay(windowStart, windowEnd, call) => ArchiveUnseals(env, s, windowStart, windowEnd, call);
        case RetryFailed(a, b, c) =>
          ToRetryKnown(s.rows);
          RetryBreaks(env, s, ToRetry(s.rows), [a, b, c]);
      }
    } else {
      StepKeeps(env, s, step);
    }
  }

  /**
   * Once a row is sealed its checksums, its link and its signature are never written again, over any run that
   * takes no seal back.
   */
  lemma {:induction false} SealsAreFinal(env: Env, s: State, steps: seq<Step>)
    requires Inv(env, s.rows) && Legal(env, s, steps)
    ensures Inv(env, Run(env, s, steps).rows) && Grows(s.rows, Run(env, s, steps).rows)
  {
    if steps != [] {
      var before := Run(env, s, steps[..|steps| - 1]);
      SealsAreFinal(env, s, steps[..|steps| - 1]);
      StepKeeps(env, before, steps[|steps| - 1]);
      GrowsTransitive(s.rows, before.rows, Run(env, s, steps).rows);
    }
  }

  /** The invariant holds in every state the run passes through. */
  predicate HoldsThroughout(env: Env, s: State, steps: seq<Step>) {
    Inv(env, Run(env, s, steps).rows) && (steps != [] ==> HoldsThroughout(env, s, steps[..|steps| - 1]))
  }

  /**
   * The exact condition over runs: seals and statuses stay in step and every link is sound in each state the run
   * passes through, exactly when no call of the run takes a seal back.
   */
  lemma {:induction false} InvariantIff(env: Env, s: State, steps: seq<Step>)
    requires Inv(env, s.rows) && FreshRun(env, s, steps)
    ensures HoldsThroughout(env, s, steps) <==> Legal(env, s, steps)
  {
    if steps != [] {
      var prefix := steps[..|steps| - 1];
      InvariantIff(env, s, prefix);
      if Inv(env, Run(env, s, prefix).rows) {
        StepKeepsIff(env, Run(env, s, prefix), steps[|steps| - 1]);
      }
    }
  }

  /** A link to a previous manifest always names the checksum of a verified archive that ends earlier, then and ever after. */
  lemma ChainHolds(env: Env, s: State, steps: seq<Step>, later: seq<Step>, k: nat)
    requires Inv(env, s.rows) && Legal(env, s, steps) && Legal(env, Run(env, s, steps), later)
    requires k < |Run(env, s, steps).rows|
    requires Run(env, s, steps).rows[k].seal.Some? && Run(env, s, steps).rows[k].seal.value.previous.Some?
    ensures var row := Run(env, s, steps).rows[k];
            EarlierHas(Run(env, Run(env, s, steps), later).rows, row.windowEnd, row.seal.value.previous.value)
  {
    SealsAreFinal(env, s, steps);
    var mid := Run(env, s, steps);
    SealsAreFinal(env, mid, later);
    LinkedKept(mid.rows, Run(env, mid, later).rows, mid.rows[k]);
  }

  /** A new seal has no link exactly when no row ends earlier or the latest such row is not verified at that moment. */
  lemma LinkMissingIff(env: Env, s: State, k: nat, now: int)
    requires Inv(env, s.rows) && k < |s.rows|
    ensures var p := LatestBefore(s.rows, s.rows[k].windowEnd);
            SealOf(env, s, k, now).previous.None? <==> p.None? || p.value.status != Verified
  {
    var p := LatestBefore(s.rows, s.rows[k].windowEnd);
    if p.Some? {
      var j :| 0 <= j < |s.rows| && s.rows[j] == p.value;
      assert SealMatches(s.rows[j]);
    }
    SealLink(env, s, k, now);
  }
}
