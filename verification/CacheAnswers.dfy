/**
 * What a caller of `getOrSet` is told, over every interleaving from the empty state: each answer is traced to the steps
 * that made it, a value in the cache to the write that put it there.
 */
module CacheAnswers {
  import opened Wrappers
  import opened SingleFlight

  const EMPTY := State(map[], map[], [], [])

  function After(steps: seq<Step>): State { Run(EMPTY, steps) }

  // ----- steps that matter -----

  /** The keys of the calls, in the order they were made. */
  function Calls(steps: seq<Step>): seq<string> {
    if steps == [] then []
    else
      var last := steps[|steps| - 1];
      Calls(steps[..|steps| - 1]) + (if last.Call? then [last.key] else [])
  }

  /** Step `j` is the successful cache write of value `v` that a fetch of the key had ready. */
  predicate WritesAt(steps: seq<Step>, j: nat, key: string, v: Value) {
    j < |steps| && steps[j].WriteEnds? && steps[j].failure.None? &&
    var before := After(steps[..j]);
    steps[j].f < |before.fetches| && before.fetches[steps[j].f].key == key
    && before.fetches[steps[j].f].status == Writing(v)
  }

  /** After step `j` the key neither expires nor is written again. */
  ghost predicate Undisturbed(steps: seq<Step>, j: nat, key: string) {
    forall k :: j < k < |steps| ==> steps[k] != Expire(key) && forall v :: !WritesAt(steps, k, key, v)
  }

  /** The last thing that happened to the key in the cache was the write of `v`. */
  ghost predicate Holds(steps: seq<Step>, key: string, v: Value) {
    exists j: nat :: WritesAt(steps, j, key, v) && Undisturbed(steps, j, key)
  }

  /** Step `i` is the caller's read of its key while the cache held `v`; a stored null counts as nothing. */
  ghost predicate ServedAt(steps: seq<Step>, i: nat, c: nat, key: string, v: Value) {
    i < |steps| && steps[i] == Read(c, None) && v != "null" && Holds(steps[..i], key, v)
  }

  predicate ReadFailsAt(steps: seq<Step>, i: nat, c: nat, e: Failure) { i < |steps| && steps[i] == Read(c, Some(e)) }

  /** Step `i` is the end of the fetch's own factory with this value. */
  predicate ResolvesAt(steps: seq<Step>, i: nat, f: nat, v: Value) { i < |steps| && steps[i] == FactoryEnds(f, Ok(v)) }

  /** The factory resolved at step `i`, and step `j` stored the value under the key. */
  predicate Stores(steps: seq<Step>, i: nat, j: nat, f: nat, key: string, v: Value) {
    i < j < |steps| && ResolvesAt(steps, i, f, v) && steps[j] == WriteEnds(f, None) && WritesAt(steps, j, key, v)
  }

  /** Step `i` started fetch `f`, for a caller that had missed the cache. */
  predicate StartsAt(steps: seq<Step>, i: nat, f: nat, key: string) {
    i < |steps| && steps[i].Continue? &&
    var before := After(steps[..i]);
    |before.fetches| == f && steps[i].c < |before.callers| && before.callers[steps[i].c] == Caller(key, Missed)
    && key !in before.inFlight
  }

  /** Step `i` is where the fetch failed: its factory threw or rejected, or the write after it failed. */
  predicate FailsAt(steps: seq<Step>, i: nat, f: nat, e: Failure) {
    i < |steps| &&
    match steps[i]
    case Continue(_, thrown) => thrown == Some(e) && |After(steps[..i]).fetches| == f
    case FactoryEnds(g, r) => g == f && r == Err(e)
    case WriteEnds(g, failure) => g == f && failure == Some(e)
    case _ => false
  }

  // ----- a longer run keeps what happened -----

  lemma Earlier(steps: seq<Step>, more: seq<Step>, k: nat)
    requires k <= |steps|
    ensures (steps + more)[..k] == steps[..k]
  {
  }

  lemma SamePast(steps: seq<Step>, last: Step, j: nat, key: string, v: Value)
    requires j < |steps|
    ensures WritesAt(steps + [last], j, key, v) == WritesAt(steps, j, key, v)
  {
    Earlier(steps, [last], j);
  }

  /** What one more step does to the last write of a key. */
  lemma HoldsStep(steps: seq<Step>, last: Step, key: string, v: Value)
    ensures Holds(steps + [last], key, v)
            <==> WritesAt(steps + [last], |steps|, key, v)
                 || (Holds(steps, key, v) && last != Expire(key)
                     && forall u :: !WritesAt(steps + [last], |steps|, key, u))
  {
    var longer := steps + [last];
    forall j: nat, u | j < |steps| ensures WritesAt(longer, j, key, u) == WritesAt(steps, j, key, u) {
      SamePast(steps, last, j, key, u);
    }
    if WritesAt(longer, |steps|, key, v) {
      assert Undisturbed(longer, |steps|, key);
    }
    if Holds(longer, key, v) && !WritesAt(longer, |steps|, key, v) {
      var j: nat :| WritesAt(longer, j, key, v) && Undisturbed(longer, j, key);
      forall k | j < k < |steps| ensures steps[k] != Expire(key) && forall u :: !WritesAt(steps, k, key, u) {
        assert longer[k] == steps[k];
      }
      assert WritesAt(steps, j, key, v) && Undisturbed(steps, j, key);
    }
    if Holds(steps, key, v) && last != Expire(key) && forall u :: !WritesAt(longer, |steps|, key, u) {
      var j: nat :| WritesAt(steps, j, key, v) && Undisturbed(steps, j, key);
      assert WritesAt(longer, j, key, v) && Undisturbed(longer, j, key);
    }
  }

  // ----- the cache -----

  /** The cache holds a value under a key exactly when its write was the last thing that happened to the key. */
  lemma {:induction false} CacheHoldsIff(steps: seq<Step>, key: string, v: Value)
    ensures key in After(steps).redis && After(steps).redis[key] == v <==> Holds(steps, key, v)
  {
    if steps != [] {
      var before, last := steps[..|steps| - 1], steps[|steps| - 1];
      CacheHoldsIff(before, key, v);
      assert steps == before + [last];
      HoldsStep(before, last, key, v);
      CacheStep(steps, key, v);
    }
  }

  lemma CacheStep(steps: seq<Step>, key: string, v: Value)
    requires steps != []
    ensures var n := |steps| - 1;
            var before, after := After(steps[..n]).redis, After(steps).redis;
            key in after && after[key] == v
            <==> WritesAt(steps, n, key, v)
                 || (key in before && before[key] == v && steps[n] != Expire(key)
                     && forall u :: !WritesAt(steps, n, key, u))
  {
    var n := |steps| - 1;
    var before := After(steps[..n]);
    if steps[n].WriteEnds? && steps[n].f < |before.fetches| && before.fetches[steps[n].f].status.Writing? {
      var fetch := before.fetches[steps[n].f];
      assert steps[n].failure.None? ==> WritesAt(steps, n, fetch.key, fetch.status.v);
    }
  }

  // ----- the callers -----

  lemma {:induction false} CallersAreCalls(steps: seq<Step>)
    ensures |After(steps).callers| == |Calls(steps)|
    ensures forall c :: 0 <= c < |Calls(steps)| ==> After(steps).callers[c].key == Calls(steps)[c]
  {
    if steps != [] {
      CallersAreCalls(steps[..|steps| - 1]);
    }
  }

  /** A caller that has its answer, or has it in hand, without a fetch. */
  ghost predicate OwnAnswerExplained(steps: seq<Step>, c: nat, caller: Caller) {
    match caller.phase
    case Hit(v) => exists i :: ServedAt(steps, i, c, caller.key, v)
    case Returned(Ok(v), None) => exists i :: ServedAt(steps, i, c, caller.key, v)
    case Returned(Err(e), None) => exists i :: ReadFailsAt(steps, i, c, e)
    case _ => true
  }

  lemma StillExplained(steps: seq<Step>, last: Step, c: nat, caller: Caller)
    requires OwnAnswerExplained(steps, c, caller)
    ensures OwnAnswerExplained(steps + [last], c, caller)
  {
    match caller.phase {
      case Hit(v) =>
        var i :| ServedAt(steps, i, c, caller.key, v);
        Earlier(steps, [last], i);
        assert ServedAt(steps + [last], i, c, caller.key, v);
      case Returned(Ok(v), None) =>
        var i :| ServedAt(steps, i, c, caller.key, v);
        Earlier(steps, [last], i);
        assert ServedAt(steps + [last], i, c, caller.key, v);
      case Returned(Err(e), None) =>
        var i :| ReadFailsAt(steps, i, c, e);
        assert ReadFailsAt(steps + [last], i, c, e);
      case _ =>
    }
  }

  lemma ReadExplained(steps: seq<Step>, last: Step, c: nat)
    requires last.Read? && last.c == c && c < |After(steps).callers| && After(steps).callers[c].phase.Reading?
    ensures OwnAnswerExplained(steps + [last], c, Apply(After(steps), last).callers[c])
  {
    var s, longer := After(steps), steps + [last];
    var key := s.callers[c].key;
    assert longer[..|steps|] == steps;
    if last.failure.Some? {
      assert ReadFailsAt(longer, |steps|, c, last.failure.value);
    } else if Cached(s.redis, key) {
      CacheHoldsIff(steps, key, s.redis[key]);
      assert ServedAt(longer, |steps|, c, key, s.redis[key]);
    }
  }

  /** The same value in hand and returned. */
  lemma HitReturned(steps: seq<Step>, c: nat, key: string, v: Value)
    requires OwnAnswerExplained(steps, c, Caller(key, Hit(v)))
    ensures OwnAnswerExplained(steps, c, Caller(key, Returned(Ok(v), None)))
  {
  }

  /** One more step explains what it does to a caller. */
  lemma CallerStep(steps: seq<Step>, last: Step, c: nat)
    requires c < |After(steps).callers| && OwnAnswerExplained(steps, c, After(steps).callers[c])
    ensures OwnAnswerExplained(steps + [last], c, Apply(After(steps), last).callers[c])
  {
    var s := After(steps);
    StillExplained(steps, last, c, s.callers[c]);
    if Apply(s, last).callers[c] != s.callers[c] {
      match last {
        case Read(_, _) => ReadExplained(steps, last, c);
        case Continue(_, _) =>
          if s.callers[c].phase.Hit? { HitReturned(steps + [last], c, s.callers[c].key, s.callers[c].phase.v); }
        case Deliver(_) =>
      }
    }
  }

  lemma {:induction false} OwnAnswers(steps: seq<Step>, c: nat)
    requires c < |After(steps).callers|
    ensures OwnAnswerExplained(steps, c, After(steps).callers[c])
  {
    var before, last := steps[..|steps| - 1], steps[|steps| - 1];
    assert steps == before + [last];
    if c < |After(before).callers| {
      OwnAnswers(before, c);
      CallerStep(before, last, c);
    }
  }

  // ----- the fetches -----

  ghost predicate FetchExplained(steps: seq<Step>, f: nat, fetch: Fetch) {
    && (exists i :: StartsAt(steps, i, f, fetch.key))
    && match fetch.status
       case Running => true
       case Writing(v) => exists i :: ResolvesAt(steps, i, f, v)
       case Settled(Ok(v)) => exists i, j :: Stores(steps, i, j, f, fetch.key, v)
       case Settled(Err(e)) => exists i :: FailsAt(steps, i, f, e)
  }

  lemma FetchStays(steps: seq<Step>, last: Step, f: nat, fetch: Fetch)
    requires FetchExplained(steps, f, fetch)
    ensures FetchExplained(steps + [last], f, fetch)
  {
    var longer := steps + [last];
    var i :| StartsAt(steps, i, f, fetch.key);
    Earlier(steps, [last], i);
    assert StartsAt(longer, i, f, fetch.key);
    match fetch.status {
      case Running =>
      case Writing(v) =>
        var k :| ResolvesAt(steps, k, f, v);
        assert ResolvesAt(longer, k, f, v);
      case Settled(Ok(v)) =>
        var k, l :| Stores(steps, k, l, f, fetch.key, v);
        assert ResolvesAt(longer, k, f, v);
        SamePast(steps, last, l, fetch.key, v);
        assert Stores(longer, k, l, f, fetch.key, v);
      case Settled(Err(e)) =>
        var k :| FailsAt(steps, k, f, e);
        Earlier(steps, [last], k);
        assert FailsAt(longer, k, f, e);
    }
  }

  lemma FetchStarts(steps: seq<Step>, last: Step)
    requires |Apply(After(steps), last).fetches| > |After(steps).fetches|
    ensures var f := |After(steps).fetches|; FetchExplained(steps + [last], f, Apply(After(steps), last).fetches[f])
  {
    var s, longer := After(steps), steps + [last];
    assert longer[..|steps|] == steps;
    var f := |s.fetches|;
    var fetch := Apply(s, last).fetches[f];
    assert StartsAt(longer, |steps|, f, fetch.key);
    if fetch.status.Settled? {
      assert FailsAt(longer, |steps|, f, fetch.status.r.error);
    }
  }

  lemma FetchMoves(steps: seq<Step>, last: Step, f: nat)
    requires f < |After(steps).fetches| && FetchExplained(steps, f, After(steps).fetches[f])
    requires Apply(After(steps), last).fetches[f] != After(steps).fetches[f]
    ensures FetchExplained(steps + [last], f, Apply(After(steps), last).fetches[f])
  {
    var s, longer := After(steps), steps + [last];
    var fetch := Apply(s, last).fetches[f];
    FetchStays(steps, last, f, s.fetches[f]);
    match last {
      case FactoryEnds(g, r) =>
        if r.Ok? {
          assert ResolvesAt(longer, |steps|, f, r.value);
        } else {
          assert FailsAt(longer, |steps|, f, r.error);
        }
      case WriteEnds(g, failure) =>
        if failure.Some? {
          assert FailsAt(longer, |steps|, f, failure.value);
        } else {
          var v := s.fetches[f].status.v;
          var i :| ResolvesAt(steps, i, f, v);
          assert ResolvesAt(longer, i, f, v);
          assert WritesAt(longer, |steps|, fetch.key, v);
          assert Stores(longer, i, |steps|, f, fetch.key, v);
        }
    }
  }

  /** One more step explains what it does to a fetch. */
  lemma FetchStep(steps: seq<Step>, last: Step, f: nat)
    requires f < |After(steps).fetches| && FetchExplained(steps, f, After(steps).fetches[f])
    ensures FetchExplained(steps + [last], f, Apply(After(steps), last).fetches[f])
  {
    if Apply(After(steps), last).fetches[f] == After(steps).fetches[f] {
      FetchStays(steps, last, f, After(steps).fetches[f]);
    } else {
      FetchMoves(steps, last, f);
    }
  }

  lemma {:induction false} FetchHistory(steps: seq<Step>, f: nat)
    requires f < |After(steps).fetches|
    ensures FetchExplained(steps, f, After(steps).fetches[f])
  {
    var before, last := steps[..|steps| - 1], steps[|steps| - 1];
    assert steps == before + [last];
    NewFetchWasFree(After(before), last);
    if f < |After(before).fetches| {
      FetchHistory(before, f);
      FetchStep(before, last, f);
    } else {
      FetchStarts(before, last);
    }
  }

  // ----- the answers -----

  /**
   * Over every run: a caller's key is that of its call, and its answer is one of four. Without a fetch, the value the cache
   * held when it read, or its own read's failure. With a fetch of its key, the value that fetch's factory resolved with and
   * its write then stored, or the failure of that factory or that write.
   */
  lemma AnswersExplained(steps: seq<Step>, c: nat)
    requires c < |After(steps).callers| && After(steps).callers[c].phase.Returned?
    ensures c < |Calls(steps)|
    ensures var key, phase := Calls(steps)[c], After(steps).callers[c].phase;
            match (phase.r, phase.via)
            case (Ok(v), None) => exists i :: ServedAt(steps, i, c, key, v)
            case (Err(e), None) => exists i :: ReadFailsAt(steps, i, c, e)
            case (Ok(v), Some(f)) =>
              (exists i :: StartsAt(steps, i, f, key)) && (exists i, j :: Stores(steps, i, j, f, key, v))
            case (Err(e), Some(f)) =>
              (exists i :: StartsAt(steps, i, f, key)) && (exists i :: FailsAt(steps, i, f, e))
  {
    CallersAreCalls(steps);
    OwnAnswers(steps, c);
    RunKeeps(EMPTY, steps);
    var phase := After(steps).callers[c].phase;
    if phase.via.Some? {
      FetchHistory(steps, phase.via.value);
    }
  }

  /** A call that reads and goes on is answered at once exactly when the cache holds a value, and then with that value. */
  lemma ReadThenReturns(steps: seq<Step>, c: nat, key: string, thrown: Option<Failure>, v: Value)
    requires c < |After(steps).callers| && After(steps).callers[c] == Caller(key, Reading)
    ensures var callers := After(steps + [Read(c, None), Continue(c, thrown)]).callers;
            c < |callers| && (callers[c].phase == Returned(Ok(v), None) <==> Holds(steps, key, v) && v != "null")
  {
    var first := steps + [Read(c, None)];
    var both := steps + [Read(c, None), Continue(c, thrown)];
    assert both[..|both| - 1] == first && first[..|first| - 1] == steps;
    CacheHoldsIff(steps, key, v);
    var s := After(steps);
    assert After(first) == Apply(s, Read(c, None)) && After(both) == Apply(After(first), Continue(c, thrown));
  }

  /** A call whose read fails is answered with that failure at once. */
  lemma ReadFailureReturns(steps: seq<Step>, c: nat, key: string, e: Failure)
    requires c < |After(steps).callers| && After(steps).callers[c] == Caller(key, Reading)
    ensures var after, s := After(steps + [Read(c, Some(e))]), After(steps);
            after == s.(callers := s.callers[c := Caller(key, Returned(Err(e), None))])
  {
    assert (steps + [Read(c, Some(e))])[..|steps|] == steps;
  }

  /**
   * A call that finds nothing in the cache, or a stored null, and goes on waits for the fetch of its key that is under way,
   * and starts one if there is none.
   */
  lemma NothingHeldWaits(steps: seq<Step>, c: nat, key: string, thrown: Option<Failure>)
    requires c < |After(steps).callers| && After(steps).callers[c] == Caller(key, Reading)
    requires forall v :: Holds(steps, key, v) ==> v == "null"
    ensures var s, after := After(steps), After(steps + [Read(c, None), Continue(c, thrown)]);
            var f := if key in s.inFlight then s.inFlight[key] else |s.fetches|;
            && after.callers == s.callers[c := Caller(key, Joined(f))]
            && (key in s.inFlight ==> after.fetches == s.fetches && after.inFlight == s.inFlight)
            && (key !in s.inFlight ==>
                  && |after.fetches| == |s.fetches| + 1 && after.fetches[..|s.fetches|] == s.fetches
                  && after.fetches[f].key == key && after.inFlight == s.inFlight[key := f])
  {
    var s, first := After(steps), steps + [Read(c, None)];
    var both := steps + [Read(c, None), Continue(c, thrown)];
    assert both[..|both| - 1] == first && first[..|first| - 1] == steps;
    if key in s.redis { CacheHoldsIff(steps, key, s.redis[key]); }
    assert After(first) == Apply(s, Read(c, None)) && After(both) == Apply(After(first), Continue(c, thrown));
  }

  /** A miss with no fetch under way, fetched and delivered undisturbed: the caller gets the factory's value, and it is cached. */
  lemma MissFetches(s: State, c: nat, key: string, v: Value)
    requires c < |s.callers| && s.callers[c] == Caller(key, Missed) && key !in s.inFlight
    ensures var f := |s.fetches|;
            var end := Apply(Apply(Apply(Apply(s, Continue(c, None)), FactoryEnds(f, Ok(v))), WriteEnds(f, None)), Deliver(c));
            && end.callers == s.callers[c := Caller(key, Returned(Ok(v), Some(f)))]
            && end.redis == s.redis[key := v] && key !in end.inFlight
  {
  }

  /** A miss while a fetch of the key is under way starts nothing: the caller waits for that fetch and gets its result. */
  lemma MissJoins(s: State, c: nat, key: string, thrown: Option<Failure>)
    requires Inv(s) && c < |s.callers| && s.callers[c] == Caller(key, Missed) && key in s.inFlight
    ensures var f, joined := s.inFlight[key], Apply(s, Continue(c, thrown));
            && joined == s.(callers := s.callers[c := Caller(key, Joined(f))])
            && f < |s.fetches|
            && (s.fetches[f].status.Settled? ==>
                  Apply(joined, Deliver(c)).callers[c] == Caller(key, Returned(s.fetches[f].status.r, Some(f))))
            && (!s.fetches[f].status.Settled? ==> Apply(joined, Deliver(c)) == joined)
  {
  }
}
