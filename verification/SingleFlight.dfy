/**
 * `getOrSet`: concurrent callers of one key share one upstream fetch. Each
 * method below is one uninterrupted stretch of the service between two awaits;
 * a run is any interleaving of such stretches for any number of callers.
 */
module SingleFlight {
  import opened Wrappers

  /** A value as its JSON text. */
  type Value = string
  type Failure = string

  /** A stored null is taken for a miss. */
  predicate Cached(redis: map<string, Value>, key: string) { key in redis && redis[key] != "null" }

  /** A fetch runs its factory, then writes the cache, then settles. */
  datatype Status = Running | Writing(v: Value) | Settled(r: Result<Value, Failure>)

  /** `threwSync`: the factory threw before returning a promise. */
  datatype Fetch = Fetch(key: string, status: Status, threwSync: bool)

  datatype Phase =
    | Reading
    | Hit(v: Value)
    | Missed
    | Joined(fetch: nat)
    | Returned(r: Result<Value, Failure>, via: Option<nat>)

  datatype Caller = Caller(key: string, phase: Phase)

  datatype State = State(
    redis: map<string, Value>,
    inFlight: map<string, nat>,
    fetches: seq<Fetch>,
    callers: seq<Caller>)

  datatype Step =
    | Call(key: string)
    | Read(c: nat, failure: Option<Failure>)
    | Continue(c: nat, syncThrow: Option<Failure>)
    | FactoryEnds(f: nat, r: Result<Value, Failure>)
    | WriteEnds(f: nat, failure: Option<Failure>)
    | Deliver(c: nat)
    | Expire(key: string)

  function Move(s: State, c: nat, phase: Phase): State
    requires c < |s.callers|
  {
    s.(callers := s.callers[c := s.callers[c].(phase := phase)])
  }

  /** The `finally` of a fetch: whatever the map holds under the key is removed. */
  function Settle(s: State, f: nat, r: Result<Value, Failure>): State
    requires f < |s.fetches|
  {
    s.(fetches := s.fetches[f := s.fetches[f].(status := Settled(r))], inFlight := s.inFlight - {s.fetches[f].key})
  }

  /** Starting a fetch: the removal of a synchronous throw runs before the map is set. */
  function Start(s: State, key: string, syncThrow: Option<Failure>): State {
    var fetch :=
      if syncThrow.Some? then Fetch(key, Settled(Err(syncThrow.value)), true) else Fetch(key, Running, false);
    s.(fetches := s.fetches + [fetch], inFlight := s.inFlight[key := |s.fetches|])
  }

  function Apply(s: State, step: Step): State {
    match step
    case Call(key) => s.(callers := s.callers + [Caller(key, Reading)])
    case Read(c, failure) =>
      if c >= |s.callers| || !s.callers[c].phase.Reading? then s
      else if failure.Some? then Move(s, c, Returned(Err(failure.value), None))
      else if Cached(s.redis, s.callers[c].key) then Move(s, c, Hit(s.redis[s.callers[c].key]))
      else Move(s, c, Missed)
    case Continue(c, syncThrow) =>
      if c >= |s.callers| then s
      else if s.callers[c].phase.Hit? then Move(s, c, Returned(Ok(s.callers[c].phase.v), None))
      else if !s.callers[c].phase.Missed? then s
      else if s.callers[c].key in s.inFlight then Move(s, c, Joined(s.inFlight[s.callers[c].key]))
      else Move(Start(s, s.callers[c].key, syncThrow), c, Joined(|s.fetches|))
    case FactoryEnds(f, r) =>
      if f >= |s.fetches| || !s.fetches[f].status.Running? then s
      else if r.Err? then Settle(s, f, r)
      else s.(fetches := s.fetches[f := s.fetches[f].(status := Writing(r.value))])
    case WriteEnds(f, failure) =>
      if f >= |s.fetches| || !s.fetches[f].status.Writing? then s
      else if failure.Some? then Settle(s, f, Err(failure.value))
      else
        var v := s.fetches[f].status.v;
        Settle(s.(redis := s.redis[s.fetches[f].key := v]), f, Ok(v))
    case Deliver(c) =>
      if c >= |s.callers| || !s.callers[c].phase.Joined? then s
      else
        var f := s.callers[c].phase.fetch;
        if f >= |s.fetches| || !s.fetches[f].status.Settled? then s
        else Move(s, c, Returned(s.fetches[f].status.r, Some(f)))
    case Expire(key) => s.(redis := s.redis - {key})
  }

  class CacheService {
    var redis: map<string, Value>
    var inFlight: map<string, nat>
    var fetches: seq<Fetch>
    var callers: seq<Caller>

    ghost function View(): State
      reads this
    {
      State(redis, inFlight, fetches, callers)
    }

    constructor ()
      ensures View() == State(map[], map[], [], [])
    {
      redis, inFlight, fetches, callers := map[], map[], [], [];
    }

    method GetOrSet(key: string) returns (c: nat)
      modifies this`callers
      ensures View() == Apply(old(View()), Call(key)) && c == |old(callers)|
    {
      c := |callers|;
      callers := callers + [Caller(key, Reading)];
    }

    /** The cache answers, or the read fails and the call with it. */
    method ReadCached(c: nat, failure: Option<Failure>)
      requires c < |callers| && callers[c].phase.Reading?
      modifies this`callers
      ensures View() == Apply(old(View()), Read(c, failure))
    {
      var key := callers[c].key;
      var phase :=
        if failure.Some? then Returned(Err(failure.value), None)
        else if Cached(redis, key) then Hit(redis[key])
        else Missed;
      callers := callers[c := Caller(key, phase)];
    }

    /** From the answer to the returned promise: hit, join, or start a fetch. */
    method ContinueGetOrSet(c: nat, syncThrow: Option<Failure>)
      requires c < |callers| && (callers[c].phase.Hit? || callers[c].phase.Missed?)
      modifies this
      ensures View() == Apply(old(View()), Continue(c, syncThrow))
    {
      var key := callers[c].key;
      match callers[c].phase {
        case Hit(v) =>
          callers := callers[c := Caller(key, Returned(Ok(v), None))];
        case Missed =>
          if key in inFlight {
            callers := callers[c := Caller(key, Joined(inFlight[key]))];
          } else {
            var pending := |fetches|;
            if syncThrow.Some? {
              // the fetch is over, and its entry removed, before there is an entry
              fetches := fetches + [Fetch(key, Settled(Err(syncThrow.value)), true)];
              inFlight := inFlight - {key};
            } else {
              fetches := fetches + [Fetch(key, Running, false)];
            }
            inFlight := inFlight[key := pending];
            callers := callers[c := Caller(key, Joined(pending))];
          }
      }
    }

    /** The factory's promise settles. */
    method FactorySettles(f: nat, r: Result<Value, Failure>)
      requires f < |fetches| && fetches[f].status.Running?
      modifies this`fetches, this`inFlight
      ensures View() == Apply(old(View()), FactoryEnds(f, r))
    {
      var fetch := fetches[f];
      if r.Ok? {
        fetches := fetches[f := fetch.(status := Writing(r.value))];
      } else {
        fetches := fetches[f := fetch.(status := Settled(r))];
        inFlight := inFlight - {fetch.key};
      }
    }

    /** The cache write that follows a successful factory settles. */
    method WriteSettles(f: nat, failure: Option<Failure>)
      requires f < |fetches| && fetches[f].status.Writing?
      modifies this`redis, this`fetches, this`inFlight
      ensures View() == Apply(old(View()), WriteEnds(f, failure))
    {
      var fetch := fetches[f];
      var r: Result<Value, Failure>;
      if failure.Some? {
        r := Err(failure.value);
      } else {
        redis := redis[fetch.key := fetch.status.v];
        r := Ok(fetch.status.v);
      }
      fetches := fetches[f := fetch.(status := Settled(r))];
      inFlight := inFlight - {fetch.key};
    }
  }

  // ----- every interleaving -----

  function Run(s: State, steps: seq<Step>): State {
    if steps == [] then s else Apply(Run(s, steps[..|steps| - 1]), steps[|steps| - 1])
  }

  predicate Pending(s: State, f: nat) { f < |s.fetches| && !s.fetches[f].status.Settled? }

  /** A pending fetch, or one whose factory threw synchronously, is what the map holds under its key, and nothing else is. */
  ghost predicate MapExact(s: State) {
    && (forall key :: key in s.inFlight ==>
          var f := s.inFlight[key];
          f < |s.fetches| && s.fetches[f].key == key && (Pending(s, f) || s.fetches[f].threwSync))
    && (forall f :: 0 <= f < |s.fetches| && (Pending(s, f) || s.fetches[f].threwSync) ==>
          s.fetches[f].key in s.inFlight && s.inFlight[s.fetches[f].key] == f)
    && (forall f :: 0 <= f < |s.fetches| && s.fetches[f].threwSync ==>
          s.fetches[f].status.Settled? && s.fetches[f].status.r.Err?)
  }

  ghost predicate CallersExact(s: State) {
    forall c :: 0 <= c < |s.callers| ==>
      match s.callers[c].phase
      case Joined(f) => f < |s.fetches| && s.fetches[f].key == s.callers[c].key
      case Returned(r, Some(f)) =>
        f < |s.fetches| && s.fetches[f].key == s.callers[c].key && s.fetches[f].status == Settled(r)
      case _ => true
  }

  ghost predicate Inv(s: State) { MapExact(s) && CallersExact(s) }

  /** Settled fetches, and answers already returned, never change; joined callers stay with their fetch. */
  ghost predicate Onward(s: State, s': State) {
    && |s.fetches| <= |s'.fetches| && |s.callers| <= |s'.callers|
    && (forall f :: 0 <= f < |s.fetches| ==>
          s'.fetches[f].key == s.fetches[f].key && s'.fetches[f].threwSync == s.fetches[f].threwSync)
    && (forall f :: 0 <= f < |s.fetches| && s.fetches[f].status.Settled? ==> s'.fetches[f] == s.fetches[f])
    && (forall c :: 0 <= c < |s.callers| ==> s'.callers[c].key == s.callers[c].key)
    && (forall c :: 0 <= c < |s.callers| && s.callers[c].phase.Returned? ==> s'.callers[c] == s.callers[c])
    && (forall c :: 0 <= c < |s.callers| && s.callers[c].phase.Joined? ==>
          || s'.callers[c] == s.callers[c]
          || (s'.callers[c].phase.Returned? && s'.callers[c].phase.via == Some(s.callers[c].phase.fetch)))
  }

  lemma SettleKeepsMap(s: State, f: nat, r: Result<Value, Failure>)
    requires MapExact(s) && Pending(s, f)
    ensures MapExact(Settle(s, f, r))
  {
    var s' := Settle(s, f, r);
    forall key | key in s'.inFlight
      ensures var g := s'.inFlight[key];
              g < |s'.fetches| && s'.fetches[g].key == key && (Pending(s', g) || s'.fetches[g].threwSync)
    {
      assert key in s.inFlight && key != s.fetches[f].key;
    }
  }

  lemma StartKeepsMap(s: State, key: string, syncThrow: Option<Failure>)
    requires MapExact(s) && key !in s.inFlight
    ensures MapExact(Start(s, key, syncThrow))
  {
    var s' := Start(s, key, syncThrow);
    forall f | 0 <= f < |s.fetches| ensures s'.fetches[f] == s.fetches[f] {}
  }

  /** The map depends on the fetches and itself only. */
  lemma SameMap(s: State, s': State)
    requires MapExact(s) && s'.fetches == s.fetches && s'.inFlight == s.inFlight
    ensures MapExact(s')
  {
    assert forall f: nat :: Pending(s', f) == Pending(s, f);
  }

  lemma WritingKeepsMap(s: State, f: nat, v: Value)
    requires MapExact(s) && f < |s.fetches| && s.fetches[f].status.Running?
    ensures MapExact(s.(fetches := s.fetches[f := s.fetches[f].(status := Writing(v))]))
  {
    var s' := s.(fetches := s.fetches[f := s.fetches[f].(status := Writing(v))]);
    assert forall g: nat :: Pending(s', g) == Pending(s, g);
  }

  lemma ContinueKeepsMap(s: State, c: nat, syncThrow: Option<Failure>)
    requires MapExact(s)
    ensures MapExact(Apply(s, Continue(c, syncThrow)))
  {
    var s' := Apply(s, Continue(c, syncThrow));
    if s'.fetches == s.fetches {
      SameMap(s, s');
    } else {
      StartKeepsMap(s, s.callers[c].key, syncThrow);
      SameMap(Start(s, s.callers[c].key, syncThrow), s');
    }
  }

  lemma FactoryKeepsMap(s: State, f: nat, r: Result<Value, Failure>)
    requires MapExact(s)
    ensures MapExact(Apply(s, FactoryEnds(f, r)))
  {
    if f < |s.fetches| && s.fetches[f].status.Running? {
      if r.Err? {
        SettleKeepsMap(s, f, r);
      } else {
        WritingKeepsMap(s, f, r.value);
      }
    }
  }

  lemma WriteKeepsMap(s: State, f: nat, failure: Option<Failure>)
    requires MapExact(s)
    ensures MapExact(Apply(s, WriteEnds(f, failure)))
  {
    if f < |s.fetches| && s.fetches[f].status.Writing? {
      var r := if failure.Some? then Err(failure.value) else Ok(s.fetches[f].status.v);
      SettleKeepsMap(s, f, r);
      SameMap(Settle(s, f, r), Apply(s, WriteEnds(f, failure)));
    }
  }

  lemma StepKeepsMap(s: State, step: Step)
    requires Inv(s)
    ensures MapExact(Apply(s, step))
  {
    match step
    case Continue(c, syncThrow) => ContinueKeepsMap(s, c, syncThrow);
    case FactoryEnds(f, r) => FactoryKeepsMap(s, f, r);
    case WriteEnds(f, failure) => WriteKeepsMap(s, f, failure);
    case _ => SameMap(s, Apply(s, step));
  }

  lemma ContinueKeepsCallers(s: State, c: nat, syncThrow: Option<Failure>)
    requires Inv(s)
    ensures CallersExact(Apply(s, Continue(c, syncThrow)))
  {
  }

  lemma SettleKeepsCallers(s: State, f: nat, r: Result<Value, Failure>)
    requires CallersExact(s) && Pending(s, f)
    ensures CallersExact(Settle(s, f, r))
  {
  }

  lemma StepKeepsCallers(s: State, step: Step)
    requires Inv(s)
    ensures CallersExact(Apply(s, step))
  {
    match step {
      case Continue(c, syncThrow) => ContinueKeepsCallers(s, c, syncThrow);
      case FactoryEnds(f, r) =>
        if f < |s.fetches| && s.fetches[f].status.Running? && r.Err? {
          SettleKeepsCallers(s, f, r);
        }
      case WriteEnds(f, failure) =>
        if f < |s.fetches| && s.fetches[f].status.Writing? {
          SettleKeepsCallers(s, f, if failure.Some? then Err(failure.value) else Ok(s.fetches[f].status.v));
        }
      case _ =>
    }
  }

  lemma {:induction false} RunKeeps(s: State, steps: seq<Step>)
    requires Inv(s)
    ensures Inv(Run(s, steps)) && Onward(s, Run(s, steps))
  {
    if steps != [] {
      var before := Run(s, steps[..|steps| - 1]);
      RunKeeps(s, steps[..|steps| - 1]);
      StepKeepsMap(before, steps[|steps| - 1]);
      StepKeepsCallers(before, steps[|steps| - 1]);
      StepOnward(before, steps[|steps| - 1]);
    }
  }

  lemma MoveOnward(s: State, c: nat, phase: Phase)
    requires c < |s.callers| && !s.callers[c].phase.Returned?
    requires s.callers[c].phase.Joined? ==> phase.Returned? && phase.via == Some(s.callers[c].phase.fetch)
    ensures Onward(s, Move(s, c, phase))
  {
  }

  lemma SettleOnward(s: State, f: nat, r: Result<Value, Failure>)
    requires f < |s.fetches| && !s.fetches[f].status.Settled?
    ensures Onward(s, Settle(s, f, r))
  {
  }

  lemma StartOnward(s: State, c: nat, key: string, syncThrow: Option<Failure>)
    requires c < |s.callers| && s.callers[c].phase.Missed?
    ensures Onward(s, Move(Start(s, key, syncThrow), c, Joined(|s.fetches|)))
  {
    MoveOnward(Start(s, key, syncThrow), c, Joined(|s.fetches|));
  }

  lemma ContinueOnward(s: State, c: nat, syncThrow: Option<Failure>)
    ensures Onward(s, Apply(s, Continue(c, syncThrow)))
  {
    if c < |s.callers| && s.callers[c].phase.Missed? {
      var key := s.callers[c].key;
      if key in s.inFlight {
        MoveOnward(s, c, Joined(s.inFlight[key]));
      } else {
        StartOnward(s, c, key, syncThrow);
      }
    }
  }

  lemma FactoryEndsOnward(s: State, f: nat, r: Result<Value, Failure>)
    ensures Onward(s, Apply(s, FactoryEnds(f, r)))
  {
    if f < |s.fetches| && s.fetches[f].status.Running? && r.Err? {
      SettleOnward(s, f, r);
    }
  }

  lemma WriteEndsOnward(s: State, f: nat, failure: Option<Failure>)
    ensures Onward(s, Apply(s, WriteEnds(f, failure)))
  {
    if f < |s.fetches| && s.fetches[f].status.Writing? {
      var r := if failure.Some? then Err(failure.value) else Ok(s.fetches[f].status.v);
      SettleOnward(s, f, r);
    }
  }

  lemma StepOnward(s: State, step: Step)
    ensures Onward(s, Apply(s, step))
  {
    match step {
      case Continue(c, syncThrow) => ContinueOnward(s, c, syncThrow);
      case FactoryEnds(f, r) => FactoryEndsOnward(s, f, r);
      case WriteEnds(f, failure) => WriteEndsOnward(s, f, failure);
      case _ =>
    }
  }

  /**
   * In every interleaving at most one fetch per key is under way, and the map names a key exactly
   * while a fetch of it is pending (or for ever, once one threw synchronously).
   */
  lemma AtMostOneFetch(steps: seq<Step>, f: nat, g: nat, key: string)
    ensures var s := Run(State(map[], map[], [], []), steps);
            && (Pending(s, f) && Pending(s, g) && s.fetches[f].key == s.fetches[g].key ==> f == g)
            && (key in s.inFlight <==>
                  exists h :: 0 <= h < |s.fetches| && s.fetches[h].key == key && (Pending(s, h) || s.fetches[h].threwSync))
  {
    RunKeeps(State(map[], map[], [], []), steps);
  }

  /**
   * Whoever joined a fetch and has returned was given that fetch's own outcome, be it the value or the
   * rejection; so all who joined it were given the same.
   */
  lemma JoinersShareOutcome(s: State, steps: seq<Step>, c: nat, f: nat)
    requires Inv(s) && c < |s.callers| && s.callers[c].phase == Joined(f)
    ensures var s' := Run(s, steps);
            && c < |s'.callers| && f < |s'.fetches|
            && (s'.callers[c].phase.Returned? ==> s'.fetches[f].status == Settled(s'.callers[c].phase.r))
  {
    RunKeeps(s, steps);
  }

  /** When a fetch settles, with a value or a rejection, its key is free and the next miss starts a new one. */
  lemma SettlingFreesKey(s: State, step: Step, f: nat, c: nat)
    requires Inv(s) && Pending(s, f) && !Pending(Apply(s, step), f)
    requires c < |s.callers| && s.callers[c] == Caller(s.fetches[f].key, Missed)
    ensures var s' := Apply(s, step);
            && s.fetches[f].key !in s'.inFlight
            && s'.callers[c] == s.callers[c]
            && Apply(s', Continue(c, None)).callers[c].phase == Joined(|s'.fetches|)
            && Apply(s', Continue(c, None)).fetches[|s'.fetches|] == Fetch(s.fetches[f].key, Running, false)
  {
  }

  /**
   * The exception to that. A factory that throws synchronously leaves its rejected promise in the map: in every
   * later state it is still there, no fetch of the key ever starts again, and every caller that misses the cache joins it.
   */
  lemma SyncThrowSticks(s: State, steps: seq<Step>, f: nat)
    requires Inv(s) && f < |s.fetches| && s.fetches[f].threwSync
    ensures var s' := Run(s, steps);
            && f < |s'.fetches| && s'.fetches[f] == s.fetches[f]
            && s.fetches[f].status.Settled? && s.fetches[f].status.r.Err?
            && s.fetches[f].key in s'.inFlight && s'.inFlight[s.fetches[f].key] == f
            && (forall c, t :: 0 <= c < |s'.callers| && s'.callers[c] == Caller(s.fetches[f].key, Missed) ==>
                  Apply(s', Continue(c, t)).callers[c].phase == Joined(f))
    ensures forall g :: |s.fetches| <= g < |Run(s, steps).fetches| ==> Run(s, steps).fetches[g].key != s.fetches[f].key
  {
    RunKeeps(s, steps);
    NoNewFetch(s, steps, f);
  }

  lemma {:induction false} NoNewFetch(s: State, steps: seq<Step>, f: nat)
    requires Inv(s) && f < |s.fetches| && s.fetches[f].threwSync
    ensures forall g :: |s.fetches| <= g < |Run(s, steps).fetches| ==> Run(s, steps).fetches[g].key != s.fetches[f].key
  {
    if steps != [] {
      var before := Run(s, steps[..|steps| - 1]);
      RunKeeps(s, steps[..|steps| - 1]);
      NoNewFetch(s, steps[..|steps| - 1], f);
      StepOnward(before, steps[|steps| - 1]);
      NewFetchWasFree(before, steps[|steps| - 1]);
    }
  }

  /** A step starts at most one fetch, and only for a key the map does not hold. */
  lemma NewFetchWasFree(s: State, step: Step)
    ensures |s.fetches| <= |Apply(s, step).fetches| <= |s.fetches| + 1
    ensures |Apply(s, step).fetches| == |s.fetches| + 1 ==> Apply(s, step).fetches[|s.fetches|].key !in s.inFlight
  {
  }

  /** So a key is freed by its fetch's end if and only if the factory did not throw synchronously. */
  lemma FreedIffNoSyncThrow(s: State, c: nat, syncThrow: Option<Failure>, r: Result<Value, Failure>, failure: Option<Failure>)
    requires Inv(s) && c < |s.callers| && s.callers[c].phase.Missed? && s.callers[c].key !in s.inFlight
    ensures var started := Apply(s, Continue(c, syncThrow));
            var f := |s.fetches|;
            var ended := Apply(Apply(started, FactoryEnds(f, r)), WriteEnds(f, failure));
            && ended.fetches[f].status.Settled?
            && (s.callers[c].key !in ended.inFlight <==> syncThrow.None?)
  {
  }
}
