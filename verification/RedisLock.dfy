/**
 * The Redis lock: `SET key 1 EX ttl NX` to take it, and a `DEL` that does not ask
 * whose lock it deletes. Any number of processes, keys and lifetimes.
 */
module RedisLock {
  import Redis

  class LockStore {
    var locks: Redis.Keyspace<string>

    constructor ()
      ensures locks == map[]
    {
      locks := map[];
    }

    method AcquireLock(key: string, ttlSeconds: int, now: int) returns (locked: bool)
      modifies this
      ensures (locks, locked) == Acquire(old(locks), key, ttlSeconds, now)
    {
      if Redis.Alive(locks, key, now) || !Redis.TtlAccepted(ttlSeconds) {
        return false;
      }
      locks := Redis.Put(locks, key, "1", ttlSeconds, now);
      return true;
    }

    method ReleaseLock(key: string)
      modifies this
      ensures locks == old(locks) - {key}
    {
      locks := locks - {key};
    }
  }

  function Acquire(locks: Redis.Keyspace<string>, key: string, ttlSeconds: int, now: int)
    : (Redis.Keyspace<string>, bool)
  {
    if Redis.Alive(locks, key, now) || !Redis.TtlAccepted(ttlSeconds) then (locks, false)
    else (Redis.Put(locks, key, "1", ttlSeconds, now), true)
  }

  // ----- processes using the lock -----

  /** A process inside the section guarded by a key. */
  datatype Visit = Visit(process: nat, key: string)

  /** `owner` and `inside` are history: Redis only knows `locks`. `inside` gives each visit's own deadline. */
  datatype World = World(
    now: int,
    locks: Redis.Keyspace<string>,
    owner: map<string, nat>,
    inside: map<Visit, int>)

  datatype Step =
    | Enter(v: Visit, ttlSeconds: int)
    | Leave(v: Visit)
    | Abandon(v: Visit)
    | Tick(ms: nat)

  /** Entering needs the lock; leaving deletes the key, abandoning (a crash, or a job that never releases) does not. */
  function Apply(w: World, step: Step): World {
    match step
    case Enter(v, ttl) =>
      var (locks, locked) := Acquire(w.locks, v.key, ttl, w.now);
      if locked then
        World(w.now, locks, w.owner[v.key := v.process], w.inside[v := w.now + ttl * 1000])
      else w
    case Leave(v) => if v in w.inside then World(w.now, w.locks - {v.key}, w.owner, w.inside - {v}) else w
    case Abandon(v) => w.(inside := w.inside - {v})
    case Tick(ms) => w.(now := w.now + ms)
  }

  /** Everybody inside is still within the lifetime of the lock it took. */
  predicate Punctual(w: World) {
    forall v <- w.inside :: w.now <= w.inside[v]
  }

  ghost predicate PunctualRun(w: World, steps: seq<Step>)
    decreases |steps|
  {
    Punctual(w) && (steps != [] ==> PunctualRun(Apply(w, steps[0]), steps[1..]))
  }

  function Run(w: World, steps: seq<Step>): World
    decreases |steps|
  {
    if steps == [] then w else Run(Apply(w, steps[0]), steps[1..])
  }

  /** Whoever is inside is the owner of a lock in Redis that lasts until its own deadline. */
  ghost predicate OwnersInside(w: World) {
    forall v :: v in w.inside ==>
      && v.key in w.locks && w.locks[v.key].expiresAt == w.inside[v]
      && v.key in w.owner && w.owner[v.key] == v.process
  }

  ghost predicate Exclusive(w: World) {
    forall v, u :: v in w.inside && u in w.inside && v.key == u.key ==> v == u
  }

  lemma StepKeepsOwners(w: World, step: Step)
    requires OwnersInside(w) && Punctual(w)
    ensures OwnersInside(Apply(w, step))
  {
  }

  /**
   * If every holder leaves within its own lock's lifetime, then in every reachable state no two processes are
   * inside for one key, and a release only ever deletes the releaser's own lock. The lifetimes may differ.
   */
  lemma {:induction false} MutualExclusion(w: World, steps: seq<Step>)
    requires OwnersInside(w) && PunctualRun(w, steps)
    ensures OwnersInside(Run(w, steps)) && Exclusive(Run(w, steps))
    decreases |steps|
  {
    if steps != [] {
      StepKeepsOwners(w, steps[0]);
      MutualExclusion(Apply(w, steps[0]), steps[1..]);
    }
  }

  lemma ReleaseDeletesOwnLock(w: World, steps: seq<Step>, v: Visit)
    requires OwnersInside(w) && PunctualRun(w, steps) && v in Run(w, steps).inside
    ensures var s := Run(w, steps);
            && v.key in s.owner && s.owner[v.key] == v.process
            && Redis.Alive(s.locks, v.key, s.now)
            && (forall key :: key != v.key && key in s.locks ==>
                  key in Apply(s, Leave(v)).locks && Apply(s, Leave(v)).locks[key] == s.locks[key])
  {
    MutualExclusion(w, steps);
    PunctualAtEnd(w, steps);
  }

  lemma {:induction false} PunctualAtEnd(w: World, steps: seq<Step>)
    requires PunctualRun(w, steps)
    ensures Punctual(Run(w, steps))
    decreases |steps|
  {
    if steps != [] { PunctualAtEnd(Apply(w, steps[0]), steps[1..]); }
  }

  /** From a punctual state, entering a key someone is inside succeeds exactly when that holder has overrun by then. */
  lemma EntryDespiteHolderIff(w: World, v: Visit, u: Visit, wait: nat, ttlSeconds: int)
    requires OwnersInside(w) && Redis.TtlAccepted(ttlSeconds)
    requires v in w.inside && u.key == v.key && u !in w.inside
    ensures u in Apply(Apply(w, Tick(wait)), Enter(u, ttlSeconds)).inside <==> w.now + wait > w.inside[v]
  {
  }

  /**
   * One holder that overruns breaks exclusion for others who are punctual: its late release deletes the
   * next holder's lock, and a third process walks in beside that one.
   */
  lemma OverrunHurtsPunctual(key: string, ttlA: int, ttlB: int, ttlC: int, late: nat)
    requires ttlA > 0 && ttlB > 0 && ttlC > 0 && late > ttlA * 1000
    ensures var a, b, c := Visit(0, key), Visit(1, key), Visit(2, key);
            var end := Run(World(0, map[], map[], map[]),
                           [Enter(a, ttlA), Tick(late), Enter(b, ttlB), Leave(a), Enter(c, ttlC)]);
            b in end.inside && c in end.inside && Punctual(end)
  {
    var a, b, c := Visit(0, key), Visit(1, key), Visit(2, key);
    var w0 := World(0, map[], map[], map[]);
    var w1 := Apply(w0, Enter(a, ttlA));
    var w2 := Apply(w1, Tick(late));
    var w3 := Apply(w2, Enter(b, ttlB));
    var w4 := Apply(w3, Leave(a));
    var w5 := Apply(w4, Enter(c, ttlC));
    RunCons(w4, Enter(c, ttlC), []);
    RunCons(w3, Leave(a), [Enter(c, ttlC)]);
    RunCons(w2, Enter(b, ttlB), [Leave(a), Enter(c, ttlC)]);
    RunCons(w1, Tick(late), [Enter(b, ttlB), Leave(a), Enter(c, ttlC)]);
    RunCons(w0, Enter(a, ttlA), [Tick(late), Enter(b, ttlB), Leave(a), Enter(c, ttlC)]);
  }

  lemma RunCons(w: World, step: Step, rest: seq<Step>)
    ensures Run(w, [step] + rest) == Run(Apply(w, step), rest)
  {
    assert ([step] + rest)[1..] == rest;
  }
}
