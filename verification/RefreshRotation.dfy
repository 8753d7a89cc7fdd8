/**
 * Refresh-token rotation: session rows rotated in place, with two timed markers
 * left behind for every rotated token (a 30 s replay grace and a long-lived
 * reuse marker). `Auth` and `Refresh` are the specification, the class is the
 * service that updates its rows and markers step by step, and the lemmas speak
 * about every run of exchanges, refreshes, deletions and clock ticks.
 */
module RefreshRotation {
  import opened Wrappers
  import Redis

  const GRACE_SECONDS := 30

  datatype Config = Config(ttlSeconds: int, refreshTtlSeconds: int, localOffsetMs: int)

  datatype Session = Session(
    userId: string,
    token: string,
    expiresAt: int,
    refreshToken: Option<string>,
    refreshExpiresAt: Option<int>)

  datatype Reply = Reply(sessionToken: string, refreshToken: string, expiresAt: int, role: string)

  datatype RefreshError = ReuseDetected | InvalidToken | CacheUnavailable

  /** Which of the three cache writes that follow the row update fails, if any. */
  datatype CacheFault = NoFault | GraceWriteFails | UsedWriteFails | SessionDelFails

  datatype Auth = Auth(
    sessions: map<string, Session>,
    grace: Redis.Keyspace<Reply>,
    used: Redis.Keyspace<string>,
    now: int)

  ghost predicate Live(sessions: map<string, Session>, t: string) {
    exists id :: id in sessions && sessions[id].refreshToken == Some(t)
  }

  /** The unique index on `refresh_token`. */
  ghost predicate UniqueRefresh(sessions: map<string, Session>) {
    forall i, j | i in sessions && j in sessions && sessions[i].refreshToken.Some?
      :: sessions[i].refreshToken == sessions[j].refreshToken ==> i == j
  }

  ghost function RowOf(sessions: map<string, Session>, t: string): (id: string)
    requires Live(sessions, t)
    ensures id in sessions && sessions[id].refreshToken == Some(t)
  {
    var id :| id in sessions && sessions[id].refreshToken == Some(t);
    id
  }

  /**
   * The service rereads the stored timestamp's local fields as if they were UTC,
   * which moves it by the process's own offset. A missing (or zero) time never passes.
   */
  predicate RefreshExpired(cfg: Config, s: Session, now: int) {
    var at := if s.refreshExpiresAt.Some? then s.refreshExpiresAt.value + cfg.localOffsetMs else 0;
    at == 0 || at < now
  }

  function RoleOf(roles: map<string, string>, userId: string): string {
    if userId in roles then roles[userId] else "user"
  }

  function WithoutUser(sessions: map<string, Session>, userId: string): map<string, Session> {
    map id | id in sessions && sessions[id].userId != userId :: sessions[id]
  }

  function Rotated(s: Session, cfg: Config, now: int, token: string, refresh: string): Session {
    s.(token := token,
       expiresAt := now + cfg.ttlSeconds * 1000,
       refreshToken := Some(refresh),
       refreshExpiresAt := Some(now + cfg.refreshTtlSeconds * 1000))
  }

  /** A token that is not live: grace replay, then reuse detection, then refusal. */
  function Replay(a: Auth, t: string): (Auth, Result<Reply, RefreshError>) {
    var grace := Redis.Get(a.grace, t, a.now);
    var owner := Redis.Get(a.used, t, a.now);
    if grace.Some? then (a, Ok(grace.value))
    else if owner.Some? && owner.value != "" then
      (a.(sessions := WithoutUser(a.sessions, owner.value)), Err(ReuseDetected))
    else (a, Err(InvalidToken))
  }

  /** The three cache writes of a rotation, up to the first that fails. */
  function Mark(a: Auth, cfg: Config, t: string, userId: string, reply: Reply, fault: CacheFault)
    : (Auth, Result<Reply, RefreshError>)
  {
    if fault == GraceWriteFails then (a, Err(CacheUnavailable))
    else
      var b := a.(grace := Redis.Put(a.grace, t, reply, GRACE_SECONDS, a.now));
      if fault == UsedWriteFails || !Redis.TtlAccepted(cfg.refreshTtlSeconds) then (b, Err(CacheUnavailable))
      else
        var c := b.(used := Redis.Put(b.used, t, userId, cfg.refreshTtlSeconds, a.now));
        (c, if fault == SessionDelFails then Err(CacheUnavailable) else Ok(reply))
  }

  ghost function Refresh(a: Auth, cfg: Config, t: string, roles: map<string, string>,
                         newToken: string, newRefresh: string, fault: CacheFault)
    : (Auth, Result<Reply, RefreshError>)
  {
    if !Live(a.sessions, t) then Replay(a, t)
    else
      var id := RowOf(a.sessions, t);
      var row := a.sessions[id];
      if RefreshExpired(cfg, row, a.now) then (a, Err(InvalidToken))
      else
        var next := Rotated(row, cfg, a.now, newToken, newRefresh);
        var reply := Reply(newToken, newRefresh, next.expiresAt, RoleOf(roles, row.userId));
        Mark(a.(sessions := a.sessions[id := next]), cfg, t, row.userId, reply, fault)
  }

  datatype ExchangeError = TtlOutOfRange | DuplicateRow

  function Exchange(a: Auth, cfg: Config, id: string, userId: string, token: string, refresh: string)
    : (Auth, Option<ExchangeError>)
  {
    if cfg.ttlSeconds < 300 || cfg.ttlSeconds > 86400 then (a, Some(TtlOutOfRange))
    else if id in a.sessions then (a, Some(DuplicateRow))
    else
      (a.(sessions := a.sessions[id := Session(userId, token, a.now + cfg.ttlSeconds * 1000,
                                               Some(refresh), Some(a.now + cfg.refreshTtlSeconds * 1000))]), None)
  }

  class SupabaseAuthService {
    var sessions: map<string, Session>
    var grace: Redis.Keyspace<Reply>
    var used: Redis.Keyspace<string>
    var now: int
    const cfg: Config

    ghost function View(): Auth
      reads this
    {
      Auth(sessions, grace, used, now)
    }

    constructor (cfg: Config, now: int)
      ensures View() == Auth(map[], map[], map[], now) && this.cfg == cfg
    {
      this.cfg := cfg;
      sessions, grace, used := map[], map[], map[];
      this.now := now;
    }

    method ExchangeSupabaseToken(id: string, userId: string, token: string, refresh: string)
      returns (error: Option<ExchangeError>)
      modifies this
      ensures (View(), error) == Exchange(old(View()), cfg, id, userId, token, refresh)
    {
      if cfg.ttlSeconds < 300 || cfg.ttlSeconds > 86400 {
        return Some(TtlOutOfRange);
      }
      if id in sessions {
        return Some(DuplicateRow);
      }
      var expiresAt := now + cfg.ttlSeconds * 1000;
      var refreshExpiresAt := now + cfg.refreshTtlSeconds * 1000;
      sessions := sessions[id := Session(userId, token, expiresAt, Some(refresh), Some(refreshExpiresAt))];
      error := None;
    }

    method RefreshSession(refreshToken: string, roles: map<string, string>,
                          newToken: string, newRefresh: string, fault: CacheFault)
      returns (r: Result<Reply, RefreshError>)
      requires UniqueRefresh(sessions)
      modifies this
      ensures (View(), r) == Refresh(old(View()), cfg, refreshToken, roles, newToken, newRefresh, fault)
    {
      var rows := set id | id in sessions && sessions[id].refreshToken == Some(refreshToken);
      assert forall id :: id in sessions && sessions[id].refreshToken == Some(refreshToken) ==> id in rows;
      if rows == {} {
        assert !Live(sessions, refreshToken);
        var replay := Redis.Get(grace, refreshToken, now);
        if replay.Some? {
          return Ok(replay.value);
        }
        var reusedUserId := Redis.Get(used, refreshToken, now);
        if reusedUserId.Some? && reusedUserId.value != "" {
          sessions := map id | id in sessions && sessions[id].userId != reusedUserId.value :: sessions[id];
          return Err(ReuseDetected);
        }
        return Err(InvalidToken);
      }

      var id :| id in rows;
      assert Live(sessions, refreshToken) && id == RowOf(sessions, refreshToken);
      var oldSession := sessions[id];
      if RefreshExpired(cfg, oldSession, now) {
        return Err(InvalidToken);
      }
      var role := RoleOf(roles, oldSession.userId);
      var newExpiresAt := now + cfg.ttlSeconds * 1000;
      sessions := sessions[id := Rotated(oldSession, cfg, now, newToken, newRefresh)];

      var reply := Reply(newToken, newRefresh, newExpiresAt, role);
      if fault == GraceWriteFails {
        return Err(CacheUnavailable);
      }
      grace := Redis.Put(grace, refreshToken, reply, GRACE_SECONDS, now);
      if fault == UsedWriteFails || !Redis.TtlAccepted(cfg.refreshTtlSeconds) {
        return Err(CacheUnavailable);
      }
      used := Redis.Put(used, refreshToken, oldSession.userId, cfg.refreshTtlSeconds, now);
      if fault == SessionDelFails {
        return Err(CacheUnavailable);
      }
      return Ok(reply);
    }
  }

  // ----- every run -----

  /** What is remembered of one rotation; a marker that was never written has no deadline. */
  datatype Rotation = Rotation(userId: string, reply: Reply, graceUntil: Option<int>, usedUntil: Option<int>)

  /** The service's state with the history that the theorems mention. */
  datatype World = World(auth: Auth, issued: set<string>, rotated: map<string, Rotation>)

  datatype Step =
    | DoExchange(id: string, userId: string, token: string, refresh: string)
    | DoRefresh(t: string, roles: map<string, string>, newToken: string, newRefresh: string, fault: CacheFault)
    | DoDelete(ids: set<string>)
    | DoTick(ms: nat)

  /** Generated identifiers are new and distinct. */
  ghost predicate Fresh(w: World, step: Step) {
    match step
    case DoExchange(id, _, token, refresh) =>
      id !in w.issued && refresh !in w.issued && id != refresh
    case DoRefresh(_, _, newToken, newRefresh, _) => newRefresh !in w.issued
    case _ => true
  }

  ghost predicate Rotates(a: Auth, cfg: Config, t: string) {
    Live(a.sessions, t) && !RefreshExpired(cfg, a.sessions[RowOf(a.sessions, t)], a.now)
  }

  ghost function Remember(a: Auth, cfg: Config, step: Step): Rotation
    requires step.DoRefresh? && Rotates(a, cfg, step.t)
  {
    var row := a.sessions[RowOf(a.sessions, step.t)];
    Rotation(row.userId,
             Reply(step.newToken, step.newRefresh, a.now + cfg.ttlSeconds * 1000, RoleOf(step.roles, row.userId)),
             if step.fault == GraceWriteFails then None else Some(a.now + GRACE_SECONDS * 1000),
             if step.fault == GraceWriteFails || step.fault == UsedWriteFails
                || !Redis.TtlAccepted(cfg.refreshTtlSeconds) then None
             else Some(a.now + cfg.refreshTtlSeconds * 1000))
  }

  ghost function Apply(w: World, cfg: Config, step: Step): World {
    match step
    case DoExchange(id, userId, token, refresh) =>
      World(Exchange(w.auth, cfg, id, userId, token, refresh).0, w.issued + {id, refresh}, w.rotated)
    case DoRefresh(t, roles, newToken, newRefresh, fault) =>
      World(Refresh(w.auth, cfg, t, roles, newToken, newRefresh, fault).0,
            w.issued + {newRefresh},
            if Rotates(w.auth, cfg, t) then w.rotated[t := Remember(w.auth, cfg, step)] else w.rotated)
    case DoDelete(ids) => w.(auth := w.auth.(sessions := w.auth.sessions - ids))
    case DoTick(ms) => w.(auth := w.auth.(now := w.auth.now + ms))
  }

  ghost predicate Run(w: World, cfg: Config, steps: seq<Step>, w': World)
    decreases |steps|
  {
    if steps == [] then w' == w
    else Fresh(w, steps[0]) && Run(Apply(w, cfg, steps[0]), cfg, steps[1..], w')
  }

  ghost predicate MarkersMatch(w: World) {
    && (forall t :: t in w.auth.grace <==> t in w.rotated && w.rotated[t].graceUntil.Some?)
    && (forall t :: t in w.auth.used <==> t in w.rotated && w.rotated[t].usedUntil.Some?)
    && (forall t :: t in w.auth.grace ==>
          w.auth.grace[t] == Redis.Entry(w.rotated[t].reply, w.rotated[t].graceUntil.value))
    && (forall t :: t in w.auth.used ==>
          w.auth.used[t] == Redis.Entry(w.rotated[t].userId, w.rotated[t].usedUntil.value))
  }

  ghost predicate Inv(w: World) {
    && UniqueRefresh(w.auth.sessions)
    && (forall id :: id in w.auth.sessions ==> id in w.issued)
    && (forall t :: Live(w.auth.sessions, t) ==> t in w.issued)
    && (forall t :: t in w.rotated ==> t in w.issued && !Live(w.auth.sessions, t))
    && MarkersMatch(w)
  }


  ghost predicate Shrinks(sessions: map<string, Session>, sessions': map<string, Session>) {
    forall id :: id in sessions' ==> id in sessions && sessions'[id] == sessions[id]
  }

  lemma ShrinkKeepsInv(w: World, sessions': map<string, Session>)
    requires Inv(w) && Shrinks(w.auth.sessions, sessions')
    ensures Inv(w.(auth := w.auth.(sessions := sessions')))
  {
    forall t ensures Live(sessions', t) ==> Live(w.auth.sessions, t) {
      if Live(sessions', t) {
        var id := RowOf(sessions', t);
        assert id in w.auth.sessions && w.auth.sessions[id].refreshToken == Some(t);
      }
    }
  }

  /** After writing row `id` with the new token `n`, a token is live iff it is `n` or was live in another row. */
  lemma LiveAfterWrite(sessions: map<string, Session>, id: string, s: Session, n: string, t: string)
    requires s.refreshToken == Some(n)
    ensures Live(sessions[id := s], t) ==> t == n || Live(sessions, t)
    ensures UniqueRefresh(sessions) && id in sessions && sessions[id].refreshToken == Some(t) && t != n ==>
              !Live(sessions[id := s], t)
  {
    var sessions' := sessions[id := s];
    if Live(sessions', t) && t != n {
      var row := RowOf(sessions', t);
      assert row != id && row in sessions && sessions[row].refreshToken == Some(t);
    }
  }

  lemma ExchangeKeepsInv(w: World, cfg: Config, step: Step)
    requires Inv(w) && Fresh(w, step) && step.DoExchange?
    ensures Inv(Apply(w, cfg, step))
  {
    var w' := Apply(w, cfg, step);
    if w'.auth.sessions != w.auth.sessions {
      var s := w'.auth.sessions[step.id];
      assert w'.auth.sessions == w.auth.sessions[step.id := s];
      forall t ensures Live(w'.auth.sessions, t) ==> t == step.refresh || Live(w.auth.sessions, t) {
        LiveAfterWrite(w.auth.sessions, step.id, s, step.refresh, t);
      }
      assert !Live(w.auth.sessions, step.refresh);
    }
  }

  lemma RotationKeepsSessions(w: World, cfg: Config, step: Step)
    requires Inv(w) && Fresh(w, step) && step.DoRefresh? && Rotates(w.auth, cfg, step.t)
    ensures var sessions' := Apply(w, cfg, step).auth.sessions;
            && sessions'.Keys == w.auth.sessions.Keys
            && UniqueRefresh(sessions')
            && !Live(sessions', step.t)
            && (forall t :: Live(sessions', t) ==> t == step.newRefresh || Live(w.auth.sessions, t))
  {
    var id := RowOf(w.auth.sessions, step.t);
    var sessions' := Apply(w, cfg, step).auth.sessions;
    var s := sessions'[id];
    assert sessions' == w.auth.sessions[id := s];
    assert !Live(w.auth.sessions, step.newRefresh);
    forall t ensures Live(sessions', t) ==> t == step.newRefresh || Live(w.auth.sessions, t) {
      LiveAfterWrite(w.auth.sessions, id, s, step.newRefresh, t);
    }
    LiveAfterWrite(w.auth.sessions, id, s, step.newRefresh, step.t);
  }

  lemma RotationKeepsMarkers(w: World, cfg: Config, step: Step)
    requires Inv(w) && step.DoRefresh? && Rotates(w.auth, cfg, step.t)
    ensures MarkersMatch(Apply(w, cfg, step))
  {
    assert step.t !in w.rotated;
  }

  /** Every step keeps the invariant, whichever cache write fails on the way. */
  lemma StepKeepsInv(w: World, cfg: Config, step: Step)
    requires Inv(w) && Fresh(w, step)
    ensures Inv(Apply(w, cfg, step))
  {
    match step
    case DoExchange(_, _, _, _) => ExchangeKeepsInv(w, cfg, step);
    case DoRefresh(t, roles, newToken, newRefresh, fault) =>
      if Rotates(w.auth, cfg, t) {
        RotationKeepsSessions(w, cfg, step);
        RotationKeepsMarkers(w, cfg, step);
      } else {
        ShrinkKeepsInv(w, Apply(w, cfg, step).auth.sessions);
      }
    case DoDelete(ids) => ShrinkKeepsInv(w, w.auth.sessions - ids);
    case DoTick(_) =>
  }

  /** What one step can never undo. */
  ghost predicate Extends(w: World, w': World) {
    && w.issued <= w'.issued
    && w.auth.now <= w'.auth.now
    && (forall t :: t in w.rotated ==> t in w'.rotated && w'.rotated[t] == w.rotated[t])
    && (forall t :: t in w.issued && !Live(w.auth.sessions, t) ==> !Live(w'.auth.sessions, t))
  }

  lemma StepExtends(w: World, cfg: Config, step: Step)
    requires Inv(w) && Fresh(w, step)
    ensures Extends(w, Apply(w, cfg, step))
  {
    var w' := Apply(w, cfg, step);
    match step
    case DoExchange(id, _, _, refresh) =>
      if w'.auth.sessions != w.auth.sessions {
        forall t ensures Live(w'.auth.sessions, t) ==> t == refresh || Live(w.auth.sessions, t) {
          LiveAfterWrite(w.auth.sessions, id, w'.auth.sessions[id], refresh, t);
        }
      }
    case DoRefresh(t, _, _, _, _) =>
      if Rotates(w.auth, cfg, t) {
        RotationKeepsSessions(w, cfg, step);
      } else {
        ShrinkKeepsDead(w.auth.sessions, w'.auth.sessions);
      }
    case DoDelete(ids) => ShrinkKeepsDead(w.auth.sessions, w'.auth.sessions);
    case DoTick(_) =>
  }

  lemma ShrinkKeepsDead(sessions: map<string, Session>, sessions': map<string, Session>)
    requires Shrinks(sessions, sessions')
    ensures forall t :: Live(sessions', t) ==> Live(sessions, t)
  {
    forall t | Live(sessions', t) ensures Live(sessions, t) {
      var id := RowOf(sessions', t);
      assert id in sessions && sessions[id].refreshToken == Some(t);
    }
  }

  /**
   * Over any run: the invariant holds throughout, live refresh tokens stay unique,
   * and a token that was issued and is no longer live (rotated away, revoked or
   * deleted) is never live again. What was recorded of a rotation never changes.
   */
  lemma {:induction false} RunKeepsDeadTokensDead(w: World, cfg: Config, steps: seq<Step>, w': World)
    requires Inv(w) && Run(w, cfg, steps, w')
    ensures Inv(w') && Extends(w, w')
    decreases |steps|
  {
    if steps != [] {
      StepKeepsInv(w, cfg, steps[0]);
      StepExtends(w, cfg, steps[0]);
      RunKeepsDeadTokensDead(Apply(w, cfg, steps[0]), cfg, steps[1..], w');
    }
  }

  /** A refresh call keeps the set of row ids unless it detects reuse, and then it removes exactly that user's rows. */
  lemma RefreshKeepsRowIds(w: World, cfg: Config, step: Step)
    requires Inv(w) && Fresh(w, step) && step.DoRefresh?
    ensures var (a', r) := Refresh(w.auth, cfg, step.t, step.roles, step.newToken, step.newRefresh, step.fault);
            if r == Err(ReuseDetected) then
              && step.t in w.rotated
              && a'.sessions == WithoutUser(w.auth.sessions, w.rotated[step.t].userId)
            else a'.sessions.Keys == w.auth.sessions.Keys
    ensures var (a', r) := Refresh(w.auth, cfg, step.t, step.roles, step.newToken, step.newRefresh, step.fault);
            forall id :: id in a'.sessions && !(Live(w.auth.sessions, step.t) && id == RowOf(w.auth.sessions, step.t))
              ==> id in w.auth.sessions && a'.sessions[id] == w.auth.sessions[id]
  {
  }

  /** When a token is presented again: the three answers and the exact conditions that choose between them. */
  ghost predicate ReplayVerdict(w: World, cfg: Config, again: Step, rotation: Rotation)
    requires again.DoRefresh?
  {
    var (a', r) := Refresh(w.auth, cfg, again.t, again.roles, again.newToken, again.newRefresh, again.fault);
    if rotation.graceUntil.Some? && w.auth.now <= rotation.graceUntil.value then
      r == Ok(rotation.reply) && a' == w.auth
    else if rotation.usedUntil.Some? && w.auth.now <= rotation.usedUntil.value && rotation.userId != "" then
      && r == Err(ReuseDetected)
      && a' == w.auth.(sessions := a'.sessions)
      && (forall id :: id in a'.sessions ==> a'.sessions[id].userId != rotation.userId)
      && (forall id :: id in w.auth.sessions && w.auth.sessions[id].userId != rotation.userId ==>
            id in a'.sessions && a'.sessions[id] == w.auth.sessions[id])
    else
      r == Err(InvalidToken) && a' == w.auth
  }

  lemma ReplayOfRotatedToken(w: World, cfg: Config, again: Step)
    requires Inv(w) && again.DoRefresh? && again.t in w.rotated
    ensures ReplayVerdict(w, cfg, again, w.rotated[again.t])
  {
  }

  /**
   * The protocol's main result. A refresh succeeds with some reply; after any run whatever
   * the same token is presented again. Up to 30 s later the identical reply comes back and
   * nothing changes; after that and within the refresh lifetime all of that user's sessions are
   * gone and nobody else's; later still the token is just refused.
   */
  lemma ReplayAfterAnyRun(w: World, cfg: Config, first: Step, steps: seq<Step>, w': World, again: Step)
    requires Inv(w) && Fresh(w, first) && first.DoRefresh?
    requires Live(w.auth.sessions, first.t)
    requires Refresh(w.auth, cfg, first.t, first.roles, first.newToken, first.newRefresh, first.fault).1.Ok?
    requires Run(Apply(w, cfg, first), cfg, steps, w')
    requires again.DoRefresh? && again.t == first.t
    ensures var reply := Refresh(w.auth, cfg, first.t, first.roles, first.newToken, first.newRefresh, first.fault).1.value;
            var owner := w.auth.sessions[RowOf(w.auth.sessions, first.t)].userId;
            ReplayVerdict(w', cfg, again,
              Rotation(owner, reply, Some(w.auth.now + 30_000), Some(w.auth.now + cfg.refreshTtlSeconds * 1000)))
    ensures !Live(w'.auth.sessions, first.t)
  {
    StepKeepsInv(w, cfg, first);
    RunKeepsDeadTokensDead(Apply(w, cfg, first), cfg, steps, w');
    ReplayOfRotatedToken(w', cfg, again);
  }

  /** The reply a rotation decides on before it writes any marker. */
  ghost function ReplyOf(a: Auth, cfg: Config, step: Step): Reply
    requires step.DoRefresh? && Live(a.sessions, step.t)
  {
    Reply(step.newToken, step.newRefresh, a.now + cfg.ttlSeconds * 1000,
          RoleOf(step.roles, a.sessions[RowOf(a.sessions, step.t)].userId))
  }

  /**
   * When the retry within 30 s works. The row has moved on, whichever cache write then failed and whether or not the
   * caller got an answer; after any run, presenting the old token again within the grace window returns the pair of
   * that rotation exactly when the first write, the one of the grace marker, went through. Nothing changes either way.
   */
  lemma RetrySucceedsIff(w: World, cfg: Config, first: Step, steps: seq<Step>, w': World, again: Step)
    requires Inv(w) && Fresh(w, first) && first.DoRefresh?
    requires Rotates(w.auth, cfg, first.t)
    requires Run(Apply(w, cfg, first), cfg, steps, w')
    requires again.DoRefresh? && again.t == first.t && w'.auth.now <= w.auth.now + GRACE_SECONDS * 1000
    ensures var (after, r) := Refresh(w'.auth, cfg, again.t, again.roles, again.newToken, again.newRefresh, again.fault);
            && (r.Ok? <==> first.fault != GraceWriteFails)
            && (r.Ok? ==> r.value == ReplyOf(w.auth, cfg, first))
            && after == w'.auth
  {
    StepKeepsInv(w, cfg, first);
    RunKeepsDeadTokensDead(Apply(w, cfg, first), cfg, steps, w');
    ReplayOfRotatedToken(w', cfg, again);
  }

  /** Without the grace marker the old token is refused in every later state, however soon or late it is retried. */
  lemma RetryAfterLostGraceMarker(w: World, cfg: Config, first: Step, steps: seq<Step>, w': World, again: Step)
    requires Inv(w) && Fresh(w, first) && first.DoRefresh? && first.fault == GraceWriteFails
    requires Rotates(w.auth, cfg, first.t)
    requires Run(Apply(w, cfg, first), cfg, steps, w')
    requires again.DoRefresh? && again.t == first.t
    ensures Refresh(w'.auth, cfg, again.t, again.roles, again.newToken, again.newRefresh, again.fault)
            == (w'.auth, Err(InvalidToken))
  {
    StepKeepsInv(w, cfg, first);
    RunKeepsDeadTokensDead(Apply(w, cfg, first), cfg, steps, w');
    ReplayOfRotatedToken(w', cfg, again);
  }
}
