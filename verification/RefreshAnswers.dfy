/** What one exchange and one refresh answer and leave behind, field by field. */
module RefreshAnswers {
  import opened Wrappers
  import opened RefreshRotation
  import Redis

  /** A refresh time that is missing, reads as zero or is past, read with the process's own offset from UTC. */
  predicate Lapsed(cfg: Config, refreshExpiresAt: Option<int>, now: int) {
    refreshExpiresAt.None?
    || refreshExpiresAt.value + cfg.localOffsetMs == 0
    || refreshExpiresAt.value + cfg.localOffsetMs < now
  }

  /** Two keyspaces agree but for one key. */
  ghost predicate SameBut<T>(a: Redis.Keyspace<T>, b: Redis.Keyspace<T>, key: string) {
    forall k :: k != key ==> (k in a <==> k in b) && (k in a ==> a[k] == b[k])
  }

  /**
   * A refresh with a live token. If its refresh time has lapsed it is refused and nothing changes. Otherwise the row is
   * rotated in place whatever the cache does, so that the new refresh token is live, and the caller is given the new
   * pair, the new session expiry and the user's role exactly when no cache write fails and the lifetime is positive.
   */
  lemma LiveTokenAnswers(a: Auth, cfg: Config, id: string, t: string, roles: map<string, string>,
                         newToken: string, newRefresh: string, fault: CacheFault)
    requires UniqueRefresh(a.sessions) && id in a.sessions && a.sessions[id].refreshToken == Some(t)
    ensures var (after, r) := Refresh(a, cfg, t, roles, newToken, newRefresh, fault);
            var row := a.sessions[id];
            if Lapsed(cfg, row.refreshExpiresAt, a.now) then r == Err(InvalidToken) && after == a
            else
              && (r.Ok? <==> fault == NoFault && cfg.refreshTtlSeconds > 0)
              && (r.Ok? ==>
                    && r.value.sessionToken == newToken && r.value.refreshToken == newRefresh
                    && r.value.expiresAt == a.now + cfg.ttlSeconds * 1000
                    && r.value.role == if row.userId in roles then roles[row.userId] else "user")
              && (r.Err? ==> r == Err(CacheUnavailable))
              && after.sessions.Keys == a.sessions.Keys && after.now == a.now
              && (forall other :: other in a.sessions && other != id ==> after.sessions[other] == a.sessions[other])
              && after.sessions[id].userId == row.userId && after.sessions[id].token == newToken
              && after.sessions[id].expiresAt == a.now + cfg.ttlSeconds * 1000
              && after.sessions[id].refreshToken == Some(newRefresh)
              && after.sessions[id].refreshExpiresAt == Some(a.now + cfg.refreshTtlSeconds * 1000)
              && Live(after.sessions, newRefresh)
  {
    assert Live(a.sessions, t) && RowOf(a.sessions, t) == id;
    var after := Refresh(a, cfg, t, roles, newToken, newRefresh, fault).0;
    if !Lapsed(cfg, a.sessions[id].refreshExpiresAt, a.now) {
      assert after.sessions[id].refreshToken == Some(newRefresh);
    }
  }

  /** The two markers such a refresh leaves for the old token: which are written, with what and until when. */
  lemma LiveTokenMarks(a: Auth, cfg: Config, id: string, t: string, roles: map<string, string>,
                       newToken: string, newRefresh: string, fault: CacheFault)
    requires UniqueRefresh(a.sessions) && id in a.sessions && a.sessions[id].refreshToken == Some(t)
    requires !Lapsed(cfg, a.sessions[id].refreshExpiresAt, a.now)
    ensures var after := Refresh(a, cfg, t, roles, newToken, newRefresh, fault).0;
            var row := a.sessions[id];
            && SameBut(a.grace, after.grace, t) && SameBut(a.used, after.used, t)
            && (if fault == GraceWriteFails then after.grace == a.grace
                else
                  && t in after.grace && after.grace[t].expiresAt == a.now + 30 * 1000
                  && after.grace[t].value.sessionToken == newToken && after.grace[t].value.refreshToken == newRefresh
                  && after.grace[t].value.expiresAt == a.now + cfg.ttlSeconds * 1000
                  && after.grace[t].value.role == if row.userId in roles then roles[row.userId] else "user")
            && (if fault == GraceWriteFails || fault == UsedWriteFails || cfg.refreshTtlSeconds <= 0 then after.used == a.used
                else
                  && t in after.used && after.used[t].value == row.userId
                  && after.used[t].expiresAt == a.now + cfg.refreshTtlSeconds * 1000)
  {
    assert Live(a.sessions, t) && RowOf(a.sessions, t) == id;
  }

  /** A token that is neither live nor marked is refused, and nothing changes. */
  lemma UnknownTokenRefused(a: Auth, cfg: Config, t: string, roles: map<string, string>,
                            newToken: string, newRefresh: string, fault: CacheFault)
    requires (forall id :: id in a.sessions ==> a.sessions[id].refreshToken != Some(t)) && t !in a.grace && t !in a.used
    ensures Refresh(a, cfg, t, roles, newToken, newRefresh, fault) == (a, Err(InvalidToken))
  {
  }

  /** An exchange: when it is refused, and the one row it adds otherwise. */
  lemma ExchangeAnswers(a: Auth, cfg: Config, id: string, userId: string, token: string, refresh: string)
    ensures var (after, error) := Exchange(a, cfg, id, userId, token, refresh);
            && (error.Some? <==> cfg.ttlSeconds < 300 || cfg.ttlSeconds > 86400 || id in a.sessions)
            && (error == Some(TtlOutOfRange) <==> cfg.ttlSeconds < 300 || cfg.ttlSeconds > 86400)
            && (error.Some? ==> after == a)
            && (error.None? ==>
                  && after.sessions.Keys == a.sessions.Keys + {id}
                  && (forall other :: other in a.sessions ==> after.sessions[other] == a.sessions[other])
                  && after.sessions[id].userId == userId && after.sessions[id].token == token
                  && after.sessions[id].expiresAt == a.now + cfg.ttlSeconds * 1000
                  && after.sessions[id].refreshToken == Some(refresh)
                  && after.sessions[id].refreshExpiresAt == Some(a.now + cfg.refreshTtlSeconds * 1000)
                  && after.grace == a.grace && after.used == a.used && after.now == a.now)
  {
  }
}
