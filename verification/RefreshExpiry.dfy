/** How long a refresh token is honoured, by a process that need not run on UTC. */
module RefreshExpiry {
  import opened RefreshRotation
  import opened Wrappers

  /**
   * A stored refresh expiry is honoured shifted by the process's own offset from UTC: the verdict differs from that of
   * the stored time exactly between the stored and the shifted moment, so never for a process on UTC.
   */
  lemma ExpiryExactIff(cfg: Config, s: Session, at: int, now: int)
    requires s.refreshExpiresAt == Some(at) && at + cfg.localOffsetMs != 0
    ensures RefreshExpired(cfg, s, now) <==> now > at + cfg.localOffsetMs
    ensures (RefreshExpired(cfg, s, now) <==> now > at)
            <==> !(at < now <= at + cfg.localOffsetMs) && !(at + cfg.localOffsetMs < now <= at)
  {
  }
}
