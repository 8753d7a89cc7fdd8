/**
 * String keys with a time to live, as `SET key value EX ttl` leaves them.
 * Times are milliseconds; Redis drops a key once the clock has passed its
 * expiry, so a key is still readable at the exact expiry instant.
 */
module Redis {
  import opened Wrappers

  datatype Entry<+T> = Entry(value: T, expiresAt: int)

  type Keyspace<T> = map<string, Entry<T>>

  predicate Alive<T>(m: Keyspace<T>, key: string, now: int) {
    key in m && now <= m[key].expiresAt
  }

  function Get<T>(m: Keyspace<T>, key: string, now: int): Option<T> {
    if Alive(m, key, now) then Some(m[key].value) else None
  }

  /** `EX` takes whole seconds and must be positive: the server refuses the write otherwise. */
  predicate TtlAccepted(ttlSeconds: int) {
    ttlSeconds > 0
  }

  function Put<T>(m: Keyspace<T>, key: string, value: T, ttlSeconds: int, now: int): Keyspace<T>
    requires TtlAccepted(ttlSeconds)
  {
    m[key := Entry(value, now + ttlSeconds * 1000)]
  }
}
