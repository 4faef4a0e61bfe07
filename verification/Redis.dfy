/** The part of Redis the application relies on: keys with absolute expiry times under a clock
    counted in whole seconds. A key is gone once the clock reaches its expiry time. */
module Redis {
  import opened Basics

  datatype Entry<+V> = Entry(value: V, expires: int)

  type Db<!K, +V> = map<K, Entry<V>>

  predicate Alive<K, V>(db: Db<K, V>, now: int, k: K) {
    k in db && now < db[k].expires
  }

  /** GET */
  function Get<K, V>(db: Db<K, V>, now: int, k: K): Option<V> {
    if Alive(db, now, k) then Some(db[k].value) else None
  }

  /** TTL: the remaining seconds, and -2 for a key that is not there */
  function Ttl<K, V>(db: Db<K, V>, now: int, k: K): int {
    if Alive(db, now, k) then db[k].expires - now else -2
  }

  /** SETEX */
  function SetEx<K, V>(db: Db<K, V>, now: int, k: K, ttl: int, v: V): Db<K, V> {
    db[k := Entry(v, now + ttl)]
  }

  /** DEL */
  function Del<K, V>(db: Db<K, V>, k: K): Db<K, V> {
    db - {k}
  }
}
