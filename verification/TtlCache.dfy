/**
 * The Redis-backed response cache (backend/internal/platform/cache/cache.go): a key-value store
 * whose entries expire, every failure of which is swallowed.
 */
module TtlCache {
  import opened Prelude

  datatype Stored<V> = Stored(value: V, expires: real)

  type Entries<V> = map<string, Stored<V>>

  /** What GET finds at an instant. */
  function Found<V>(m: Entries<V>, key: string, now: real): Option<V> {
    if key in m && now < m[key].expires then Some(m[key].value) else None
  }

  function Put<V>(m: Entries<V>, key: string, value: V, ttl: real, now: real): Entries<V> {
    m[key := Stored(value, now + ttl)]
  }

  class Client<V> {
    var entries: Entries<V>
    const enabled: bool

    constructor (enabled: bool)
      ensures entries == map[] && this.enabled == enabled
    {
      entries := map[];
      this.enabled := enabled;
    }

    /** A miss, an error and a disabled client look the same. */
    method Get(key: string, now: real, fault: bool) returns (r: Option<V>)
      ensures r == if enabled && !fault then Found(entries, key, now) else None
    {
      if !enabled || fault {
        return None;
      }
      if key in entries && now < entries[key].expires {
        return Some(entries[key].value);
      }
      return None;
    }

    method Set(key: string, value: V, ttl: real, now: real, fault: bool)
      modifies this
      ensures entries == if enabled && !fault then Put(old(entries), key, value, ttl, now) else old(entries)
    {
      if !enabled || fault {
        return;
      }
      entries := entries[key := Stored(value, now + ttl)];
    }

    method Del(keys: seq<string>, fault: bool)
      modifies this
      ensures entries == if enabled && !fault then old(entries) - Elements(keys) else old(entries)
    {
      if !enabled || |keys| == 0 || fault {
        assert keys == [] ==> Elements(keys) == {};
        return;
      }
      entries := entries - Elements(keys);
    }
  }

  /** An entry answers, with its own value, exactly until its deadline, its deletion or the next SET of its key. */
  lemma LivesUntilDeadline<V>(m: Entries<V>, key: string, value: V, ttl: real, stored: real, now: real)
    ensures Found(Put(m, key, value, ttl, stored), key, now) == if now < stored + ttl then Some(value) else None
    ensures forall other :: other != key ==> Found(Put(m, key, value, ttl, stored), other, now) == Found(m, other, now)
    ensures forall keys: set<string> :: key in keys ==> Found(Put(m, key, value, ttl, stored) - keys, key, now) == None
  {
  }
}
