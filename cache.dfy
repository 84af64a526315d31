/**
 * The Redis-backed `policies` cache behind `@Cacheable`: a key/value store whose
 * entries carry an expiry and whose configuration decides whether null may be stored.
 */
module Cache {
  import opened Wrappers
  import opened Models
  import opened Config

  /** A stored value and its expiry (None: never expires). */
  datatype Entry = Entry(value: Option<Policy>, expiry: Option<int>)

  /** An entry is visible strictly before its expiry. */
  predicate Live(e: Entry, now: int)
  {
    e.expiry.None? || now < e.expiry.value
  }

  /** `Cache.get`: None on a miss, Some(v) on a hit that holds v. */
  function Lookup(entries: map<string, Entry>, key: string, now: int): Option<Option<Policy>>
  {
    if key in entries && Live(entries[key], now) then Some(entries[key].value) else None
  }

  /**
   * `Cache.put` at time `now`: the entry is stamped with the configured expiry.
   * A null value offered to a cache that disallows null values is rejected: Spring raises an
   * `IllegalArgumentException`, which is not modelled; here the map simply stays as it was.
   */
  function Store(c: CacheConfiguration, entries: map<string, Entry>, key: string, value: Option<Policy>, now: int)
    : map<string, Entry>
  {
    if value.None? && !c.cacheNullValues then entries
    else entries[key := Entry(value, ExpiryFor(c, now))]
  }

  /** No stored entry holds null. */
  ghost predicate NoNullValues(entries: map<string, Entry>)
  {
    forall k :: k in entries ==> entries[k].value.Some?
  }

  /** A lookup strictly before the expiry of a freshly stored policy returns that policy unchanged. */
  lemma StoreThenLookupHit(c: CacheConfiguration, entries: map<string, Entry>, key: string, p: Policy,
                           storedAt: int, now: int)
    requires c.entryTtl > 0 ==> now < storedAt + c.entryTtl
    ensures Lookup(Store(c, entries, key, Some(p), storedAt), key, now) == Some(Some(p))
  {
  }

  /** A lookup at or after the expiry misses. */
  lemma StoreThenLookupExpired(c: CacheConfiguration, entries: map<string, Entry>, key: string, p: Policy,
                               storedAt: int, now: int)
    requires c.entryTtl > 0 && now >= storedAt + c.entryTtl
    ensures Lookup(Store(c, entries, key, Some(p), storedAt), key, now) == None
  {
  }

  /** Storing null in a cache that disallows null values leaves every entry as it was. */
  lemma StoreNullRefused(c: CacheConfiguration, entries: map<string, Entry>, key: string, now: int)
    requires !c.cacheNullValues
    ensures Store(c, entries, key, None, now) == entries
  {
  }

  /** A store touches only its own key. */
  lemma StoreKeepsOtherKeys(c: CacheConfiguration, entries: map<string, Entry>, key: string, value: Option<Policy>,
                            storedAt: int, other: string, now: int)
    requires other != key
    ensures Lookup(Store(c, entries, key, value, storedAt), other, now) == Lookup(entries, other, now)
  {
  }

  /** A cache that disallows null values never comes to hold one. */
  lemma StorePreservesNoNullValues(c: CacheConfiguration, entries: map<string, Entry>, key: string,
                                   value: Option<Policy>, now: int)
    requires !c.cacheNullValues && NoNullValues(entries)
    ensures NoNullValues(Store(c, entries, key, value, now))
  {
  }

  /** The shared cache instance: its configuration and its current entries. */
  class RedisCache {
    const config: CacheConfiguration
    var entries: map<string, Entry>

    constructor (config: CacheConfiguration)
      ensures this.config == config && entries == map[]
    {
      this.config := config;
      entries := map[];
    }

    /** Reads the entry for `key` as seen at time `now`. */
    method Get(key: string, now: int) returns (r: Option<Option<Policy>>)
      ensures r == Lookup(entries, key, now)
    {
      if key in entries && (entries[key].expiry.None? || now < entries[key].expiry.value) {
        r := Some(entries[key].value);
      } else {
        r := None;
      }
    }

    /** Writes `value` under `key` at time `now`; a refused null write (an exception in Spring) changes nothing. */
    method Put(key: string, value: Option<Policy>, now: int)
      modifies this
      ensures entries == Store(config, old(entries), key, value, now)
    {
      if value.Some? || config.cacheNullValues {
        var expiry := if config.entryTtl > 0 then Some(now + config.entryTtl) else None;
        entries := entries[key := Entry(value, expiry)];
      }
    }
  }
}
