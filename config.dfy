/** The cache parameters of `RedisCacheConfig.cacheConfiguration`. */
module Config {
  import opened Wrappers

  /** Milliseconds in one hour: time is measured in milliseconds throughout the model. */
  const MillisPerHour: int := 3_600_000

  /**
   * The two settings of a Redis cache configuration that the gateway touches:
   * the entry time-to-live in milliseconds and whether null values may be stored.
   * Redis keeps an entry written with a zero or negative time-to-live without expiry.
   */
  datatype CacheConfiguration = CacheConfiguration(entryTtl: int, cacheNullValues: bool)
  {
    /** Builder step `entryTtl(ttl)`: replaces the time-to-live and nothing else. */
    function EntryTtl(ttl: int): (c: CacheConfiguration)
      ensures c.entryTtl == ttl && c.cacheNullValues == cacheNullValues
    {
      this.(entryTtl := ttl)
    }

    /** Builder step `disableCachingNullValues()`: forbids null values and keeps the time-to-live. */
    function DisableCachingNullValues(): (c: CacheConfiguration)
      ensures !c.cacheNullValues && c.entryTtl == entryTtl
    {
      this.(cacheNullValues := false)
    }
  }

  /** `defaultCacheConfig()`: entries never expire and null values are allowed. */
  function DefaultCacheConfig(): CacheConfiguration
  {
    CacheConfiguration(0, true)
  }

  /** `Duration.ofHours(h)` in milliseconds. */
  function Hours(h: int): int
  {
    h * MillisPerHour
  }

  /** The configuration bean built from the `policies-cache-ttl` property (in hours). */
  function CacheConfigurationFor(cacheTtl: int): (c: CacheConfiguration)
    ensures c.entryTtl == cacheTtl * MillisPerHour
    ensures !c.cacheNullValues
  {
    DefaultCacheConfig().EntryTtl(Hours(cacheTtl)).DisableCachingNullValues()
  }

  /** The expiry of an entry written at `storedAt` under `c`; None when the entry never expires. */
  function ExpiryFor(c: CacheConfiguration, storedAt: int): (e: Option<int>)
    ensures e.Some? <==> c.entryTtl > 0
    ensures e.Some? ==> e.value > storedAt
  {
    if c.entryTtl > 0 then Some(storedAt + c.entryTtl) else None
  }

  /** With a positive `policies-cache-ttl`, every entry expires exactly `cacheTtl` hours after it was stored. */
  lemma ConfiguredExpiry(cacheTtl: int, storedAt: int)
    requires cacheTtl > 0
    ensures ExpiryFor(CacheConfigurationFor(cacheTtl), storedAt) == Some(storedAt + cacheTtl * MillisPerHour)
  {
  }
}
