# Gateway authorization pipeline — Dafny model

This project models the authorization decision of the kt-gateway API gateway. Three parts are covered:

- `SecurityFilter.authentication`, the per-request filter. It looks up the policy for the request, lets public
  policies through, and otherwise requires an `Authorization` header. It then introspects the token, rejects
  unknown or inactive sessions, and forwards only sessions that share a role or a permission with the policy.
  Each request records exactly one `security_filter` counter.
- `AuthenticationService.findPolicy`. It fetches the client's ordered policy list and picks the first policy that
  matches the request. A policy matches when its method is equal and its URI is equal or matches as a regular
  expression over the whole URI. The `@Cacheable` annotation puts this behind a Redis cache keyed by
  `method + clientId`. `AuthenticationService.introspect` is modelled too; it only passes the call through.
- `RedisCacheConfig.cacheConfiguration`. It sets the time-to-live of each entry to `policies-cache-ttl` hours and
  forbids null values.

Modules follow the source packages:

- `Models`: `Policy`, `Introspect`, `Client`.
- `Config`: the cache configuration.
- `Cache`: class `RedisCache`, with the pure `Lookup` and `Store` that specify it.
- `Services`: `MatchPolicy`, `FirstMatch` and `ResolvePolicy`; `FindPolicyStep`, one cached call as a pure
  function; and class `AuthenticationService`.
- `Filter`: the pure decision chain `Decide`, and class `SecurityFilter`, whose `Authentication` method is proved
  to return `Decide`'s response and to append `Decide`'s counter.

A `Forward(request)` response stands for `next.handle(request)`. A `Reject(status)` response means the next
handler is never called.

The model uses parameters for the things the code gets from its environment:

- the generated `X-Request-Id` (`requestId`);
- the clock, in milliseconds (`now`);
- the authentication service's client lookup (`directory: string -> Option<Client>`);
- its introspection endpoint (`introspector: string -> Option<Introspect>`);
- the regular-expression engine (`fullMatch: (string, string) -> bool`, meaning `pattern.toRegex().matches(s)`).

Ghost traces on `AuthenticationService` record every call to the client lookup and to introspection. These traces
are what "not consulted" and "fetched once" are stated against.

Notes on the code's behaviour:

- Every branch records one `security_filter` counter with its own status tag. A forwarded protected request is
  tagged `protect_access`.
- A forwarded request gets `X-Request-Id` and, on the protected path, `X-User-Id`. No other header is added.
- Policies are looked up through the client id the filter was created with.
- The cache key leaves the URI out. `CachedPolicyServedForAnyUri` and `CachedPublicPolicyCoversUnrelatedUri` show
  what follows: a policy cached for one URI, even a public one, is returned for every other URI with the same
  method and client until it expires.
- `method + clientId` is a plain concatenation. It is collision-free for the standard HTTP methods
  (`CacheKeyInjectiveForStandardMethods`) but not for custom ones (`CacheKeyCollidesForCustomMethods`).
- `ServerRequest.from(request).header(...)` adds a header after the existing ones. A caller-supplied `X-User-Id`
  therefore stays the first value of that header in the forwarded request (`CallerUserIdStaysFirst`).

The Kotlin field `Policy.method` is named `httpMethod` here because `method` is a Dafny keyword.

## Model

| member | source | states |
|---|---|---|
| Config.CacheConfigurationFor | src/main/kotlin/com/kaiqkt/gateway/config/RedisCacheConfig.kt:18-22 | the cache configuration has a time-to-live of `cacheTtl` hours (in milliseconds) and refuses null values |
| Config.DefaultCacheConfig | src/main/kotlin/com/kaiqkt/gateway/config/RedisCacheConfig.kt:19 | the starting configuration: entries never expire and null values are allowed |
| Config.Hours | src/main/kotlin/com/kaiqkt/gateway/config/RedisCacheConfig.kt:20 | `Duration.ofHours(h)` as milliseconds |
| Config.CacheConfiguration.EntryTtl | src/main/kotlin/com/kaiqkt/gateway/config/RedisCacheConfig.kt:20 | the builder step replaces the time-to-live and keeps the null-value flag |
| Config.CacheConfiguration.DisableCachingNullValues | src/main/kotlin/com/kaiqkt/gateway/config/RedisCacheConfig.kt:21 | the builder step forbids null values and keeps the time-to-live |
| Config.ExpiryFor | src/main/kotlin/com/kaiqkt/gateway/config/RedisCacheConfig.kt:20 | an entry gets an expiry exactly when the time-to-live is positive, and that expiry lies after the store time |
| Config.ConfiguredExpiry | src/main/kotlin/com/kaiqkt/gateway/config/RedisCacheConfig.kt:20 | with a positive `cacheTtl`, every entry expires at store time + `cacheTtl` hours |
| Cache.Lookup | src/main/kotlin/com/kaiqkt/gateway/services/AuthenticationService.kt:18 | the cache read behind `@Cacheable`: a hit only for an entry that has not expired; its behaviour is stated by the Store/Lookup lemmas below |
| Cache.Store | src/main/kotlin/com/kaiqkt/gateway/services/AuthenticationService.kt:18 | the cache write behind `@Cacheable`: a fresh expiry, and null refused by a null-refusing cache; its behaviour is stated by the Store/Lookup lemmas below |
| Cache.StoreThenLookupHit | src/main/kotlin/com/kaiqkt/gateway/config/RedisCacheConfig.kt:19-20 | a lookup strictly before the expiry returns the stored policy unchanged |
| Cache.StoreThenLookupExpired | src/main/kotlin/com/kaiqkt/gateway/config/RedisCacheConfig.kt:20 | a lookup at or after the expiry misses |
| Cache.StoreNullRefused | src/main/kotlin/com/kaiqkt/gateway/config/RedisCacheConfig.kt:21 | storing "no policy" in a null-refusing cache leaves the map unchanged |
| Cache.StorePreservesNoNullValues | src/main/kotlin/com/kaiqkt/gateway/config/RedisCacheConfig.kt:21 | a null-refusing cache never comes to hold a null value |
| Cache.StoreKeepsOtherKeys | src/main/kotlin/com/kaiqkt/gateway/services/AuthenticationService.kt:18 | a store changes what a lookup sees under its own key only |
| Cache.RedisCache.constructor | src/main/kotlin/com/kaiqkt/gateway/config/RedisCacheConfig.kt:18-22 | a new cache holds the given configuration and no entries |
| Cache.RedisCache.Get | src/main/kotlin/com/kaiqkt/gateway/services/AuthenticationService.kt:18 | a cache read returns exactly the entry that is live at the given time, or a miss |
| Cache.RedisCache.Put | src/main/kotlin/com/kaiqkt/gateway/services/AuthenticationService.kt:18 | a cache write updates the entries as `Store` specifies: a fresh expiry, and null refused |
| Services.MatchPolicy | src/main/kotlin/com/kaiqkt/gateway/services/AuthenticationService.kt:31 | `matchPolicy`: equal methods, and a literal or whole-input regular-expression match; stated by `MethodMustBeEqual` and `MatchByLiteralOrRegex` |
| Services.FirstMatch | src/main/kotlin/com/kaiqkt/gateway/services/AuthenticationService.kt:27 | the result is a matching element that no earlier element matches; null exactly when no element matches |
| Services.ResolvePolicy | src/main/kotlin/com/kaiqkt/gateway/services/AuthenticationService.kt:19-28 | null when the client is missing or has no policies; otherwise a matching policy of the client, and null iff none matches |
| Services.ResolveIsFirstMatch | src/main/kotlin/com/kaiqkt/gateway/services/AuthenticationService.kt:27 | the selected policy is the first matching one in list order |
| Services.MethodMustBeEqual | src/main/kotlin/com/kaiqkt/gateway/services/AuthenticationService.kt:31 | a policy for another method never matches (no method wildcard) |
| Services.MatchByLiteralOrRegex | src/main/kotlin/com/kaiqkt/gateway/services/AuthenticationService.kt:31 | with equal methods, a policy matches iff the URI equals it literally or matches it as a whole |
| Services.CacheKey | src/main/kotlin/com/kaiqkt/gateway/services/AuthenticationService.kt:18 | the key is the method followed by the client id, and nothing else (no URI) |
| Services.FindPolicyStep | src/main/kotlin/com/kaiqkt/gateway/services/AuthenticationService.kt:18-28 | the client lookup runs iff the key misses; a hit returns the cached policy and changes nothing; a miss returns the resolved policy and stores it with a fresh expiry when it is not null; a null result is never stored |
| Services.StepPreservesNoNullValues | src/main/kotlin/com/kaiqkt/gateway/services/AuthenticationService.kt:18 | a cached `findPolicy` call never stores null |
| Services.CachedPolicyServedForAnyUri | src/main/kotlin/com/kaiqkt/gateway/services/AuthenticationService.kt:18 | after a policy is stored, a later call with the same method and client before the expiry returns it for any URI without a client lookup |
| Services.NullResultRetried | src/main/kotlin/com/kaiqkt/gateway/services/AuthenticationService.kt:18 | after a null result, every call with the same key at the same time or later calls the client lookup again |
| Services.ExpiredEntryRefetched | src/main/kotlin/com/kaiqkt/gateway/services/AuthenticationService.kt:18 | at or after the expiry the policy is resolved again and, if not null, stored with an expiry measured from the new call |
| Services.CacheKeyInjectiveForStandardMethods | src/main/kotlin/com/kaiqkt/gateway/services/AuthenticationService.kt:18 | for standard HTTP methods, equal keys mean equal method and equal client |
| Services.CacheKeyCollidesForCustomMethods | src/main/kotlin/com/kaiqkt/gateway/services/AuthenticationService.kt:18 | custom methods can make two different (method, client) pairs share a key |
| Services.CachedPublicPolicyCoversUnrelatedUri | src/main/kotlin/com/kaiqkt/gateway/services/AuthenticationService.kt:18-28 | a public policy cached for one URI is returned for a URI that no policy of the client matches |
| Services.AuthenticationService.constructor | src/main/kotlin/com/kaiqkt/gateway/services/AuthenticationService.kt:10-13 | a new service uses the given cache and regular-expression engine and has made no upstream calls |
| Services.AuthenticationService.Introspect | src/main/kotlin/com/kaiqkt/gateway/services/AuthenticationService.kt:14-16 | returns exactly what the authentication service answers, records one introspection, and leaves the cache alone |
| Services.AuthenticationService.FindPolicy | src/main/kotlin/com/kaiqkt/gateway/services/AuthenticationService.kt:18-28 | result, new cache entries and client-lookup trace are those of `FindPolicyStep` on the old cache; no introspection |
| Filter.FirstHeader | src/main/kotlin/com/kaiqkt/gateway/filter/SecurityFilter.kt:67 | the value of the first header with that name (ASCII case-insensitive); none iff no such header exists |
| Filter.Overlaps | src/main/kotlin/com/kaiqkt/gateway/filter/SecurityFilter.kt:99-100 | true iff the two lists have an element in common |
| Filter.WithHeader | src/main/kotlin/com/kaiqkt/gateway/filter/SecurityFilter.kt:58-62 | method and path are kept, the existing headers are kept in order, and the new header comes last |
| Filter.SecurityCounter | src/main/kotlin/com/kaiqkt/gateway/filter/SecurityFilter.kt:35-43 | the `security_filter` counter with `client`, `resource_server` and `status` tags that every branch records |
| Filter.AccessToken | src/main/kotlin/com/kaiqkt/gateway/filter/SecurityFilter.kt:47-67 | a token is read (and so introspected) only under a non-public policy that was found |
| Filter.Decide | src/main/kotlin/com/kaiqkt/gateway/filter/SecurityFilter.kt:32-149 | forwards iff a policy is found and it is public, or the token names an active session sharing a role or permission; 403 iff tag `forbidden`, every other rejection 401; forwarded requests keep their headers and add `X-Request-Id` |
| Filter.NoPolicyRejected | src/main/kotlin/com/kaiqkt/gateway/filter/SecurityFilter.kt:32-45 | no policy gives 401 `policy_not_found`, and neither the header nor introspection is consulted |
| Filter.PublicPolicyForwarded | src/main/kotlin/com/kaiqkt/gateway/filter/SecurityFilter.kt:47-65 | a public policy forwards with `X-Request-Id` tagged `public_access`, whatever the headers, without introspection |
| Filter.MissingTokenRejected | src/main/kotlin/com/kaiqkt/gateway/filter/SecurityFilter.kt:67-81 | a non-public policy without an Authorization header gives 401 `invalid_access_token`, without introspection |
| Filter.UnknownSessionRejected | src/main/kotlin/com/kaiqkt/gateway/filter/SecurityFilter.kt:83-97 | a null introspection gives 401 `session_not_found` |
| Filter.InactiveSessionRejected | src/main/kotlin/com/kaiqkt/gateway/filter/SecurityFilter.kt:99-115 | an inactive session gives 401 `inactive_session`, even with overlapping roles or permissions |
| Filter.SharedAuthorityForwarded | src/main/kotlin/com/kaiqkt/gateway/filter/SecurityFilter.kt:117-136 | an active session sharing one role or one permission is forwarded with `X-Request-Id` and `X-User-Id` = subject, tagged `protect_access` |
| Filter.NoSharedAuthorityForbidden | src/main/kotlin/com/kaiqkt/gateway/filter/SecurityFilter.kt:138-149 | an active session sharing no role and no permission gets 403 `forbidden` |
| Filter.EmptyAuthoritiesAlwaysForbidden | src/main/kotlin/com/kaiqkt/gateway/filter/SecurityFilter.kt:138-149 | a non-public policy with empty roles and permissions gives 403 to every active session |
| Filter.CallerUserIdStaysFirst | src/main/kotlin/com/kaiqkt/gateway/filter/SecurityFilter.kt:128-133 | a caller-supplied `X-User-Id` remains the first value of that header in the forwarded request |
| Filter.SecurityFilter.constructor | src/main/kotlin/com/kaiqkt/gateway/filter/SecurityFilter.kt:17-20 | a new filter uses the given service and has recorded no counters |
| Filter.SecurityFilter.Authentication | src/main/kotlin/com/kaiqkt/gateway/filter/SecurityFilter.kt:23-151 | the response is `Decide` on the policy the cached lookup yields; exactly one `security_filter` counter with client, resource server and that status is appended; cache and call traces change as one `findPolicy` plus at most the one introspection |
| Filter.PublicPolicyFetchedOnce | src/test/kotlin/com/kaiqkt/gateway/integration/gateway/GatewayIntegrationTest.kt:14-33 | two identical requests to a public policy are both forwarded, with one client lookup and no introspection |

## Left out

- `AuthenticationClient` (HTTP through Fuel, JSON through Jackson) is modelled only as the two fail-closed oracles
  `directory` and `introspector`. Every failure is already an absent answer.
- The code of `findClientById` and of `Client` is not modelled; a client is taken to be its ordered policy list.
- Regular-expression syntax is not modelled. Neither is the `PatternSyntaxException` that an invalid pattern
  raises when the literal comparison fails.
- The `MDC.put("request_id", ...)` call and the two `log.info` audit lines: thread-local diagnostics and logging.
- UUID generation and the clock are parameters.
- Redis serialization, the `policies::` key prefix and server-side eviction are not modelled. Expiry is the
  `Live` test at lookup time.
- `Duration.ofHours` and `toMillis` overflow for huge `policies-cache-ttl` values; those exceptions are not modelled.
- `Cache.Store` and `Cache.RedisCache.Put`: a null write to a null-refusing cache makes Spring raise an
  `IllegalArgumentException`; the model leaves the map unchanged instead. `findPolicy` never writes null, because
  of its `unless` condition.
- A zero or negative TTL is modelled as Spring Data Redis handles it: the entry never expires.
- Concurrent cache misses (duplicate fetches) and Spring's proxying of `@Cacheable` are not modelled. The model
  is sequential.
- What the upstream returns after `next.handle` is not modelled; `Forward` stands for it.
- Header names are compared case-insensitively for ASCII letters only.
- `GatewayConfig` route building, path rewriting and `ObservabilityFilter`: framework wiring and logging.
- `hasRoles` and `hasPermissions` are computed before the `active` test, as in the code. Both are pure, so the
  order has no observable effect.
