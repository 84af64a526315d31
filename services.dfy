/**
 * `AuthenticationService`: policy selection (`matchPolicy`, the first-match search of
 * `findPolicy`), the `@Cacheable` layer around `findPolicy`, and the pass-through `introspect`.
 */
module Services {
  import opened Wrappers
  import opened Models
  import opened Config
  import opened Cache

  /** Whole-input regular-expression matching `pattern.toRegex().matches(s)`, left uninterpreted. */
  type RegexMatcher = (string, string) -> bool

  /** `matchPolicy`: the methods are equal, and the URI equals the pattern literally or matches it as a whole. */
  predicate MatchPolicy(fullMatch: RegexMatcher, httpMethod: string, uri: string, policy: Policy)
  {
    policy.httpMethod == httpMethod && (policy.uri == uri || fullMatch(policy.uri, uri))
  }

  /** `policies.firstOrNull { matchPolicy(...) }`. */
  function FirstMatch(fullMatch: RegexMatcher, httpMethod: string, uri: string, policies: seq<Policy>)
    : (r: Option<Policy>)
    ensures r.Some? ==> exists i :: 0 <= i < |policies| && policies[i] == r.value
                                    && MatchPolicy(fullMatch, httpMethod, uri, policies[i])
                                    && forall j :: 0 <= j < i ==> !MatchPolicy(fullMatch, httpMethod, uri, policies[j])
    ensures r.None? <==> forall i :: 0 <= i < |policies| ==> !MatchPolicy(fullMatch, httpMethod, uri, policies[i])
  {
    if |policies| == 0 then None
    else if MatchPolicy(fullMatch, httpMethod, uri, policies[0]) then Some(policies[0])
    else
      var r := FirstMatch(fullMatch, httpMethod, uri, policies[1..]);
      assert forall i :: 1 <= i < |policies| ==> policies[i] == policies[1..][i - 1];
      r
  }

  /**
   * The body of `findPolicy` once the client lookup has answered: no client or an empty
   * policy list gives null, otherwise the first matching policy.
   */
  function ResolvePolicy(fullMatch: RegexMatcher, httpMethod: string, uri: string, client: Option<Client>)
    : (r: Option<Policy>)
    ensures client.None? ==> r.None?
    ensures client.Some? && |client.value.policies| == 0 ==> r.None?
    ensures r.Some? ==> client.Some? && r.value in client.value.policies
                        && MatchPolicy(fullMatch, httpMethod, uri, r.value)
    ensures client.Some? ==>
              (r.None? <==> forall p :: p in client.value.policies ==> !MatchPolicy(fullMatch, httpMethod, uri, p))
  {
    match client
    case None => None
    case Some(c) =>
      if |c.policies| == 0 then None else FirstMatch(fullMatch, httpMethod, uri, c.policies)
  }

  /** The cache key `#method.concat(#clientId)`; the URI is not part of it. */
  function CacheKey(httpMethod: string, clientId: string): (k: string)
    ensures |k| == |httpMethod| + |clientId|
    ensures k[..|httpMethod|] == httpMethod && k[|httpMethod|..] == clientId
  {
    httpMethod + clientId
  }

  /** The outcome of one `findPolicy` call through the cache. */
  datatype Step = Step(result: Option<Policy>, entries: map<string, Entry>, fetched: bool)

  /**
   * One cached `findPolicy` call at time `now`, with `directory` standing for the client lookup
   * of the authentication service: a live entry is returned without calling the lookup; on a miss
   * the policy is resolved and, unless it is null, stored.
   */
  function FindPolicyStep(c: CacheConfiguration, fullMatch: RegexMatcher, entries: map<string, Entry>,
                          httpMethod: string, uri: string, clientId: string, now: int,
                          directory: string -> Option<Client>): (s: Step)
    ensures s.fetched <==> Lookup(entries, CacheKey(httpMethod, clientId), now).None?
    ensures !s.fetched ==> s.entries == entries
    ensures s.fetched ==> s.result == ResolvePolicy(fullMatch, httpMethod, uri, directory(clientId))
    ensures s.result.None? ==> s.entries == entries
    ensures !s.fetched ==> Lookup(entries, CacheKey(httpMethod, clientId), now) == Some(s.result)
    ensures s.fetched && s.result.Some? ==> s.entries == Store(c, entries, CacheKey(httpMethod, clientId), s.result, now)
  {
    var key := CacheKey(httpMethod, clientId);
    match Lookup(entries, key, now)
    case Some(v) => Step(v, entries, false)
    case None =>
      var r := ResolvePolicy(fullMatch, httpMethod, uri, directory(clientId));
      Step(r, if r.None? then entries else Store(c, entries, key, r, now), true)
  }

  /** The selected policy is the first policy of the client's list that matches. */
  lemma ResolveIsFirstMatch(fullMatch: RegexMatcher, httpMethod: string, uri: string, client: Client)
    requires ResolvePolicy(fullMatch, httpMethod, uri, Some(client)).Some?
    ensures exists i :: 0 <= i < |client.policies|
                        && client.policies[i] == ResolvePolicy(fullMatch, httpMethod, uri, Some(client)).value
                        && forall j :: 0 <= j < i ==> !MatchPolicy(fullMatch, httpMethod, uri, client.policies[j])
  {
  }

  /** A policy for another method never matches: there is no method wildcard. */
  lemma MethodMustBeEqual(fullMatch: RegexMatcher, httpMethod: string, uri: string, policy: Policy)
    requires policy.httpMethod != httpMethod
    ensures !MatchPolicy(fullMatch, httpMethod, uri, policy)
  {
  }

  /** With equal methods, a literal URI or a whole-input regular-expression match each suffice. */
  lemma MatchByLiteralOrRegex(fullMatch: RegexMatcher, httpMethod: string, uri: string, policy: Policy)
    requires policy.httpMethod == httpMethod
    ensures policy.uri == uri ==> MatchPolicy(fullMatch, httpMethod, uri, policy)
    ensures fullMatch(policy.uri, uri) ==> MatchPolicy(fullMatch, httpMethod, uri, policy)
    ensures MatchPolicy(fullMatch, httpMethod, uri, policy) ==> policy.uri == uri || fullMatch(policy.uri, uri)
  {
  }

  /** Under a null-refusing configuration, a `findPolicy` step never stores null. */
  lemma StepPreservesNoNullValues(c: CacheConfiguration, fullMatch: RegexMatcher, entries: map<string, Entry>,
                                  httpMethod: string, uri: string, clientId: string, now: int,
                                  directory: string -> Option<Client>)
    requires NoNullValues(entries)
    ensures NoNullValues(FindPolicyStep(c, fullMatch, entries, httpMethod, uri, clientId, now, directory).entries)
  {
  }

  /**
   * After a step that yields a policy, every later call with the same method and client before
   * the entry expires returns that policy for ANY URI and does not call the client lookup.
   */
  lemma CachedPolicyServedForAnyUri(c: CacheConfiguration, fullMatch: RegexMatcher, entries: map<string, Entry>,
                                    httpMethod: string, uri: string, clientId: string, now: int,
                                    directory: string -> Option<Client>,
                                    uri': string, now': int, directory': string -> Option<Client>)
    requires var s := FindPolicyStep(c, fullMatch, entries, httpMethod, uri, clientId, now, directory);
             s.result.Some? && s.fetched
    requires c.entryTtl > 0 ==> now' < now + c.entryTtl
    ensures var s := FindPolicyStep(c, fullMatch, entries, httpMethod, uri, clientId, now, directory);
            FindPolicyStep(c, fullMatch, s.entries, httpMethod, uri', clientId, now', directory')
              == Step(s.result, s.entries, false)
  {
  }

  /** A null result is not cached: any later call with the same key calls the client lookup again. */
  lemma NullResultRetried(c: CacheConfiguration, fullMatch: RegexMatcher, entries: map<string, Entry>,
                          httpMethod: string, uri: string, clientId: string, now: int,
                          directory: string -> Option<Client>,
                          uri': string, now': int, directory': string -> Option<Client>)
    requires NoNullValues(entries)
    requires FindPolicyStep(c, fullMatch, entries, httpMethod, uri, clientId, now, directory).result.None?
    requires now <= now'
    ensures var s := FindPolicyStep(c, fullMatch, entries, httpMethod, uri, clientId, now, directory);
            s.fetched && s.entries == entries
            && FindPolicyStep(c, fullMatch, s.entries, httpMethod, uri', clientId, now', directory').fetched
  {
  }

  /**
   * At or after the expiry the entry misses; the policy is resolved again and, when it is not null,
   * stored with a fresh expiry measured from the second call.
   */
  lemma ExpiredEntryRefetched(c: CacheConfiguration, fullMatch: RegexMatcher, entries: map<string, Entry>,
                              httpMethod: string, uri: string, clientId: string, now: int,
                              directory: string -> Option<Client>,
                              uri': string, now': int, directory': string -> Option<Client>)
    requires var s := FindPolicyStep(c, fullMatch, entries, httpMethod, uri, clientId, now, directory);
             s.result.Some? && s.fetched
    requires c.entryTtl > 0 && now' >= now + c.entryTtl
    ensures var s := FindPolicyStep(c, fullMatch, entries, httpMethod, uri, clientId, now, directory);
            var s' := FindPolicyStep(c, fullMatch, s.entries, httpMethod, uri', clientId, now', directory');
            s'.fetched
            && s'.result == ResolvePolicy(fullMatch, httpMethod, uri', directory'(clientId))
            && (s'.result.Some? ==>
                  CacheKey(httpMethod, clientId) in s'.entries
                  && s'.entries[CacheKey(httpMethod, clientId)] == Entry(s'.result, Some(now' + c.entryTtl)))
  {
  }

  /** The HTTP methods of RFC 9110 section 9 plus PATCH (RFC 5789). */
  const StandardMethods: set<string> :=
    {"GET", "HEAD", "POST", "PUT", "DELETE", "CONNECT", "OPTIONS", "TRACE", "PATCH"}

  /** No standard method is a proper prefix of another. */
  lemma StandardMethodsPrefixFree(m1: string, m2: string)
    requires m1 in StandardMethods && m2 in StandardMethods && |m1| <= |m2|
    ensures m1 == m2[..|m1|] ==> m1 == m2
  {
    if m1 == m2[..|m1|] {
      // the first two letters already tell every standard method apart
      assert m1[0] == m2[0] && m1[1] == m2[1];
    }
  }

  /** Among standard methods, equal cache keys mean equal method and equal client. */
  lemma CacheKeyInjectiveForStandardMethods(m1: string, c1: string, m2: string, c2: string)
    requires m1 in StandardMethods && m2 in StandardMethods
    requires CacheKey(m1, c1) == CacheKey(m2, c2)
    ensures m1 == m2 && c1 == c2
  {
    var k := CacheKey(m1, c1);
    assert k[..|m1|] == m1 && k[..|m2|] == m2;
    if |m1| <= |m2| {
      assert m1 == m2[..|m1|];
      StandardMethodsPrefixFree(m1, m2);
    } else {
      assert m2 == m1[..|m2|];
      StandardMethodsPrefixFree(m2, m1);
    }
    assert c1 == k[|m1|..] && c2 == k[|m2|..];
  }

  /** A custom method can make two different (method, client) pairs share one cache entry. */
  lemma CacheKeyCollidesForCustomMethods()
    ensures CacheKey("GET", "Sabc") == CacheKey("GETS", "abc")
  {
  }

  /**
   * Scenario: a public policy for GET /public is cached for a client; a later GET to /admin,
   * for which the client has no policy at all, is handed the public policy.
   */
  lemma CachedPublicPolicyCoversUnrelatedUri()
    ensures var c := CacheConfigurationFor(1);
            var pub := Policy("/public", "GET", true, [], []);
            var directory := (id: string) => Some(Client([pub]));
            var noRegex := (pattern: string, s: string) => false;
            var s := FindPolicyStep(c, noRegex, map[], "GET", "/public", "client", 0, directory);
            ResolvePolicy(noRegex, "GET", "/admin", directory("client")).None?
            && FindPolicyStep(c, noRegex, s.entries, "GET", "/admin", "client", 1000, directory).result == Some(pub)
  {
  }

  /** The authentication service: its handle on the shared cache, the regex engine, and traces of its upstream calls. */
  class AuthenticationService {
    const cache: RedisCache
    const fullMatch: RegexMatcher
    /** Client ids sent to the client lookup, in call order. */
    ghost var clientLookups: seq<string>
    /** Access tokens sent to introspection, in call order. */
    ghost var introspections: seq<string>

    constructor (cache: RedisCache, fullMatch: RegexMatcher)
      ensures this.cache == cache && this.fullMatch == fullMatch
      ensures clientLookups == [] && introspections == []
    {
      this.cache := cache;
      this.fullMatch := fullMatch;
      clientLookups := [];
      introspections := [];
    }

    /** `introspect`: passes the token to the authentication service and returns its answer; nothing is cached. */
    method Introspect(accessToken: string, introspector: string -> Option<Models.Introspect>)
      returns (r: Option<Models.Introspect>)
      modifies this
      ensures r == introspector(accessToken)
      ensures introspections == old(introspections) + [accessToken]
      ensures clientLookups == old(clientLookups)
    {
      r := introspector(accessToken);
      introspections := introspections + [accessToken];
    }

    /** `findPolicy` behind `@Cacheable(key = method + clientId, unless = result == null)`. */
    method FindPolicy(httpMethod: string, uri: string, clientId: string, now: int,
                      directory: string -> Option<Client>)
      returns (r: Option<Policy>)
      modifies this, cache
      ensures var s := FindPolicyStep(cache.config, fullMatch, old(cache.entries), httpMethod, uri, clientId, now,
                                      directory);
              r == s.result && cache.entries == s.entries
              && clientLookups == old(clientLookups) + (if s.fetched then [clientId] else [])
      ensures introspections == old(introspections)
    {
      var key := CacheKey(httpMethod, clientId);
      var hit := cache.Get(key, now);
      if hit.Some? {
        r := hit.value;
        return;
      }
      var client := directory(clientId);
      clientLookups := clientLookups + [clientId];
      if client.None? {
        r := None;
      } else if |client.value.policies| == 0 {
        r := None;
      } else {
        r := FirstMatch(fullMatch, httpMethod, uri, client.value.policies);
      }
      if r.Some? {
        cache.Put(key, r, now);
      }
    }
  }
}
