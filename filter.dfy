/**
 * `SecurityFilter.authentication`: the per-request decision chain, the headers injected
 * into a forwarded request, and the one `security_filter` counter recorded per request.
 */
module Filter {
  import opened Wrappers
  import opened Models
  import opened Config
  import opened Cache
  import opened Services

  /** A header as (name, value); a request may carry several values for one name. */
  type Header = (string, string)

  /** The parts of an inbound request the filter reads: method, path (without query) and headers. */
  datatype Request = Request(httpMethod: string, path: string, headers: seq<Header>)

  /** Either the (rebuilt) request is handed to the next handler, or the filter answers with a status. */
  datatype Response = Forward(request: Request) | Reject(status: int)

  const Unauthorized: int := 401
  const Forbidden: int := 403

  /** Status tags of the `security_filter` counter, one per branch. */
  const PolicyNotFound: string := "policy_not_found"
  const PublicAccess: string := "public_access"
  const InvalidAccessToken: string := "invalid_access_token"
  const SessionNotFound: string := "session_not_found"
  const InactiveSession: string := "inactive_session"
  const ProtectAccess: string := "protect_access"
  const ForbiddenAccess: string := "forbidden"

  /** A metrics counter: its name and its tags as (key, value) pairs in call order. */
  datatype Counter = Counter(name: string, tags: seq<(string, string)>)

  /** The counter recorded by every branch of the filter. */
  function SecurityCounter(clientId: string, resourceServerHost: string, status: string): Counter
  {
    Counter("security_filter", [("client", clientId), ("resource_server", resourceServerHost), ("status", status)])
  }

  /** ASCII lower-casing, enough to compare header names. */
  function LowerAscii(c: char): char
  {
    if 'A' <= c <= 'Z' then (c as int + 32) as char else c
  }

  /** Header names are compared without regard to ASCII case. */
  predicate SameHeaderName(a: string, b: string)
  {
    |a| == |b| && forall i :: 0 <= i < |a| ==> LowerAscii(a[i]) == LowerAscii(b[i])
  }

  /** `headers().firstHeader(name)`: the first value sent under `name`, if any. */
  function FirstHeader(headers: seq<Header>, name: string): (r: Option<string>)
    ensures r.Some? ==> exists i :: 0 <= i < |headers| && SameHeaderName(headers[i].0, name) && headers[i].1 == r.value
                                    && forall j :: 0 <= j < i ==> !SameHeaderName(headers[j].0, name)
    ensures r.None? <==> forall i :: 0 <= i < |headers| ==> !SameHeaderName(headers[i].0, name)
  {
    if |headers| == 0 then None
    else if SameHeaderName(headers[0].0, name) then Some(headers[0].1)
    else
      var r := FirstHeader(headers[1..], name);
      assert forall i :: 1 <= i < |headers| ==> headers[i] == headers[1..][i - 1];
      r
  }

  /** `ServerRequest.from(request).header(name, value)`: the value is added after the existing headers. */
  function WithHeader(request: Request, name: string, value: string): (r: Request)
    ensures r.httpMethod == request.httpMethod && r.path == request.path
    ensures |r.headers| == |request.headers| + 1 && r.headers[..|request.headers|] == request.headers
    ensures r.headers[|request.headers|] == (name, value)
  {
    request.(headers := request.headers + [(name, value)])
  }

  /** `xs.any(ys::contains)`. */
  function Overlaps(xs: seq<string>, ys: seq<string>): (b: bool)
    ensures b <==> exists x :: x in xs && x in ys
  {
    if |xs| == 0 then false
    else if xs[0] in ys then true
    else
      var b := Overlaps(xs[1..], ys);
      assert forall x :: x in xs && x != xs[0] ==> x in xs[1..];
      b
  }

  /** The reference meaning of the role/permission test: some role or some permission in common. */
  ghost predicate SharesAuthority(session: Introspect, policy: Policy)
  {
    (exists r :: r in session.roles && r in policy.roles)
    || (exists q :: q in session.permissions && q in policy.permissions)
  }

  /** The token handed to introspection: only a non-public policy reads the Authorization header. */
  function AccessToken(policy: Option<Policy>, request: Request): (t: Option<string>)
    ensures t.Some? ==> policy.Some? && !policy.value.isPublic
  {
    if policy.None? || policy.value.isPublic then None else FirstHeader(request.headers, "Authorization")
  }

  /** The final response and the status tag of the counter. */
  datatype Decision = Decision(response: Response, status: string)

  /**
   * The decision chain of `authentication`, given the policy `findPolicy` returned, the request,
   * the generated request id and the introspection answer for each token.
   */
  function Decide(policy: Option<Policy>, request: Request, requestId: string,
                  introspector: string -> Option<Introspect>): (d: Decision)
    ensures d.response.Forward? <==>
              policy.Some?
              && (policy.value.isPublic
                  || (AccessToken(policy, request).Some?
                      && introspector(AccessToken(policy, request).value).Some?
                      && introspector(AccessToken(policy, request).value).value.active
                      && SharesAuthority(introspector(AccessToken(policy, request).value).value, policy.value)))
    ensures d.response.Reject? ==> d.response.status == (if d.status == ForbiddenAccess then Forbidden else Unauthorized)
    ensures d.response == Reject(Forbidden) <==> d.status == ForbiddenAccess
    ensures d.response.Forward? <==> d.status == PublicAccess || d.status == ProtectAccess
    ensures d.response.Forward? ==>
              d.response.request.httpMethod == request.httpMethod && d.response.request.path == request.path
              && |d.response.request.headers| > |request.headers|
              && d.response.request.headers[..|request.headers|] == request.headers
              && d.response.request.headers[|request.headers|] == ("X-Request-Id", requestId)
  {
    if policy.None? then Decision(Reject(Unauthorized), PolicyNotFound)
    else
      var p := policy.value;
      if p.isPublic then Decision(Forward(WithHeader(request, "X-Request-Id", requestId)), PublicAccess)
      else
        var accessToken := FirstHeader(request.headers, "Authorization");
        if accessToken.None? then Decision(Reject(Unauthorized), InvalidAccessToken)
        else
          var introspect := introspector(accessToken.value);
          if introspect.None? then Decision(Reject(Unauthorized), SessionNotFound)
          else
            var session := introspect.value;
            var hasRoles := Overlaps(session.roles, p.roles);
            var hasPermissions := Overlaps(session.permissions, p.permissions);
            if !session.active then Decision(Reject(Unauthorized), InactiveSession)
            else if hasRoles || hasPermissions then
              Decision(Forward(WithHeader(WithHeader(request, "X-Request-Id", requestId), "X-User-Id", session.sub)),
                       ProtectAccess)
            else Decision(Reject(Forbidden), ForbiddenAccess)
  }

  /** No policy: 401 tagged `policy_not_found`, and neither the token nor introspection is consulted. */
  lemma NoPolicyRejected(request: Request, requestId: string, introspector: string -> Option<Introspect>)
    ensures Decide(None, request, requestId, introspector) == Decision(Reject(Unauthorized), PolicyNotFound)
    ensures AccessToken(None, request).None?
  {
  }

  /**
   * A public policy forwards with `X-Request-Id` set to the request id, tagged `public_access`,
   * whatever headers the request carries and whatever introspection would answer; no introspection happens.
   */
  lemma PublicPolicyForwarded(p: Policy, request: Request, requestId: string,
                              introspector: string -> Option<Introspect>)
    requires p.isPublic
    ensures Decide(Some(p), request, requestId, introspector)
              == Decision(Forward(WithHeader(request, "X-Request-Id", requestId)), PublicAccess)
    ensures AccessToken(Some(p), request).None?
  {
  }

  /** A non-public policy without an Authorization header: 401 `invalid_access_token`, no introspection. */
  lemma MissingTokenRejected(p: Policy, request: Request, requestId: string,
                             introspector: string -> Option<Introspect>)
    requires !p.isPublic && FirstHeader(request.headers, "Authorization").None?
    ensures Decide(Some(p), request, requestId, introspector) == Decision(Reject(Unauthorized), InvalidAccessToken)
    ensures AccessToken(Some(p), request).None?
  {
  }

  /** A token that introspection does not recognise: 401 `session_not_found`. */
  lemma UnknownSessionRejected(p: Policy, request: Request, requestId: string,
                               introspector: string -> Option<Introspect>)
    requires !p.isPublic && AccessToken(Some(p), request).Some?
    requires introspector(AccessToken(Some(p), request).value).None?
    ensures Decide(Some(p), request, requestId, introspector) == Decision(Reject(Unauthorized), SessionNotFound)
  {
  }

  /** An inactive session: 401 `inactive_session`, even when its roles or permissions overlap the policy's. */
  lemma InactiveSessionRejected(p: Policy, request: Request, requestId: string,
                                introspector: string -> Option<Introspect>)
    requires !p.isPublic && AccessToken(Some(p), request).Some?
    requires var i := introspector(AccessToken(Some(p), request).value); i.Some? && !i.value.active
    ensures Decide(Some(p), request, requestId, introspector) == Decision(Reject(Unauthorized), InactiveSession)
  {
  }

  /**
   * An active session sharing a role OR a permission with the policy is forwarded with
   * `X-Request-Id` and `X-User-Id` = subject, tagged `protect_access`; either overlap alone suffices.
   */
  lemma SharedAuthorityForwarded(p: Policy, request: Request, requestId: string,
                                 introspector: string -> Option<Introspect>, r: string)
    requires !p.isPublic && AccessToken(Some(p), request).Some?
    requires var i := introspector(AccessToken(Some(p), request).value);
             i.Some? && i.value.active && ((r in i.value.roles && r in p.roles)
                                           || (r in i.value.permissions && r in p.permissions))
    ensures var i := introspector(AccessToken(Some(p), request).value).value;
            Decide(Some(p), request, requestId, introspector)
              == Decision(Forward(WithHeader(WithHeader(request, "X-Request-Id", requestId), "X-User-Id", i.sub)),
                          ProtectAccess)
  {
  }

  /** An active session with no role and no permission in common: 403 `forbidden`. */
  lemma NoSharedAuthorityForbidden(p: Policy, request: Request, requestId: string,
                                   introspector: string -> Option<Introspect>)
    requires !p.isPublic && AccessToken(Some(p), request).Some?
    requires var i := introspector(AccessToken(Some(p), request).value);
             i.Some? && i.value.active && !SharesAuthority(i.value, p)
    ensures Decide(Some(p), request, requestId, introspector) == Decision(Reject(Forbidden), ForbiddenAccess)
  {
  }

  /** A non-public policy with no roles and no permissions forbids every active session. */
  lemma EmptyAuthoritiesAlwaysForbidden(p: Policy, request: Request, requestId: string,
                                        introspector: string -> Option<Introspect>)
    requires !p.isPublic && p.roles == [] && p.permissions == []
    requires AccessToken(Some(p), request).Some?
    requires var i := introspector(AccessToken(Some(p), request).value); i.Some? && i.value.active
    ensures Decide(Some(p), request, requestId, introspector).response == Reject(Forbidden)
  {
  }

  /**
   * The injected `X-User-Id` comes after the request's own headers, so a caller that sends its
   * own `X-User-Id` still has its value first in the forwarded request.
   */
  lemma CallerUserIdStaysFirst(p: Policy, request: Request, requestId: string,
                               introspector: string -> Option<Introspect>, forged: string)
    requires FirstHeader(request.headers, "X-User-Id") == Some(forged)
    requires Decide(Some(p), request, requestId, introspector).response.Forward?
    ensures FirstHeader(Decide(Some(p), request, requestId, introspector).response.request.headers, "X-User-Id")
              == Some(forged)
  {
    var d := Decide(Some(p), request, requestId, introspector);
    FirstHeaderOfExtension(request.headers, d.response.request.headers, "X-User-Id");
  }

  /** Appending headers does not change the first value of a name that is already present. */
  lemma {:induction false} FirstHeaderOfExtension(headers: seq<Header>, extended: seq<Header>, name: string)
    requires FirstHeader(headers, name).Some?
    requires |extended| >= |headers| && extended[..|headers|] == headers
    ensures FirstHeader(extended, name) == FirstHeader(headers, name)
  {
    if !SameHeaderName(headers[0].0, name) {
      assert extended[1..][..|headers[1..]|] == headers[1..];
      FirstHeaderOfExtension(headers[1..], extended[1..], name);
    }
  }

  /** The security filter bound to one authentication service, with the counters it has recorded. */
  class SecurityFilter {
    const service: AuthenticationService
    var counters: seq<Counter>

    constructor (service: AuthenticationService)
      ensures this.service == service && counters == []
    {
      this.service := service;
      counters := [];
    }

    /**
     * One request through `authentication(clientId, resourceServerHost)` at time `now`, with the
     * generated `requestId` and the two answers of the authentication service as parameters.
     */
    method Authentication(clientId: string, resourceServerHost: string, request: Request, requestId: string,
                          now: int, directory: string -> Option<Client>,
                          introspector: string -> Option<Introspect>)
      returns (r: Response)
      modifies this, service, service.cache
      ensures var s := FindPolicyStep(service.cache.config, service.fullMatch, old(service.cache.entries),
                                      request.httpMethod, request.path, clientId, now, directory);
              var d := Decide(s.result, request, requestId, introspector);
              r == d.response
              && counters == old(counters) + [SecurityCounter(clientId, resourceServerHost, d.status)]
              && service.cache.entries == s.entries
              && service.clientLookups == old(service.clientLookups) + (if s.fetched then [clientId] else [])
              && service.introspections == old(service.introspections)
                                           + (match AccessToken(s.result, request)
                                              case Some(t) => [t]
                                              case None => [])
    {
      var policy := service.FindPolicy(request.httpMethod, request.path, clientId, now, directory);

      if policy.None? {
        counters := counters + [SecurityCounter(clientId, resourceServerHost, PolicyNotFound)];
        return Reject(Unauthorized);
      }
      var p := policy.value;

      if p.isPublic {
        counters := counters + [SecurityCounter(clientId, resourceServerHost, PublicAccess)];
        return Forward(WithHeader(request, "X-Request-Id", requestId));
      }

      var accessToken := FirstHeader(request.headers, "Authorization");
      if accessToken.None? {
        counters := counters + [SecurityCounter(clientId, resourceServerHost, InvalidAccessToken)];
        return Reject(Unauthorized);
      }

      var introspect := service.Introspect(accessToken.value, introspector);
      if introspect.None? {
        counters := counters + [SecurityCounter(clientId, resourceServerHost, SessionNotFound)];
        return Reject(Unauthorized);
      }
      var session := introspect.value;

      var hasRoles := Overlaps(session.roles, p.roles);
      var hasPermissions := Overlaps(session.permissions, p.permissions);

      if !session.active {
        counters := counters + [SecurityCounter(clientId, resourceServerHost, InactiveSession)];
        return Reject(Unauthorized);
      }

      if hasRoles || hasPermissions {
        counters := counters + [SecurityCounter(clientId, resourceServerHost, ProtectAccess)];
        return Forward(WithHeader(WithHeader(request, "X-Request-Id", requestId), "X-User-Id", session.sub));
      }

      counters := counters + [SecurityCounter(clientId, resourceServerHost, ForbiddenAccess)];
      return Reject(Forbidden);
    }
  }

  /**
   * Two identical requests to a public policy within the cache lifetime: both are forwarded,
   * the client lookup runs once and introspection never runs.
   */
  method PublicPolicyFetchedOnce()
  {
    var cache := new RedisCache(CacheConfigurationFor(1));
    var service := new AuthenticationService(cache, (pattern: string, s: string) => false);
    var filter := new SecurityFilter(service);
    var users := Policy("/auth/v1/users", "GET", true, [], []);
    var directory := (id: string) => if id == "1" then Some(Client([users])) else None;
    var introspector := (token: string) => None;
    var request := Request("GET", "/auth/v1/users", []);

    var first := filter.Authentication("1", "host", request, "request-1", 0, directory, introspector);
    var second := filter.Authentication("1", "host", request, "request-2", 60_000, directory, introspector);

    assert first == Forward(WithHeader(request, "X-Request-Id", "request-1"));
    assert second == Forward(WithHeader(request, "X-Request-Id", "request-2"));
    assert service.clientLookups == ["1"];
    assert service.introspections == [];
    assert filter.counters == [SecurityCounter("1", "host", PublicAccess), SecurityCounter("1", "host", PublicAccess)];
  }
}
