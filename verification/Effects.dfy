/** What policies do to a compiled route, kind by kind, from their targets alone. */
module Effects {
  import opened Collections
  import opened Types
  import opened Policies

  /** The policy names the route itself. */
  predicate NamesRoute(t: Target, source: RouteSource) {
    t.kind != "Gateway" && t.kind == source.kind && t.namespace == source.namespace && t.name == source.name
  }

  /** The policy names a Gateway among the route's parents and, if it names a section, one that a
      parentRef of that Gateway names too. */
  predicate NamesGateway(t: Target, source: RouteSource) {
    t.kind == "Gateway" &&
    exists ref :: ref in source.gatewayRefs && ref.0 == t.namespace && ref.1 == t.name && (t.section.None? || ref.2 == t.section)
  }

  lemma TargetsExactly(t: Target, source: RouteSource)
    ensures TargetsRoute(t, source) <==> NamesRoute(t, source)
    ensures TargetsGateway(t, source) <==> NamesGateway(t, source)
  {
    if ref :| ref in source.gatewayRefs && ref.0 == t.namespace && ref.1 == t.name && (t.section.None? || ref.2 == t.section) {
      var i :| 0 <= i < |source.gatewayRefs| && source.gatewayRefs[i] == ref;
      assert RefMatches(t, source.gatewayRefs[i]);
    }
  }

  /** Policy `i` governs the route: the first that names it or, when none does, the first that
      names one of its Gateways. */
  ghost predicate Governs<S>(policies: seq<Policy<S>>, source: RouteSource, i: nat) {
    && i < |policies|
    && (if NamesRoute(policies[i].target, source) then forall j :: 0 <= j < i ==> !NamesRoute(policies[j].target, source)
        else
          && NamesGateway(policies[i].target, source)
          && (forall j :: 0 <= j < |policies| ==> !NamesRoute(policies[j].target, source))
          && (forall j :: 0 <= j < i ==> !NamesGateway(policies[j].target, source)))
  }

  ghost predicate Governed<S>(policies: seq<Policy<S>>, source: RouteSource) { exists i: nat :: Governs(policies, source, i) }

  lemma GoverningOne<S>(policies: seq<Policy<S>>, source: RouteSource, i: nat, j: nat)
    requires Governs(policies, source, i) && Governs(policies, source, j)
    ensures i == j
  {
  }

  /** The lookup finds the governing policy. */
  lemma ScanGoverns<S(!new)>(policies: seq<Policy<S>>, source: RouteSource)
    ensures Scan(policies, source).Some? <==> Governed(policies, source)
    ensures Scan(policies, source).Some? ==> Governs(policies, source, Scan(policies, source).value)
  {
    forall i | 0 <= i < |policies|
      ensures ByRoute<S>(source)(policies[i]) <==> NamesRoute(policies[i].target, source)
      ensures ByGateway<S>(source)(policies[i]) <==> NamesGateway(policies[i].target, source)
    {
      TargetsExactly(policies[i].target, source);
    }
    var found := Scan(policies, source);
    if found.Some? {
      assert Governs(policies, source, found.value);
    }
  }

  /** `v` is what the governing policy says, and nothing where none governs. */
  ghost predicate Value<S>(policies: seq<Policy<S>>, source: RouteSource, v: Option<S>) {
    if v.None? then !Governed(policies, source) else exists i: nat :: Governs(policies, source, i) && policies[i].spec == v.value
  }

  lemma ApplicableValue<S(!new)>(policies: seq<Policy<S>>, source: RouteSource)
    ensures Value(policies, source, Applicable(policies, source))
    ensures Applicable(policies, source).Some? <==> Governed(policies, source)
  {
    ScanGoverns(policies, source);
  }

  /** The governing policy's value or, where none governs, the one there was. */
  ghost predicate Sets<S>(policies: seq<Policy<S>>, source: RouteSource, before: Option<S>, after: Option<S>) {
    if Governed(policies, source) then after.Some? && Value(policies, source, after) else after == before
  }

  // ---- The policy block ----

  /** A Service the policy may not refer to leaves an empty name, which refuses every request. */
  ghost predicate ExtAuthSays(ps: PolicySet, source: RouteSource, before: Option<ExtAuth>, after: Option<ExtAuth>) {
    if Governed(ps.extAuths, source) then exists i: nat :: Governs(ps.extAuths, source, i) && after == Some(Reachable(ps, ps.extAuths[i]))
    else after == before
  }

  function Reachable(ps: PolicySet, p: Policy<ExtAuth>): ExtAuth {
    p.spec.(serviceName := if ps.permitted(p) then p.spec.serviceName else "")
  }

  ghost predicate BlockSays(ps: PolicySet, source: RouteSource, before: PolicyBlock, after: PolicyBlock) {
    && Sets(ps.rateLimits, source, before.rateLimit, after.rateLimit)
    && Sets(ps.circuitBreakers, source, before.circuitBreaker, after.circuitBreaker)
    && Sets(ps.connections, source, before.maxConnections, after.maxConnections)
    && Sets(ps.ipAllowlists, source, before.ipAllowlist, after.ipAllowlist)
    && ExtAuthSays(ps, source, before.extAuth, after.extAuth)
    && Sets(ps.bodySizeLimits, source, Some(before.maxRequestBodyBytes), Some(after.maxRequestBodyBytes))
  }

  lemma ExtAuthEffect(ps: PolicySet, source: RouteSource, before: Option<ExtAuth>)
    ensures ExtAuthSays(ps, source, before, Overlay(ExtAuthFor(ps, source), before))
  {
    ScanGoverns(ps.extAuths, source);
  }

  /** Rate limit, circuit breaker, connection limit, allowlist, external authorization and body
      size are those of the governing policies. */
  lemma BlockEffects(ps: PolicySet, source: RouteSource, r: RouteConfig)
    ensures BlockSays(ps, source, r.policy, Applied(ps, source, r).policy)
  {
    ApplicableValue(ps.rateLimits, source);
    ApplicableValue(ps.circuitBreakers, source);
    ApplicableValue(ps.connections, source);
    ApplicableValue(ps.ipAllowlists, source);
    ApplicableValue(ps.bodySizeLimits, source);
    ExtAuthEffect(ps, source, r.policy.extAuth);
  }

  // ---- Traffic ----

  /** The rule's own retries win over a policy's. */
  ghost predicate RetrySays(ps: PolicySet, source: RouteSource, before: Traffic, after: Traffic) {
    && after.retryCodes == before.retryCodes
    && (if before.maxRetries == 0 && before.retryCodes == [] && Governed(ps.retries, source)
        then Value(ps.retries, source, Some(Retry(after.maxRetries, after.retryOn)))
        else after.maxRetries == before.maxRetries && after.retryOn == before.retryOn)
  }

  /** The rule's own CORS filter wins over a policy. */
  ghost predicate CorsSays(ps: PolicySet, source: RouteSource, before: Traffic, after: Traffic) {
    if before.cors.Some? then after.cors == before.cors else Value(ps.corsPolicies, source, after.cors)
  }

  /** The policy's positive timeouts win over the rule's, each over its own. */
  ghost predicate TimeoutsSay(ps: PolicySet, source: RouteSource, before: Traffic, after: Traffic) {
    if !Governed(ps.timeouts, source) then
      && after.requestTimeoutMs == before.requestTimeoutMs && after.backendRequestTimeoutMs == before.backendRequestTimeoutMs
      && after.connectTimeoutMs == before.connectTimeoutMs
    else exists t :: Value(ps.timeouts, source, Some(t)) && TimeoutsAre(t, before, after)
  }

  predicate TimeoutsAre(t: Timeouts, before: Traffic, after: Traffic) {
    && after.requestTimeoutMs == (if t.requestMs == 0 then before.requestTimeoutMs else t.requestMs)
    && after.backendRequestTimeoutMs == (if t.backendRequestMs == 0 then before.backendRequestTimeoutMs else t.backendRequestMs)
    && after.connectTimeoutMs == (if t.connectMs == 0 then before.connectTimeoutMs else Some(t.connectMs))
  }

  lemma RetryFields(a: Attachments, t: Traffic)
    ensures TrafficFor(a, t).retryCodes == t.retryCodes
    ensures var u := TrafficFor(a, t);
      if t.maxRetries == 0 && t.retryCodes == [] && a.retry.Some? then a.retry.value == Retry(u.maxRetries, u.retryOn)
      else u.maxRetries == t.maxRetries && u.retryOn == t.retryOn
  {
  }

  lemma RetryEffect(ps: PolicySet, source: RouteSource, r: RouteConfig)
    ensures RetrySays(ps, source, r.traffic, Applied(ps, source, r).traffic)
  {
    RetryFields(AttachmentsFor(ps, source), r.traffic);
    ApplicableValue(ps.retries, source);
  }

  lemma CorsEffect(ps: PolicySet, source: RouteSource, r: RouteConfig)
    ensures CorsSays(ps, source, r.traffic, Applied(ps, source, r).traffic)
  {
    ApplicableValue(ps.corsPolicies, source);
  }

  lemma TimeoutFields(a: Attachments, t: Traffic)
    ensures var u := TrafficFor(a, t);
      if a.timeout.Some? then TimeoutsAre(a.timeout.value, t, u)
      else u.requestTimeoutMs == t.requestTimeoutMs && u.backendRequestTimeoutMs == t.backendRequestTimeoutMs && u.connectTimeoutMs == t.connectTimeoutMs
  {
  }

  lemma TimeoutEffect(ps: PolicySet, source: RouteSource, r: RouteConfig)
    ensures TimeoutsSay(ps, source, r.traffic, Applied(ps, source, r).traffic)
  {
    TimeoutFields(AttachmentsFor(ps, source), r.traffic);
    ApplicableValue(ps.timeouts, source);
  }

  // ---- Authentication ----

  /** The credentials of the Secret, or none where it is missing. */
  predicate SecretSays(ps: PolicySet, secret: NamespacedName, data: map<string, string>) {
    data == if secret in ps.secrets then ps.secrets[secret] else map[]
  }

  /** Basic before API key before JWT, from the governing policy of that kind; Basic alone over
      what was there. */
  ghost predicate AuthSays(ps: PolicySet, source: RouteSource, before: Option<Auth>, auth: Option<Auth>) {
    if Governed(ps.basicAuths, source) then
      exists ref: SecretRef, data :: Value(ps.basicAuths, source, Some(ref)) && SecretSays(ps, ref.secret, data) && auth == Some(BasicAuth(data, ref.realm))
    else if before.Some? then auth == before
    else if Governed(ps.apiKeyAuths, source) then
      exists ref: SecretRef, data :: Value(ps.apiKeyAuths, source, Some(ref)) && SecretSays(ps, ref.secret, data) && auth == Some(ApiKey(data.Values, ref.realm))
    else if Governed(ps.jwtAuths, source) then auth.Some? && auth.value.Jwt? && Value(ps.jwtAuths, source, Some(auth.value.providers))
    else auth.None?
  }

  lemma AuthEffect(ps: PolicySet, source: RouteSource, r: RouteConfig)
    ensures AuthSays(ps, source, r.policy.auth, Applied(ps, source, r).policy.auth)
  {
    var basic, apiKey := Applicable(ps.basicAuths, source), Applicable(ps.apiKeyAuths, source);
    ApplicableValue(ps.basicAuths, source);
    ApplicableValue(ps.apiKeyAuths, source);
    ApplicableValue(ps.jwtAuths, source);
    if basic.Some? {
      assert SecretSays(ps, basic.value.secret, SecretData(ps.secrets, basic.value));
    } else if apiKey.Some? {
      assert SecretSays(ps, apiKey.value.secret, SecretData(ps.secrets, apiKey.value));
    }
  }

  /** All policies together. */
  ghost predicate PoliciesSay(ps: PolicySet, source: RouteSource, before: RouteConfig, after: RouteConfig) {
    && BlockSays(ps, source, before.policy, after.policy) && AuthSays(ps, source, before.policy.auth, after.policy.auth)
    && RetrySays(ps, source, before.traffic, after.traffic)
    && CorsSays(ps, source, before.traffic, after.traffic)
    && TimeoutsSay(ps, source, before.traffic, after.traffic)
  }

  lemma PolicyEffects(ps: PolicySet, source: RouteSource, r: RouteConfig)
    ensures PoliciesSay(ps, source, r, Applied(ps, source, r))
  {
    BlockEffects(ps, source, r);
    AuthEffect(ps, source, r);
    RetryEffect(ps, source, r);
    CorsEffect(ps, source, r);
    TimeoutEffect(ps, source, r);
  }
}
