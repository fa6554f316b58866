/** The objects the controller stores and the configuration it compiles them into. The
    fields of the `RouteConfig` message are grouped; none used by the modelled code is
    missing. */
module Types {
  import opened Collections

  datatype NamespacedName = NamespacedName(namespace: string, name: string)

  // ---- Match criteria ----

  /** `match_type` of a path: other values are carried but not interpreted. */
  datatype PathKind = Exact | Prefix | OtherKind(name: string)
  datatype PathRule = PathRule(path: string, kind: PathKind)

  /** `ExactHeader` covers the match types "Exact" and "". */
  datatype HeaderKind = ExactHeader | OtherHeader(name: string)
  datatype HeaderMatch = HeaderMatch(name: string, value: string, kind: HeaderKind)
  datatype QueryParamMatch = QueryParamMatch(name: string, value: string, kind: string)
  datatype GrpcMatch = GrpcMatch(service: string, rpc: string, kind: string)

  // ---- Filters and backends ----

  datatype HeaderMutation = HeaderMutation(add: map<string, string>, set_: map<string, string>, remove: seq<string>)
  datatype Redirect = Redirect(scheme: string, hostname: string, port: nat, path: string, pathType: string, statusCode: nat)
  datatype UrlRewrite = UrlRewrite(hostname: string, path: string, pathType: string)
  datatype Cors = Cors(allowOrigins: seq<string>, allowMethods: seq<string>, allowHeaders: seq<string>,
                       exposeHeaders: seq<string>, allowCredentials: bool, maxAge: nat)
  datatype MirrorBackend = MirrorBackend(serviceName: string, port: nat, percent: nat)
  datatype WeightedBackend = WeightedBackend(serviceName: string, port: nat, weight: nat, requestHeaders: Option<HeaderMutation>)

  datatype RuleFilters = RuleFilters(
    requestHeaders: Option<HeaderMutation>, responseHeaders: Option<HeaderMutation>,
    redirect: Option<Redirect>, urlRewrite: Option<UrlRewrite>, mirrors: seq<MirrorBackend>)

  /** Fields both a rule and a policy can set. */
  datatype Traffic = Traffic(
    requestTimeoutMs: nat, backendRequestTimeoutMs: nat, connectTimeoutMs: Option<nat>,
    maxRetries: nat, retryCodes: seq<nat>, retryOn: seq<string>, cors: Option<Cors>)

  const NO_FILTERS := RuleFilters(None, None, None, None, [])
  const NO_TRAFFIC := Traffic(0, 0, None, 0, [], [], None)

  // ---- Policy blocks ----

  datatype RateLimit = RateLimit(requestsPerSecond: nat, perClient: bool)
  datatype CircuitBreaker = CircuitBreaker(failureThreshold: nat, successThreshold: nat, timeoutSecs: nat)
  datatype JwtProvider = JwtProvider(issuer: string, audiences: seq<string>, claimToHeaders: seq<(string, string)>)
  datatype Auth =
    | BasicAuth(credentials: map<string, string>, realm: string)
    | ApiKey(validKeys: set<string>, headerName: string)
    | Jwt(providers: seq<JwtProvider>)
  datatype ExtAuth = ExtAuth(serviceName: string, serviceNamespace: string, port: nat, path: string,
                             timeoutMs: nat, failOpen: bool, requestHeaders: seq<string>, responseHeaders: seq<string>)
  datatype IpAllowlist = IpAllowlist(allow: seq<string>, deny: seq<string>, trustedProxies: seq<string>)

  datatype PolicyBlock = PolicyBlock(
    rateLimit: Option<RateLimit>, circuitBreaker: Option<CircuitBreaker>, maxConnections: Option<nat>,
    auth: Option<Auth>, extAuth: Option<ExtAuth>, ipAllowlist: Option<IpAllowlist>, maxRequestBodyBytes: nat)

  const NO_POLICY := PolicyBlock(None, None, None, None, None, None, 0)

  // ---- Compiled routes ----

  /** The listener a compiled route belongs to and the Gateway owning that listener. */
  datatype ListenerTag = ListenerTag(name: string, port: nat, hostname: string, gateway: NamespacedName)

  datatype RouteConfig = RouteConfig(
    host: string, paths: seq<PathRule>, headerMatches: seq<HeaderMatch>, methodMatch: string,
    queryParamMatches: seq<QueryParamMatch>, grpcMatch: Option<GrpcMatch>,
    listener: ListenerTag,
    serviceName: string, port: nat, protocol: string, weightedBackends: seq<WeightedBackend>,
    filters: RuleFilters, traffic: Traffic, policy: PolicyBlock, aiFederation: string)

  datatype Request = Request(host: string, path: string, verb: string, headers: seq<(string, string)>, port: nat)

  /** Where a compiled route came from, for policy matching: (namespace, name, section) per parentRef. */
  datatype RouteSource = RouteSource(kind: string, namespace: string, name: string, gatewayRefs: seq<(string, string, Option<string>)>)
}
