/** The stored objects the route compiler reads, and the permission checks it makes. */
module Store {
  import opened Collections
  import opened Types
  import opened Policies

  datatype Protocol = HTTP | HTTPS | TLS | TCP | UDP | OtherProtocol(name: string)

  datatype NamespacesFrom = Same | All | Selector | OtherFrom(name: string)
  datatype AllowedRoutes = AllowedRoutes(from: NamespacesFrom, selector: Option<seq<(string, string)>>)

  datatype ListenerState = ListenerState(
    name: string, port: nat, protocol: Protocol, hostname: Option<string>, accepted: bool, allowed: AllowedRoutes)

  datatype GatewayState = GatewayState(namespace: string, name: string, listeners: seq<ListenerState>)
  datatype ListenerSetState = ListenerSetState(
    namespace: string, name: string, parentGateway: NamespacedName, listeners: seq<ListenerState>, accepted: bool)

  datatype ParentKind = GatewayParent | ListenerSetParent
  datatype ParentRef = ParentRef(
    kind: ParentKind, namespace: string, name: string, section: Option<string>, port: Option<nat>, accepted: bool)

  datatype HttpFilter =
    | RequestHeaderModifier(add: seq<(string, string)>, set_: seq<(string, string)>, remove: seq<string>)
    | ResponseHeaderModifier(add: seq<(string, string)>, set_: seq<(string, string)>, remove: seq<string>)
    | RequestRedirect(scheme: Option<string>, hostname: Option<string>, port: Option<nat>, path: Option<string>,
                      pathType: Option<string>, statusCode: nat)
    | URLRewrite(hostname: Option<string>, path: Option<string>, pathType: Option<string>)
    | RequestMirror(backendName: string, backendPort: nat, percent: nat)
    | CorsFilter(cors: Cors)

  datatype BackendRef = BackendRef(namespace: string, name: string, port: nat, weight: nat, filters: seq<HttpFilter>)

  datatype RouteMatch = RouteMatch(
    path: Option<PathRule>, headers: seq<HeaderMatch>, verb: Option<string>, queryParams: seq<QueryParamMatch>)
  datatype RuleRetry = RuleRetry(codes: seq<nat>, attempts: nat)
  datatype HttpRule = HttpRule(
    matches: seq<RouteMatch>, filters: seq<HttpFilter>, backendRefs: seq<BackendRef>,
    requestTimeoutMs: Option<nat>, backendRequestTimeoutMs: Option<nat>, retry: Option<RuleRetry>)
  datatype HttpRoute = HttpRoute(namespace: string, hostnames: seq<string>, parentRefs: seq<ParentRef>, rules: seq<HttpRule>)

  datatype GrpcRouteMatch = GrpcRouteMatch(service: Option<string>, rpc: Option<string>, kind: string, headers: seq<HeaderMatch>)
  datatype GrpcRule = GrpcRule(matches: seq<GrpcRouteMatch>, backendRefs: seq<BackendRef>)
  datatype GrpcRoute = GrpcRoute(namespace: string, hostnames: seq<string>, parentRefs: seq<ParentRef>, rules: seq<GrpcRule>)

  datatype GrantFrom = GrantFrom(group: string, kind: string, namespace: string)
  datatype GrantTo = GrantTo(group: string, kind: string, name: Option<string>)
  datatype ReferenceGrant = ReferenceGrant(namespace: string, from: seq<GrantFrom>, to: seq<GrantTo>)

  /** What one compilation reads. The route lists are in the order the maps were iterated;
      AIRoutes are among `httpRoutes` under their marked keys. */
  datatype Snapshot = Snapshot(
    gateways: map<NamespacedName, GatewayState>, listenerSets: map<NamespacedName, ListenerSetState>,
    httpRoutes: seq<(NamespacedName, HttpRoute)>, grpcRoutes: seq<(NamespacedName, GrpcRoute)>,
    namespaceLabels: map<string, map<string, string>>, grants: seq<ReferenceGrant>, policies: PolicySet)

  /** `namespace_allowed`. */
  predicate NamespaceAllowed(allowed: AllowedRoutes, routeNs: string, gatewayNs: string, labels: map<string, string>) {
    match allowed.from
    case Same => routeNs == gatewayNs
    case All => true
    case Selector =>
      allowed.selector.Some? &&
      forall i :: 0 <= i < |allowed.selector.value| ==>
        var (k, v) := allowed.selector.value[i]; k in labels && labels[k] == v
    case OtherFrom(_) => false
  }

  predicate GrantCovers(g: ReferenceGrant, fromNs: string, fromKind: string, toNs: string, toName: string) {
    && g.namespace == toNs
    && (exists i :: 0 <= i < |g.from| && g.from[i] == GrantFrom("gateway.networking.k8s.io", fromKind, fromNs))
    && (exists j :: 0 <= j < |g.to| && g.to[j].group == "" && g.to[j].kind == "Service" &&
                    (g.to[j].name.None? || g.to[j].name == Some(toName)))
  }

  /** `is_reference_allowed` for a Service. */
  predicate ReferenceAllowed(grants: seq<ReferenceGrant>, fromNs: string, fromKind: string, toNs: string, toName: string) {
    fromNs == toNs || exists i :: 0 <= i < |grants| && GrantCovers(grants[i], fromNs, fromKind, toNs, toName)
  }

  // ---- Parents ----

  function ParentKey(pr: ParentRef): NamespacedName {
    NamespacedName(pr.namespace, pr.name)
  }

  /** The listeners a parentRef reaches: none when the parent is missing or not accepted. */
  function ParentListeners(snap: Snapshot, pr: ParentRef): seq<ListenerState> {
    var key := ParentKey(pr);
    match pr.kind
    case GatewayParent => if key in snap.gateways then snap.gateways[key].listeners else []
    case ListenerSetParent =>
      if key in snap.listenerSets && snap.listenerSets[key].accepted then snap.listenerSets[key].listeners else []
  }

  /** The namespace `from: Same` refers to. */
  function ParentNamespace(snap: Snapshot, pr: ParentRef): string {
    if pr.kind.ListenerSetParent? && ParentKey(pr) in snap.listenerSets then snap.listenerSets[ParentKey(pr)].namespace else pr.namespace
  }

  /** `owner_gateway`: the Gateway itself, or the parent Gateway of a ListenerSet. */
  function OwnerGateway(snap: Snapshot, pr: ParentRef): NamespacedName {
    if pr.kind.ListenerSetParent? && ParentKey(pr) in snap.listenerSets then snap.listenerSets[ParentKey(pr)].parentGateway else ParentKey(pr)
  }

  function LabelsOf(snap: Snapshot, ns: string): map<string, string> {
    if ns in snap.namespaceLabels then snap.namespaceLabels[ns] else map[]
  }

  /** Whether a route in `routeNs` compiles onto listener `l` through parentRef `pr`. */
  predicate Binds(snap: Snapshot, routeNs: string, pr: ParentRef, l: ListenerState) {
    && l.accepted
    && (l.protocol == HTTP || l.protocol == HTTPS)
    && (pr.section.None? || pr.section == Some(l.name))
    && (pr.port.None? || pr.port == Some(l.port))
    && NamespaceAllowed(l.allowed, routeNs, ParentNamespace(snap, pr), LabelsOf(snap, routeNs))
  }

  function TagFor(snap: Snapshot, pr: ParentRef, l: ListenerState): ListenerTag {
    ListenerTag(GetOr(pr.section, l.name), l.port, GetOr(l.hostname, ""), OwnerGateway(snap, pr))
  }
}
