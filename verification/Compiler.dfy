/** `compile_config`'s route loops: every (route, accepted parentRef, binding listener, rule,
    match entry, effective host) becomes one RouteConfig with its source beside it. */
module Compiler {
  import opened Collections
  import opened Text
  import opened Hostnames
  import opened Types
  import opened Policies
  import opened Store
  import opened Rules

  datatype Emitted = Emitted(route: RouteConfig, source: RouteSource)

  /** A listener a route is bound to, with the parentRef that binds it. */
  datatype Site = Site(parent: ParentRef, listener: ListenerState)

  const AI_ROUTE_KEY_PREFIX := "airoute/"

  function RefsOf(prs: seq<ParentRef>): seq<(string, string, Option<string>)> {
    Map(prs, (pr: ParentRef) => (pr.namespace, pr.name, pr.section))
  }

  function HttpSource(key: NamespacedName, hr: HttpRoute): RouteSource {
    if HasPrefix(key.name, AI_ROUTE_KEY_PREFIX)
    then RouteSource("AIRoute", key.namespace, key.name[|AI_ROUTE_KEY_PREFIX|..], RefsOf(hr.parentRefs))
    else RouteSource("HTTPRoute", key.namespace, key.name, RefsOf(hr.parentRefs))
  }

  function GrpcSource(key: NamespacedName, gr: GrpcRoute): RouteSource {
    RouteSource("GRPCRoute", key.namespace, key.name, RefsOf(gr.parentRefs))
  }

  function HostsAt(site: Site, hostnames: seq<string>): seq<string> {
    EffectiveHostnames([site.listener.hostname], hostnames)
  }

  /** A revoked cross-namespace grant clears the primary backend. */
  function ClearDenied(snap: Snapshot, ns: string, refs: seq<BackendRef>, rc: RouteConfig): RouteConfig {
    if rc.serviceName == "" then rc
    else
      var hit := FindFirst(refs, (b: BackendRef) => b.name == rc.serviceName && b.port == rc.port);
      var backendNs := if hit.Some? then hit.value.namespace else ns;
      if backendNs != ns && !ReferenceAllowed(snap.grants, ns, "HTTPRoute", backendNs, rc.serviceName)
      then rc.(serviceName := "", port := 0) else rc
  }

  /** The rule's first backend lies in another namespace whose grant for it is gone. */
  predicate FirstDenied(snap: Snapshot, ns: string, refs: seq<BackendRef>) {
    refs != [] && refs[0].name != "" && refs[0].namespace != ns &&
    !ReferenceAllowed(snap.grants, ns, "HTTPRoute", refs[0].namespace, refs[0].name)
  }

  /** `rc` forwards to the rule's first backend, if it has one. */
  predicate PrimaryIsFirst(rc: RouteConfig, refs: seq<BackendRef>) {
    if refs == [] then rc.serviceName == "" else rc.serviceName == refs[0].name && rc.port == refs[0].port
  }

  /** Looking the primary up by name and port finds the first backend. */
  lemma ClearsPrimary(snap: Snapshot, ns: string, refs: seq<BackendRef>, rc: RouteConfig)
    requires PrimaryIsFirst(rc, refs)
    ensures ClearDenied(snap, ns, refs, rc) == if FirstDenied(snap, ns, refs) then rc.(serviceName := "", port := 0) else rc
  {
    if refs != [] {
      assert FindFirst(refs, (b: BackendRef) => b.name == rc.serviceName && b.port == rc.port) == Some(refs[0]);
    }
  }

  function HttpEmission(snap: Snapshot, key: NamespacedName, hr: HttpRoute, site: Site, rule: HttpRule, host: string, e: Option<RouteMatch>): Emitted {
    var tag := TagFor(snap, site.parent, site.listener);
    Emitted(ClearDenied(snap, hr.namespace, rule.backendRefs, EntryConfig(rule, e, host, tag)), HttpSource(key, hr))
  }

  /** Only the unweighted single-backend case is checked for gRPC. */
  function GrpcEmission(snap: Snapshot, key: NamespacedName, gr: GrpcRoute, site: Site, rule: GrpcRule, host: string, e: Option<GrpcRouteMatch>): Emitted {
    var rc := GrpcEntryConfig(rule, e, host, TagFor(snap, site.parent, site.listener));
    var refs := rule.backendRefs;
    var denied :=
      refs != [] && !NeedsWeights(refs, false) && refs[0].namespace != gr.namespace &&
      !ReferenceAllowed(snap.grants, gr.namespace, "GRPCRoute", refs[0].namespace, refs[0].name);
    Emitted(if denied then rc.(serviceName := "", port := 0) else rc, GrpcSource(key, gr))
  }

  // ---- The emissions as nested iterations ----

  function HttpHost(key: NamespacedName, hr: HttpRoute, site: Site, rule: HttpRule, host: string): seq<Binding> {
    Map(Entries(rule.matches), (e: Option<RouteMatch>) => HttpBinding(key, hr, site, rule, host, e))
  }

  function HttpRuleAt(key: NamespacedName, hr: HttpRoute, site: Site, rule: HttpRule): seq<Binding> {
    FlatMap(HostsAt(site, hr.hostnames), (host: string) => HttpHost(key, hr, site, rule, host))
  }

  function HttpSite(key: NamespacedName, hr: HttpRoute, site: Site): seq<Binding> {
    FlatMap(hr.rules, (rule: HttpRule) => HttpRuleAt(key, hr, site, rule))
  }

  function HttpListener(snap: Snapshot, key: NamespacedName, hr: HttpRoute, pr: ParentRef, l: ListenerState): seq<Binding> {
    if Binds(snap, hr.namespace, pr, l) then HttpSite(key, hr, Site(pr, l)) else []
  }

  function HttpParent(snap: Snapshot, key: NamespacedName, hr: HttpRoute, pr: ParentRef): seq<Binding> {
    if !pr.accepted then []
    else FlatMap(ParentListeners(snap, pr), (l: ListenerState) => HttpListener(snap, key, hr, pr, l))
  }

  function HttpBindings(snap: Snapshot, kr: (NamespacedName, HttpRoute)): seq<Binding> {
    FlatMap(kr.1.parentRefs, (pr: ParentRef) => HttpParent(snap, kr.0, kr.1, pr))
  }

  function GrpcEntry(key: NamespacedName, gr: GrpcRoute, site: Site, rule: GrpcRule, e: Option<GrpcRouteMatch>): seq<Binding> {
    Map(HostsAt(site, gr.hostnames), (host: string) => GrpcBinding(key, gr, site, rule, host, e))
  }

  function GrpcRuleAt(key: NamespacedName, gr: GrpcRoute, site: Site, rule: GrpcRule): seq<Binding> {
    FlatMap(Entries(rule.matches), (e: Option<GrpcRouteMatch>) => GrpcEntry(key, gr, site, rule, e))
  }

  function GrpcSite(key: NamespacedName, gr: GrpcRoute, site: Site): seq<Binding> {
    FlatMap(gr.rules, (rule: GrpcRule) => GrpcRuleAt(key, gr, site, rule))
  }

  function GrpcListener(snap: Snapshot, key: NamespacedName, gr: GrpcRoute, pr: ParentRef, l: ListenerState): seq<Binding> {
    if Binds(snap, gr.namespace, pr, l) then GrpcSite(key, gr, Site(pr, l)) else []
  }

  function GrpcParent(snap: Snapshot, key: NamespacedName, gr: GrpcRoute, pr: ParentRef): seq<Binding> {
    if !pr.accepted then []
    else FlatMap(ParentListeners(snap, pr), (l: ListenerState) => GrpcListener(snap, key, gr, pr, l))
  }

  function GrpcBindings(snap: Snapshot, kr: (NamespacedName, GrpcRoute)): seq<Binding> {
    FlatMap(kr.1.parentRefs, (pr: ParentRef) => GrpcParent(snap, kr.0, kr.1, pr))
  }

  /** In the order the loops visit them. */
  function Bindings(snap: Snapshot): seq<Binding> {
    FlatMap(snap.httpRoutes, (kr: (NamespacedName, HttpRoute)) => HttpBindings(snap, kr)) +
    FlatMap(snap.grpcRoutes, (kr: (NamespacedName, GrpcRoute)) => GrpcBindings(snap, kr))
  }

  function Emissions(snap: Snapshot, bs: seq<Binding>): seq<Emitted> {
    Map(bs, (b: Binding) => EmissionOf(snap, b))
  }

  function RoutesOf(es: seq<Emitted>): seq<RouteConfig> { Map(es, (e: Emitted) => e.route) }
  function SourcesOf(es: seq<Emitted>): seq<RouteSource> { Map(es, (e: Emitted) => e.source) }

  /** The compiled routes, after policies. */
  function CompiledRoutes(snap: Snapshot): seq<RouteConfig> {
    var es := Emissions(snap, Bindings(snap));
    AppliedAll(snap.policies, SourcesOf(es), RoutesOf(es))
  }

  // ---- What is emitted, and nothing else ----

  /** A reason for a compiled route to exist. */
  datatype Binding =
    | HttpBinding(key: NamespacedName, http: HttpRoute, site: Site, httpRule: HttpRule, host: string, httpEntry: Option<RouteMatch>)
    | GrpcBinding(key: NamespacedName, grpc: GrpcRoute, site: Site, grpcRule: GrpcRule, host: string, grpcEntry: Option<GrpcRouteMatch>)

  ghost predicate SiteOk(snap: Snapshot, routeNs: string, prs: seq<ParentRef>, site: Site) {
    && site.parent in prs && site.parent.accepted
    && site.listener in ParentListeners(snap, site.parent)
    && Binds(snap, routeNs, site.parent, site.listener)
  }

  ghost predicate Valid(snap: Snapshot, b: Binding) {
    match b
    case HttpBinding(key, hr, site, rule, host, e) =>
      && (key, hr) in snap.httpRoutes
      && SiteOk(snap, hr.namespace, hr.parentRefs, site)
      && rule in hr.rules && host in HostsAt(site, hr.hostnames) && e in Entries(rule.matches)
    case GrpcBinding(key, gr, site, rule, host, e) =>
      && (key, gr) in snap.grpcRoutes
      && SiteOk(snap, gr.namespace, gr.parentRefs, site)
      && rule in gr.rules && host in HostsAt(site, gr.hostnames) && e in Entries(rule.matches)
  }

  function EmissionOf(snap: Snapshot, b: Binding): Emitted {
    match b
    case HttpBinding(key, hr, site, rule, host, e) => HttpEmission(snap, key, hr, site, rule, host, e)
    case GrpcBinding(key, gr, site, rule, host, e) => GrpcEmission(snap, key, gr, site, rule, host, e)
  }

  function CompiledFrom(snap: Snapshot, b: Binding): RouteConfig {
    Decorator(snap.policies)(EmissionOf(snap, b).source, EmissionOf(snap, b).route)
  }

  lemma HttpRuleExact(key: NamespacedName, hr: HttpRoute, site: Site, rule: HttpRule, b: Binding)
    ensures b in HttpRuleAt(key, hr, site, rule) <==>
      && b.HttpBinding? && b.key == key && b.http == hr && b.site == site && b.httpRule == rule
      && b.host in HostsAt(site, hr.hostnames) && b.httpEntry in Entries(rule.matches)
  {
    var hosts := HostsAt(site, hr.hostnames);
    var byHost := (host: string) => HttpHost(key, hr, site, rule, host);
    FlatMapMember(hosts, byHost, b);
    if b.HttpBinding? && b == HttpBinding(key, hr, site, rule, b.host, b.httpEntry) && b.host in hosts && b.httpEntry in Entries(rule.matches) {
      var i :| 0 <= i < |hosts| && hosts[i] == b.host;
      var j :| 0 <= j < |Entries(rule.matches)| && Entries(rule.matches)[j] == b.httpEntry;
      assert byHost(hosts[i])[j] == b;
    }
  }

  lemma GrpcRuleExact(key: NamespacedName, gr: GrpcRoute, site: Site, rule: GrpcRule, b: Binding)
    ensures b in GrpcRuleAt(key, gr, site, rule) <==>
      && b.GrpcBinding? && b.key == key && b.grpc == gr && b.site == site && b.grpcRule == rule
      && b.host in HostsAt(site, gr.hostnames) && b.grpcEntry in Entries(rule.matches)
  {
    var hosts, entries := HostsAt(site, gr.hostnames), Entries(rule.matches);
    var byEntry := (e: Option<GrpcRouteMatch>) => GrpcEntry(key, gr, site, rule, e);
    FlatMapMember(entries, byEntry, b);
    if b.GrpcBinding? && b == GrpcBinding(key, gr, site, rule, b.host, b.grpcEntry) && b.host in hosts && b.grpcEntry in entries {
      var i :| 0 <= i < |entries| && entries[i] == b.grpcEntry;
      var j :| 0 <= j < |hosts| && hosts[j] == b.host;
      assert byEntry(entries[i])[j] == b;
    }
  }

  lemma HttpSiteExact(key: NamespacedName, hr: HttpRoute, site: Site, b: Binding)
    ensures b in HttpSite(key, hr, site) <==>
      && b.HttpBinding? && b.key == key && b.http == hr && b.site == site && b.httpRule in hr.rules
      && b.host in HostsAt(site, hr.hostnames) && b.httpEntry in Entries(b.httpRule.matches)
  {
    var f := (rule: HttpRule) => HttpRuleAt(key, hr, site, rule);
    FlatMapMember(hr.rules, f, b);
    forall i | 0 <= i < |hr.rules| ensures b in f(hr.rules[i]) <==>
      && b.HttpBinding? && b.key == key && b.http == hr && b.site == site && b.httpRule == hr.rules[i]
      && b.host in HostsAt(site, hr.hostnames) && b.httpEntry in Entries(b.httpRule.matches)
    {
      HttpRuleExact(key, hr, site, hr.rules[i], b);
    }
  }

  lemma HttpParentExact(snap: Snapshot, key: NamespacedName, hr: HttpRoute, pr: ParentRef, b: Binding)
    ensures b in HttpParent(snap, key, hr, pr) <==>
      && pr.accepted && b.site.parent == pr && b.site.listener in ParentListeners(snap, pr)
      && Binds(snap, hr.namespace, pr, b.site.listener) && b in HttpSite(key, hr, b.site)
  {
    var ls := ParentListeners(snap, pr);
    var f := (l: ListenerState) => HttpListener(snap, key, hr, pr, l);
    FlatMapMember(ls, f, b);
    forall i | 0 <= i < |ls| ensures b in f(ls[i]) <==>
      b.site == Site(pr, ls[i]) && Binds(snap, hr.namespace, pr, ls[i]) && b in HttpSite(key, hr, b.site)
    {
      HttpSiteExact(key, hr, Site(pr, ls[i]), b);
    }
  }

  lemma HttpRouteExact(snap: Snapshot, kr: (NamespacedName, HttpRoute), b: Binding)
    requires kr in snap.httpRoutes
    ensures b in HttpBindings(snap, kr) <==> b.HttpBinding? && (b.key, b.http) == kr && Valid(snap, b)
  {
    var prs := kr.1.parentRefs;
    var f := (pr: ParentRef) => HttpParent(snap, kr.0, kr.1, pr);
    FlatMapMember(prs, f, b);
    HttpSiteExact(kr.0, kr.1, b.site, b);
    if i :| 0 <= i < |prs| && b in f(prs[i]) {
      HttpParentExact(snap, kr.0, kr.1, prs[i], b);
    }
    if b.HttpBinding? && (b.key, b.http) == kr && Valid(snap, b) {
      var i :| 0 <= i < |prs| && prs[i] == b.site.parent;
      HttpParentExact(snap, kr.0, kr.1, prs[i], b);
      assert b in f(prs[i]);
    }
  }

  lemma GrpcSiteExact(key: NamespacedName, gr: GrpcRoute, site: Site, b: Binding)
    ensures b in GrpcSite(key, gr, site) <==>
      && b.GrpcBinding? && b.key == key && b.grpc == gr && b.site == site && b.grpcRule in gr.rules
      && b.host in HostsAt(site, gr.hostnames) && b.grpcEntry in Entries(b.grpcRule.matches)
  {
    var f := (rule: GrpcRule) => GrpcRuleAt(key, gr, site, rule);
    FlatMapMember(gr.rules, f, b);
    forall i | 0 <= i < |gr.rules| ensures b in f(gr.rules[i]) <==>
      && b.GrpcBinding? && b.key == key && b.grpc == gr && b.site == site && b.grpcRule == gr.rules[i]
      && b.host in HostsAt(site, gr.hostnames) && b.grpcEntry in Entries(b.grpcRule.matches)
    {
      GrpcRuleExact(key, gr, site, gr.rules[i], b);
    }
  }

  lemma GrpcParentExact(snap: Snapshot, key: NamespacedName, gr: GrpcRoute, pr: ParentRef, b: Binding)
    ensures b in GrpcParent(snap, key, gr, pr) <==>
      && pr.accepted && b.site.parent == pr && b.site.listener in ParentListeners(snap, pr)
      && Binds(snap, gr.namespace, pr, b.site.listener) && b in GrpcSite(key, gr, b.site)
  {
    var ls := ParentListeners(snap, pr);
    var f := (l: ListenerState) => GrpcListener(snap, key, gr, pr, l);
    FlatMapMember(ls, f, b);
    forall i | 0 <= i < |ls| ensures b in f(ls[i]) <==>
      b.site == Site(pr, ls[i]) && Binds(snap, gr.namespace, pr, ls[i]) && b in GrpcSite(key, gr, b.site)
    {
      GrpcSiteExact(key, gr, Site(pr, ls[i]), b);
    }
  }

  lemma GrpcRouteExact(snap: Snapshot, kr: (NamespacedName, GrpcRoute), b: Binding)
    requires kr in snap.grpcRoutes
    ensures b in GrpcBindings(snap, kr) <==> b.GrpcBinding? && (b.key, b.grpc) == kr && Valid(snap, b)
  {
    var prs := kr.1.parentRefs;
    var f := (pr: ParentRef) => GrpcParent(snap, kr.0, kr.1, pr);
    FlatMapMember(prs, f, b);
    GrpcSiteExact(kr.0, kr.1, b.site, b);
    if i :| 0 <= i < |prs| && b in f(prs[i]) {
      GrpcParentExact(snap, kr.0, kr.1, prs[i], b);
    }
    if b.GrpcBinding? && (b.key, b.grpc) == kr && Valid(snap, b) {
      var i :| 0 <= i < |prs| && prs[i] == b.site.parent;
      GrpcParentExact(snap, kr.0, kr.1, prs[i], b);
      assert b in f(prs[i]);
    }
  }

  /** The loops visit exactly the valid bindings. */
  lemma BindingsExact(snap: Snapshot, b: Binding)
    ensures b in Bindings(snap) <==> Valid(snap, b)
  {
    var http := (kr: (NamespacedName, HttpRoute)) => HttpBindings(snap, kr);
    var grpc := (kr: (NamespacedName, GrpcRoute)) => GrpcBindings(snap, kr);
    FlatMapMember(snap.httpRoutes, http, b);
    FlatMapMember(snap.grpcRoutes, grpc, b);
    if i :| 0 <= i < |snap.httpRoutes| && b in http(snap.httpRoutes[i]) {
      HttpRouteExact(snap, snap.httpRoutes[i], b);
    }
    if i :| 0 <= i < |snap.grpcRoutes| && b in grpc(snap.grpcRoutes[i]) {
      GrpcRouteExact(snap, snap.grpcRoutes[i], b);
    }
    if Valid(snap, b) {
      match b
      case HttpBinding(key, hr, _, _, _, _) =>
        var i :| 0 <= i < |snap.httpRoutes| && snap.httpRoutes[i] == (key, hr);
        HttpRouteExact(snap, snap.httpRoutes[i], b);
        assert b in http(snap.httpRoutes[i]);
      case GrpcBinding(key, gr, _, _, _, _) =>
        var i :| 0 <= i < |snap.grpcRoutes| && snap.grpcRoutes[i] == (key, gr);
        GrpcRouteExact(snap, snap.grpcRoutes[i], b);
        assert b in grpc(snap.grpcRoutes[i]);
    }
  }

  lemma AppliedLength(snap: Snapshot)
    ensures |CompiledRoutes(snap)| == |Bindings(snap)|
  {
  }

  lemma CompiledAt(snap: Snapshot, i: nat)
    requires i < |Bindings(snap)|
    ensures |CompiledRoutes(snap)| == |Bindings(snap)|
    ensures CompiledRoutes(snap)[i] == CompiledFrom(snap, Bindings(snap)[i])
  {
    var es := Emissions(snap, Bindings(snap));
    assert es[i] == EmissionOf(snap, Bindings(snap)[i]);
  }

  /** Every compiled route has a reason. */
  lemma CompiledHasReason(snap: Snapshot, r: RouteConfig) returns (b: Binding)
    requires r in CompiledRoutes(snap)
    ensures Valid(snap, b) && CompiledFrom(snap, b) == r
  {
    var i :| 0 <= i < |CompiledRoutes(snap)| && CompiledRoutes(snap)[i] == r;
    AppliedLength(snap);
    CompiledAt(snap, i);
    b := Bindings(snap)[i];
    BindingsExact(snap, b);
  }

  /** Every reason is compiled. */
  lemma ReasonIsCompiled(snap: Snapshot, b: Binding)
    requires Valid(snap, b)
    ensures CompiledFrom(snap, b) in CompiledRoutes(snap)
  {
    BindingsExact(snap, b);
    var i :| 0 <= i < |Bindings(snap)| && Bindings(snap)[i] == b;
    CompiledAt(snap, i);
  }
}
