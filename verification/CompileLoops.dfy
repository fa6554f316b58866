/** The nested loops of `compile_config` that push routes and their sources side by side. */
module CompileLoops {
  import opened Collections
  import opened Hostnames
  import opened Types
  import opened Policies
  import opened Store
  import opened Rules
  import opened Compiler

  /** The two vectors hold the emissions of `bs`, in order and aligned. */
  ghost predicate Holds(snap: Snapshot, bs: seq<Binding>, routes: seq<RouteConfig>, sources: seq<RouteSource>) {
    && |routes| == |sources| == |bs|
    && (bs != [] ==>
          && Emitted(routes[0], sources[0]) == EmissionOf(snap, bs[0])
          && Holds(snap, bs[1..], routes[1..], sources[1..]))
  }

  lemma {:induction false} HoldsAt(snap: Snapshot, bs: seq<Binding>, routes: seq<RouteConfig>, sources: seq<RouteSource>, i: nat)
    requires Holds(snap, bs, routes, sources) && i < |bs|
    ensures Emitted(routes[i], sources[i]) == EmissionOf(snap, bs[i])
  {
    if i > 0 {
      HoldsAt(snap, bs[1..], routes[1..], sources[1..], i - 1);
    }
  }

  lemma TailOfConcat<T>(s: seq<T>, t: seq<T>)
    requires s != []
    ensures (s + t)[1..] == s[1..] + t && (s + t)[0] == s[0]
  {
  }

  lemma {:induction false} HoldsConcat(snap: Snapshot, bs: seq<Binding>, cs: seq<Binding>,
                    rs: seq<RouteConfig>, ss: seq<RouteSource>, qs: seq<RouteConfig>, ts: seq<RouteSource>)
    requires Holds(snap, bs, rs, ss) && Holds(snap, cs, qs, ts)
    ensures Holds(snap, bs + cs, rs + qs, ss + ts)
  {
    if bs == [] {
      assert bs + cs == cs && rs + qs == qs && ss + ts == ts;
    } else {
      HoldsConcat(snap, bs[1..], cs, rs[1..], ss[1..], qs, ts);
      TailOfConcat(bs, cs);
      TailOfConcat(rs, qs);
      TailOfConcat(ss, ts);
    }
  }

  lemma HoldsOne(snap: Snapshot, b: Binding, route: RouteConfig, source: RouteSource)
    requires Emitted(route, source) == EmissionOf(snap, b)
    ensures Holds(snap, [b], [route], [source])
  {
  }

  /** The grant-revocation check made before a route is pushed: the primary is cleared exactly
      when the rule's first backend is denied, and nothing else is changed. */
  method CheckGrant(snap: Snapshot, ns: string, refs: seq<BackendRef>, rc: RouteConfig) returns (route: RouteConfig)
    requires PrimaryIsFirst(rc, refs)
    ensures route == if FirstDenied(snap, ns, refs) then rc.(serviceName := "", port := 0) else rc
  {
    ClearsPrimary(snap, ns, refs, rc);
    route := rc;
    if route.serviceName != "" {
      var hit := FindFirst(refs, (b: BackendRef) => b.name == rc.serviceName && b.port == rc.port);
      var backendNs := if hit.Some? then hit.value.namespace else ns;
      if backendNs != ns && !ReferenceAllowed(snap.grants, ns, "HTTPRoute", backendNs, route.serviceName) {
        route := route.(serviceName := "", port := 0);
      }
    }
  }

  /** One effective host of one rule: the base configs are re-hosted, checked and pushed. */
  method PushHost(snap: Snapshot, key: NamespacedName, hr: HttpRoute, site: Site, rule: HttpRule, placeholder: string, base: seq<RouteConfig>, host: string)
    returns (routes: seq<RouteConfig>, sources: seq<RouteSource>)
    requires base == RuleConfigs(rule, placeholder, TagFor(snap, site.parent, site.listener))
    ensures Holds(snap, HttpHost(key, hr, site, rule, host), routes, sources)
  {
    routes, sources := [], [];
    ghost var bs := HttpHost(key, hr, site, rule, host);
    for j := 0 to |base|
      invariant Holds(snap, bs[..j], routes, sources)
    {
      ghost var entry := EntryConfig(rule, Entries(rule.matches)[j], host, TagFor(snap, site.parent, site.listener));
      assert base[j].(host := host) == entry;
      var checked := CheckGrant(snap, hr.namespace, rule.backendRefs, base[j].(host := host));
      ClearsPrimary(snap, hr.namespace, rule.backendRefs, entry);
      HoldsOne(snap, bs[j], checked, HttpSource(key, hr));
      HoldsConcat(snap, bs[..j], [bs[j]], routes, sources, [checked], [HttpSource(key, hr)]);
      routes, sources := routes + [checked], sources + [HttpSource(key, hr)];
      TakeStep(bs, j);
    }
    assert bs[..|base|] == bs;
  }

  /** One rule on one listener, for every effective host. */
  method PushHttpRule(snap: Snapshot, key: NamespacedName, hr: HttpRoute, site: Site, rule: HttpRule, hosts: seq<string>)
    returns (routes: seq<RouteConfig>, sources: seq<RouteSource>)
    requires hosts == HostsAt(site, hr.hostnames)
    ensures Holds(snap, HttpRuleAt(key, hr, site, rule), routes, sources)
  {
    var placeholder := if hosts == [] then "*" else hosts[0];
    var base := CompileHttpRule(rule, placeholder, TagFor(snap, site.parent, site.listener));
    routes, sources := [], [];
    ghost var f := (host: string) => HttpHost(key, hr, site, rule, host);
    for i := 0 to |hosts|
      invariant Holds(snap, FlatMap(hosts[..i], f), routes, sources)
    {
      var rs, ss := PushHost(snap, key, hr, site, rule, placeholder, base, hosts[i]);
      HoldsConcat(snap, FlatMap(hosts[..i], f), f(hosts[i]), routes, sources, rs, ss);
      FlatMapStep(hosts, i, f);
      routes, sources := routes + rs, sources + ss;
    }
    assert hosts[..|hosts|] == hosts;
  }

  /** One listener that binds the route: skipped when no effective host is left. */
  method PushHttpListener(snap: Snapshot, key: NamespacedName, hr: HttpRoute, site: Site)
    returns (routes: seq<RouteConfig>, sources: seq<RouteSource>)
    ensures Holds(snap, HttpSite(key, hr, site), routes, sources)
  {
    routes, sources := [], [];
    var hosts := ComputeEffectiveHostnames([site.listener.hostname], hr.hostnames);
    ghost var f := (rule: HttpRule) => HttpRuleAt(key, hr, site, rule);
    if hosts == [] {
      forall i | 0 <= i < |hr.rules| ensures f(hr.rules[i]) == [] {
        assert HttpRuleAt(key, hr, site, hr.rules[i]) == [];
      }
      FlatMapNone(hr.rules, f);
      return;
    }
    for i := 0 to |hr.rules|
      invariant Holds(snap, FlatMap(hr.rules[..i], f), routes, sources)
    {
      var rs, ss := PushHttpRule(snap, key, hr, site, hr.rules[i], hosts);
      HoldsConcat(snap, FlatMap(hr.rules[..i], f), f(hr.rules[i]), routes, sources, rs, ss);
      FlatMapStep(hr.rules, i, f);
      routes, sources := routes + rs, sources + ss;
    }
    assert hr.rules[..|hr.rules|] == hr.rules;
  }

  /** One parentRef: walk the parent's listeners, skipping those that do not bind. */
  method PushHttpParent(snap: Snapshot, key: NamespacedName, hr: HttpRoute, pr: ParentRef)
    returns (routes: seq<RouteConfig>, sources: seq<RouteSource>)
    ensures Holds(snap, HttpParent(snap, key, hr, pr), routes, sources)
  {
    routes, sources := [], [];
    if !pr.accepted { return; }
    ghost var f := (l: ListenerState) => HttpListener(snap, key, hr, pr, l);
    var listeners := ParentListeners(snap, pr);
    for i := 0 to |listeners|
      invariant Holds(snap, FlatMap(listeners[..i], f), routes, sources)
    {
      FlatMapStep(listeners, i, f);
      var rs: seq<RouteConfig>, ss: seq<RouteSource> := [], [];
      if Binds(snap, hr.namespace, pr, listeners[i]) {
        rs, ss := PushHttpListener(snap, key, hr, Site(pr, listeners[i]));
      }
      HoldsConcat(snap, FlatMap(listeners[..i], f), f(listeners[i]), routes, sources, rs, ss);
      routes, sources := routes + rs, sources + ss;
    }
    assert listeners[..|listeners|] == listeners;
  }

  method CompileHttpRoute(snap: Snapshot, kr: (NamespacedName, HttpRoute))
    returns (routes: seq<RouteConfig>, sources: seq<RouteSource>)
    ensures Holds(snap, HttpBindings(snap, kr), routes, sources)
  {
    routes, sources := [], [];
    var prs := kr.1.parentRefs;
    ghost var f := (pr: ParentRef) => HttpParent(snap, kr.0, kr.1, pr);
    for i := 0 to |prs|
      invariant Holds(snap, FlatMap(prs[..i], f), routes, sources)
    {
      var rs, ss := PushHttpParent(snap, kr.0, kr.1, prs[i]);
      HoldsConcat(snap, FlatMap(prs[..i], f), f(prs[i]), routes, sources, rs, ss);
      FlatMapStep(prs, i, f);
      routes, sources := routes + rs, sources + ss;
    }
    assert prs[..|prs|] == prs;
  }

  // ---- gRPC: the same walk, match entries outside hosts ----

  method PushGrpcEntry(snap: Snapshot, key: NamespacedName, gr: GrpcRoute, site: Site, rule: GrpcRule, e: Option<GrpcRouteMatch>, hosts: seq<string>)
    returns (routes: seq<RouteConfig>, sources: seq<RouteSource>)
    requires hosts == HostsAt(site, gr.hostnames)
    ensures Holds(snap, GrpcEntry(key, gr, site, rule, e), routes, sources)
  {
    routes, sources := [], [];
    ghost var bs := GrpcEntry(key, gr, site, rule, e);
    for i := 0 to |hosts|
      invariant Holds(snap, bs[..i], routes, sources)
    {
      var route := GrpcRouteFor(snap, key, gr, site, rule, e, hosts[i]);
      HoldsOne(snap, bs[i], route, GrpcSource(key, gr));
      HoldsConcat(snap, bs[..i], [bs[i]], routes, sources, [route], [GrpcSource(key, gr)]);
      routes, sources := routes + [route], sources + [GrpcSource(key, gr)];
      TakeStep(bs, i);
    }
    assert bs[..|hosts|] == bs;
  }

  /** The three gRPC branches for one match entry and host. */
  method GrpcRouteFor(snap: Snapshot, key: NamespacedName, gr: GrpcRoute, site: Site, rule: GrpcRule, e: Option<GrpcRouteMatch>, host: string)
    returns (route: RouteConfig)
    ensures Emitted(route, GrpcSource(key, gr)) == GrpcEmission(snap, key, gr, site, rule, host, e)
  {
    var blank := GrpcBlank(e, host, TagFor(snap, site.parent, site.listener));
    var refs := rule.backendRefs;
    var weighted := GrpcWeighted(refs);
    GrpcEntryIsBlankPlus(rule, e, host, TagFor(snap, site.parent, site.listener));
    if weighted != [] {
      route := blank.(serviceName := refs[0].name, port := refs[0].port, weightedBackends := weighted);
    } else if refs == [] {
      route := blank;
    } else {
      var ref := refs[0];
      if ref.namespace != gr.namespace && !ReferenceAllowed(snap.grants, gr.namespace, "GRPCRoute", ref.namespace, ref.name) {
        route := blank.(serviceName := "", port := 0);
      } else {
        route := blank.(serviceName := ref.name, port := ref.port);
      }
    }
  }

  method PushGrpcRule(snap: Snapshot, key: NamespacedName, gr: GrpcRoute, site: Site, rule: GrpcRule, hosts: seq<string>)
    returns (routes: seq<RouteConfig>, sources: seq<RouteSource>)
    requires hosts == HostsAt(site, gr.hostnames)
    ensures Holds(snap, GrpcRuleAt(key, gr, site, rule), routes, sources)
  {
    routes, sources := [], [];
    var entries := Entries(rule.matches);
    ghost var f := (e: Option<GrpcRouteMatch>) => GrpcEntry(key, gr, site, rule, e);
    for i := 0 to |entries|
      invariant Holds(snap, FlatMap(entries[..i], f), routes, sources)
    {
      var rs, ss := PushGrpcEntry(snap, key, gr, site, rule, entries[i], hosts);
      HoldsConcat(snap, FlatMap(entries[..i], f), f(entries[i]), routes, sources, rs, ss);
      FlatMapStep(entries, i, f);
      routes, sources := routes + rs, sources + ss;
    }
    assert entries[..|entries|] == entries;
  }

  method PushGrpcListener(snap: Snapshot, key: NamespacedName, gr: GrpcRoute, site: Site)
    returns (routes: seq<RouteConfig>, sources: seq<RouteSource>)
    ensures Holds(snap, GrpcSite(key, gr, site), routes, sources)
  {
    routes, sources := [], [];
    var hosts := ComputeEffectiveHostnames([site.listener.hostname], gr.hostnames);
    ghost var f := (rule: GrpcRule) => GrpcRuleAt(key, gr, site, rule);
    if hosts == [] {
      forall i | 0 <= i < |gr.rules| ensures f(gr.rules[i]) == [] {
        FlatMapNone(Entries(gr.rules[i].matches), (e: Option<GrpcRouteMatch>) => GrpcEntry(key, gr, site, gr.rules[i], e));
      }
      FlatMapNone(gr.rules, f);
      return;
    }
    for i := 0 to |gr.rules|
      invariant Holds(snap, FlatMap(gr.rules[..i], f), routes, sources)
    {
      var rs, ss := PushGrpcRule(snap, key, gr, site, gr.rules[i], hosts);
      HoldsConcat(snap, FlatMap(gr.rules[..i], f), f(gr.rules[i]), routes, sources, rs, ss);
      FlatMapStep(gr.rules, i, f);
      routes, sources := routes + rs, sources + ss;
    }
    assert gr.rules[..|gr.rules|] == gr.rules;
  }

  method PushGrpcParent(snap: Snapshot, key: NamespacedName, gr: GrpcRoute, pr: ParentRef)
    returns (routes: seq<RouteConfig>, sources: seq<RouteSource>)
    ensures Holds(snap, GrpcParent(snap, key, gr, pr), routes, sources)
  {
    routes, sources := [], [];
    if !pr.accepted { return; }
    ghost var f := (l: ListenerState) => GrpcListener(snap, key, gr, pr, l);
    var listeners := ParentListeners(snap, pr);
    for i := 0 to |listeners|
      invariant Holds(snap, FlatMap(listeners[..i], f), routes, sources)
    {
      FlatMapStep(listeners, i, f);
      var rs: seq<RouteConfig>, ss: seq<RouteSource> := [], [];
      if Binds(snap, gr.namespace, pr, listeners[i]) {
        rs, ss := PushGrpcListener(snap, key, gr, Site(pr, listeners[i]));
      }
      HoldsConcat(snap, FlatMap(listeners[..i], f), f(listeners[i]), routes, sources, rs, ss);
      routes, sources := routes + rs, sources + ss;
    }
    assert listeners[..|listeners|] == listeners;
  }

  method CompileGrpcRoute(snap: Snapshot, kr: (NamespacedName, GrpcRoute))
    returns (routes: seq<RouteConfig>, sources: seq<RouteSource>)
    ensures Holds(snap, GrpcBindings(snap, kr), routes, sources)
  {
    routes, sources := [], [];
    var prs := kr.1.parentRefs;
    ghost var f := (pr: ParentRef) => GrpcParent(snap, kr.0, kr.1, pr);
    for i := 0 to |prs|
      invariant Holds(snap, FlatMap(prs[..i], f), routes, sources)
    {
      var rs, ss := PushGrpcParent(snap, kr.0, kr.1, prs[i]);
      HoldsConcat(snap, FlatMap(prs[..i], f), f(prs[i]), routes, sources, rs, ss);
      FlatMapStep(prs, i, f);
      routes, sources := routes + rs, sources + ss;
    }
    assert prs[..|prs|] == prs;
  }

  // ---- All routes, then policies ----

  method PushAllHttp(snap: Snapshot) returns (routes: seq<RouteConfig>, sources: seq<RouteSource>)
    ensures Holds(snap, FlatMap(snap.httpRoutes, (kr: (NamespacedName, HttpRoute)) => HttpBindings(snap, kr)), routes, sources)
  {
    routes, sources := [], [];
    var krs := snap.httpRoutes;
    ghost var f := (kr: (NamespacedName, HttpRoute)) => HttpBindings(snap, kr);
    for i := 0 to |krs|
      invariant Holds(snap, FlatMap(krs[..i], f), routes, sources)
    {
      var rs, ss := CompileHttpRoute(snap, krs[i]);
      HoldsConcat(snap, FlatMap(krs[..i], f), f(krs[i]), routes, sources, rs, ss);
      FlatMapStep(krs, i, f);
      routes, sources := routes + rs, sources + ss;
    }
    assert krs[..|krs|] == krs;
  }

  method PushAllGrpc(snap: Snapshot) returns (routes: seq<RouteConfig>, sources: seq<RouteSource>)
    ensures Holds(snap, FlatMap(snap.grpcRoutes, (kr: (NamespacedName, GrpcRoute)) => GrpcBindings(snap, kr)), routes, sources)
  {
    routes, sources := [], [];
    var krs := snap.grpcRoutes;
    ghost var f := (kr: (NamespacedName, GrpcRoute)) => GrpcBindings(snap, kr);
    for i := 0 to |krs|
      invariant Holds(snap, FlatMap(krs[..i], f), routes, sources)
    {
      var rs, ss := CompileGrpcRoute(snap, krs[i]);
      HoldsConcat(snap, FlatMap(krs[..i], f), f(krs[i]), routes, sources, rs, ss);
      FlatMapStep(krs, i, f);
      routes, sources := routes + rs, sources + ss;
    }
    assert krs[..|krs|] == krs;
  }

  method PushAll(snap: Snapshot) returns (routes: seq<RouteConfig>, sources: seq<RouteSource>)
    ensures Holds(snap, Bindings(snap), routes, sources)
  {
    var rs, ss := PushAllHttp(snap);
    var qs, ts := PushAllGrpc(snap);
    HoldsConcat(snap, FlatMap(snap.httpRoutes, (kr: (NamespacedName, HttpRoute)) => HttpBindings(snap, kr)),
                FlatMap(snap.grpcRoutes, (kr: (NamespacedName, GrpcRoute)) => GrpcBindings(snap, kr)), rs, ss, qs, ts);
    routes, sources := rs + qs, ss + ts;
  }

  /** `compile_config`'s routes: pushed, then decorated in place by the policies. */
  method CompileRoutes(snap: Snapshot) returns (routes: seq<RouteConfig>)
    ensures routes == CompiledRoutes(snap)
  {
    var pushed, sources := PushAll(snap);
    ghost var es := Emissions(snap, Bindings(snap));
    forall i | 0 <= i < |pushed| ensures Emitted(pushed[i], sources[i]) == es[i] {
      HoldsAt(snap, Bindings(snap), pushed, sources, i);
    }
    assert pushed == RoutesOf(es) && sources == SourcesOf(es);
    var buffer := new RouteConfig[|pushed|](i requires 0 <= i < |pushed| => pushed[i]);
    assert buffer[..] == pushed;
    ApplyPolicies(snap.policies, buffer, sources);
    routes := buffer[..];
  }
}
