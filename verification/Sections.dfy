/** Which compiled copies of a route a policy on a Gateway, or on one of its sections, reaches. */
module Sections {
  import opened Collections
  import opened Text
  import opened Hostnames
  import opened Types
  import opened Policies
  import opened Store
  import opened Rules
  import opened Compiler
  import opened Effects

  datatype Route = Http(key: NamespacedName, http: HttpRoute) | Grpc(key: NamespacedName, grpc: GrpcRoute)

  function RouteOf(b: Binding): Route {
    match b
    case HttpBinding(key, hr, _, _, _, _) => Http(key, hr)
    case GrpcBinding(key, gr, _, _, _, _) => Grpc(key, gr)
  }

  function Parents(r: Route): seq<ParentRef> { if r.Http? then r.http.parentRefs else r.grpc.parentRefs }

  predicate Stored(snap: Snapshot, r: Route) {
    match r
    case Http(key, hr) => (key, hr) in snap.httpRoutes
    case Grpc(key, gr) => (key, gr) in snap.grpcRoutes
  }

  /** The copy is compiled onto the Gateway the policy names and, if it names a section, onto
      the listener of that name. */
  predicate On(t: Target, site: Site) {
    && site.parent.kind.GatewayParent?
    && site.parent.namespace == t.namespace && site.parent.name == t.name
    && (t.section.None? || t.section == Some(site.listener.name))
  }

  /** A site the route has copies at. */
  ghost predicate Live(snap: Snapshot, r: Route, site: Site) {
    match r
    case Http(_, hr) => SiteOk(snap, hr.namespace, hr.parentRefs, site) && hr.rules != [] && HostsAt(site, hr.hostnames) != []
    case Grpc(_, gr) => SiteOk(snap, gr.namespace, gr.parentRefs, site) && gr.rules != [] && HostsAt(site, gr.hostnames) != []
  }

  lemma LiveExactly(snap: Snapshot, r: Route, site: Site)
    requires Stored(snap, r)
    ensures Live(snap, r, site) <==> exists b :: Valid(snap, b) && RouteOf(b) == r && b.site == site
  {
    if Live(snap, r, site) {
      match r
      case Http(key, hr) =>
        var e := Entries(hr.rules[0].matches)[0];
        var b := HttpBinding(key, hr, site, hr.rules[0], HostsAt(site, hr.hostnames)[0], e);
        assert Valid(snap, b) && RouteOf(b) == r && b.site == site;
      case Grpc(key, gr) =>
        var e := Entries(gr.rules[0].matches)[0];
        var b := GrpcBinding(key, gr, site, gr.rules[0], HostsAt(site, gr.hostnames)[0], e);
        assert Valid(snap, b) && RouteOf(b) == r && b.site == site;
    }
  }

  /** A parentRef of the route names what the policy names; of which kind it is, or whether the
      route was accepted there, is not asked. */
  predicate Named(t: Target, r: Route) {
    exists pr :: pr in Parents(r) && pr.namespace == t.namespace && pr.name == t.name && (t.section.None? || pr.section == t.section)
  }

  predicate Decorates(snap: Snapshot, t: Target, b: Binding) { TargetsGateway(t, EmissionOf(snap, b).source) }

  lemma SourceRefs(snap: Snapshot, b: Binding)
    ensures EmissionOf(snap, b).source.gatewayRefs == RefsOf(Parents(RouteOf(b)))
  {
  }

  lemma RefNamed(t: Target, prs: seq<ParentRef>)
    ensures (exists ref :: ref in RefsOf(prs) && ref.0 == t.namespace && ref.1 == t.name && (t.section.None? || ref.2 == t.section)) <==>
            (exists pr :: pr in prs && pr.namespace == t.namespace && pr.name == t.name && (t.section.None? || pr.section == t.section))
  {
    var refs := RefsOf(prs);
    assert forall i :: 0 <= i < |prs| ==> refs[i] == (prs[i].namespace, prs[i].name, prs[i].section);
    if pr :| pr in prs && pr.namespace == t.namespace && pr.name == t.name && (t.section.None? || pr.section == t.section) {
      var i :| 0 <= i < |prs| && prs[i] == pr;
      assert refs[i] in refs;
    }
    if ref :| ref in refs && ref.0 == t.namespace && ref.1 == t.name && (t.section.None? || ref.2 == t.section) {
      var i :| 0 <= i < |refs| && refs[i] == ref;
      assert prs[i] in prs;
    }
  }

  lemma DecoratesNamed(snap: Snapshot, t: Target, b: Binding)
    requires t.kind == "Gateway"
    ensures Decorates(snap, t, b) <==> Named(t, RouteOf(b))
  {
    SourceRefs(snap, b);
    TargetsExactly(t, EmissionOf(snap, b).source);
    RefNamed(t, Parents(RouteOf(b)));
  }

  // ---- Policies on the route itself ----

  /** The policy names the route: by kind and name, an AIRoute by the name behind the mark of
      its key. */
  predicate NamesIt(t: Target, r: Route) {
    && t.namespace == r.key.namespace
    && match r
       case Grpc(key, _) => t.kind == "GRPCRoute" && t.name == key.name
       case Http(key, _) =>
         if |key.name| >= 8 && key.name[..8] == "airoute/" then t.kind == "AIRoute" && "airoute/" + t.name == key.name
         else t.kind == "HTTPRoute" && t.name == key.name
  }

  /** A policy on a route decorates the copies of that route, all of them and no others. */
  lemma RoutePolicyExactly(snap: Snapshot, t: Target, b: Binding)
    ensures TargetsRoute(t, EmissionOf(snap, b).source) <==> NamesIt(t, RouteOf(b))
  {
    TargetsExactly(t, EmissionOf(snap, b).source);
    var key := RouteOf(b).key;
    if b.HttpBinding? && HasPrefix(key.name, "airoute/") {
      assert key.name == "airoute/" + key.name[8..];
      assert ("airoute/" + t.name)[8..] == t.name;
    }
  }

  // ---- Policies on a Gateway ----

  /** A site through a parentRef without sectionName, on the listener the policy names. */
  predicate Unnamed(t: Target, site: Site) { On(t, site) && site.parent.section.None? && t.section.Some? }

  ghost predicate Fits(snap: Snapshot, t: Target, r: Route) {
    if Named(t, r) then forall site :: Live(snap, r, site) ==> On(t, site)
    else forall site :: Live(snap, r, site) ==> !Unnamed(t, site)
  }

  lemma UnnamedOnly(snap: Snapshot, t: Target, r: Route, site: Site)
    requires Live(snap, r, site) && On(t, site) && !Named(t, r)
    ensures Unnamed(t, site)
  {
    assert site.parent in Parents(r);
  }

  /** A policy on a Gateway or one of its sections decorates exactly the copies of a route that
      are compiled there, if and only if: a parentRef names it and the route has no copy
      elsewhere; or none names it and no parentRef without sectionName binds the listener. */
  lemma DecoratesExactly(snap: Snapshot, t: Target, r: Route)
    requires t.kind == "Gateway" && Stored(snap, r)
    ensures (forall b :: Valid(snap, b) && RouteOf(b) == r ==> (Decorates(snap, t, b) <==> On(t, b.site))) <==> Fits(snap, t, r)
  {
    forall b | Valid(snap, b) && RouteOf(b) == r && Fits(snap, t, r) ensures Decorates(snap, t, b) <==> On(t, b.site) {
      DecoratesNamed(snap, t, b);
      LiveExactly(snap, r, b.site);
      if On(t, b.site) && !Named(t, r) {
        UnnamedOnly(snap, t, r, b.site);
      }
    }
    if !Fits(snap, t, r) {
      var site :| Live(snap, r, site) && On(t, site) != Named(t, r);
      LiveExactly(snap, r, site);
      var b :| Valid(snap, b) && RouteOf(b) == r && b.site == site;
      DecoratesNamed(snap, t, b);
    }
  }

  // ---- The compiled result ----

  lemma EmittedBare(snap: Snapshot, b: Binding)
    ensures EmissionOf(snap, b).route.policy.auth.None?
  {
  }

  predicate Guarded(snap: Snapshot, b: Binding) {
    CompiledFrom(snap, b).policy.auth.Some? && CompiledFrom(snap, b).policy.auth.value.BasicAuth?
  }

  lemma GuardedDecorates(snap: Snapshot, t: Target, ref: SecretRef, b: Binding)
    requires t.kind == "Gateway" && snap.policies.basicAuths == [Policy(t, ref)]
    ensures Guarded(snap, b) <==> Decorates(snap, t, b)
  {
    var e := EmissionOf(snap, b);
    EmittedBare(snap, b);
    AuthChoice(snap.policies, e.source, e.route);
    assert snap.policies.basicAuths[0].target == t;
    OnlyPolicy(snap.policies.basicAuths, e.source);
  }

  lemma OnlyPolicy<S>(policies: seq<Policy<S>>, source: RouteSource)
    requires |policies| == 1 && policies[0].target.kind == "Gateway"
    ensures Attached(policies, source) <==> TargetsGateway(policies[0].target, source)
  {
  }

  /** With one Basic policy, on a Gateway or one of its sections, exactly the copies compiled
      there ask for Basic credentials, if and only if the policy fits the route. */
  lemma GuardedExactly(snap: Snapshot, t: Target, ref: SecretRef, r: Route)
    requires t.kind == "Gateway" && Stored(snap, r) && snap.policies.basicAuths == [Policy(t, ref)]
    ensures (forall b :: Valid(snap, b) && RouteOf(b) == r ==> (Guarded(snap, b) <==> On(t, b.site))) <==> Fits(snap, t, r)
  {
    forall b ensures Guarded(snap, b) <==> Decorates(snap, t, b) {
      GuardedDecorates(snap, t, ref, b);
    }
    DecoratesExactly(snap, t, r);
  }

  // ---- Both ways it fails ----

  const HTTPS_SECTION := Target("Gateway", "ns", "gw", Some("https"))

  function Listener(name: string, port: nat): ListenerState {
    ListenerState(name, port, HTTP, None, true, AllowedRoutes(Same, None))
  }

  function Ref(section: Option<string>): ParentRef { ParentRef(GatewayParent, "ns", "gw", section, None, true) }

  const RULE := HttpRule([], [], [], None, None, None)
  const KEY := NamespacedName("ns", "r")

  function Bare(prs: seq<ParentRef>): HttpRoute { HttpRoute("ns", [], prs, [RULE]) }

  /** A Gateway with listeners `http` and `https`, and one route with these parentRefs. */
  function TwoListeners(prs: seq<ParentRef>, ps: PolicySet): Snapshot {
    Snapshot(map[NamespacedName("ns", "gw") := GatewayState("ns", "gw", [Listener("http", 80), Listener("https", 443)])], map[],
             [(KEY, Bare(prs))], [], map[], [], ps)
  }

  function Copy(prs: seq<ParentRef>, pr: ParentRef, l: ListenerState): Binding {
    HttpBinding(KEY, Bare(prs), Site(pr, l), RULE, "*", None)
  }

  lemma CopyValid(prs: seq<ParentRef>, ps: PolicySet, section: Option<string>, l: ListenerState)
    requires Ref(section) in prs && l in [Listener("http", 80), Listener("https", 443)] && (section.None? || section == Some(l.name))
    ensures Valid(TwoListeners(prs, ps), Copy(prs, Ref(section), l))
  {
    var site := Site(Ref(section), l);
    assert FlatMap([site.listener.hostname], l => PerListener(l, [])) == ["*"];
    assert HostsAt(site, []) == ["*"];
    assert SiteOk(TwoListeners(prs, ps), "ns", prs, site);
  }

  /** A route that names both listeners: the policy on `https` guards the copy on `http` too. */
  lemma CopyElsewhereGuarded(ps: PolicySet, ref: SecretRef)
    requires ps.basicAuths == [Policy(HTTPS_SECTION, ref)]
    ensures var prs := [Ref(Some("http")), Ref(Some("https"))];
      var snap, b := TwoListeners(prs, ps), Copy(prs, Ref(Some("http")), Listener("http", 80));
      Valid(snap, b) && Guarded(snap, b) && !On(HTTPS_SECTION, b.site)
  {
    var prs := [Ref(Some("http")), Ref(Some("https"))];
    var b := Copy(prs, prs[0], Listener("http", 80));
    CopyValid(prs, ps, Some("http"), Listener("http", 80));
    GuardedDecorates(TwoListeners(prs, ps), HTTPS_SECTION, ref, b);
    DecoratesNamed(TwoListeners(prs, ps), HTTPS_SECTION, b);
    assert prs[1] in prs;
  }

  /** A route that names the Gateway without a section: its copy on `https` goes unguarded. */
  lemma BoundCopyUnguarded(ps: PolicySet, ref: SecretRef)
    requires ps.basicAuths == [Policy(HTTPS_SECTION, ref)]
    ensures var snap, b := TwoListeners([Ref(None)], ps), Copy([Ref(None)], Ref(None), Listener("https", 443));
      Valid(snap, b) && !Guarded(snap, b) && On(HTTPS_SECTION, b.site)
  {
    var prs := [Ref(None)];
    var b := Copy(prs, prs[0], Listener("https", 443));
    CopyValid(prs, ps, None, Listener("https", 443));
    assert !Named(HTTPS_SECTION, Http(KEY, Bare(prs)));
    GuardedDecorates(TwoListeners(prs, ps), HTTPS_SECTION, ref, b);
    DecoratesNamed(TwoListeners(prs, ps), HTTPS_SECTION, b);
  }
}
