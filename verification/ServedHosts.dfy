/** Which hosts a route answers: those its listener and its own hostnames claim, but for one
    family of hosts. */
module ServedHosts {
  import opened Collections
  import opened Text
  import opened Hostnames
  import opened Types
  import opened Policies
  import opened Store
  import opened Rules
  import opened Compiler
  import opened Listeners
  import opened Meaning
  import opened Preservation

  function HostnamesOf(b: Binding): seq<string> {
    match b
    case HttpBinding(_, hr, _, _, _, _) => hr.hostnames
    case GrpcBinding(_, gr, _, _, _, _) => gr.hostnames
  }

  ghost predicate BothClaimHost(b: Binding, host: string) {
    ListenerClaims(b.site.listener.hostname, host) && RouteClaims(HostnamesOf(b), host)
  }

  lemma EffectiveLower(listener: Option<string>, routes: seq<string>, x: string)
    requires x in EffectiveHostnames([listener], routes)
    ensures x == Lower(x)
  {
    EffectiveMember([listener], routes, x);
    if listener.Some? {
      LowerIdempotent(listener.value);
      if routes != [] {
        PerListenerMember(listener, routes, x);
        var j :| 0 <= j < |routes| && IntersectHostnames(listener.value, routes[j]) == Some(x);
        LowerIdempotent(routes[j]);
      }
    } else if routes != [] {
      var j :| 0 <= j < |routes| && Lower(routes[j]) == x;
      LowerIdempotent(routes[j]);
    }
  }

  /** A host that starts with a dot and has no upper-case letter. */
  predicate DottedLower(host: string) { host != "" && host[0] == '.' && host == Lower(host) }

  lemma ServedHostIsClaimed(snap: Snapshot, part: Option<NamespacedName>, req: Request, b: Binding)
    requires Answers(snap, part, req, b) && !DottedLower(req.host)
    ensures BothClaimHost(b, req.host)
  {
    var listeners, host := [b.site.listener.hostname], req.host;
    assert b.host in EffectiveHostnames(listeners, HostnamesOf(b));
    FitClaims(b.host, host);
    if b.host == "*" + host {
      EffectiveLower(b.site.listener.hostname, HostnamesOf(b), b.host);
      LowerSuffix(b.host, 1);
      assert b.host[1..] == host;
    }
    assert EffectiveClaims(listeners, HostnamesOf(b), host);
    EffectiveSound(listeners, HostnamesOf(b), host);
  }

  // ---- The family of hosts answered unclaimed ----

  const GATEWAY := NamespacedName("ns", "gw")
  const CATCH_ALL := ListenerState("http", 80, HTTP, None, true, AllowedRoutes(Same, None))
  const PARENT := ParentRef(GatewayParent, "ns", "gw", None, None, true)
  const RULE := HttpRule([], [], [], None, None, None)

  function WildRoute(host: string): HttpRoute { HttpRoute("ns", ["*" + host], [PARENT], [RULE]) }

  /** One catch-all listener, and one route for the wildcard of all of `host`. */
  function WildSnapshot(host: string, ps: PolicySet): Snapshot {
    Snapshot(map[GATEWAY := GatewayState("ns", "gw", [CATCH_ALL])], map[], [(NamespacedName("ns", "r"), WildRoute(host))], [], map[], [], ps)
  }

  function WildBinding(host: string): Binding {
    HttpBinding(NamespacedName("ns", "r"), WildRoute(host), Site(PARENT, CATCH_ALL), RULE, "*" + host, None)
  }

  lemma WildHosts(host: string, x: string)
    requires DottedLower(host)
    ensures x in HostsAt(Site(PARENT, CATCH_ALL), ["*" + host]) <==> x == "*" + host
  {
    LowerSuffix("*" + host, 1);
    assert Lower("*" + host) == "*" + host by { assert ("*" + host)[1..] == host; }
    assert PerListener(None, ["*" + host]) == ["*" + host];
    EffectiveMember([None], ["*" + host], x);
  }

  lemma WildValid(host: string, ps: PolicySet, b: Binding)
    requires DottedLower(host)
    ensures b in Bindings(WildSnapshot(host, ps)) <==> b == WildBinding(host)
  {
    var snap := WildSnapshot(host, ps);
    BindingsExact(snap, b);
    WildHosts(host, b.host);
    assert SiteOk(snap, "ns", [PARENT], b.site) <==> b.site == Site(PARENT, CATCH_ALL);
  }

  lemma DottedAnswered(host: string, ps: PolicySet)
    requires DottedLower(host)
    ensures Answers(WildSnapshot(host, ps), None, Request(host, "/", "GET", [], 80), WildBinding(host))
    ensures !BothClaimHost(WildBinding(host), host)
  {
    var snap, b := WildSnapshot(host, ps), WildBinding(host);
    forall c ensures c in Bindings(snap) <==> c == b { WildValid(host, ps, c); }
    ReasonsVisited(snap, b);
    assert NamesOn(snap, None, 80) == {""};
    assert HostsOn(snap, None, 80, "") == {"*" + host};
    assert HasSuffix(host, ("*" + host)[1..]) by { assert ("*" + host)[1..] == host; }
    assert IsWildcard("*" + host) by { assert ("*" + host)[..2] == "*."; }
    assert |Lower("*" + host)| - 1 == |Lower(host)|;
    WildcardLower("*" + host);
  }

  ghost predicate AlwaysClaimed(host: string, ps: PolicySet) {
    forall snap, part, req, b :: Answers(snap, part, req, b) && req.host == host && snap.policies == ps ==> BothClaimHost(b, host)
  }

  /** Whatever is stored, a route answers the host only if its listener and its hostnames claim
      it, if and only if the host does not start with a dot or has an upper-case letter. */
  lemma ServedHostsClaimedExactly(host: string, ps: PolicySet)
    ensures AlwaysClaimed(host, ps) <==> !DottedLower(host)
  {
    if DottedLower(host) {
      DottedAnswered(host, ps);
    } else {
      forall snap, part, req, b | Answers(snap, part, req, b) && req.host == host && snap.policies == ps ensures BothClaimHost(b, host) {
        ServedHostIsClaimed(snap, part, req, b);
      }
    }
  }
}
