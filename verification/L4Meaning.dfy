/** Which TCP or UDP route a listener serves, from the stored objects alone. */
module L4Meaning {
  import opened Collections
  import opened Text
  import opened Types
  import opened Store
  import opened L4Routes

  /** A parentRef of the route binds a listener of that Gateway, under this key and port. */
  predicate BindsAt(protocol: Protocol, gws: map<NamespacedName, GatewayState>, pr: ParentRef, l: ListenerState, key: ListenerKey, port: nat) {
    var name := NamespacedName(pr.namespace, pr.name);
    && pr.accepted && name in gws && l in gws[name].listeners
    && l.accepted && l.protocol == protocol && pr.section in {None, Some(l.name)} && pr.port in {None, Some(l.port)}
    && key.namespace == gws[name].namespace && key.gateway == gws[name].name && key.listener == l.name && port == l.port
  }

  ghost predicate Attached(protocol: Protocol, gws: map<NamespacedName, GatewayState>, kr: Entry, key: ListenerKey, port: nat) {
    exists pr, l :: pr in kr.1.parentRefs && BindsAt(protocol, gws, pr, l, key, port)
  }

  lemma ParentCandidates(protocol: Protocol, gws: map<NamespacedName, GatewayState>, kr: Entry, pr: ParentRef, c: Candidate)
    ensures c in ForParent(protocol, gws, kr, pr) <==> c.name == kr.0.name && c.route == kr.1 && exists l :: BindsAt(protocol, gws, pr, l, c.key, c.port)
  {
    if pr.accepted && ParentKey(pr) in gws {
      var gw := gws[ParentKey(pr)];
      var f := PerListener(protocol, gw, kr, pr);
      FlatMapMember(gw.listeners, f, c);
      if i :| 0 <= i < |gw.listeners| && c in f(gw.listeners[i]) {
        assert BindsAt(protocol, gws, pr, gw.listeners[i], c.key, c.port);
      }
      if l :| BindsAt(protocol, gws, pr, l, c.key, c.port) && c.name == kr.0.name && c.route == kr.1 {
        var i :| 0 <= i < |gw.listeners| && gw.listeners[i] == l;
        assert c == Candidate(ListenerKey(gw.namespace, gw.name, l.name), l.port, kr.0.name, kr.1);
        assert c in f(gw.listeners[i]);
      }
    }
  }

  /** The candidates are the attached routes. */
  lemma CandidatesExactly(protocol: Protocol, gws: map<NamespacedName, GatewayState>, kr: Entry, c: Candidate)
    ensures c in ForRoute(protocol, gws, kr) <==> c.name == kr.0.name && c.route == kr.1 && Attached(protocol, gws, kr, c.key, c.port)
  {
    var prs := kr.1.parentRefs;
    var f := PerParent(protocol, gws, kr);
    FlatMapMember(prs, f, c);
    forall i | 0 <= i < |prs|
      ensures c in f(prs[i]) <==> c.name == kr.0.name && c.route == kr.1 && exists l :: BindsAt(protocol, gws, prs[i], l, c.key, c.port)
    {
      ParentCandidates(protocol, gws, kr, prs[i], c);
    }
    if c.name == kr.0.name && c.route == kr.1 && Attached(protocol, gws, kr, c.key, c.port) {
      var pr, l :| pr in prs && BindsAt(protocol, gws, pr, l, c.key, c.port);
      var i :| 0 <= i < |prs| && prs[i] == pr;
      assert c in f(prs[i]);
    }
  }

  lemma CandidateHasRoute(protocol: Protocol, gws: map<NamespacedName, GatewayState>, routes: seq<Entry>, c: Candidate) returns (kr: Entry)
    requires c in FlatMap(routes, PerRoute(protocol, gws))
    ensures kr in routes && c.name == kr.0.name && c.route == kr.1 && Attached(protocol, gws, kr, c.key, c.port)
  {
    FlatMapMember(routes, PerRoute(protocol, gws), c);
    var i :| 0 <= i < |routes| && c in PerRoute(protocol, gws)(routes[i]);
    kr := routes[i];
    CandidatesExactly(protocol, gws, kr, c);
  }

  lemma RouteHasCandidate(protocol: Protocol, gws: map<NamespacedName, GatewayState>, routes: seq<Entry>, kr: Entry, key: ListenerKey, port: nat)
    requires kr in routes && Attached(protocol, gws, kr, key, port)
    ensures Candidate(key, port, kr.0.name, kr.1) in FlatMap(routes, PerRoute(protocol, gws))
  {
    var c := Candidate(key, port, kr.0.name, kr.1);
    CandidatesExactly(protocol, gws, kr, c);
    FlatMapMember(routes, PerRoute(protocol, gws), c);
    var i :| 0 <= i < |routes| && routes[i] == kr;
    assert c in PerRoute(protocol, gws)(routes[i]);
  }

  /** Every backend of every route has a pool, losers included. */
  lemma BackendsExactly(routes: seq<Entry>, k: ServiceKey)
    ensures k in BackendsOf(routes) <==>
      exists kr, ref :: kr in routes && ref in kr.1.backendRefs && k.namespace == ref.namespace && k.name == ref.name && k.port == ref.port
  {
  }

  // ---- Age ----

  /** Created earlier; a route without a timestamp counts as created last; of routes created
      together the one whose name comes first. */
  predicate Precedes(a: Entry, b: Entry) {
    if a.1.created == b.1.created then LexLess(a.0.name, b.0.name)
    else b.1.created.None? || (a.1.created.Some? && a.1.created.value < b.1.created.value)
  }

  lemma OlderExactly(a: Candidate, b: Candidate, x: Entry, y: Entry)
    requires a.name == x.0.name && a.route == x.1 && b.name == y.0.name && b.route == y.1
    ensures Older(a, b) <==> Precedes(x, y)
  {
  }

  // ---- What is programmed ----

  /** The route's first backend, and all of them with their weights. */
  ghost predicate Serves(x: L4Proxy, kr: Entry) {
    var refs := kr.1.backendRefs;
    && refs != [] && x.service == refs[0].name && x.servicePort == refs[0].port
    && |x.backends| == |refs| && forall i :: 0 <= i < |refs| ==> SameBackend(x.backends[i], refs[i])
  }

  predicate SameBackend(w: WeightedBackend, ref: BackendRef) {
    w.serviceName == ref.name && w.port == ref.port && w.weight == ref.weight && w.requestHeaders.None?
  }

  /** By namespace, then Gateway, then listener. */
  predicate KeyInOrder(a: ListenerKey, b: ListenerKey) {
    if a.namespace != b.namespace then LexLess(a.namespace, b.namespace)
    else if a.gateway != b.gateway then LexLess(a.gateway, b.gateway)
    else LexLess(a.listener, b.listener)
  }

  lemma KeyOrderExactly(a: ListenerKey, b: ListenerKey)
    ensures KeyLess(a, b) <==> KeyInOrder(a, b)
  {
    LexIsOrder();
  }

  /** The route is attached to the listener, and none attached precedes it. */
  ghost predicate Leads(protocol: Protocol, gws: map<NamespacedName, GatewayState>, routes: seq<Entry>, kr: Entry, key: ListenerKey, port: nat) {
    && kr in routes && Attached(protocol, gws, kr, key, port)
    && forall other, p :: other in routes && Attached(protocol, gws, other, key, p) ==> !Precedes(other, kr)
  }

  /** What a listener gets: from a leading route, if any is attached. */
  ghost predicate ServedAt(protocol: Protocol, gws: map<NamespacedName, GatewayState>, routes: seq<Entry>, out: seq<L4Proxy>, key: ListenerKey) {
    || ((forall kr, port :: kr in routes ==> !Attached(protocol, gws, kr, key, port)) && forall x :: x in out ==> x.key != key)
    || exists kr, port :: Leads(protocol, gws, routes, kr, key, port) && Gets(out, key, port, kr)
  }

  ghost predicate Gets(out: seq<L4Proxy>, key: ListenerKey, port: nat, kr: Entry) {
    if kr.1.backendRefs == [] then forall x :: x in out ==> x.key != key
    else exists x :: x in out && x.key == key && x.port == port && Serves(x, kr)
  }

  lemma WinnerLeads(protocol: Protocol, gws: map<NamespacedName, GatewayState>, routes: seq<Entry>, key: ListenerKey) returns (kr: Entry)
    requires Winner(protocol, gws, routes, key).Some?
    ensures var w := Winner(protocol, gws, routes, key).value;
      w.key == key && w.name == kr.0.name && w.route == kr.1 && Leads(protocol, gws, routes, kr, key, w.port)
  {
    var w := Winner(protocol, gws, routes, key).value;
    WinnerIsOldest(protocol, gws, routes, key);
    kr := CandidateHasRoute(protocol, gws, routes, w);
    forall other, p | other in routes && Attached(protocol, gws, other, key, p) ensures !Precedes(other, kr) {
      RouteHasCandidate(protocol, gws, routes, other, key, p);
      OlderExactly(Candidate(key, p, other.0.name, other.1), w, other, kr);
    }
  }

  lemma ServedWhere(protocol: Protocol, gws: map<NamespacedName, GatewayState>, routes: seq<Entry>, key: ListenerKey)
    ensures ServedAt(protocol, gws, routes, Compile(protocol, gws, routes), key)
  {
    var out, w := Compile(protocol, gws, routes), Winner(protocol, gws, routes, key);
    ConflictRule(protocol, gws, routes);
    if w.Some? {
      var kr := WinnerLeads(protocol, gws, routes, key);
      if kr.1.backendRefs != [] {
        var x := ProxyOf(w.value)[0];
        assert x in ProxyOf(w.value) && x.key == key;
        assert Serves(x, kr);
      }
      assert Gets(out, key, w.value.port, kr);
    } else {
      WinnerIsOldest(protocol, gws, routes, key);
      forall kr, port | kr in routes ensures !Attached(protocol, gws, kr, key, port) {
        if Attached(protocol, gws, kr, key, port) {
          RouteHasCandidate(protocol, gws, routes, kr, key, port);
        }
      }
    }
  }

  /** Listeners in order, each at most once; and every listener is served by a route attached to
      it that none attached precedes, with all its backends, or not at all when that route has
      none or no route is attached. */
  lemma ProgrammedExactly(protocol: Protocol, gws: map<NamespacedName, GatewayState>, routes: seq<Entry>)
    ensures var out := Compile(protocol, gws, routes);
      && (forall i, j :: 0 <= i < j < |out| ==> KeyInOrder(out[i].key, out[j].key))
      && forall key :: ServedAt(protocol, gws, routes, out, key)
  {
    var out := Compile(protocol, gws, routes);
    ConflictRule(protocol, gws, routes);
    forall i, j | 0 <= i < j < |out| ensures KeyInOrder(out[i].key, out[j].key) {
      assert ProxyLess(out[i], out[j]);
      KeyOrderExactly(out[i].key, out[j].key);
    }
    forall key ensures ServedAt(protocol, gws, routes, out, key) {
      ServedWhere(protocol, gws, routes, key);
    }
  }
}
