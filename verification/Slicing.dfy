/** The compiled configuration, its order-independent fingerprint and the slice of it that
    one Gateway's data plane receives. */
module Slicing {
  import opened Collections
  import opened Types
  import opened L4Routes

  datatype Listener = Listener(name: string, port: nat, protocol: string, hostname: string, gateway: NamespacedName, tls: seq<string>)
  datatype TlsRoute = TlsRoute(hostnames: seq<string>, backendService: string, backendPort: nat, gateway: NamespacedName)
  datatype BackendGroup = BackendGroup(serviceName: string, port: nat, endpoints: seq<(string, nat)>)
  datatype BackendTls = BackendTls(gateway: NamespacedName, certificate: string)
  datatype Member = Member(name: string, serviceName: string, port: nat)
  datatype Federation = Federation(name: string, members: seq<Member>)
  datatype IssuerKeys = IssuerKeys(issuer: string, jwks: string)

  datatype CompiledConfig = CompiledConfig(
    schemaVersion: string, version: nat, fingerprint: U64,
    routes: seq<RouteConfig>, backends: seq<BackendGroup>, listeners: seq<Listener>,
    tlsRoutes: seq<TlsRoute>, tcpRoutes: seq<L4Proxy>, udpRoutes: seq<L4Proxy>, tlsHostnames: seq<string>,
    backendTls: seq<BackendTls>, federations: seq<Federation>, issuerKeys: seq<IssuerKeys>)

  // ---- Fingerprint ----

  const WORD := 0x1_0000_0000_0000_0000
  type U64 = x: int | 0 <= x < WORD

  function WrappingAdd(a: U64, b: U64): U64 { if a + b < WORD then a + b else a + b - WORD }

  /** Hash of an element's encoding, a function of the element alone. */
  datatype Hasher = Hasher(
    route: RouteConfig -> U64, backend: BackendGroup -> U64, listener: Listener -> U64, tlsRoute: TlsRoute -> U64,
    l4: L4Proxy -> U64, text: string -> U64, backendTls: BackendTls -> U64, federation: Federation -> U64,
    issuer: IssuerKeys -> U64)

  function SumHash<T>(s: seq<T>, h: T -> U64): U64 {
    if s == [] then 0 else WrappingAdd(h(s[0]), SumHash(s[1..], h))
  }

  function Same(): U64 -> U64 { (x: U64) => x }

  function OtherParts(h: Hasher, c: CompiledConfig): seq<U64> {
    [SumHash(c.backends, h.backend), SumHash(c.listeners, h.listener),
     SumHash(c.tlsRoutes, h.tlsRoute), SumHash(c.tcpRoutes, h.l4), SumHash(c.udpRoutes, h.l4),
     SumHash(c.tlsHostnames, h.text), SumHash(c.backendTls, h.backendTls), SumHash(c.federations, h.federation),
     SumHash(c.issuerKeys, h.issuer)]
  }

  function Parts(h: Hasher, c: CompiledConfig): seq<U64> { [SumHash(c.routes, h.route)] + OtherParts(h, c) }

  function Fingerprint(h: Hasher, c: CompiledConfig): U64 { SumHash(Parts(h, c), Same()) }

  lemma AddLaws(a: U64, b: U64, c: U64)
    ensures WrappingAdd(a, b) == WrappingAdd(b, a)
    ensures WrappingAdd(WrappingAdd(a, b), c) == WrappingAdd(a, WrappingAdd(b, c))
    ensures WrappingAdd(a, 0) == a
  {
  }

  lemma {:induction false} SumConcat<T>(s: seq<T>, t: seq<T>, h: T -> U64)
    ensures SumHash(s + t, h) == WrappingAdd(SumHash(s, h), SumHash(t, h))
  {
    if s == [] {
      assert s + t == t;
      AddLaws(SumHash(t, h), 0, 0);
    } else {
      SumConcat(s[1..], t, h);
      assert (s + t)[1..] == s[1..] + t;
      AddLaws(h(s[0]), SumHash(s[1..], h), SumHash(t, h));
    }
  }

  lemma Rotate(a: U64, x: U64, b: U64)
    ensures WrappingAdd(a, WrappingAdd(x, b)) == WrappingAdd(x, WrappingAdd(a, b))
  {
    AddLaws(a, x, b);
    AddLaws(x, a, b);
  }

  lemma SumMiddle<T>(u: seq<T>, x: T, v: seq<T>, h: T -> U64)
    ensures SumHash(u + ([x] + v), h) == WrappingAdd(h(x), SumHash(u + v, h))
  {
    SumConcat(u, [x] + v, h);
    SumConcat(u, v, h);
    assert ([x] + v)[0] == x && ([x] + v)[1..] == v;
    Rotate(SumHash(u, h), h(x), SumHash(v, h));
  }

  lemma SumSplit<T>(s: seq<T>, i: nat, h: T -> U64)
    requires i < |s|
    ensures SumHash(s, h) == WrappingAdd(h(s[i]), SumHash(s[..i] + s[i + 1..], h))
  {
    assert s == s[..i] + ([s[i]] + s[i + 1..]);
    SumMiddle(s[..i], s[i], s[i + 1..], h);
  }

  /** Same elements in any order, same sum. */
  lemma {:induction false} SumPermutes<T>(s: seq<T>, t: seq<T>, h: T -> U64)
    requires multiset(s) == multiset(t)
    ensures SumHash(s, h) == SumHash(t, h)
  {
    if s == [] {
      assert |multiset(t)| == 0;
    } else {
      assert s[0] in multiset(s);
      var i :| 0 <= i < |t| && t[i] == s[0];
      assert s == [s[0]] + s[1..];
      assert t == t[..i] + [t[i]] + t[i + 1..];
      assert multiset(s[1..]) == multiset(s) - multiset{s[0]};
      assert multiset(t[..i] + t[i + 1..]) == multiset(t) - multiset{s[0]};
      SumPermutes(s[1..], t[..i] + t[i + 1..], h);
      SumSplit(t, i, h);
    }
  }

  /** Replacing one element is noticed exactly when the two hashes differ. */
  lemma SumNotices<T>(s: seq<T>, i: nat, y: T, h: T -> U64)
    requires i < |s|
    ensures SumHash(s[i := y], h) == SumHash(s, h) <==> h(y) == h(s[i])
  {
    SumSplit(s, i, h);
    SumSplit(s[i := y], i, h);
    assert s[i := y][..i] + s[i := y][i + 1..] == s[..i] + s[i + 1..];
    Cancel(h(y), h(s[i]), SumHash(s[..i] + s[i + 1..], h));
  }

  lemma Cancel(a: U64, b: U64, c: U64)
    ensures WrappingAdd(a, c) == WrappingAdd(b, c) <==> a == b
  {
  }

  /** One accumulation loop of `config_fingerprint`. */
  method AddHashes<T>(fp: U64, s: seq<T>, h: T -> U64) returns (r: U64)
    ensures r == WrappingAdd(fp, SumHash(s, h))
  {
    r := fp;
    AddLaws(fp, 0, 0);
    for i := 0 to |s|
      invariant r == WrappingAdd(fp, SumHash(s[..i], h))
    {
      TakeStep(s, i);
      SumConcat(s[..i], [s[i]], h);
      AddLaws(h(s[i]), 0, 0);
      AddLaws(fp, SumHash(s[..i], h), h(s[i]));
      r := WrappingAdd(r, h(s[i]));
    }
    assert s[..|s|] == s;
  }

  lemma SumStep(parts: seq<U64>, i: nat)
    requires i < |parts|
    ensures SumHash(parts[..i + 1], Same()) == WrappingAdd(SumHash(parts[..i], Same()), parts[i])
  {
    TakeStep(parts, i);
    SumConcat(parts[..i], [parts[i]], Same());
    AddLaws(parts[i], 0, 0);
  }

  function AddFive(fp: U64, p: seq<U64>): U64
    requires |p| == 5
  {
    WrappingAdd(WrappingAdd(WrappingAdd(WrappingAdd(WrappingAdd(fp, p[0]), p[1]), p[2]), p[3]), p[4])
  }

  lemma SumOfFive(fp: U64, p: seq<U64>)
    requires |p| == 5
    ensures AddFive(fp, p) == WrappingAdd(fp, SumHash(p, Same()))
  {
    assert p[..5] == p;
    SumStep(p, 0);
    SumStep(p, 1);
    SumStep(p, 2);
    SumStep(p, 3);
    SumStep(p, 4);
    AddLaws(0, p[0], 0);
    AddLaws(fp, p[0], p[1]);
    AddLaws(fp, SumHash(p[..2], Same()), p[2]);
    AddLaws(fp, SumHash(p[..3], Same()), p[3]);
    AddLaws(fp, SumHash(p[..4], Same()), p[4]);
  }

  lemma SumOfTen(p: seq<U64>)
    requires |p| == 10
    ensures AddFive(AddFive(0, p[..5]), p[5..]) == SumHash(p, Same())
  {
    SumOfFive(0, p[..5]);
    SumOfFive(AddFive(0, p[..5]), p[5..]);
    AddLaws(0, SumHash(p[..5], Same()), 0);
    assert p == p[..5] + p[5..];
    SumConcat(p[..5], p[5..], Same());
  }

  /** `config_fingerprint`. */
  method ConfigFingerprint(h: Hasher, c: CompiledConfig) returns (fp: U64)
    ensures fp == Fingerprint(h, c)
  {
    fp := AddHashes(0, c.routes, h.route);
    fp := AddHashes(fp, c.backends, h.backend);
    fp := AddHashes(fp, c.listeners, h.listener);
    fp := AddHashes(fp, c.tlsRoutes, h.tlsRoute);
    fp := AddHashes(fp, c.tcpRoutes, h.l4);
    fp := AddHashes(fp, c.udpRoutes, h.l4);
    fp := AddHashes(fp, c.tlsHostnames, h.text);
    fp := AddHashes(fp, c.backendTls, h.backendTls);
    fp := AddHashes(fp, c.federations, h.federation);
    fp := AddHashes(fp, c.issuerKeys, h.issuer);
    SumOfTen(Parts(h, c));
  }

  /** Configurations that differ in one list differ in the fingerprint exactly when the sums of
      that list do. */
  lemma ListNoticed(h: Hasher, c: CompiledConfig, d: CompiledConfig, k: nat)
    requires k < 10 && forall i :: 0 <= i < 10 && i != k ==> Parts(h, d)[i] == Parts(h, c)[i]
    ensures Fingerprint(h, d) == Fingerprint(h, c) <==> Parts(h, d)[k] == Parts(h, c)[k]
  {
    var p, q := Parts(h, c), Parts(h, d);
    assert q == p[k := q[k]];
    SumNotices(p, k, q[k], Same());
  }

  /** A change to one element of a list is noticed exactly when the two elements hash
      differently; so for each of the ten lists. */
  lemma RouteChangeNoticed(h: Hasher, c: CompiledConfig, i: nat, x: RouteConfig)
    requires i < |c.routes|
    ensures Fingerprint(h, c.(routes := c.routes[i := x])) == Fingerprint(h, c) <==> h.route(x) == h.route(c.routes[i])
  {
    SumNotices(c.routes, i, x, h.route);
    ListNoticed(h, c, c.(routes := c.routes[i := x]), 0);
  }

  lemma BackendChangeNoticed(h: Hasher, c: CompiledConfig, i: nat, x: BackendGroup)
    requires i < |c.backends|
    ensures Fingerprint(h, c.(backends := c.backends[i := x])) == Fingerprint(h, c) <==> h.backend(x) == h.backend(c.backends[i])
  {
    SumNotices(c.backends, i, x, h.backend);
    ListNoticed(h, c, c.(backends := c.backends[i := x]), 1);
  }

  lemma ListenerChangeNoticed(h: Hasher, c: CompiledConfig, i: nat, x: Listener)
    requires i < |c.listeners|
    ensures Fingerprint(h, c.(listeners := c.listeners[i := x])) == Fingerprint(h, c) <==> h.listener(x) == h.listener(c.listeners[i])
  {
    SumNotices(c.listeners, i, x, h.listener);
    ListNoticed(h, c, c.(listeners := c.listeners[i := x]), 2);
  }

  lemma TlsChangeNoticed(h: Hasher, c: CompiledConfig, i: nat, x: TlsRoute)
    requires i < |c.tlsRoutes|
    ensures Fingerprint(h, c.(tlsRoutes := c.tlsRoutes[i := x])) == Fingerprint(h, c) <==> h.tlsRoute(x) == h.tlsRoute(c.tlsRoutes[i])
  {
    SumNotices(c.tlsRoutes, i, x, h.tlsRoute);
    ListNoticed(h, c, c.(tlsRoutes := c.tlsRoutes[i := x]), 3);
  }

  lemma TcpChangeNoticed(h: Hasher, c: CompiledConfig, i: nat, x: L4Proxy)
    requires i < |c.tcpRoutes|
    ensures Fingerprint(h, c.(tcpRoutes := c.tcpRoutes[i := x])) == Fingerprint(h, c) <==> h.l4(x) == h.l4(c.tcpRoutes[i])
  {
    SumNotices(c.tcpRoutes, i, x, h.l4);
    ListNoticed(h, c, c.(tcpRoutes := c.tcpRoutes[i := x]), 4);
  }

  lemma UdpChangeNoticed(h: Hasher, c: CompiledConfig, i: nat, x: L4Proxy)
    requires i < |c.udpRoutes|
    ensures Fingerprint(h, c.(udpRoutes := c.udpRoutes[i := x])) == Fingerprint(h, c) <==> h.l4(x) == h.l4(c.udpRoutes[i])
  {
    SumNotices(c.udpRoutes, i, x, h.l4);
    ListNoticed(h, c, c.(udpRoutes := c.udpRoutes[i := x]), 5);
  }

  lemma TlsHostnameChangeNoticed(h: Hasher, c: CompiledConfig, i: nat, x: string)
    requires i < |c.tlsHostnames|
    ensures Fingerprint(h, c.(tlsHostnames := c.tlsHostnames[i := x])) == Fingerprint(h, c) <==> h.text(x) == h.text(c.tlsHostnames[i])
  {
    SumNotices(c.tlsHostnames, i, x, h.text);
    ListNoticed(h, c, c.(tlsHostnames := c.tlsHostnames[i := x]), 6);
  }

  lemma BackendTlsChangeNoticed(h: Hasher, c: CompiledConfig, i: nat, x: BackendTls)
    requires i < |c.backendTls|
    ensures Fingerprint(h, c.(backendTls := c.backendTls[i := x])) == Fingerprint(h, c) <==> h.backendTls(x) == h.backendTls(c.backendTls[i])
  {
    SumNotices(c.backendTls, i, x, h.backendTls);
    ListNoticed(h, c, c.(backendTls := c.backendTls[i := x]), 7);
  }

  lemma FederationChangeNoticed(h: Hasher, c: CompiledConfig, i: nat, x: Federation)
    requires i < |c.federations|
    ensures Fingerprint(h, c.(federations := c.federations[i := x])) == Fingerprint(h, c) <==> h.federation(x) == h.federation(c.federations[i])
  {
    SumNotices(c.federations, i, x, h.federation);
    ListNoticed(h, c, c.(federations := c.federations[i := x]), 8);
  }

  lemma IssuerKeysChangeNoticed(h: Hasher, c: CompiledConfig, i: nat, x: IssuerKeys)
    requires i < |c.issuerKeys|
    ensures Fingerprint(h, c.(issuerKeys := c.issuerKeys[i := x])) == Fingerprint(h, c) <==> h.issuer(x) == h.issuer(c.issuerKeys[i])
  {
    SumNotices(c.issuerKeys, i, x, h.issuer);
    ListNoticed(h, c, c.(issuerKeys := c.issuerKeys[i := x]), 9);
  }

  /** Moving routes between the TCP and the UDP list goes unnoticed: the two lists hold the
      same message type. */
  lemma TransportSwapUnnoticed(h: Hasher, c: CompiledConfig)
    ensures Fingerprint(h, c.(tcpRoutes := c.udpRoutes, udpRoutes := c.tcpRoutes)) == Fingerprint(h, c)
  {
    SwapFourFive(Parts(h, c), Parts(h, c.(tcpRoutes := c.udpRoutes, udpRoutes := c.tcpRoutes)));
  }

  lemma SwapFourFive(p: seq<U64>, q: seq<U64>)
    requires |p| == 10 && q == p[4 := p[5]][5 := p[4]]
    ensures SumHash(q, Same()) == SumHash(p, Same())
  {
    assert p == p[..4] + [p[4], p[5]] + p[6..];
    assert q == p[..4] + [p[5], p[4]] + p[6..];
    SumPermutes(p, q, Same());
  }

  // ---- Slices ----

  type ServicePort = (string, nat)

  function RouteOf(gw: NamespacedName): RouteConfig -> bool { (r: RouteConfig) => r.listener.gateway == gw }
  function ListenerOf(gw: NamespacedName): Listener -> bool { (l: Listener) => l.gateway == gw }
  function TlsOf(gw: NamespacedName): TlsRoute -> bool { (t: TlsRoute) => t.gateway == gw }
  function L4Of(gw: NamespacedName): L4Proxy -> bool { (t: L4Proxy) => t.key.namespace == gw.namespace && t.key.gateway == gw.name }
  function BackendTlsOf(gw: NamespacedName): BackendTls -> bool { (b: BackendTls) => b.gateway == gw }
  function Pool(wanted: set<ServicePort>): BackendGroup -> bool { (b: BackendGroup) => (b.serviceName, b.port) in wanted }
  function FederationIn(wanted: set<string>): Federation -> bool { (f: Federation) => f.name in wanted }
  function IssuerIn(wanted: set<string>): IssuerKeys -> bool { (k: IssuerKeys) => k.issuer in wanted }
  function TlsNamed(): Listener -> bool { (l: Listener) => l.protocol == "TLS" && l.hostname != "" }
  function HostnameOf(): Listener -> string { (l: Listener) => l.hostname }

  function Primary(service: string, port: nat): set<ServicePort> { if service == "" then {} else {(service, port)} }

  function WeightedRefs(ws: seq<WeightedBackend>): set<ServicePort> { set w | w in ws :: (w.serviceName, w.port) }

  function RouteRefs(r: RouteConfig): set<ServicePort> {
    Primary(r.serviceName, r.port) + WeightedRefs(r.weightedBackends)
    + (set m | m in r.filters.mirrors :: (m.serviceName, m.port))
    + (if r.policy.extAuth.Some? then {(r.policy.extAuth.value.serviceName, r.policy.extAuth.value.port)} else {})
  }

  function TlsRefs(t: TlsRoute): set<ServicePort> { Primary(t.backendService, t.backendPort) }

  function L4Refs(t: L4Proxy): set<ServicePort> { Primary(t.service, t.servicePort) + WeightedRefs(t.backends) }

  ghost function Union<T>(s: seq<T>, refs: T -> set<ServicePort>): set<ServicePort> {
    if s == [] then {} else refs(s[0]) + Union(s[1..], refs)
  }

  ghost function Wanted(routes: seq<RouteConfig>, tls: seq<TlsRoute>, tcp: seq<L4Proxy>, udp: seq<L4Proxy>): set<ServicePort> {
    Union(routes, RouteRefs) + Union(tls, TlsRefs) + Union(tcp, L4Refs) + Union(udp, L4Refs)
  }

  function WantedFederations(routes: seq<RouteConfig>): set<string> {
    set r | r in routes && r.aiFederation != "" :: r.aiFederation
  }

  function Issuers(r: RouteConfig): set<string> {
    if r.policy.auth.Some? && r.policy.auth.value.Jwt? then set p | p in r.policy.auth.value.providers :: p.issuer else {}
  }

  function WantedIssuers(routes: seq<RouteConfig>): set<string> {
    set r, i | r in routes && i in Issuers(r) :: i
  }

  ghost function Contents(c: CompiledConfig, gw: NamespacedName): CompiledConfig {
    var routes := Filter(c.routes, RouteOf(gw));
    var listeners := Filter(c.listeners, ListenerOf(gw));
    var tls := Filter(c.tlsRoutes, TlsOf(gw));
    var tcp := Filter(c.tcpRoutes, L4Of(gw));
    var udp := Filter(c.udpRoutes, L4Of(gw));
    CompiledConfig(
      c.schemaVersion, c.version, 0, routes,
      Filter(c.backends, Pool(Wanted(routes, tls, tcp, udp))), listeners, tls, tcp, udp,
      Map(Filter(listeners, TlsNamed()), HostnameOf()),
      Filter(c.backendTls, BackendTlsOf(gw)),
      Filter(c.federations, FederationIn(WantedFederations(routes))),
      Filter(c.issuerKeys, IssuerIn(WantedIssuers(routes))))
  }

  ghost function Scope(h: Hasher, c: CompiledConfig, gw: NamespacedName): CompiledConfig {
    var slice := Contents(c, gw);
    slice.(fingerprint := Fingerprint(h, slice))
  }

  lemma {:induction false} UnionConcat<T>(s: seq<T>, t: seq<T>, refs: T -> set<ServicePort>)
    ensures Union(s + t, refs) == Union(s, refs) + Union(t, refs)
  {
    if s == [] {
      assert s + t == t;
    } else {
      UnionConcat(s[1..], t, refs);
      assert (s + t)[1..] == s[1..] + t;
    }
  }

  lemma UnionStep<T>(s: seq<T>, i: nat, refs: T -> set<ServicePort>)
    requires i < |s|
    ensures Union(s[..i + 1], refs) == Union(s[..i], refs) + refs(s[i])
  {
    TakeStep(s, i);
    UnionConcat(s[..i], [s[i]], refs);
  }

  lemma {:induction false} UnionMember<T>(s: seq<T>, refs: T -> set<ServicePort>, k: ServicePort)
    ensures k in Union(s, refs) <==> exists x :: x in s && k in refs(x)
  {
    if s != [] {
      UnionMember(s[1..], refs, k);
      if x :| x in s && k in refs(x) {
        assert x == s[0] || x in s[1..];
      }
    }
  }

  method InsertWeighted(acc: set<ServicePort>, ws: seq<WeightedBackend>) returns (wanted: set<ServicePort>)
    ensures wanted == acc + WeightedRefs(ws)
  {
    wanted := acc;
    for i := 0 to |ws|
      invariant wanted == acc + WeightedRefs(ws[..i])
    {
      wanted := wanted + {(ws[i].serviceName, ws[i].port)};
      TakeStep(ws, i);
    }
    assert ws[..|ws|] == ws;
  }

  method InsertRoute(acc: set<ServicePort>, r: RouteConfig) returns (wanted: set<ServicePort>)
    ensures wanted == acc + RouteRefs(r)
  {
    wanted := acc;
    if r.serviceName != "" {
      wanted := wanted + {(r.serviceName, r.port)};
    }
    wanted := InsertWeighted(wanted, r.weightedBackends);
    ghost var before := wanted;
    var ms := r.filters.mirrors;
    for i := 0 to |ms|
      invariant wanted == before + set m | m in ms[..i] :: (m.serviceName, m.port)
    {
      wanted := wanted + {(ms[i].serviceName, ms[i].port)};
      TakeStep(ms, i);
    }
    assert ms[..|ms|] == ms;
    if r.policy.extAuth.Some? {
      wanted := wanted + {(r.policy.extAuth.value.serviceName, r.policy.extAuth.value.port)};
    }
  }

  /** The loops of `scope_config` that fill the set of wanted Services. */
  method CollectWanted(routes: seq<RouteConfig>, tls: seq<TlsRoute>, tcp: seq<L4Proxy>, udp: seq<L4Proxy>)
    returns (wanted: set<ServicePort>)
    ensures wanted == Wanted(routes, tls, tcp, udp)
  {
    wanted := {};
    for i := 0 to |routes|
      invariant wanted == Union(routes[..i], RouteRefs)
    {
      wanted := InsertRoute(wanted, routes[i]);
      UnionStep(routes, i, RouteRefs);
    }
    assert routes[..|routes|] == routes;
    ghost var before := wanted;
    for i := 0 to |tls|
      invariant wanted == before + Union(tls[..i], TlsRefs)
    {
      if tls[i].backendService != "" {
        wanted := wanted + {(tls[i].backendService, tls[i].backendPort)};
      }
      UnionStep(tls, i, TlsRefs);
    }
    assert tls[..|tls|] == tls;
    wanted := InsertProxies(wanted, tcp + udp);
    UnionConcat(tcp, udp, L4Refs);
  }

  method InsertProxies(acc: set<ServicePort>, ts: seq<L4Proxy>) returns (wanted: set<ServicePort>)
    ensures wanted == acc + Union(ts, L4Refs)
  {
    wanted := acc;
    for i := 0 to |ts|
      invariant wanted == acc + Union(ts[..i], L4Refs)
    {
      if ts[i].service != "" {
        wanted := wanted + {(ts[i].service, ts[i].servicePort)};
      }
      wanted := InsertWeighted(wanted, ts[i].backends);
      UnionStep(ts, i, L4Refs);
    }
    assert ts[..|ts|] == ts;
  }

  /** `scope_config`. */
  method ScopeConfig(h: Hasher, c: CompiledConfig, gw: NamespacedName) returns (slice: CompiledConfig)
    ensures slice == Scope(h, c, gw)
  {
    var routes := Filter(c.routes, RouteOf(gw));
    var listeners := Filter(c.listeners, ListenerOf(gw));
    var tls := Filter(c.tlsRoutes, TlsOf(gw));
    var tcp := Filter(c.tcpRoutes, L4Of(gw));
    var udp := Filter(c.udpRoutes, L4Of(gw));
    var wanted := CollectWanted(routes, tls, tcp, udp);
    var backends := Filter(c.backends, Pool(wanted));
    var names := Map(Filter(listeners, TlsNamed()), HostnameOf());
    var federations := Filter(c.federations, FederationIn(WantedFederations(routes)));
    var keys := Filter(c.issuerKeys, IssuerIn(WantedIssuers(routes)));
    slice := CompiledConfig(c.schemaVersion, c.version, 0, routes, backends, listeners, tls, tcp, udp, names,
                            Filter(c.backendTls, BackendTlsOf(gw)), federations, keys);
    var fp := ConfigFingerprint(h, slice);
    slice := slice.(fingerprint := fp);
  }

  // ---- Slicing laws ----

  lemma ContentsAgain(c: CompiledConfig, gw: NamespacedName)
    ensures Contents(Contents(c, gw), gw) == Contents(c, gw)
  {
    var s := Contents(c, gw);
    FilterIdempotent(c.routes, RouteOf(gw));
    FilterIdempotent(c.listeners, ListenerOf(gw));
    FilterIdempotent(c.tlsRoutes, TlsOf(gw));
    FilterIdempotent(c.tcpRoutes, L4Of(gw));
    FilterIdempotent(c.udpRoutes, L4Of(gw));
    FilterIdempotent(c.backends, Pool(Wanted(s.routes, s.tlsRoutes, s.tcpRoutes, s.udpRoutes)));
    FilterIdempotent(c.backendTls, BackendTlsOf(gw));
    FilterIdempotent(c.federations, FederationIn(WantedFederations(s.routes)));
    FilterIdempotent(c.issuerKeys, IssuerIn(WantedIssuers(s.routes)));
  }

  /** Slicing a slice changes nothing. */
  lemma ScopeIdempotent(h: Hasher, c: CompiledConfig, gw: NamespacedName)
    ensures Scope(h, Scope(h, c, gw), gw) == Scope(h, c, gw)
  {
    ContentsAgain(c, gw);
    assert Contents(Scope(h, c, gw), gw) == Contents(Contents(c, gw), gw);
  }

  /** Slices of distinct Gateways share no route, listener or passthrough, TCP or UDP route. */
  lemma SlicesDisjoint(h: Hasher, c: CompiledConfig, g1: NamespacedName, g2: NamespacedName)
    requires g1 != g2
    ensures var a, b := Scope(h, c, g1), Scope(h, c, g2);
      && (forall r :: !(r in a.routes && r in b.routes))
      && (forall l :: !(l in a.listeners && l in b.listeners))
      && (forall t :: !(t in a.tlsRoutes && t in b.tlsRoutes))
      && (forall t :: !(t in a.tcpRoutes && t in b.tcpRoutes))
      && (forall t :: !(t in a.udpRoutes && t in b.udpRoutes))
      && (forall t :: !(t in a.backendTls && t in b.backendTls))
  {
  }

  /** A provider of the route's token authentication is the issuer. */
  predicate Trusts(r: RouteConfig, issuer: string) {
    match r.policy.auth
    case Some(Jwt(providers)) => exists p :: p in providers && p.issuer == issuer
    case _ => false
  }

  /** What is in a slice besides routes and pools: the Gateway's own listeners and L4 and TLS
      entries, the hostnames of its TLS listeners, the federations its routes fan out to and the
      keys of the issuers its routes trust. Only the version is carried over unread. */
  lemma SliceExact(h: Hasher, c: CompiledConfig, gw: NamespacedName)
    ensures var s := Scope(h, c, gw);
      && s.schemaVersion == c.schemaVersion && s.version == c.version && s.fingerprint == Fingerprint(h, s)
      && (forall l :: l in s.listeners <==> l in c.listeners && l.gateway == gw)
      && (forall t :: t in s.tlsRoutes <==> t in c.tlsRoutes && t.gateway == gw)
      && (forall t :: t in s.tcpRoutes <==> t in c.tcpRoutes && NamespacedName(t.key.namespace, t.key.gateway) == gw)
      && (forall t :: t in s.udpRoutes <==> t in c.udpRoutes && NamespacedName(t.key.namespace, t.key.gateway) == gw)
      && (forall b :: b in s.backendTls <==> b in c.backendTls && b.gateway == gw)
      && (forall f :: f in s.federations <==> f in c.federations && exists r :: r in c.routes && r.listener.gateway == gw && FansOutTo(r, f, c))
      && (forall k :: k in s.issuerKeys <==> k in c.issuerKeys && exists r :: r in c.routes && r.listener.gateway == gw && Trusts(r, k.issuer))
      && (forall n :: n in s.tlsHostnames <==>
            exists l :: l in c.listeners && l.gateway == gw && l.protocol == "TLS" && l.hostname != "" && l.hostname == n)
  {
    var s := Scope(h, c, gw);
    StampIgnored(h, Contents(c, gw), s.fingerprint);
    forall f { FederationKept(c, gw, f); }
    forall k { KeysKept(c, gw, k); }
    forall n { HostnameKept(c, gw, n); }
  }

  lemma FederationKept(c: CompiledConfig, gw: NamespacedName, f: Federation)
    ensures f in Contents(c, gw).federations <==> f in c.federations && exists r :: r in c.routes && r.listener.gateway == gw && FansOutTo(r, f, c)
  {
    var routes := Filter(c.routes, RouteOf(gw));
    if r :| r in c.routes && r.listener.gateway == gw && FansOutTo(r, f, c) {
      assert r in routes;
    }
  }

  lemma KeysKept(c: CompiledConfig, gw: NamespacedName, k: IssuerKeys)
    ensures k in Contents(c, gw).issuerKeys <==> k in c.issuerKeys && exists r :: r in c.routes && r.listener.gateway == gw && Trusts(r, k.issuer)
  {
    var routes := Filter(c.routes, RouteOf(gw));
    forall r ensures k.issuer in Issuers(r) <==> Trusts(r, k.issuer) {}
    if r :| r in c.routes && r.listener.gateway == gw && Trusts(r, k.issuer) {
      assert r in routes;
    }
  }

  lemma HostnameKept(c: CompiledConfig, gw: NamespacedName, n: string)
    ensures n in Contents(c, gw).tlsHostnames <==>
      exists l :: l in c.listeners && l.gateway == gw && l.protocol == "TLS" && l.hostname != "" && l.hostname == n
  {
    var mine := Filter(c.listeners, ListenerOf(gw));
    var named := Filter(mine, TlsNamed());
    MapMember(named, HostnameOf(), n);
    if l :| l in c.listeners && l.gateway == gw && l.protocol == "TLS" && l.hostname != "" && l.hostname == n {
      assert l in mine && l in named;
    }
  }

  lemma StampIgnored(h: Hasher, c: CompiledConfig, fp: U64)
    ensures Fingerprint(h, c.(fingerprint := fp)) == Fingerprint(h, c)
  {
    assert Parts(h, c.(fingerprint := fp)) == Parts(h, c);
  }

  lemma MapMember<A, B>(s: seq<A>, f: A -> B, y: B)
    ensures y in Map(s, f) <==> exists x :: x in s && f(x) == y
  {
    if x :| x in s && f(x) == y {
      var i :| 0 <= i < |s| && s[i] == x;
      assert Map(s, f)[i] == y;
    }
    if y in Map(s, f) {
      var i :| 0 <= i < |s| && Map(s, f)[i] == y;
      assert s[i] in s && f(s[i]) == y;
    }
  }

  /** Every route is in its owner's slice as often as in the configuration, and in no other. */
  lemma RoutesConserved(h: Hasher, c: CompiledConfig, gw: NamespacedName, r: RouteConfig)
    ensures multiset(Scope(h, c, gw).routes)[r] == if r.listener.gateway == gw then multiset(c.routes)[r] else 0
  {
    FilterMultiset(c.routes, RouteOf(gw), r);
  }

  predicate InBackends(k: ServicePort, ws: seq<WeightedBackend>) { exists w :: w in ws && k == (w.serviceName, w.port) }

  /** The Service is the route's primary backend, one of its weighted ones or mirrors, or the one
      asked for external authorization. */
  predicate RouteNames(r: RouteConfig, k: ServicePort) {
    || (r.serviceName != "" && k == (r.serviceName, r.port))
    || InBackends(k, r.weightedBackends)
    || (exists m :: m in r.filters.mirrors && k == (m.serviceName, m.port))
    || (match r.policy.extAuth case Some(e) => k == (e.serviceName, e.port) case None => false)
  }

  /** The primary backend of a TCP or UDP route, or one of its weighted ones. */
  predicate L4Names(t: L4Proxy, k: ServicePort) {
    (t.service != "" && k == (t.service, t.servicePort)) || InBackends(k, t.backends)
  }

  /** A Service a Gateway's routes reach: by an HTTP route, as primary of a passthrough route, or
      by a TCP or UDP route. */
  ghost predicate Referenced(c: CompiledConfig, gw: NamespacedName, k: ServicePort) {
    || (exists r :: r in c.routes && r.listener.gateway == gw && RouteNames(r, k))
    || (exists t :: t in c.tlsRoutes && t.gateway == gw && t.backendService != "" && k == (t.backendService, t.backendPort))
    || (exists t :: t in c.tcpRoutes + c.udpRoutes && NamespacedName(t.key.namespace, t.key.gateway) == gw && L4Names(t, k))
  }

  lemma RefsExactly(k: ServicePort)
    ensures forall r: RouteConfig :: k in RouteRefs(r) <==> RouteNames(r, k)
    ensures forall t: L4Proxy :: k in L4Refs(t) <==> L4Names(t, k)
  {
  }

  lemma WantedIsReferenced(c: CompiledConfig, gw: NamespacedName, k: ServicePort)
    ensures var s := Contents(c, gw); k in Wanted(s.routes, s.tlsRoutes, s.tcpRoutes, s.udpRoutes) <==> Referenced(c, gw, k)
  {
    var s := Contents(c, gw);
    RefsExactly(k);
    UnionMember(s.routes, RouteRefs, k);
    UnionMember(s.tlsRoutes, TlsRefs, k);
    UnionMember(s.tcpRoutes, L4Refs, k);
    UnionMember(s.udpRoutes, L4Refs, k);
  }

  /** The pools of a slice are exactly those its routes reference. */
  lemma PoolsExact(h: Hasher, c: CompiledConfig, gw: NamespacedName, b: BackendGroup)
    ensures b in Scope(h, c, gw).backends <==> b in c.backends && Referenced(c, gw, (b.serviceName, b.port))
  {
    WantedIsReferenced(c, gw, (b.serviceName, b.port));
  }

  ghost predicate HasPool(c: CompiledConfig, k: ServicePort) {
    exists b :: b in c.backends && (b.serviceName, b.port) == k
  }

  /** Every member of every federation has a pool. */
  ghost predicate FederationsServed(c: CompiledConfig) {
    forall f, m :: f in c.federations && m in f.members ==> HasPool(c, (m.serviceName, m.port))
  }

  predicate FansOutTo(r: RouteConfig, f: Federation, c: CompiledConfig) {
    f in c.federations && f.name == r.aiFederation && f.name != ""
  }

  /** Members of the federations a Gateway's routes fan out to are Services its routes also
      name directly. */
  ghost predicate MembersReferenced(c: CompiledConfig, gw: NamespacedName) {
    forall r, f, m :: r in c.routes && r.listener.gateway == gw && FansOutTo(r, f, c) && m in f.members ==>
      Referenced(c, gw, (m.serviceName, m.port))
  }

  /** Slicing keeps federations served exactly when the members are referenced some other way. */
  lemma FederationsServedExactly(h: Hasher, c: CompiledConfig, gw: NamespacedName)
    requires FederationsServed(c)
    ensures FederationsServed(Scope(h, c, gw)) <==> MembersReferenced(c, gw)
  {
    var s := Scope(h, c, gw);
    if MembersReferenced(c, gw) {
      forall f, m | f in s.federations && m in f.members ensures HasPool(s, (m.serviceName, m.port)) {
        var r :| r in s.routes && r.aiFederation != "" && r.aiFederation == f.name;
        assert HasPool(c, (m.serviceName, m.port));
        var b :| b in c.backends && (b.serviceName, b.port) == (m.serviceName, m.port);
        PoolsExact(h, c, gw, b);
      }
    }
    if FederationsServed(s) {
      forall r, f, m | r in c.routes && r.listener.gateway == gw && FansOutTo(r, f, c) && m in f.members
        ensures Referenced(c, gw, (m.serviceName, m.port))
      {
        assert r in s.routes && f in s.federations;
        assert HasPool(s, (m.serviceName, m.port));
        var b :| b in s.backends && (b.serviceName, b.port) == (m.serviceName, m.port);
        PoolsExact(h, c, gw, b);
      }
    }
  }

  /** A route that reaches its backends only through a federation. */
  function FederatedRoute(gw: NamespacedName): RouteConfig {
    RouteConfig("", [], [], "", [], None, ListenerTag("web", 80, "", gw), "", 0, "", [],
                NO_FILTERS, NO_TRAFFIC, NO_POLICY, "ai/tools")
  }

  function FederatedConfig(gw: NamespacedName): CompiledConfig {
    CompiledConfig("", 1, 0, [FederatedRoute(gw)], [BackendGroup("search", 443, [])], [], [], [], [], [], [],
                   [Federation("ai/tools", [Member("search", "search", 443)])], [])
  }

  lemma FederatedUnreferenced(gw: NamespacedName)
    ensures !Referenced(FederatedConfig(gw), gw, ("search", 443))
  {
    assert !RouteNames(FederatedRoute(gw), ("search", 443));
  }

  /** Its slice keeps the federation and loses the pool of the member. */
  lemma FederationMemberLost(h: Hasher, gw: NamespacedName)
    ensures FederationsServed(FederatedConfig(gw))
    ensures !FederationsServed(Scope(h, FederatedConfig(gw), gw))
  {
    var c := FederatedConfig(gw);
    assert c.backends[0] in c.backends;
    assert HasPool(c, ("search", 443));
    FederatedUnreferenced(gw);
    var f := c.federations[0];
    assert FansOutTo(c.routes[0], f, c) && f.members[0] in f.members;
    FederationsServedExactly(h, c, gw);
  }

  // ---- Acknowledgements ----

  /** The configuration the loop sends: the compiled one, stamped. */
  function Broadcast(c: CompiledConfig, version: nat, fp: U64): CompiledConfig {
    c.(version := version, fingerprint := fp)
  }

  /** What a data plane of `gw` is streamed equals, in its fingerprint, what the loop recorded
      from the configuration before stamping. */
  lemma AcknowledgementAgrees(h: Hasher, c: CompiledConfig, version: nat, fp: U64, gw: NamespacedName)
    ensures Scope(h, Broadcast(c, version, fp), gw).fingerprint == Scope(h, c, gw).fingerprint
    ensures Fingerprint(h, Broadcast(c, version, fp)) == Fingerprint(h, c)
    ensures Broadcast(c, version, fp).version == version && Broadcast(c, version, fp).fingerprint == fp
  {
    assert Parts(h, Broadcast(c, version, fp)) == Parts(h, c);
    assert Contents(Broadcast(c, version, fp), gw) == Contents(c, gw).(version := version);
    assert Parts(h, Contents(Broadcast(c, version, fp), gw)) == Parts(h, Contents(c, gw));
  }

  ghost predicate Permuted(c: CompiledConfig, d: CompiledConfig) {
    && multiset(c.routes) == multiset(d.routes) && multiset(c.backends) == multiset(d.backends)
    && multiset(c.listeners) == multiset(d.listeners) && multiset(c.tlsRoutes) == multiset(d.tlsRoutes)
    && multiset(c.tcpRoutes) == multiset(d.tcpRoutes) && multiset(c.udpRoutes) == multiset(d.udpRoutes)
    && multiset(c.tlsHostnames) == multiset(d.tlsHostnames) && multiset(c.backendTls) == multiset(d.backendTls)
    && multiset(c.federations) == multiset(d.federations) && multiset(c.issuerKeys) == multiset(d.issuerKeys)
  }

  lemma FingerprintPermutes(h: Hasher, c: CompiledConfig, d: CompiledConfig)
    requires Permuted(c, d)
    ensures Fingerprint(h, c) == Fingerprint(h, d)
  {
    SumPermutes(c.routes, d.routes, h.route);
    SumPermutes(c.backends, d.backends, h.backend);
    SumPermutes(c.listeners, d.listeners, h.listener);
    SumPermutes(c.tlsRoutes, d.tlsRoutes, h.tlsRoute);
    SumPermutes(c.tcpRoutes, d.tcpRoutes, h.l4);
    SumPermutes(c.udpRoutes, d.udpRoutes, h.l4);
    SumPermutes(c.tlsHostnames, d.tlsHostnames, h.text);
    SumPermutes(c.backendTls, d.backendTls, h.backendTls);
    SumPermutes(c.federations, d.federations, h.federation);
    SumPermutes(c.issuerKeys, d.issuerKeys, h.issuer);
    assert Parts(h, c) == Parts(h, d);
  }

  lemma SameMembers<T>(s: seq<T>, t: seq<T>)
    requires multiset(s) == multiset(t)
    ensures forall x :: x in s <==> x in t
  {
    forall x ensures x in s <==> x in t {
      assert x in s <==> x in multiset(s);
      assert x in t <==> x in multiset(t);
    }
  }

  lemma UnionPermutes<T>(s: seq<T>, t: seq<T>, refs: T -> set<ServicePort>)
    requires multiset(s) == multiset(t)
    ensures Union(s, refs) == Union(t, refs)
  {
    SameMembers(s, t);
    forall k ensures k in Union(s, refs) <==> k in Union(t, refs) {
      UnionMember(s, refs, k);
      UnionMember(t, refs, k);
    }
  }

  lemma MapConcat<A, B>(s: seq<A>, t: seq<A>, f: A -> B)
    ensures Map(s + t, f) == Map(s, f) + Map(t, f)
  {
  }

  lemma {:induction false} MapPermutes<A, B>(s: seq<A>, t: seq<A>, f: A -> B)
    requires multiset(s) == multiset(t)
    ensures multiset(Map(s, f)) == multiset(Map(t, f))
  {
    if s == [] {
      assert |multiset(t)| == 0;
    } else {
      assert s[0] in multiset(s);
      var i :| 0 <= i < |t| && t[i] == s[0];
      var rest := t[..i] + t[i + 1..];
      assert s == [s[0]] + s[1..];
      assert t == t[..i] + [t[i]] + t[i + 1..];
      assert multiset(s[1..]) == multiset(s) - multiset{s[0]};
      assert multiset(rest) == multiset(t) - multiset{s[0]};
      MapPermutes(s[1..], rest, f);
      MapConcat([s[0]], s[1..], f);
      MapConcat(t[..i] + [t[i]], t[i + 1..], f);
      MapConcat(t[..i], [t[i]], f);
      MapConcat(t[..i], t[i + 1..], f);
    }
  }

  /** The backend groups are compiled in the order of a hash set of Services: another order
      permutes the configuration. */
  lemma PoolOrderPermutes<K>(c: CompiledConfig, keys: seq<K>, reordered: seq<K>, pool: K -> BackendGroup)
    requires multiset(keys) == multiset(reordered)
    ensures Permuted(c.(backends := Map(keys, pool)), c.(backends := Map(reordered, pool)))
  {
    MapPermutes(keys, reordered, pool);
  }

  lemma ContentsPermute(c: CompiledConfig, d: CompiledConfig, gw: NamespacedName)
    requires Permuted(c, d)
    ensures Permuted(Contents(c, gw), Contents(d, gw))
  {
    var s, t := Contents(c, gw), Contents(d, gw);
    FilterPermutation(c.routes, d.routes, RouteOf(gw));
    FilterPermutation(c.listeners, d.listeners, ListenerOf(gw));
    FilterPermutation(c.tlsRoutes, d.tlsRoutes, TlsOf(gw));
    FilterPermutation(c.tcpRoutes, d.tcpRoutes, L4Of(gw));
    FilterPermutation(c.udpRoutes, d.udpRoutes, L4Of(gw));
    FilterPermutation(c.backendTls, d.backendTls, BackendTlsOf(gw));
    FilterPermutation(s.listeners, t.listeners, TlsNamed());
    MapPermutes(Filter(s.listeners, TlsNamed()), Filter(t.listeners, TlsNamed()), HostnameOf());
    WantedPermutes(s, t);
    FilterPermutation(c.backends, d.backends, Pool(Wanted(s.routes, s.tlsRoutes, s.tcpRoutes, s.udpRoutes)));
    FilterPermutation(c.federations, d.federations, FederationIn(WantedFederations(s.routes)));
    FilterPermutation(c.issuerKeys, d.issuerKeys, IssuerIn(WantedIssuers(s.routes)));
  }

  lemma WantedPermutes(s: CompiledConfig, t: CompiledConfig)
    requires multiset(s.routes) == multiset(t.routes) && multiset(s.tlsRoutes) == multiset(t.tlsRoutes)
    requires multiset(s.tcpRoutes) == multiset(t.tcpRoutes) && multiset(s.udpRoutes) == multiset(t.udpRoutes)
    ensures Wanted(s.routes, s.tlsRoutes, s.tcpRoutes, s.udpRoutes) == Wanted(t.routes, t.tlsRoutes, t.tcpRoutes, t.udpRoutes)
    ensures WantedFederations(s.routes) == WantedFederations(t.routes)
    ensures WantedIssuers(s.routes) == WantedIssuers(t.routes)
  {
    SameMembers(s.routes, t.routes);
    UnionPermutes(s.routes, t.routes, RouteRefs);
    UnionPermutes(s.tlsRoutes, t.tlsRoutes, TlsRefs);
    UnionPermutes(s.tcpRoutes, t.tcpRoutes, L4Refs);
    UnionPermutes(s.udpRoutes, t.udpRoutes, L4Refs);
  }

  /** Permuting any list of the configuration changes neither the global fingerprint nor the
      fingerprint of any Gateway's slice. */
  lemma OrderInvisible(h: Hasher, c: CompiledConfig, d: CompiledConfig, gw: NamespacedName)
    requires Permuted(c, d)
    ensures Fingerprint(h, c) == Fingerprint(h, d)
    ensures Scope(h, c, gw).fingerprint == Scope(h, d, gw).fingerprint
  {
    FingerprintPermutes(h, c, d);
    ContentsPermute(c, d, gw);
    FingerprintPermutes(h, Contents(c, gw), Contents(d, gw));
  }

  /** A route of another Gateway, added anywhere, leaves the slice as it was. */
  lemma ForeignRouteInvisible(h: Hasher, c: CompiledConfig, gw: NamespacedName, i: nat, r: RouteConfig)
    requires i <= |c.routes| && r.listener.gateway != gw
    ensures Scope(h, c.(routes := c.routes[..i] + [r] + c.routes[i..]), gw) == Scope(h, c, gw)
  {
    FilterInsert(c.routes, i, r, RouteOf(gw));
    assert Contents(c.(routes := c.routes[..i] + [r] + c.routes[i..]), gw) == Contents(c, gw);
  }

  lemma FilterInsert<T(!new)>(s: seq<T>, i: nat, x: T, p: T -> bool)
    requires i <= |s| && !p(x)
    ensures Filter(s[..i] + [x] + s[i..], p) == Filter(s, p)
  {
    var a, b := s[..i], s[i..];
    assert s == a + b;
    FilterSkip(a, b, x, p);
  }

  lemma FilterSkip<T(!new)>(a: seq<T>, b: seq<T>, x: T, p: T -> bool)
    requires !p(x)
    ensures Filter(a + [x] + b, p) == Filter(a + b, p)
  {
    FilterConcat(a, [x], p);
    FilterConcat(a + [x], b, p);
    FilterConcat(a, b, p);
  }
}
