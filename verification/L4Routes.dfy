/** TCP and UDP routes: candidates per listener, sorted, deduplicated, so that the oldest
    route binding a listener is programmed. */
module L4Routes {
  import opened Collections
  import opened Text
  import opened Types
  import opened Store

  datatype L4Route = L4Route(parentRefs: seq<ParentRef>, backendRefs: seq<BackendRef>, created: Option<int>)
  type Entry = (NamespacedName, L4Route)

  datatype ListenerKey = ListenerKey(namespace: string, gateway: string, listener: string)
  datatype Candidate = Candidate(key: ListenerKey, port: nat, name: string, route: L4Route)
  datatype L4Proxy = L4Proxy(key: ListenerKey, port: nat, service: string, servicePort: nat, backends: seq<WeightedBackend>)
  datatype ServiceKey = ServiceKey(namespace: string, name: string, port: nat)

  // ---- Candidates ----

  predicate ListenerTakes(protocol: Protocol, pr: ParentRef, l: ListenerState) {
    && l.protocol == protocol && l.accepted
    && (pr.section.None? || pr.section == Some(l.name)) && (pr.port.None? || pr.port == Some(l.port))
  }

  function PerListener(protocol: Protocol, gw: GatewayState, kr: Entry, pr: ParentRef): ListenerState -> seq<Candidate> {
    (l: ListenerState) =>
      if ListenerTakes(protocol, pr, l) then [Candidate(ListenerKey(gw.namespace, gw.name, l.name), l.port, kr.0.name, kr.1)] else []
  }

  function ForParent(protocol: Protocol, gws: map<NamespacedName, GatewayState>, kr: Entry, pr: ParentRef): seq<Candidate> {
    if !pr.accepted || ParentKey(pr) !in gws then []
    else
      var gw := gws[ParentKey(pr)];
      FlatMap(gw.listeners, PerListener(protocol, gw, kr, pr))
  }

  function PerParent(protocol: Protocol, gws: map<NamespacedName, GatewayState>, kr: Entry): ParentRef -> seq<Candidate> {
    (pr: ParentRef) => ForParent(protocol, gws, kr, pr)
  }

  function ForRoute(protocol: Protocol, gws: map<NamespacedName, GatewayState>, kr: Entry): seq<Candidate> {
    FlatMap(kr.1.parentRefs, PerParent(protocol, gws, kr))
  }

  function PerRoute(protocol: Protocol, gws: map<NamespacedName, GatewayState>): Entry -> seq<Candidate> {
    (kr: Entry) => ForRoute(protocol, gws, kr)
  }

  // ---- Order ----

  predicate KeyLess(a: ListenerKey, b: ListenerKey) {
    LexLess(a.namespace, b.namespace) ||
    (a.namespace == b.namespace && (LexLess(a.gateway, b.gateway) || (a.gateway == b.gateway && LexLess(a.listener, b.listener))))
  }

  /** Timestamped before untimestamped, then older, then by name. */
  predicate Older(a: Candidate, b: Candidate) {
    match (a.route.created, b.route.created)
    case (Some(x), Some(y)) => x < y || (x == y && LexLess(a.name, b.name))
    case (Some(_), None) => true
    case (None, Some(_)) => false
    case (None, None) => LexLess(a.name, b.name)
  }

  predicate Before(a: Candidate, b: Candidate) {
    KeyLess(a.key, b.key) || (a.key == b.key && Older(a, b))
  }

  lemma KeyOrder()
    ensures StrictWeakOrder(KeyLess)
    ensures forall a, b :: a == b || KeyLess(a, b) || KeyLess(b, a)
  {
    LexIsOrder();
  }

  lemma OlderOrder()
    ensures StrictWeakOrder(Older)
  {
    LexIsOrder();
  }

  lemma BeforeOrder()
    ensures StrictWeakOrder(Before)
  {
    KeyOrder();
    OlderOrder();
  }

  // ---- Dedup and emission ----

  function Dedup(s: seq<Candidate>): seq<Candidate> {
    if |s| <= 1 then s
    else
      var rest := Dedup(s[..|s| - 1]);
      if rest != [] && rest[|rest| - 1].key == s[|s| - 1].key then rest else rest + [s[|s| - 1]]
  }

  function ProxyOf(c: Candidate): seq<L4Proxy> {
    if c.route.backendRefs == [] then []
    else
      [L4Proxy(c.key, c.port, c.route.backendRefs[0].name, c.route.backendRefs[0].port,
               Map(c.route.backendRefs, (b: BackendRef) => WeightedBackend(b.name, b.port, b.weight, None)))]
  }

  function Compile(protocol: Protocol, gws: map<NamespacedName, GatewayState>, routes: seq<Entry>): seq<L4Proxy> {
    FlatMap(Dedup(SortBy(FlatMap(routes, PerRoute(protocol, gws)), Before)), ProxyOf)
  }

  ghost function BackendsOf(routes: seq<Entry>): set<ServiceKey> {
    set kr, b | kr in routes && b in kr.1.backendRefs :: ServiceKey(b.namespace, b.name, b.port)
  }

  method DedupByKey(s: seq<Candidate>) returns (r: seq<Candidate>)
    ensures r == Dedup(s)
  {
    r := [];
    for i := 0 to |s|
      invariant r == Dedup(s[..i])
    {
      assert s[..i + 1][..i] == s[..i];
      if r == [] || r[|r| - 1].key != s[i].key {
        r := r + [s[i]];
      }
    }
    assert s[..|s|] == s;
  }

  method PushParent(protocol: Protocol, gw: GatewayState, kr: Entry, pr: ParentRef, acc: seq<Candidate>) returns (out: seq<Candidate>)
    ensures out == acc + FlatMap(gw.listeners, PerListener(protocol, gw, kr, pr))
  {
    out := acc;
    for i := 0 to |gw.listeners|
      invariant out == acc + FlatMap(gw.listeners[..i], PerListener(protocol, gw, kr, pr))
    {
      var l := gw.listeners[i];
      FlatMapStep(gw.listeners, i, PerListener(protocol, gw, kr, pr));
      if ListenerTakes(protocol, pr, l) {
        out := out + [Candidate(ListenerKey(gw.namespace, gw.name, l.name), l.port, kr.0.name, kr.1)];
      }
    }
    assert gw.listeners[..|gw.listeners|] == gw.listeners;
  }

  method PushAccepted(protocol: Protocol, gws: map<NamespacedName, GatewayState>, kr: Entry, pr: ParentRef, acc: seq<Candidate>)
    returns (out: seq<Candidate>)
    ensures out == acc + ForParent(protocol, gws, kr, pr)
  {
    if pr.accepted && ParentKey(pr) in gws {
      out := PushParent(protocol, gws[ParentKey(pr)], kr, pr, acc);
    } else {
      out := acc;
    }
  }

  method PushRoute(protocol: Protocol, gws: map<NamespacedName, GatewayState>, kr: Entry, acc: seq<Candidate>) returns (out: seq<Candidate>)
    ensures out == acc + ForRoute(protocol, gws, kr)
  {
    out := acc;
    var parents := kr.1.parentRefs;
    for i := 0 to |parents|
      invariant out == acc + FlatMap(parents[..i], PerParent(protocol, gws, kr))
    {
      out := PushAccepted(protocol, gws, kr, parents[i], out);
      FlatMapStep(parents, i, PerParent(protocol, gws, kr));
    }
    assert parents[..|parents|] == parents;
  }

  /** `compile_l4_routes`: every backend of every route is collected, winners and losers. */
  method CompileL4Routes(protocol: Protocol, gws: map<NamespacedName, GatewayState>, routes: seq<Entry>)
    returns (out: seq<L4Proxy>, backends: set<ServiceKey>)
    ensures out == Compile(protocol, gws, routes)
    ensures backends == BackendsOf(routes)
  {
    var candidates: seq<Candidate> := [];
    backends := {};
    for i := 0 to |routes|
      invariant candidates == FlatMap(routes[..i], PerRoute(protocol, gws))
      invariant backends == BackendsOf(routes[..i])
    {
      var refs := routes[i].1.backendRefs;
      ghost var before := backends;
      for j := 0 to |refs|
        invariant backends == before + set b | b in refs[..j] :: ServiceKey(b.namespace, b.name, b.port)
      {
        backends := backends + {ServiceKey(refs[j].namespace, refs[j].name, refs[j].port)};
        assert refs[..j + 1] == refs[..j] + [refs[j]];
      }
      assert refs[..|refs|] == refs;
      TakeStep(routes, i);
      FlatMapStep(routes, i, PerRoute(protocol, gws));
      candidates := PushRoute(protocol, gws, routes[i], candidates);
    }
    assert routes[..|routes|] == routes;
    var winners := DedupByKey(SortBy(candidates, Before));
    out := FlatMap(winners, ProxyOf);
  }

  // ---- The conflict rule ----

  function At(key: ListenerKey): Candidate -> bool { (c: Candidate) => c.key == key }

  /** The oldest route's candidate for a listener; among equals, the first met. */
  function Winner(protocol: Protocol, gws: map<NamespacedName, GatewayState>, routes: seq<Entry>, key: ListenerKey): Option<Candidate> {
    Best(FlatMap(routes, PerRoute(protocol, gws)), At(key), Older)
  }

  /** Dedup keeps the first candidate of every key. */
  lemma {:induction false} DedupKeepsFirst(s: seq<Candidate>, key: ListenerKey)
    ensures FindFirst(Dedup(s), At(key)) == FindFirst(s, At(key))
  {
    if |s| > 1 {
      var n := |s| - 1;
      DedupKeepsFirst(s[..n], key);
      assert s == s[..n] + [s[n]];
      FindConcat(s[..n], [s[n]], At(key));
      FindConcat(Dedup(s[..n]), [s[n]], At(key));
    }
  }

  ghost predicate KeysAscend(s: seq<Candidate>) {
    forall i, j :: 0 <= i < j < |s| ==> KeyLess(s[i].key, s[j].key)
  }

  lemma {:induction false} DedupAscends(s: seq<Candidate>)
    requires SortedBy(s, Before)
    ensures KeysAscend(Dedup(s))
    ensures s != [] ==> Dedup(s) != [] && Dedup(s)[|Dedup(s)| - 1].key == s[|s| - 1].key
  {
    if |s| > 1 {
      var n := |s| - 1;
      DedupAscends(s[..n]);
      var rest := Dedup(s[..n]);
      if rest[|rest| - 1].key != s[n].key {
        assert s[..n][n - 1] == s[n - 1];
        NextKey(s[n - 1], s[n]);
        AppendAscends(rest, s[n]);
      }
    }
  }

  lemma NextKey(a: Candidate, b: Candidate)
    requires !Before(b, a) && a.key != b.key
    ensures KeyLess(a.key, b.key)
  {
    KeyOrder();
  }

  lemma AppendAscends(s: seq<Candidate>, c: Candidate)
    requires KeysAscend(s) && s != [] && KeyLess(s[|s| - 1].key, c.key)
    ensures KeysAscend(s + [c])
  {
    KeyOrder();
    forall i | 0 <= i < |s| ensures KeyLess(s[i].key, c.key) {
      assert i < |s| - 1 ==> KeyLess(s[i].key, s[|s| - 1].key);
    }
  }

  /** The surviving candidate of a listener is its winner. */
  lemma SurvivorIsWinner(cs: seq<Candidate>, key: ListenerKey)
    ensures FindFirst(Dedup(SortBy(cs, Before)), At(key)) == Best(cs, At(key), Older)
  {
    BeforeOrder();
    OlderOrder();
    DedupKeepsFirst(SortBy(cs, Before), key);
    FindInSorted(cs, At(key), Before);
    BestSame(cs, At(key), At(key), Before, Older);
  }

  lemma AscendingMember(s: seq<Candidate>, c: Candidate)
    requires KeysAscend(s)
    ensures c in s <==> FindFirst(s, At(c.key)) == Some(c)
  {
    KeyOrder();
    if c in s {
      var i :| 0 <= i < |s| && s[i] == c;
      var hit := FindFirst(s, At(c.key));
      assert At(c.key)(s[i]);
      var j :| 0 <= j < |s| && s[j] == hit.value;
      assert !(i < j) && !(j < i);
    }
  }

  lemma ProxyMember(protocol: Protocol, gws: map<NamespacedName, GatewayState>, routes: seq<Entry>, x: L4Proxy)
    ensures x in Compile(protocol, gws, routes) <==>
      var w := Winner(protocol, gws, routes, x.key); w.Some? && x in ProxyOf(w.value)
  {
    var cs := FlatMap(routes, PerRoute(protocol, gws));
    var ws := Dedup(SortBy(cs, Before));
    BeforeOrder();
    SortSorts(cs, Before);
    DedupAscends(SortBy(cs, Before));
    FlatMapMember(ws, ProxyOf, x);
    SurvivorIsWinner(cs, x.key);
    if i :| 0 <= i < |ws| && x in ProxyOf(ws[i]) {
      AscendingMember(ws, ws[i]);
    }
    var w := Winner(protocol, gws, routes, x.key);
    if w.Some? && x in ProxyOf(w.value) {
      AscendingMember(ws, w.value);
      var i :| 0 <= i < |ws| && ws[i] == w.value;
      assert x in ProxyOf(ws[i]);
    }
  }

  predicate ProxyLess(a: L4Proxy, b: L4Proxy) { KeyLess(a.key, b.key) }

  ghost predicate ProxiesAscend(s: seq<L4Proxy>) {
    forall i, j :: 0 <= i < j < |s| ==> ProxyLess(s[i], s[j])
  }

  lemma {:induction false} EmittedAscend(ws: seq<Candidate>)
    requires KeysAscend(ws)
    ensures ProxiesAscend(FlatMap(ws, ProxyOf))
    ensures forall x :: x in FlatMap(ws, ProxyOf) ==> exists i :: 0 <= i < |ws| && ws[i].key == x.key
  {
    if ws != [] {
      EmittedAscend(ws[1..]);
      var rest := FlatMap(ws[1..], ProxyOf);
      forall x | x in rest ensures KeyLess(ws[0].key, x.key) {
        var i :| 0 <= i < |ws[1..]| && ws[1..][i].key == x.key;
        assert ws[1..][i] == ws[i + 1];
      }
      forall x | x in FlatMap(ws, ProxyOf) ensures exists i :: 0 <= i < |ws| && ws[i].key == x.key {
        if x in rest {
          var i :| 0 <= i < |ws[1..]| && ws[1..][i].key == x.key;
          assert ws[i + 1].key == x.key;
        } else {
          assert ws[0].key == x.key;
        }
      }
    }
  }

  /** At most one route per listener, listeners in order, and the route is the winner's: a
      listener appears exactly when its oldest route has a backend. */
  lemma ConflictRule(protocol: Protocol, gws: map<NamespacedName, GatewayState>, routes: seq<Entry>)
    ensures ProxiesAscend(Compile(protocol, gws, routes))
    ensures forall x :: x in Compile(protocol, gws, routes) <==>
      var w := Winner(protocol, gws, routes, x.key); w.Some? && x in ProxyOf(w.value)
  {
    var cs := FlatMap(routes, PerRoute(protocol, gws));
    BeforeOrder();
    SortSorts(cs, Before);
    DedupAscends(SortBy(cs, Before));
    EmittedAscend(Dedup(SortBy(cs, Before)));
    forall x ensures x in Compile(protocol, gws, routes) <==>
      var w := Winner(protocol, gws, routes, x.key); w.Some? && x in ProxyOf(w.value)
    {
      ProxyMember(protocol, gws, routes, x);
    }
  }

  /** What the winner means: no candidate of the listener is older. */
  lemma WinnerIsOldest(protocol: Protocol, gws: map<NamespacedName, GatewayState>, routes: seq<Entry>, key: ListenerKey)
    ensures var cs, w := FlatMap(routes, PerRoute(protocol, gws)), Winner(protocol, gws, routes, key);
      && (w.None? <==> forall c :: c in cs ==> c.key != key)
      && (w.Some? ==> w.value in cs && w.value.key == key && forall c :: c in cs && c.key == key ==> !Older(c, w.value))
  {
    var cs := FlatMap(routes, PerRoute(protocol, gws));
    OlderOrder();
    var w := Best(cs, At(key), Older);
    if w.Some? {
      var k := BestPosition(cs, At(key), Older);
      forall c | c in cs && c.key == key ensures !Older(c, w.value) {
        var j :| 0 <= j < |cs| && cs[j] == c;
        assert At(key)(cs[j]);
      }
    } else {
      forall c | c in cs ensures c.key != key {
        var j :| 0 <= j < |cs| && cs[j] == c;
        assert !At(key)(cs[j]);
      }
    }
  }

  // ---- When the order of the routes does not matter ----

  /** A route's own candidate for a listener. */
  function Bid(protocol: Protocol, gws: map<NamespacedName, GatewayState>, kr: Entry, key: ListenerKey): Option<Candidate> {
    FindFirst(ForRoute(protocol, gws, kr), At(key))
  }

  /** The route bids for the listener and no other route's bid is older. */
  ghost predicate Leads(protocol: Protocol, gws: map<NamespacedName, GatewayState>, routes: seq<Entry>, kr: Entry, key: ListenerKey) {
    && kr in routes && Bid(protocol, gws, kr, key).Some?
    && forall other :: other in routes && Bid(protocol, gws, other, key).Some? ==>
         !Older(Bid(protocol, gws, other, key).value, Bid(protocol, gws, kr, key).value)
  }

  /** Routes tied for the oldest on a listener would be programmed alike. */
  ghost predicate TiesAgree(protocol: Protocol, gws: map<NamespacedName, GatewayState>, routes: seq<Entry>) {
    forall a, b, key :: Leads(protocol, gws, routes, a, key) && Leads(protocol, gws, routes, b, key) ==>
      ProxyOf(Bid(protocol, gws, a, key).value) == ProxyOf(Bid(protocol, gws, b, key).value)
  }

  ghost predicate OrderFree(protocol: Protocol, gws: map<NamespacedName, GatewayState>, routes: seq<Entry>) {
    forall perm: seq<Entry> :: multiset(perm) == multiset(routes) ==> Compile(protocol, gws, perm) == Compile(protocol, gws, routes)
  }

  lemma CandidateOfRoute(protocol: Protocol, gws: map<NamespacedName, GatewayState>, kr: Entry, c: Candidate)
    requires c in ForRoute(protocol, gws, kr)
    ensures c.name == kr.0.name && c.route == kr.1
  {
    var f := PerParent(protocol, gws, kr);
    FlatMapMember(kr.1.parentRefs, f, c);
    var i :| 0 <= i < |kr.1.parentRefs| && c in f(kr.1.parentRefs[i]);
    var pr := kr.1.parentRefs[i];
    var gw := gws[ParentKey(pr)];
    FlatMapMember(gw.listeners, PerListener(protocol, gw, kr, pr), c);
  }

  /** The winner is the bid of a leading route. */
  lemma WinnerLeads(protocol: Protocol, gws: map<NamespacedName, GatewayState>, routes: seq<Entry>, key: ListenerKey)
    requires Winner(protocol, gws, routes, key).Some?
    ensures exists kr :: Leads(protocol, gws, routes, kr, key) && Bid(protocol, gws, kr, key) == Winner(protocol, gws, routes, key)
  {
    var f := PerRoute(protocol, gws);
    OlderOrder();
    var i := WinningRoute(protocol, gws, routes, key);
    WinnerIsOldest(protocol, gws, routes, key);
    var kr := routes[i];
    forall other | other in routes && Bid(protocol, gws, other, key).Some?
      ensures !Older(Bid(protocol, gws, other, key).value, Bid(protocol, gws, kr, key).value)
    {
      var j :| 0 <= j < |routes| && routes[j] == other;
      var c := Bid(protocol, gws, other, key).value;
      assert c in f(routes[j]);
      FlatMapMember(routes, f, c);
    }
    assert Leads(protocol, gws, routes, kr, key);
  }

  lemma {:induction false} WinningRoute(protocol: Protocol, gws: map<NamespacedName, GatewayState>, routes: seq<Entry>, key: ListenerKey) returns (i: nat)
    requires Winner(protocol, gws, routes, key).Some?
    ensures i < |routes| && Bid(protocol, gws, routes[i], key) == Winner(protocol, gws, routes, key)
  {
    var f := PerRoute(protocol, gws);
    OlderOrder();
    BestOfRoute(protocol, gws, routes[0], key);
    BestConcat(f(routes[0]), FlatMap(routes[1..], f), At(key), Older);
    if Winner(protocol, gws, routes, key) == Bid(protocol, gws, routes[0], key) {
      i := 0;
    } else {
      i := WinningRoute(protocol, gws, routes[1..], key);
      i := i + 1;
    }
  }

  /** The candidates of one route tie, so its best is its first. */
  lemma BestOfRoute(protocol: Protocol, gws: map<NamespacedName, GatewayState>, kr: Entry, key: ListenerKey)
    ensures Best(ForRoute(protocol, gws, kr), At(key), Older) == Bid(protocol, gws, kr, key)
  {
    var cs := ForRoute(protocol, gws, kr);
    OlderOrder();
    forall a, b | a in cs && b in cs ensures !Older(a, b) {
      CandidateOfRoute(protocol, gws, kr, a);
      CandidateOfRoute(protocol, gws, kr, b);
      LexIsOrder();
    }
    BestOfTied(cs, At(key), Older);
  }

  lemma TiesAgreeSuffices(protocol: Protocol, gws: map<NamespacedName, GatewayState>, routes: seq<Entry>, perm: seq<Entry>)
    requires TiesAgree(protocol, gws, routes) && multiset(perm) == multiset(routes)
    ensures Compile(protocol, gws, perm) == Compile(protocol, gws, routes)
  {
    forall kr ensures kr in perm <==> kr in routes {
      assert kr in multiset(perm) <==> kr in multiset(routes);
    }
    ConflictRule(protocol, gws, perm);
    ConflictRule(protocol, gws, routes);
    forall x ensures x in Compile(protocol, gws, perm) <==> x in Compile(protocol, gws, routes) {
      WinnersAgree(protocol, gws, routes, perm, x.key);
    }
    KeyOrder();
    StrictlySortedUnique(Compile(protocol, gws, perm), Compile(protocol, gws, routes), ProxyLess);
  }

  lemma BidIsCandidate(protocol: Protocol, gws: map<NamespacedName, GatewayState>, routes: seq<Entry>, kr: Entry, key: ListenerKey)
    requires kr in routes && Bid(protocol, gws, kr, key).Some?
    ensures Winner(protocol, gws, routes, key).Some?
  {
    var f := PerRoute(protocol, gws);
    var c := Bid(protocol, gws, kr, key).value;
    var j :| 0 <= j < |routes| && routes[j] == kr;
    assert c in f(routes[j]);
    FlatMapMember(routes, f, c);
    WinnerIsOldest(protocol, gws, routes, key);
  }

  lemma WinnersAgree(protocol: Protocol, gws: map<NamespacedName, GatewayState>, routes: seq<Entry>, perm: seq<Entry>, key: ListenerKey)
    requires TiesAgree(protocol, gws, routes)
    requires forall kr :: kr in perm <==> kr in routes
    ensures var a, b := Winner(protocol, gws, perm, key), Winner(protocol, gws, routes, key);
            (a.Some? <==> b.Some?) && (a.Some? ==> ProxyOf(a.value) == ProxyOf(b.value))
  {
    var a, b := Winner(protocol, gws, perm, key), Winner(protocol, gws, routes, key);
    if a.Some? {
      WinnerLeads(protocol, gws, perm, key);
      var x :| Leads(protocol, gws, perm, x, key) && Bid(protocol, gws, x, key) == a;
      BidIsCandidate(protocol, gws, routes, x, key);
      WinnerLeads(protocol, gws, routes, key);
      var y :| Leads(protocol, gws, routes, y, key) && Bid(protocol, gws, y, key) == b;
      assert Leads(protocol, gws, routes, x, key);
    } else if b.Some? {
      WinnerLeads(protocol, gws, routes, key);
      var y :| Leads(protocol, gws, routes, y, key) && Bid(protocol, gws, y, key) == b;
      BidIsCandidate(protocol, gws, perm, y, key);
    }
  }

  function ToFront(routes: seq<Entry>, i: nat): (r: seq<Entry>)
    requires i < |routes|
    ensures multiset(r) == multiset(routes)
    ensures r != [] && r[0] == routes[i]
  {
    assert routes == routes[..i] + [routes[i]] + routes[i + 1..];
    [routes[i]] + routes[..i] + routes[i + 1..]
  }

  /** A leading route put first wins. */
  lemma FrontWins(protocol: Protocol, gws: map<NamespacedName, GatewayState>, routes: seq<Entry>, i: nat, key: ListenerKey)
    requires i < |routes| && Leads(protocol, gws, routes, routes[i], key)
    ensures Winner(protocol, gws, ToFront(routes, i), key) == Bid(protocol, gws, routes[i], key)
  {
    var f := PerRoute(protocol, gws);
    var front := ToFront(routes, i);
    var rest := front[1..];
    OlderOrder();
    BestOfRoute(protocol, gws, routes[i], key);
    BestConcat(f(front[0]), FlatMap(rest, f), At(key), Older);
    if Winner(protocol, gws, rest, key).Some? {
      var j := WinningRoute(protocol, gws, rest, key);
      assert rest[j] in multiset(front) && rest[j] in multiset(routes);
    }
  }

  lemma TiesMustAgree(protocol: Protocol, gws: map<NamespacedName, GatewayState>, routes: seq<Entry>, a: Entry, b: Entry, key: ListenerKey)
    requires OrderFree(protocol, gws, routes)
    requires Leads(protocol, gws, routes, a, key) && Leads(protocol, gws, routes, b, key)
    ensures ProxyOf(Bid(protocol, gws, a, key).value) == ProxyOf(Bid(protocol, gws, b, key).value)
  {
    var i :| 0 <= i < |routes| && routes[i] == a;
    var j :| 0 <= j < |routes| && routes[j] == b;
    FrontWins(protocol, gws, routes, i, key);
    FrontWins(protocol, gws, routes, j, key);
    SameOutputSameProxy(protocol, gws, ToFront(routes, i), ToFront(routes, j), key);
  }

  lemma SameOutputSameProxy(protocol: Protocol, gws: map<NamespacedName, GatewayState>, r1: seq<Entry>, r2: seq<Entry>, key: ListenerKey)
    requires Compile(protocol, gws, r1) == Compile(protocol, gws, r2)
    requires Winner(protocol, gws, r1, key).Some? && Winner(protocol, gws, r2, key).Some?
    ensures ProxyOf(Winner(protocol, gws, r1, key).value) == ProxyOf(Winner(protocol, gws, r2, key).value)
  {
    ProxiesOfWinner(protocol, gws, r1, key);
    ProxiesOfWinner(protocol, gws, r2, key);
    var out := Compile(protocol, gws, r1);
    SameSingleton(ProxyOf(Winner(protocol, gws, r1, key).value), ProxyOf(Winner(protocol, gws, r2, key).value), out, key);
  }

  lemma SameSingleton(p: seq<L4Proxy>, q: seq<L4Proxy>, out: seq<L4Proxy>, key: ListenerKey)
    requires |p| <= 1 && |q| <= 1
    requires forall x :: x in p ==> x.key == key
    requires forall x :: x in q ==> x.key == key
    requires forall x: L4Proxy :: x.key == key ==> (x in out <==> x in p)
    requires forall x: L4Proxy :: x.key == key ==> (x in out <==> x in q)
    ensures p == q
  {
    assert |p| == 1 ==> p[0] in p;
    assert |q| == 1 ==> q[0] in q;
  }

  /** The proxy of a listener can be read off the output. */
  lemma ProxiesOfWinner(protocol: Protocol, gws: map<NamespacedName, GatewayState>, routes: seq<Entry>, key: ListenerKey)
    requires Winner(protocol, gws, routes, key).Some?
    ensures var ps := ProxyOf(Winner(protocol, gws, routes, key).value);
      forall x: L4Proxy :: x.key == key ==> (x in Compile(protocol, gws, routes) <==> x in ps)
    ensures |ProxyOf(Winner(protocol, gws, routes, key).value)| <= 1
    ensures forall x :: x in ProxyOf(Winner(protocol, gws, routes, key).value) ==> x.key == key
  {
    ConflictRule(protocol, gws, routes);
    WinnerIsOldest(protocol, gws, routes, key);
  }

  /** The output is independent of the order of the routes if and only if routes tied for the
      oldest on a listener would be programmed alike; distinct (timestamp, name) pairs avoid ties. */
  lemma OrderFreeExactly(protocol: Protocol, gws: map<NamespacedName, GatewayState>, routes: seq<Entry>)
    ensures OrderFree(protocol, gws, routes) <==> TiesAgree(protocol, gws, routes)
  {
    if TiesAgree(protocol, gws, routes) {
      forall perm: seq<Entry> | multiset(perm) == multiset(routes) ensures Compile(protocol, gws, perm) == Compile(protocol, gws, routes) {
        TiesAgreeSuffices(protocol, gws, routes, perm);
      }
    }
    if OrderFree(protocol, gws, routes) {
      forall a, b, key | Leads(protocol, gws, routes, a, key) && Leads(protocol, gws, routes, b, key)
        ensures ProxyOf(Bid(protocol, gws, a, key).value) == ProxyOf(Bid(protocol, gws, b, key).value)
      {
        TiesMustAgree(protocol, gws, routes, a, b, key);
      }
    }
  }

  lemma DistinctPairsAgree(protocol: Protocol, gws: map<NamespacedName, GatewayState>, routes: seq<Entry>)
    requires forall a, b :: a in routes && b in routes && a.1.created == b.1.created && a.0.name == b.0.name ==> a == b
    ensures TiesAgree(protocol, gws, routes)
  {
    forall a, b, key | Leads(protocol, gws, routes, a, key) && Leads(protocol, gws, routes, b, key)
      ensures ProxyOf(Bid(protocol, gws, a, key).value) == ProxyOf(Bid(protocol, gws, b, key).value)
    {
      CandidateOfRoute(protocol, gws, a, Bid(protocol, gws, a, key).value);
      CandidateOfRoute(protocol, gws, b, Bid(protocol, gws, b, key).value);
      LexIsOrder();
    }
  }
}
