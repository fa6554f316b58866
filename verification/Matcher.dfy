/** The request matcher over compiled routes: port, then the single most specific listener,
    then the host bucket inside it, then the most specific matching route. */
module Matcher {
  import opened Collections
  import opened Text
  import opened Hostnames
  import opened Types
  import opened Listeners
  import opened Matching

  predicate PortOk(r: RouteConfig, port: nat) {
    port == 0 || r.listener.port == 0 || r.listener.port == port
  }

  function OnPort(port: nat): RouteConfig -> bool { (r: RouteConfig) => PortOk(r, port) }
  function OfListener(lh: string): RouteConfig -> bool { (r: RouteConfig) => r.listener.hostname == lh }
  function OfHost(host: string): RouteConfig -> bool { (r: RouteConfig) => r.host == host }

  function Scoped(routes: seq<RouteConfig>, port: nat): seq<RouteConfig> {
    Filter(routes, OnPort(port))
  }

  function ListenerHostnames(routes: seq<RouteConfig>): seq<string> {
    Map(routes, (r: RouteConfig) => r.listener.hostname)
  }

  function HostKeys(routes: seq<RouteConfig>): set<string> {
    set r | r in routes :: r.host
  }

  /** The listener hostname a request host is bound to. */
  function ChosenListener(routes: seq<RouteConfig>, host: string, port: nat): Option<string> {
    SelectListener(host, BTreeOf(ListenerHostnames(Scoped(routes, port))))
  }

  function ListenerRoutes(routes: seq<RouteConfig>, port: nat, lh: string): seq<RouteConfig> {
    Filter(Scoped(routes, port), OfListener(lh))
  }

  /** The host bucket inside a listener's routes. */
  function BucketIn(mine: seq<RouteConfig>, host: string): Option<string> {
    BucketOf(HostKeys(mine), host)
  }

  function MostSpecificHit(candidates: seq<RouteConfig>, req: Request): Option<RouteConfig> {
    FindFirst(SortBy(candidates, MoreSpecific), Hits(req))
  }

  function MatchIn(mine: seq<RouteConfig>, req: Request): Option<RouteConfig> {
    var bucket := BucketIn(mine, req.host);
    if bucket.None? then None else MostSpecificHit(Filter(mine, OfHost(bucket.value)), req)
  }

  function MatchRequest(routes: seq<RouteConfig>, req: Request): Option<RouteConfig> {
    var lh := ChosenListener(routes, req.host, req.port);
    if lh.None? then None else MatchIn(ListenerRoutes(routes, req.port, lh.value), req)
  }

  // ---- The loops ----

  lemma SortedSnoc(r: seq<string>, x: string)
    requires StrictlySorted(r) && (r != [] ==> r[|r| - 1] != x && !LexLess(x, r[|r| - 1]))
    ensures StrictlySorted(r + [x])
  {
    LexIsOrder();
    forall j | 0 <= j < |r| ensures LexLess(r[j], x) {
      assert j < |r| - 1 ==> LexLess(r[j], r[|r| - 1]);
    }
  }

  /** `sort` then `dedup`. */
  method SortDedup(xs: seq<string>) returns (r: seq<string>)
    ensures r == BTreeOf(xs)
  {
    var sorted := SortBy(xs, LexLess);
    assert StrictWeakOrder(LexLess) by { LexIsOrder(); }
    SortSorts(xs, LexLess);
    SortPermutes(xs, LexLess);
    r := [];
    for i := 0 to |sorted|
      invariant StrictlySorted(r)
      invariant forall x :: x in r <==> x in sorted[..i]
      invariant r != [] ==> i > 0 && r[|r| - 1] == sorted[i - 1]
      invariant i > 0 ==> r != []
    {
      if r == [] || r[|r| - 1] != sorted[i] {
        assert r != [] ==> !LexLess(sorted[i], sorted[i - 1]);
        SortedSnoc(r, sorted[i]);
        r := r + [sorted[i]];
      }
      TakeStep(sorted, i);
    }
    assert sorted[..|sorted|] == sorted;
    BTreeOfContents(xs);
    OrderedSetUnique(r, BTreeOf(xs));
  }

  ghost predicate Groups(byHost: map<string, seq<RouteConfig>>, routes: seq<RouteConfig>) {
    && byHost.Keys == HostKeys(routes)
    && forall h :: h in byHost ==> byHost[h] == Filter(routes, OfHost(h))
  }

  lemma NewGroup(routes: seq<RouteConfig>, host: string)
    requires host !in HostKeys(routes)
    ensures Filter(routes, OfHost(host)) == []
  {
    forall j | 0 <= j < |routes| ensures !OfHost(host)(routes[j]) {
      assert routes[j] in routes;
    }
    FilterNone(routes, OfHost(host));
  }

  lemma GroupStep(byHost: map<string, seq<RouteConfig>>, routes: seq<RouteConfig>, r: RouteConfig)
    requires Groups(byHost, routes)
    ensures var entry := if r.host in byHost then byHost[r.host] else [];
            Groups(byHost[r.host := entry + [r]], routes + [r])
  {
    var entry := if r.host in byHost then byHost[r.host] else [];
    var next := byHost[r.host := entry + [r]];
    if r.host !in byHost {
      NewGroup(routes, r.host);
    }
    KeysStep(routes, r);
    forall h | h in next ensures next[h] == Filter(routes + [r], OfHost(h)) {
      GroupAt(routes, r, h);
    }
  }

  lemma KeysStep(routes: seq<RouteConfig>, r: RouteConfig)
    ensures HostKeys(routes + [r]) == HostKeys(routes) + {r.host}
  {
  }

  lemma GroupAt(routes: seq<RouteConfig>, r: RouteConfig, h: string)
    ensures Filter(routes + [r], OfHost(h)) == Filter(routes, OfHost(h)) + if r.host == h then [r] else []
  {
    FilterConcat(routes, [r], OfHost(h));
  }

  /** Grouping routes by host, keeping their order. */
  method GroupByHost(routes: seq<RouteConfig>) returns (byHost: map<string, seq<RouteConfig>>)
    ensures Groups(byHost, routes)
  {
    byHost := map[];
    for i := 0 to |routes|
      invariant Groups(byHost, routes[..i])
    {
      GroupStep(byHost, routes[..i], routes[i]);
      TakeStep(routes, i);
      var entry := if routes[i].host in byHost then byHost[routes[i].host] else [];
      byHost := byHost[routes[i].host := entry + [routes[i]]];
    }
    assert routes[..|routes|] == routes;
  }

  method FindBucket(byHost: map<string, seq<RouteConfig>>, host: string) returns (bucket: Option<string>)
    ensures bucket == BucketOf(byHost.Keys, host)
  {
    if host in byHost {
      return Some(host);
    }
    var wild := FindWildcardBucket(byHost.Keys, host);
    if wild.Some? {
      return wild;
    }
    bucket := if "*" in byHost then Some("*") else None;
  }

  method FirstHit(candidates: seq<RouteConfig>, req: Request) returns (found: Option<RouteConfig>)
    ensures found == MostSpecificHit(candidates, req)
  {
    var sorted := SortBy(candidates, MoreSpecific);
    for i := 0 to |sorted|
      invariant forall j :: 0 <= j < i ==> !RouteMatches(sorted[j], req)
    {
      if RouteMatches(sorted[i], req) {
        FirstFound(sorted, i, Hits(req));
        return Some(sorted[i]);
      }
    }
    found := None;
  }

  method MatchInListener(mine: seq<RouteConfig>, req: Request) returns (found: Option<RouteConfig>)
    ensures found == MatchIn(mine, req)
  {
    var byHost := GroupByHost(mine);
    var bucket := FindBucket(byHost, req.host);
    if bucket.None? {
      return None;
    }
    BucketIsKey(byHost.Keys, req.host);
    found := FirstHit(byHost[bucket.value], req);
  }

  /** `match_request_on_port`. */
  method MatchRequestOnPort(routes: seq<RouteConfig>, req: Request) returns (found: Option<RouteConfig>)
    ensures found == MatchRequest(routes, req)
  {
    var scoped := Filter(routes, OnPort(req.port));
    if scoped == [] {
      assert ListenerHostnames(scoped) == [];
      return None;
    }
    var hostnames := SortDedup(ListenerHostnames(scoped));
    var chosen := SelectMostSpecificListener(req.host, hostnames);
    if chosen.None? {
      return None;
    }
    found := MatchInListener(Filter(scoped, OfListener(chosen.value)), req);
  }

  lemma BucketIsKey(keys: set<string>, host: string)
    ensures BucketOf(keys, host).Some? ==> BucketOf(keys, host).value in keys
  {
    WalkLongest(keys, host, 0);
  }

  // ---- What the matcher returns ----

  /** The host bucket chosen inside the chosen listener. */
  function ChosenBucket(routes: seq<RouteConfig>, host: string, port: nat): Option<string> {
    var lh := ChosenListener(routes, host, port);
    if lh.None? then None else BucketIn(ListenerRoutes(routes, port, lh.value), host)
  }

  /** A route the matcher may return: right port, chosen listener, chosen bucket, and a match. */
  ghost predicate Eligible(routes: seq<RouteConfig>, req: Request, r: RouteConfig) {
    && r in routes && PortOk(r, req.port)
    && ChosenListener(routes, req.host, req.port) == Some(r.listener.hostname)
    && ChosenBucket(routes, req.host, req.port) == Some(r.host)
    && RouteMatches(r, req)
  }

  lemma MatchInCharacterized(mine: seq<RouteConfig>, req: Request)
    ensures var found, bucket := MatchIn(mine, req), BucketIn(mine, req.host);
      && (found.None? <==> forall r :: r in mine && bucket == Some(r.host) ==> !RouteMatches(r, req))
      && (found.Some? ==>
            && found.value in mine && bucket == Some(found.value.host) && RouteMatches(found.value, req)
            && forall r :: r in mine && bucket == Some(r.host) && RouteMatches(r, req) ==> !MoreSpecific(r, found.value))
  {
    var bucket := BucketIn(mine, req.host);
    if bucket.Some? {
      MoreSpecificIsOrder();
      FirstOfSorted(Filter(mine, OfHost(bucket.value)), Hits(req), MoreSpecific);
    }
  }

  lemma EligibleIn(routes: seq<RouteConfig>, req: Request, lh: string, r: RouteConfig)
    requires ChosenListener(routes, req.host, req.port) == Some(lh)
    ensures var mine := ListenerRoutes(routes, req.port, lh);
      Eligible(routes, req, r) <==> r in mine && BucketIn(mine, req.host) == Some(r.host) && RouteMatches(r, req)
  {
    assert r in ListenerRoutes(routes, req.port, lh) <==> r in Scoped(routes, req.port) && r.listener.hostname == lh;
    assert r in Scoped(routes, req.port) <==> r in routes && PortOk(r, req.port);
  }

  /** The matcher answers exactly when some route is eligible, with a most specific one. No
      route of another listener or another bucket is ever returned. */
  lemma MatchCharacterized(routes: seq<RouteConfig>, req: Request)
    ensures MatchRequest(routes, req).None? <==> forall r :: !Eligible(routes, req, r)
    ensures MatchRequest(routes, req).Some? ==>
      && Eligible(routes, req, MatchRequest(routes, req).value)
      && forall r :: Eligible(routes, req, r) ==> !MoreSpecific(r, MatchRequest(routes, req).value)
  {
    var lh := ChosenListener(routes, req.host, req.port);
    if lh.Some? {
      var mine := ListenerRoutes(routes, req.port, lh.value);
      var found := MatchIn(mine, req);
      MatchInCharacterized(mine, req);
      forall r ensures Eligible(routes, req, r) <==> r in mine && BucketIn(mine, req.host) == Some(r.host) && RouteMatches(r, req) {
        EligibleIn(routes, req, lh.value, r);
      }
      assert MatchRequest(routes, req) == found;
    }
  }

  /** The listener hostnames considered are those of the routes on the port. */
  lemma HostnamesOnPort(routes: seq<RouteConfig>, port: nat, x: string)
    ensures x in BTreeOf(ListenerHostnames(Scoped(routes, port))) <==> exists r :: r in routes && PortOk(r, port) && r.listener.hostname == x
  {
    var scoped := Scoped(routes, port);
    var names := ListenerHostnames(scoped);
    BTreeOfContents(names);
    if r :| r in routes && PortOk(r, port) && r.listener.hostname == x {
      var i :| 0 <= i < |scoped| && scoped[i] == r;
      assert names[i] == x;
    }
    if x in names {
      var i :| 0 <= i < |names| && names[i] == x;
      assert scoped[i] in scoped;
    }
  }

  /** The chosen listener is the most specific of those with a route on the port. */
  lemma ChosenIsMostSpecific(routes: seq<RouteConfig>, host: string, port: nat)
    requires SuffixesScoreBelowExact(host)
    ensures var chosen := ChosenListener(routes, host, port);
      && (chosen.None? <==> forall r :: r in routes && PortOk(r, port) ==> !Serves(r.listener.hostname, host))
      && (chosen.Some? ==> MostSpecific(chosen.value, BTreeOf(ListenerHostnames(Scoped(routes, port))), host))
  {
    var lhs := BTreeOf(ListenerHostnames(Scoped(routes, port)));
    SelectionSound(host, lhs);
    forall r | r in routes && PortOk(r, port) ensures r.listener.hostname in lhs {
      HostnamesOnPort(routes, port, r.listener.hostname);
    }
    forall x | x in lhs ensures exists r :: r in routes && PortOk(r, port) && r.listener.hostname == x {
      HostnamesOnPort(routes, port, x);
    }
  }

  // ---- Letter case ----

  function PlainRoute(host: string, lh: string, port: nat): RouteConfig {
    RouteConfig(host, [], [], "", [], None, ListenerTag("", port, lh, NamespacedName("", "")), "svc", 1, "HTTP", [], NO_FILTERS, NO_TRAFFIC, NO_POLICY, "")
  }

  lemma SingleCandidate(r: RouteConfig, req: Request)
    requires r.listener.hostname == "" && r.listener.port == 0
    ensures ChosenListener([r], req.host, req.port) == Some("")
    ensures ChosenBucket([r], req.host, req.port) == BucketOf({r.host}, req.host)
  {
    var rs := [r];
    assert Scoped(rs, req.port) == rs by { FilterAll(rs, OnPort(req.port)); }
    assert ListenerHostnames(rs) == [""];
    assert [""][..0] == [];
    assert BTreeOf([""]) == [""];
    assert SelectListener(req.host, [""]) == Some("");
    assert ListenerRoutes(rs, req.port, "") == rs by { FilterAll(rs, OfListener("")); }
    assert HostKeys(rs) == {r.host};
  }

  ghost predicate SameInLowerCase(routes: seq<RouteConfig>, req: Request) {
    MatchRequest(routes, req) == MatchRequest(routes, req.(host := Lower(req.host)))
  }

  ghost predicate CaseBlind(host: string) {
    forall routes: seq<RouteConfig>, req: Request :: req.host == host ==> SameInLowerCase(routes, req)
  }

  /** Listener selection ignores letter case but bucket lookup does not: matching is
      case-insensitive in the host exactly for hosts that are lower-case already. */
  lemma CaseBlindExact(host: string)
    ensures CaseBlind(host) <==> host == Lower(host)
  {
    if host == Lower(host) {
      LowerCaseBlind(host);
    } else {
      CaseSeen(PlainRoute(Lower(host), "", 0), Request(host, "/", "GET", [], 0));
    }
  }

  lemma LowerCaseBlind(host: string)
    requires host == Lower(host)
    ensures CaseBlind(host)
  {
    forall routes: seq<RouteConfig>, req: Request | req.host == host ensures SameInLowerCase(routes, req) {
      LowerCaseSame(routes, req);
    }
  }

  lemma NotBlind(routes: seq<RouteConfig>, req: Request)
    requires !SameInLowerCase(routes, req)
    ensures !CaseBlind(req.host)
  {
  }

  lemma LowerCaseSame(routes: seq<RouteConfig>, req: Request)
    requires req.host == Lower(req.host)
    ensures SameInLowerCase(routes, req)
  {
    assert req.(host := Lower(req.host)) == req;
  }

  lemma CaseSeen(r: RouteConfig, req: Request)
    requires req.host != Lower(req.host) && r == PlainRoute(Lower(req.host), "", 0)
    ensures !CaseBlind(req.host)
  {
    LowerCaseHits(r, req.(host := Lower(req.host)));
    UpperCaseMisses(r, req);
    assert !SameInLowerCase([r], req);
    NotBlind([r], req);
  }

  lemma LowerCaseHits(r: RouteConfig, req: Request)
    requires r == PlainRoute(req.host, "", 0)
    ensures MatchRequest([r], req).Some?
  {
    SingleCandidate(r, req);
    MatchCharacterized([r], req);
    assert Eligible([r], req, r);
  }

  lemma UpperCaseMisses(r: RouteConfig, req: Request)
    requires r == PlainRoute(Lower(req.host), "", 0) && req.host != Lower(req.host)
    ensures MatchRequest([r], req).None?
  {
    SingleCandidate(r, req);
    UpperCaseMissesBucket(req.host);
    MatchCharacterized([r], req);
  }

  lemma UpperCaseMissesBucket(host: string)
    requires host != Lower(host)
    ensures BucketOf({Lower(host)}, host).None?
  {
    WalkLongest({Lower(host)}, host, 0);
    forall j | 0 <= j < |host| && host[j] == '.' ensures "*" + host[j..] != Lower(host) {
      var key := "*" + host[j..];
      if |key| == |host| && key[0] == LowerChar(host[0]) {
        assert j == 1;
        assert host[0] == '*';
        assert key[1..] == host[1..];
        assert key == host by {
          assert host == [host[0]] + host[1..];
        }
      }
    }
    if Lower(host) == "*" {
      WildcardLower(host);
    }
  }

  // ---- Misdirected requests ----

  datatype HttpsResult = Matched(service: string) | Misdirected421 | NotFound404

  /** Unlike the matcher, port 0 here selects only the routes bound to no port. */
  function StrictPort(port: nat): RouteConfig -> bool {
    (r: RouteConfig) => r.listener.port == 0 || r.listener.port == port
  }

  function SniListener(routes: seq<RouteConfig>, name: string, port: nat): Option<string> {
    SelectListener(name, BTreeOf(ListenerHostnames(Filter(routes, StrictPort(port)))))
  }

  /** `simulate_https_request`. */
  function SimulateHttps(routes: seq<RouteConfig>, sni: Option<string>, host: string, path: string, port: nat): HttpsResult {
    var hostListener := SniListener(routes, host, port);
    if sni.Some? && SniListener(routes, sni.value, port).Some? && hostListener != SniListener(routes, sni.value, port)
    then Misdirected421
    else
      match MatchRequest(routes, Request(host, path, "GET", [], port))
      case Some(r) => Matched(r.serviceName)
      case None => NotFound404
  }

  /** When the SNI selects listener `sl`, a request is served by a route of `sl` or not at
      all: 421 exactly when the Host header selects another listener or none. */
  ghost predicate MisdirectionSound(routes: seq<RouteConfig>, sni: string, host: string, path: string, port: nat) {
    var sl := SniListener(routes, sni, port);
    sl.Some? ==>
      match SimulateHttps(routes, Some(sni), host, path, port)
      case Matched(service) =>
        exists r :: Eligible(routes, Request(host, path, "GET", [], port), r) && r.listener.hostname == sl.value && r.serviceName == service
      case Misdirected421 => SniListener(routes, host, port) != sl
      case NotFound404 => SniListener(routes, host, port) == sl && forall r :: !Eligible(routes, Request(host, path, "GET", [], port), r)
  }

  lemma MisdirectionOnPort(routes: seq<RouteConfig>, sni: string, host: string, path: string, port: nat)
    requires port != 0
    ensures MisdirectionSound(routes, sni, host, path, port)
  {
    FilterSame(routes, StrictPort(port), OnPort(port));
    assert Scoped(routes, port) == Filter(routes, StrictPort(port));
    assert SniListener(routes, host, port) == ChosenListener(routes, host, port);
    var req := Request(host, path, "GET", [], port);
    MatchCharacterized(routes, req);
    var sl, hl := SniListener(routes, sni, port), SniListener(routes, host, port);
    if sl.Some? && hl == sl {
      var found := MatchRequest(routes, req);
      if found.Some? {
        assert Eligible(routes, req, found.value) && found.value.listener.hostname == sl.value;
        assert SimulateHttps(routes, Some(sni), host, path, port) == Matched(found.value.serviceName);
      } else {
        assert SimulateHttps(routes, Some(sni), host, path, port) == NotFound404;
      }
    } else if sl.Some? {
      assert SimulateHttps(routes, Some(sni), host, path, port) == Misdirected421;
    }
  }

  /** Where the SNI is absent or selects no listener, the request is matched as any other. */
  lemma UnselectedSni(routes: seq<RouteConfig>, sni: Option<string>, host: string, path: string, port: nat)
    requires sni.None? || SniListener(routes, sni.value, port).None?
    ensures var found := MatchRequest(routes, Request(host, path, "GET", [], port));
      SimulateHttps(routes, sni, host, path, port) == if found.Some? then Matched(found.value.serviceName) else NotFound404
  {
  }

  /** Sound for every configuration on every real port, and on no other. */
  lemma MisdirectionExact(port: nat)
    ensures port != 0 <==> forall routes: seq<RouteConfig>, sni: string, host: string, path: string :: MisdirectionSound(routes, sni, host, path, port)
  {
    if port != 0 {
      forall routes: seq<RouteConfig>, sni: string, host: string, path: string ensures MisdirectionSound(routes, sni, host, path, port) {
        MisdirectionOnPort(routes, sni, host, path, port);
      }
    } else {
      PortZeroEscapes();
    }
  }

  /** On port 0 a request can be served by a listener the SNI check never looked at. */
  lemma PortZeroEscapes()
    ensures exists routes: seq<RouteConfig>, sni: string, host: string, path: string :: !MisdirectionSound(routes, sni, host, path, 0)
  {
    var open, bound := PlainRoute("*", "", 0), PlainRoute("b", "b", 443);
    var routes := [open, bound];
    StrictSeesOnly(open, bound);
    LaxChooses(open, bound);
    BoundEligible(routes, bound);
    ServedElsewhere(routes, "b", "b", "/", 0, bound);
  }

  lemma BoundEligible(routes: seq<RouteConfig>, bound: RouteConfig)
    requires ChosenListener(routes, "b", 0) == Some("b") && bound in routes
    requires bound.listener.hostname == bound.host == "b" && RouteMatches(bound, Request("b", "/", "GET", [], 0))
    ensures Eligible(routes, Request("b", "/", "GET", [], 0), bound)
  {
    var mine := ListenerRoutes(routes, 0, "b");
    assert bound in Scoped(routes, 0);
    assert bound in mine && "b" in HostKeys(mine);
  }

  /** A request that matches inside a listener other than the one the SNI selected. */
  lemma ServedElsewhere(routes: seq<RouteConfig>, sni: string, host: string, path: string, port: nat, r: RouteConfig)
    requires SniListener(routes, sni, port).Some? && SniListener(routes, host, port) == SniListener(routes, sni, port)
    requires Eligible(routes, Request(host, path, "GET", [], port), r) && SniListener(routes, sni, port) != Some(r.listener.hostname)
    ensures !MisdirectionSound(routes, sni, host, path, port)
  {
    MatchCharacterized(routes, Request(host, path, "GET", [], port));
  }

  lemma StrictSeesOnly(open: RouteConfig, bound: RouteConfig)
    requires open.listener.port == 0 && open.listener.hostname == "" && bound.listener.port == 443
    ensures SniListener([open, bound], "b", 0) == Some("")
  {
    var strict := StrictPort(0);
    assert [open, bound] == [open] + [bound];
    FilterConcat([open], [bound], strict);
    FilterAll([open], strict);
    FilterNone([bound], strict);
    assert Filter([open, bound], strict) == [open];
    assert ListenerHostnames([open]) == [""];
    assert BTreeOf([""]) == [""] by { assert [""][..0] == []; }
  }

  lemma LaxChooses(open: RouteConfig, bound: RouteConfig)
    requires open.listener.hostname == "" && bound.listener.hostname == "b"
    ensures ChosenListener([open, bound], "b", 0) == Some("b")
  {
    var routes := [open, bound];
    assert !IsWildcard("b") && !IsWildcard("") && ExactFor("b", "b");
    ExactChosen(routes, "b", 0, bound);
    HostnamesOnPort(routes, 0, ChosenListener(routes, "b", 0).value);
  }

  /** A listener with the host's own name is chosen over every other. */
  lemma ExactChosen(routes: seq<RouteConfig>, host: string, port: nat, r: RouteConfig)
    requires SuffixesScoreBelowExact(host) && r in routes && PortOk(r, port) && ExactFor(r.listener.hostname, host)
    ensures var lhs := BTreeOf(ListenerHostnames(Scoped(routes, port)));
      var chosen := ChosenListener(routes, host, port);
      chosen.Some? && ExactFor(chosen.value, host) && chosen.value in lhs
  {
    ChosenIsMostSpecific(routes, host, port);
    HostnamesOnPort(routes, port, r.listener.hostname);
    assert Serves(r.listener.hostname, host);
  }
}
