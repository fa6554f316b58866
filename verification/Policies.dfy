/** Policy attachment: the index over policy targets, the lookup through it, and the
    in-place application of every policy kind to the compiled routes. */
module Policies {
  import opened Collections
  import opened Types

  datatype Target = Target(kind: string, namespace: string, name: string, section: Option<string>)
  datatype Policy<+S> = Policy(target: Target, spec: S)

  type RouteKey = (string, string, string)

  function KeyOf(t: Target): RouteKey { (t.kind, t.namespace, t.name) }
  function SourceKey(s: RouteSource): RouteKey { (s.kind, s.namespace, s.name) }

  // ---- The simple scan ----

  function FirstIndex<T>(s: seq<T>, p: T -> bool): (r: Option<nat>)
    ensures r.None? <==> forall i :: 0 <= i < |s| ==> !p(s[i])
    ensures r.Some? ==> r.value < |s| && p(s[r.value]) && forall i :: 0 <= i < r.value ==> !p(s[i])
  {
    if s == [] then None
    else if p(s[0]) then Some(0)
    else
      var rest := FirstIndex(s[1..], p);
      assert forall i :: 0 < i < |s| ==> s[i] == s[1..][i - 1];
      if rest.None? then None else Some(rest.value + 1)
  }

  predicate TargetsRoute(t: Target, source: RouteSource) {
    t.kind != "Gateway" && KeyOf(t) == SourceKey(source)
  }

  predicate RefMatches(t: Target, ref: (string, string, Option<string>)) {
    t.namespace == ref.0 && t.name == ref.1 && (t.section.None? || t.section == ref.2)
  }

  predicate NamesParent(t: Target, source: RouteSource) {
    exists i :: 0 <= i < |source.gatewayRefs| && RefMatches(t, source.gatewayRefs[i])
  }

  predicate TargetsGateway(t: Target, source: RouteSource) {
    t.kind == "Gateway" && NamesParent(t, source)
  }

  function ByRoute<S>(source: RouteSource): Policy<S> -> bool {
    (p: Policy<S>) => TargetsRoute(p.target, source)
  }

  function ByGateway<S>(source: RouteSource): Policy<S> -> bool {
    (p: Policy<S>) => TargetsGateway(p.target, source)
  }

  /** The policy that applies: the first one naming the route, else the first one naming one
      of its Gateways (and, if it names a section, that section). */
  function Scan<S(!new)>(policies: seq<Policy<S>>, source: RouteSource): Option<nat> {
    var direct := FirstIndex(policies, ByRoute<S>(source));
    if direct.Some? then direct else FirstIndex(policies, ByGateway<S>(source))
  }

  // ---- The index ----

  datatype Index = Index(byRoute: map<RouteKey, seq<nat>>, gateways: seq<nat>)

  /** Ascending positions below `n` whose policy satisfies `p`. */
  function Positions<T>(s: seq<T>, p: T -> bool, n: nat): seq<nat>
    requires n <= |s|
  {
    if n == 0 then [] else Positions(s, p, n - 1) + if p(s[n - 1]) then [n - 1] else []
  }

  lemma {:induction false} PositionsAscend<T>(s: seq<T>, p: T -> bool, n: nat)
    requires n <= |s|
    ensures forall k: nat :: k in Positions(s, p, n) <==> k < n && p(s[k])
    ensures forall i, j :: 0 <= i < j < |Positions(s, p, n)| ==> Positions(s, p, n)[i] < Positions(s, p, n)[j]
  {
    if n > 0 {
      PositionsAscend(s, p, n - 1);
      var rest := Positions(s, p, n - 1);
      assert forall i :: 0 <= i < |rest| ==> rest[i] in rest;
    }
  }

  function HasKey<S>(key: RouteKey): Policy<S> -> bool {
    (p: Policy<S>) => p.target.kind != "Gateway" && KeyOf(p.target) == key
  }

  function IsGatewayPolicy<S>(): Policy<S> -> bool {
    (p: Policy<S>) => p.target.kind == "Gateway"
  }

  ghost predicate IndexesUpTo<S>(index: Index, policies: seq<Policy<S>>, n: nat)
    requires n <= |policies|
  {
    && (forall key :: (if key in index.byRoute then index.byRoute[key] else []) == Positions(policies, HasKey(key), n))
    && index.gateways == Positions(policies, IsGatewayPolicy(), n)
  }

  function AddToIndex(index: Index, target: Target, i: nat): Index {
    if target.kind == "Gateway" then index.(gateways := index.gateways + [i])
    else
      var key := KeyOf(target);
      var entry := if key in index.byRoute then index.byRoute[key] else [];
      index.(byRoute := index.byRoute[key := entry + [i]])
  }

  lemma IndexStep<S>(index: Index, policies: seq<Policy<S>>, i: nat)
    requires i < |policies| && IndexesUpTo(index, policies, i)
    ensures IndexesUpTo(AddToIndex(index, policies[i].target, i), policies, i + 1)
  {
    var next := AddToIndex(index, policies[i].target, i);
    forall key ensures (if key in next.byRoute then next.byRoute[key] else []) == Positions(policies, HasKey(key), i + 1) {
      assert (if key in index.byRoute then index.byRoute[key] else []) == Positions(policies, HasKey(key), i);
      assert HasKey<S>(key)(policies[i]) <==> policies[i].target.kind != "Gateway" && KeyOf(policies[i].target) == key;
    }
  }

  function IndexOf<S>(policies: seq<Policy<S>>): Index {
    if policies == [] then Index(map[], [])
    else AddToIndex(IndexOf(policies[..|policies| - 1]), policies[|policies| - 1].target, |policies| - 1)
  }

  /** The index lists, per route key and for the Gateways, exactly the positions to look at. */
  lemma {:induction false} IndexComplete<S>(policies: seq<Policy<S>>, n: nat)
    requires n <= |policies|
    ensures IndexesUpTo(IndexOf(policies[..n]), policies, n)
  {
    if n > 0 {
      IndexComplete(policies, n - 1);
      assert policies[..n][..n - 1] == policies[..n - 1];
      IndexStep(IndexOf(policies[..n - 1]), policies, n - 1);
    }
  }

  method IndexPolicies<S>(policies: seq<Policy<S>>) returns (index: Index)
    ensures index == IndexOf(policies)
    ensures IndexesUpTo(index, policies, |policies|)
  {
    index := Index(map[], []);
    for i := 0 to |policies|
      invariant index == IndexOf(policies[..i])
    {
      assert policies[..i + 1][..i] == policies[..i];
      index := AddToIndex(index, policies[i].target, i);
    }
    assert policies[..|policies|] == policies;
    IndexComplete(policies, |policies|);
  }

  function RefHit<S>(policies: seq<Policy<S>>, source: RouteSource): nat -> bool {
    (k: nat) => k < |policies| && NamesParent(policies[k].target, source)
  }

  /** `find_matching_policy`: one map lookup, then a scan of the Gateway-targeted policies only. */
  function FindMatchingPolicy<S>(policies: seq<Policy<S>>, index: Index, source: RouteSource): Option<nat>
    requires forall i :: 0 <= i < |index.gateways| ==> index.gateways[i] < |policies|
  {
    var key := SourceKey(source);
    if key in index.byRoute && index.byRoute[key] != [] then Some(index.byRoute[key][0])
    else
      var hit := FirstIndex(index.gateways, RefHit(policies, source));
      if hit.None? then None else Some(index.gateways[hit.value])
  }

  /** The first of the ascending positions is the first hit of the scan. */
  lemma FirstPosition<T(!new)>(s: seq<T>, p: T -> bool)
    ensures var ps := Positions(s, p, |s|);
            FirstIndex(s, p) == if ps == [] then None else Some(ps[0])
  {
    var ps := Positions(s, p, |s|);
    PositionsAscend(s, p, |s|);
    var first := FirstIndex(s, p);
    if ps != [] {
      assert ps[0] in ps;
      assert first.value in ps;
      var k :| 0 <= k < |ps| && ps[k] == first.value;
    }
    assert first.Some? ==> first.value in ps;
  }

  /** Index and scan agree for every policy list and every route. */
  lemma IndexEqualsScan<S(!new)>(policies: seq<Policy<S>>, index: Index, source: RouteSource)
    requires IndexesUpTo(index, policies, |policies|)
    ensures forall i :: 0 <= i < |index.gateways| ==> index.gateways[i] < |policies|
    ensures FindMatchingPolicy(policies, index, source) == Scan(policies, source)
  {
    var key := SourceKey(source);
    PositionsAscend(policies, IsGatewayPolicy<S>(), |policies|);
    forall i | 0 <= i < |index.gateways| ensures index.gateways[i] < |policies| && policies[index.gateways[i]].target.kind == "Gateway" {
      assert index.gateways[i] in index.gateways;
    }
    var listed := if key in index.byRoute then index.byRoute[key] else [];
    assert listed == Positions(policies, HasKey(key), |policies|);
    var direct := ByRoute<S>(source);
    FirstPosition(policies, HasKey<S>(key));
    assert FirstIndex(policies, direct) == FirstIndex(policies, HasKey(key)) by {
      FirstIndexSame(policies, direct, HasKey(key));
    }
    if listed == [] {
      GatewayScan(policies, index, source);
    }
  }

  lemma FirstIndexSame<T>(s: seq<T>, p: T -> bool, q: T -> bool)
    requires forall i :: 0 <= i < |s| ==> p(s[i]) == q(s[i])
    ensures FirstIndex(s, p) == FirstIndex(s, q)
  {
    var a, b := FirstIndex(s, p), FirstIndex(s, q);
    if a.Some? && b.Some? {
      assert !(a.value < b.value) && !(b.value < a.value);
    }
  }

  lemma GatewayScan<S(!new)>(policies: seq<Policy<S>>, index: Index, source: RouteSource)
    requires index.gateways == Positions(policies, IsGatewayPolicy<S>(), |policies|)
    requires forall i :: 0 <= i < |index.gateways| ==> index.gateways[i] < |policies|
    ensures var hit := FirstIndex(index.gateways, RefHit(policies, source));
            (if hit.None? then None else Some(index.gateways[hit.value])) ==
            FirstIndex(policies, ByGateway<S>(source))
  {
    PositionsAscend(policies, IsGatewayPolicy<S>(), |policies|);
    var q := RefHit(policies, source);
    var scan := ByGateway<S>(source);
    var gs := index.gateways;
    forall i | 0 <= i < |gs| ensures q(gs[i]) <==> scan(policies[gs[i]]) {
      assert gs[i] in gs;
    }
    FirstAmong(policies, gs, scan, q);
  }

  /** A first hit can be looked for among ascending positions that miss no hit. */
  lemma FirstAmong<T>(s: seq<T>, ps: seq<nat>, p: T -> bool, q: nat -> bool)
    requires forall i, j :: 0 <= i < j < |ps| ==> ps[i] < ps[j]
    requires forall i :: 0 <= i < |ps| ==> ps[i] < |s|
    requires forall i :: 0 <= i < |ps| ==> (q(ps[i]) <==> p(s[ps[i]]))
    requires forall k :: 0 <= k < |s| && p(s[k]) ==> k in ps
    ensures var hit := FirstIndex(ps, q);
            (if hit.None? then None else Some(ps[hit.value])) == FirstIndex(s, p)
  {
    var hit, want := FirstIndex(ps, q), FirstIndex(s, p);
    if want.Some? {
      var k :| 0 <= k < |ps| && ps[k] == want.value;
      assert q(ps[k]);
      var h := hit.value;
      assert h <= k && q(ps[h]);
      assert p(s[ps[h]]);
    }
  }

  // ---- Application ----

  datatype SecretRef = SecretRef(secret: NamespacedName, realm: string)
  datatype Retry = Retry(maxRetries: nat, retryOn: seq<string>)
  datatype Timeouts = Timeouts(requestMs: nat, backendRequestMs: nat, connectMs: nat)

  /** The accepted policies of each kind, in the order they were collected. The realm of a
      `SecretRef` is the Basic realm or the API-key header name; `permitted` says whether the
      reference grants let an ExtAuthPolicy use its Service. */
  datatype PolicySet = PolicySet(
    rateLimits: seq<Policy<RateLimit>>, circuitBreakers: seq<Policy<CircuitBreaker>>, connections: seq<Policy<nat>>,
    basicAuths: seq<Policy<SecretRef>>, apiKeyAuths: seq<Policy<SecretRef>>, jwtAuths: seq<Policy<seq<JwtProvider>>>,
    extAuths: seq<Policy<ExtAuth>>, retries: seq<Policy<Retry>>, ipAllowlists: seq<Policy<IpAllowlist>>,
    bodySizeLimits: seq<Policy<nat>>, corsPolicies: seq<Policy<Cors>>, timeouts: seq<Policy<Timeouts>>,
    secrets: map<NamespacedName, map<string, string>>, permitted: Policy<ExtAuth> -> bool)

  /** The applicable policy's spec, if any. */
  function Applicable<S(!new)>(policies: seq<Policy<S>>, source: RouteSource): (r: Option<S>)
    ensures r.Some? <==> exists i :: 0 <= i < |policies| && (TargetsRoute(policies[i].target, source) || TargetsGateway(policies[i].target, source))
  {
    var i := Scan(policies, source);
    if i.None? then None else Some(policies[i.value].spec)
  }

  /** The policy of each kind that applies to one route. */
  datatype Attachments = Attachments(
    rateLimit: Option<RateLimit>, circuitBreaker: Option<CircuitBreaker>, connections: Option<nat>,
    basic: Option<SecretRef>, apiKey: Option<SecretRef>, jwt: Option<seq<JwtProvider>>, extAuth: Option<ExtAuth>,
    retry: Option<Retry>, ipAllowlist: Option<IpAllowlist>, bodySize: Option<nat>, cors: Option<Cors>, timeout: Option<Timeouts>)

  function AttachmentsFor(ps: PolicySet, source: RouteSource): Attachments {
    Attachments(
      Applicable(ps.rateLimits, source), Applicable(ps.circuitBreakers, source), Applicable(ps.connections, source),
      Applicable(ps.basicAuths, source), Applicable(ps.apiKeyAuths, source), Applicable(ps.jwtAuths, source),
      ExtAuthFor(ps, source),
      Applicable(ps.retries, source), Applicable(ps.ipAllowlists, source), Applicable(ps.bodySizeLimits, source),
      Applicable(ps.corsPolicies, source), Applicable(ps.timeouts, source))
  }

  /** A Service the policy may not reference compiles to an empty name, which refuses requests. */
  function ExtAuthFor(ps: PolicySet, source: RouteSource): Option<ExtAuth> {
    var i := Scan(ps.extAuths, source);
    if i.None? then None
    else
      var p := ps.extAuths[i.value];
      Some(if ps.permitted(p) then p.spec else p.spec.(serviceName := ""))
  }

  function SecretData(secrets: map<NamespacedName, map<string, string>>, ref: SecretRef): map<string, string> {
    if ref.secret in secrets then secrets[ref.secret] else map[]
  }

  function AuthFor(a: Attachments, secrets: map<NamespacedName, map<string, string>>, current: Option<Auth>): Option<Auth> {
    if a.basic.Some? then Some(BasicAuth(SecretData(secrets, a.basic.value), a.basic.value.realm))
    else if current.Some? then current
    else if a.apiKey.Some? then Some(ApiKey(SecretData(secrets, a.apiKey.value).Values, a.apiKey.value.realm))
    else if a.jwt.Some? then Some(Jwt(a.jwt.value))
    else None
  }

  function Overlay<T>(policy: Option<T>, current: Option<T>): Option<T> {
    if policy.Some? then policy else current
  }

  function PolicyBlockFor(a: Attachments, secrets: map<NamespacedName, map<string, string>>, p: PolicyBlock): PolicyBlock {
    PolicyBlock(
      Overlay(a.rateLimit, p.rateLimit), Overlay(a.circuitBreaker, p.circuitBreaker), Overlay(a.connections, p.maxConnections),
      AuthFor(a, secrets, p.auth), Overlay(a.extAuth, p.extAuth), Overlay(a.ipAllowlist, p.ipAllowlist),
      if a.bodySize.Some? then a.bodySize.value else p.maxRequestBodyBytes)
  }

  function PositiveOr(n: nat, current: nat): nat { if n > 0 then n else current }

  function TrafficFor(a: Attachments, t: Traffic): Traffic {
    var t1 := if t.maxRetries == 0 && t.retryCodes == [] && a.retry.Some?
              then t.(maxRetries := a.retry.value.maxRetries, retryOn := a.retry.value.retryOn) else t;
    var t2 := if t1.cors.None? && a.cors.Some? then t1.(cors := a.cors) else t1;
    if a.timeout.None? then t2
    else t2.(requestTimeoutMs := PositiveOr(a.timeout.value.requestMs, t2.requestTimeoutMs),
             backendRequestTimeoutMs := PositiveOr(a.timeout.value.backendRequestMs, t2.backendRequestTimeoutMs),
             connectTimeoutMs := if a.timeout.value.connectMs > 0 then Some(a.timeout.value.connectMs) else t2.connectTimeoutMs)
  }

  /** Everything a request is matched or forwarded by: all that policies must leave alone. */
  ghost predicate SameRouting(a: RouteConfig, b: RouteConfig) {
    a.(traffic := b.traffic, policy := b.policy) == b
  }

  function Applied(ps: PolicySet, source: RouteSource, r: RouteConfig): (r': RouteConfig)
    ensures SameRouting(r, r')
  {
    var a := AttachmentsFor(ps, source);
    r.(traffic := TrafficFor(a, r.traffic), policy := PolicyBlockFor(a, ps.secrets, r.policy))
  }

  /** One index per policy kind, as `apply_policies` builds them. */
  datatype Indexes = Indexes(rl: Index, cb: Index, cn: Index, ba: Index, ak: Index, jw: Index,
                             ea: Index, rt: Index, ip: Index, bs: Index, co: Index, to: Index)

  function IndexesOf(ps: PolicySet): Indexes {
    Indexes(IndexOf(ps.rateLimits), IndexOf(ps.circuitBreakers), IndexOf(ps.connections), IndexOf(ps.basicAuths),
            IndexOf(ps.apiKeyAuths), IndexOf(ps.jwtAuths), IndexOf(ps.extAuths), IndexOf(ps.retries),
            IndexOf(ps.ipAllowlists), IndexOf(ps.bodySizeLimits), IndexOf(ps.corsPolicies), IndexOf(ps.timeouts))
  }

  method BuildIndexes(ps: PolicySet) returns (ix: Indexes)
    ensures ix == IndexesOf(ps)
  {
    var rl := IndexPolicies(ps.rateLimits);
    var cb := IndexPolicies(ps.circuitBreakers);
    var cn := IndexPolicies(ps.connections);
    var ba := IndexPolicies(ps.basicAuths);
    var ak := IndexPolicies(ps.apiKeyAuths);
    var jw := IndexPolicies(ps.jwtAuths);
    var ea := IndexPolicies(ps.extAuths);
    var rt := IndexPolicies(ps.retries);
    var ip := IndexPolicies(ps.ipAllowlists);
    var bs := IndexPolicies(ps.bodySizeLimits);
    var co := IndexPolicies(ps.corsPolicies);
    var to := IndexPolicies(ps.timeouts);
    ix := Indexes(rl, cb, cn, ba, ak, jw, ea, rt, ip, bs, co, to);
  }

  /** A lookup through the index, as every branch of the application loop does it. */
  method Lookup<S(!new)>(policies: seq<Policy<S>>, index: Index, source: RouteSource) returns (r: Option<S>)
    requires index == IndexOf(policies)
    ensures r == Applicable(policies, source)
  {
    IndexComplete(policies, |policies|);
    assert policies[..|policies|] == policies;
    IndexEqualsScan(policies, index, source);
    var i := FindMatchingPolicy(policies, index, source);
    r := if i.None? then None else Some(policies[i.value].spec);
  }

  method LookupExtAuth(ps: PolicySet, index: Index, source: RouteSource) returns (r: Option<ExtAuth>)
    requires index == IndexOf(ps.extAuths)
    ensures r == ExtAuthFor(ps, source)
  {
    IndexComplete(ps.extAuths, |ps.extAuths|);
    assert ps.extAuths[..|ps.extAuths|] == ps.extAuths;
    IndexEqualsScan(ps.extAuths, index, source);
    var i := FindMatchingPolicy(ps.extAuths, index, source);
    if i.None? { return None; }
    var p := ps.extAuths[i.value];
    r := Some(if ps.permitted(p) then p.spec else p.spec.(serviceName := ""));
  }

  method LookupAll(ps: PolicySet, ix: Indexes, source: RouteSource) returns (a: Attachments)
    requires ix == IndexesOf(ps)
    ensures a == AttachmentsFor(ps, source)
  {
    var rl := Lookup(ps.rateLimits, ix.rl, source);
    var cb := Lookup(ps.circuitBreakers, ix.cb, source);
    var cn := Lookup(ps.connections, ix.cn, source);
    var ba := Lookup(ps.basicAuths, ix.ba, source);
    var ak := Lookup(ps.apiKeyAuths, ix.ak, source);
    var jw := Lookup(ps.jwtAuths, ix.jw, source);
    var ea := LookupExtAuth(ps, ix.ea, source);
    var rt := Lookup(ps.retries, ix.rt, source);
    var ip := Lookup(ps.ipAllowlists, ix.ip, source);
    var bs := Lookup(ps.bodySizeLimits, ix.bs, source);
    var co := Lookup(ps.corsPolicies, ix.co, source);
    var to := Lookup(ps.timeouts, ix.to, source);
    a := Attachments(rl, cb, cn, ba, ak, jw, ea, rt, ip, bs, co, to);
  }

  method ApplyToRoute(ps: PolicySet, ix: Indexes, source: RouteSource, r: RouteConfig) returns (r': RouteConfig)
    requires ix == IndexesOf(ps)
    ensures r' == Decorator(ps)(source, r)
  {
    var a := LookupAll(ps, ix, source);
    r' := r.(traffic := TrafficFor(a, r.traffic), policy := PolicyBlockFor(a, ps.secrets, r.policy));
  }

  function Decorator(ps: PolicySet): (RouteSource, RouteConfig) -> RouteConfig {
    (source: RouteSource, r: RouteConfig) => Applied(ps, source, r)
  }

  /** Every route decorated according to the source at the same position. */
  function AppliedAll(ps: PolicySet, sources: seq<RouteSource>, routes: seq<RouteConfig>): seq<RouteConfig>
    requires |sources| == |routes|
  {
    Map2(sources, routes, Decorator(ps))
  }

  /** One iteration of an in-place loop applying `f` at every position. */
  lemma Map2Step<A, B>(s: seq<A>, before: seq<B>, f: (A, B) -> B, i: nat, x: B)
    requires |s| == |before| && i < |s| && x == f(s[i], before[i])
    ensures (Map2(s[..i], before[..i], f) + before[i..])[i := x] == Map2(s[..i + 1], before[..i + 1], f) + before[i + 1..]
  {
  }

  /** The in-place loop of `apply_policies`. */
  method ApplyPolicies(ps: PolicySet, routes: array<RouteConfig>, sources: seq<RouteSource>)
    requires routes.Length == |sources|
    modifies routes
    ensures routes[..] == AppliedAll(ps, sources, old(routes[..]))
  {
    ghost var before, f := routes[..], Decorator(ps);
    var ix := BuildIndexes(ps);
    for i := 0 to routes.Length
      invariant routes[..] == Map2(sources[..i], before[..i], f) + before[i..]
    {
      ghost var current := routes[..];
      assert routes[i] == current[i] == before[i];
      var r := ApplyToRoute(ps, ix, sources[i], routes[i]);
      routes[i] := r;
      assert routes[..] == current[i := r];
      Map2Step(sources, before, f, i, r);
    }
    assert sources[..routes.Length] == sources && before[..routes.Length] == before;
  }

  ghost predicate Attached<S>(policies: seq<Policy<S>>, source: RouteSource) {
    exists i :: 0 <= i < |policies| && (TargetsRoute(policies[i].target, source) || TargetsGateway(policies[i].target, source))
  }

  /** Authentication fails closed: a freshly compiled route with any auth policy attached gets
      an auth block, Basic before API key before JWT, with the credentials of the attached
      policy's own Secret, or none valid when that Secret is missing; and without one it gets
      none. */
  lemma AuthChoice(ps: PolicySet, source: RouteSource, r: RouteConfig)
    requires r.policy.auth.None?
    ensures var auth := Applied(ps, source, r).policy.auth;
      var basic, apiKey, jwt := Applicable(ps.basicAuths, source), Applicable(ps.apiKeyAuths, source), Applicable(ps.jwtAuths, source);
      && (Attached(ps.basicAuths, source) <==> auth.Some? && auth.value.BasicAuth?)
      && (!Attached(ps.basicAuths, source) && Attached(ps.apiKeyAuths, source) <==> auth.Some? && auth.value.ApiKey?)
      && (!Attached(ps.basicAuths, source) && !Attached(ps.apiKeyAuths, source) && Attached(ps.jwtAuths, source) <==> auth.Some? && auth.value.Jwt?)
      && (basic.Some? && basic.value.secret in ps.secrets ==> auth == Some(BasicAuth(ps.secrets[basic.value.secret], basic.value.realm)))
      && (basic.Some? && basic.value.secret !in ps.secrets ==> auth == Some(BasicAuth(map[], basic.value.realm)))
      && (basic.None? && apiKey.Some? && apiKey.value.secret in ps.secrets ==>
            auth == Some(ApiKey(ps.secrets[apiKey.value.secret].Values, apiKey.value.realm)))
      && (basic.None? && apiKey.Some? && apiKey.value.secret !in ps.secrets ==> auth == Some(ApiKey({}, apiKey.value.realm)))
      && (basic.None? && apiKey.None? && jwt.Some? ==> auth == Some(Jwt(jwt.value)))
  {
    var basic, apiKey, jwt := Applicable(ps.basicAuths, source), Applicable(ps.apiKeyAuths, source), Applicable(ps.jwtAuths, source);
    assert Attached(ps.basicAuths, source) == basic.Some?;
    assert Attached(ps.apiKeyAuths, source) == apiKey.Some?;
    assert Attached(ps.jwtAuths, source) == jwt.Some?;
    var none: map<string, string> := map[];
    assert none.Values == {};
  }
}
