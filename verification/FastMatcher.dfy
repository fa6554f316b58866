/** The pre-built route map against the linear sort-and-scan it replaces. */
module FastMatcher {
  import opened Collections
  import opened Text
  import opened Types
  import opened Matching
  import opened Matcher

  // ---- The simple form ----

  /** The bucket looked at: the host's own, else `*`. */
  function BucketKey(keys: set<string>, host: string): Option<string> {
    if host in keys then Some(host) else if "*" in keys then Some("*") else None
  }

  /** `match_request_linear`. */
  function LinearMatch(routes: seq<RouteConfig>, req: Request): Option<RouteConfig> {
    var key := BucketKey(HostKeys(routes), req.host);
    if key.None? then None else MostSpecificHit(Filter(routes, OfHost(key.value)), req)
  }

  /** The routes of the request's own host or, where there is none, those of `*`. */
  ghost predicate InBucket(routes: seq<RouteConfig>, host: string, r: RouteConfig) {
    r in routes && (r.host == host || (r.host == "*" && forall x :: x in routes ==> x.host != host))
  }

  /** The linear matcher finds a most specific match of the bucket, whenever it has one. */
  lemma LinearFinds(routes: seq<RouteConfig>, req: Request)
    ensures var found := LinearMatch(routes, req);
      && (found.None? <==> forall r :: InBucket(routes, req.host, r) ==> !RouteMatches(r, req))
      && (found.Some? ==>
            && InBucket(routes, req.host, found.value) && RouteMatches(found.value, req)
            && forall r :: InBucket(routes, req.host, r) && RouteMatches(r, req) ==> !MoreSpecific(r, found.value))
  {
    var key := BucketKey(HostKeys(routes), req.host);
    if key.Some? {
      var cs := Filter(routes, OfHost(key.value));
      forall r ensures r in cs <==> InBucket(routes, req.host, r) {}
      MoreSpecificIsOrder();
      FirstOfSorted(cs, Hits(req), MoreSpecific);
    }
  }

  method MatchLinear(routes: seq<RouteConfig>, req: Request) returns (r: Option<RouteConfig>)
    ensures r == LinearMatch(routes, req)
  {
    var byHost := GroupByHost(routes);
    if req.host in byHost {
      r := FirstHit(byHost[req.host], req);
    } else if "*" in byHost {
      r := FirstHit(byHost["*"], req);
    } else {
      r := None;
    }
  }

  // ---- The fast form ----

  function ExactAt(path: string): RouteConfig -> bool {
    (r: RouteConfig) => FirstIsExact(r) && r.paths[0].path == path
  }

  function IsExactRule(): RouteConfig -> bool { (r: RouteConfig) => FirstIsExact(r) }
  function IsPrefixRule(): RouteConfig -> bool { (r: RouteConfig) => r.paths != [] && !FirstIsExact(r) }
  function HasNoPath(): RouteConfig -> bool { (r: RouteConfig) => r.paths == [] }

  predicate LongerPrefix(a: RouteConfig, b: RouteConfig) {
    if FirstLength(a) != FirstLength(b) then FirstLength(a) > FirstLength(b) else |a.headerMatches| > |b.headerMatches|
  }

  function Extra(req: Request): RouteConfig -> bool {
    (r: RouteConfig) => ExtraMatches(r, req.verb, req.headers)
  }

  /** Every rule that is not exact is treated as a prefix. */
  function PrefixHit(req: Request): RouteConfig -> bool {
    (r: RouteConfig) => r.paths != [] && PrefixMatches(r.paths[0].path, req.path) && ExtraMatches(r, req.verb, req.headers)
  }

  function PrefixRules(cs: seq<RouteConfig>): seq<RouteConfig> { SortBy(Filter(cs, IsPrefixRule()), LongerPrefix) }

  function FastIn(cs: seq<RouteConfig>, req: Request): Option<RouteConfig> {
    OrElse(FindFirst(Filter(cs, ExactAt(req.path)), Extra(req)),
           OrElse(FindFirst(PrefixRules(cs), PrefixHit(req)),
                  FindFirst(Filter(cs, HasNoPath()), Extra(req))))
  }

  function FastMatch(routes: seq<RouteConfig>, req: Request): Option<RouteConfig> {
    var key := BucketKey(HostKeys(routes), req.host);
    if key.None? then None else FastIn(Filter(routes, OfHost(key.value)), req)
  }

  datatype BuiltHostRoutes = BuiltHostRoutes(
    exactMap: map<string, seq<RouteConfig>>, prefixRules: seq<RouteConfig>, catchAll: seq<RouteConfig>)

  /** One route put into its place; prefix rules are sorted at the end. */
  function AddRoute(b: BuiltHostRoutes, r: RouteConfig): BuiltHostRoutes {
    if r.paths == [] then b.(catchAll := b.catchAll + [r])
    else if r.paths[0].kind.Exact? then
      var p := r.paths[0].path;
      b.(exactMap := b.exactMap[p := (if p in b.exactMap then b.exactMap[p] else []) + [r]])
    else b.(prefixRules := b.prefixRules + [r])
  }

  function Placed(cs: seq<RouteConfig>): BuiltHostRoutes {
    if cs == [] then BuiltHostRoutes(map[], [], []) else AddRoute(Placed(cs[..|cs| - 1]), cs[|cs| - 1])
  }

  function BuiltFor(cs: seq<RouteConfig>): BuiltHostRoutes {
    var b := Placed(cs);
    b.(prefixRules := SortBy(b.prefixRules, LongerPrefix))
  }

  function ExactBucket(b: BuiltHostRoutes, path: string): seq<RouteConfig> {
    if path in b.exactMap then b.exactMap[path] else []
  }

  /** Each part holds the routes of its kind, in their order. */
  lemma {:induction false} PlacedParts(cs: seq<RouteConfig>, path: string)
    ensures ExactBucket(Placed(cs), path) == Filter(cs, ExactAt(path))
    ensures Placed(cs).prefixRules == Filter(cs, IsPrefixRule())
    ensures Placed(cs).catchAll == Filter(cs, HasNoPath())
  {
    if cs != [] {
      var n := |cs| - 1;
      PlacedParts(cs[..n], path);
      FilterStep(cs, n, ExactAt(path));
      FilterStep(cs, n, IsPrefixRule());
      FilterStep(cs, n, HasNoPath());
      assert cs[..n + 1] == cs;
    }
  }

  /** The per-host loop of `BuiltRouteMap::build`. */
  method BuildHost(cs: seq<RouteConfig>) returns (b: BuiltHostRoutes)
    ensures b == BuiltFor(cs)
  {
    var exactMap: map<string, seq<RouteConfig>>, prefixRules: seq<RouteConfig>, catchAll: seq<RouteConfig> := map[], [], [];
    for i := 0 to |cs|
      invariant BuiltHostRoutes(exactMap, prefixRules, catchAll) == Placed(cs[..i])
    {
      var r := cs[i];
      assert cs[..i + 1][..i] == cs[..i];
      if r.paths == [] {
        catchAll := catchAll + [r];
      } else if r.paths[0].kind.Exact? {
        var p := r.paths[0].path;
        exactMap := exactMap[p := (if p in exactMap then exactMap[p] else []) + [r]];
      } else {
        prefixRules := prefixRules + [r];
      }
    }
    assert cs[..|cs|] == cs;
    b := BuiltHostRoutes(exactMap, SortBy(prefixRules, LongerPrefix), catchAll);
  }

  ghost predicate BuiltMapOf(m: map<string, BuiltHostRoutes>, routes: seq<RouteConfig>) {
    && m.Keys == HostKeys(routes)
    && forall h :: h in m ==> m[h] == BuiltFor(Filter(routes, OfHost(h)))
  }

  method Build(routes: seq<RouteConfig>) returns (m: map<string, BuiltHostRoutes>)
    ensures BuiltMapOf(m, routes)
  {
    var raw := GroupByHost(routes);
    m := map[];
    var todo := raw.Keys;
    while todo != {}
      invariant todo <= raw.Keys
      invariant forall h :: h in raw ==> h in todo || (h in m && m[h] == BuiltFor(raw[h]))
      invariant forall h :: h in m ==> h in raw
      decreases todo
    {
      var host :| host in todo;
      var built := BuildHost(raw[host]);
      m := m[host := built];
      todo := todo - {host};
    }
  }

  method SearchBuilt(b: BuiltHostRoutes, ghost cs: seq<RouteConfig>, req: Request) returns (r: Option<RouteConfig>)
    requires b == BuiltFor(cs)
    ensures r == FastIn(cs, req)
  {
    PlacedParts(cs, req.path);
    if req.path in b.exactMap {
      r := FindFirst(b.exactMap[req.path], Extra(req));
      if r.Some? { return; }
    }
    r := FindFirst(b.prefixRules, PrefixHit(req));
    if r.Some? { return; }
    r := FindFirst(b.catchAll, Extra(req));
  }

  /** `BuiltRouteMap::match_request` on a map built from `routes`. */
  method MatchFast(m: map<string, BuiltHostRoutes>, ghost routes: seq<RouteConfig>, req: Request) returns (r: Option<RouteConfig>)
    requires BuiltMapOf(m, routes)
    ensures r == FastMatch(routes, req)
  {
    if req.host in m {
      r := SearchBuilt(m[req.host], Filter(routes, OfHost(req.host)), req);
    } else if "*" in m {
      r := SearchBuilt(m["*"], Filter(routes, OfHost("*")), req);
    } else {
      r := None;
    }
  }

  // ---- Refinement ----

  /** Routes both matchers understand alike: at most one path, Exact or non-empty Prefix. */
  predicate Simple(r: RouteConfig) {
    r.paths == [] || (|r.paths| == 1 && (r.paths[0].kind.Exact? || (r.paths[0].kind.Prefix? && r.paths[0].path != "")))
  }

  /** At most one path, of a kind only the fast matcher looks at. */
  predicate Other(r: RouteConfig) { |r.paths| == 1 && r.paths[0].kind.OtherKind? }

  predicate Plain(r: RouteConfig) { Simple(r) || Other(r) }

  function Known(): RouteConfig -> bool { (r: RouteConfig) => Simple(r) }

  predicate MoreHeaders(a: RouteConfig, b: RouteConfig) {
    |a.headerMatches| > |b.headerMatches|
  }

  lemma LongerPrefixIsOrder()
    ensures StrictWeakOrder(LongerPrefix) && StrictWeakOrder(MoreHeaders)
  {
  }

  /** The linear scan, split by kind of rule. */
  function LinearIn(cs: seq<RouteConfig>, req: Request): Option<RouteConfig> {
    OrElse(Best(Filter(cs, ExactAt(req.path)), Extra(req), MoreHeaders),
           OrElse(FindFirst(PrefixRules(cs), PrefixHit(req)),
                  Best(Filter(cs, HasNoPath()), Extra(req), MoreHeaders)))
  }

  lemma SimpleHit(r: RouteConfig, req: Request)
    requires Simple(r)
    ensures FirstIsExact(r) ==> (RouteMatches(r, req) <==> r.paths[0].path == req.path && Extra(req)(r))
    ensures IsPrefixRule()(r) ==> (RouteMatches(r, req) <==> PrefixHit(req)(r))
    ensures r.paths == [] ==> (RouteMatches(r, req) <==> Extra(req)(r))
  {
    if r.paths != [] {
      assert AnyPathMatches(r.paths, req.path) <==> PathMatches(r.paths[0], req.path);
    }
  }

  lemma ExactPart(cs: seq<RouteConfig>, req: Request)
    requires forall r :: r in cs ==> Simple(r)
    ensures Best(Filter(cs, IsExactRule()), Hits(req), MoreSpecific) == Best(Filter(cs, ExactAt(req.path)), Extra(req), MoreHeaders)
  {
    forall r | r in cs ensures FirstIsExact(r) ==> (Hits(req)(r) <==> ExactAt(req.path)(r) && Extra(req)(r)) { SimpleHit(r, req); }
    var es := Filter(cs, IsExactRule());
    BestRestrict(es, Hits(req), ExactAt(req.path), MoreSpecific);
    FilterFilter(cs, IsExactRule(), ExactAt(req.path));
    BestSame(Filter(cs, ExactAt(req.path)), Hits(req), Extra(req), MoreSpecific, MoreHeaders);
  }

  lemma PrefixAndCatchAll(cs: seq<RouteConfig>, req: Request)
    requires forall r :: r in cs ==> Simple(r)
    ensures Best(Filter(cs, Not(IsExactRule())), Hits(req), MoreSpecific) ==
      OrElse(Best(Filter(cs, IsPrefixRule()), Hits(req), MoreSpecific), Best(Filter(cs, HasNoPath()), Hits(req), MoreSpecific))
  {
    var notExact := Not(IsExactRule());
    var ns := Filter(cs, notExact);
    MoreSpecificIsOrder();
    forall x, y | x in ns && y in ns && IsPrefixRule()(x) && !IsPrefixRule()(y) ensures MoreSpecific(x, y) {
      assert Simple(x) && x in cs && y in cs;
    }
    BestDominated(ns, Hits(req), IsPrefixRule(), MoreSpecific);
    FilterFilter(cs, notExact, IsPrefixRule());
    FilterFilter(cs, notExact, HasNoPath());
    FilterSame(ns, Not(IsPrefixRule()), HasNoPath());
  }

  lemma PrefixPart(cs: seq<RouteConfig>, req: Request)
    requires forall r :: r in cs ==> Simple(r)
    ensures Best(Filter(cs, IsPrefixRule()), Hits(req), MoreSpecific) == FindFirst(SortBy(Filter(cs, IsPrefixRule()), LongerPrefix), PrefixHit(req))
  {
    var ps := Filter(cs, IsPrefixRule());
    forall r | r in ps ensures Hits(req)(r) == PrefixHit(req)(r) { SimpleHit(r, req); }
    LongerPrefixIsOrder();
    BestSame(ps, Hits(req), PrefixHit(req), MoreSpecific, LongerPrefix);
    FindInSorted(ps, PrefixHit(req), LongerPrefix);
  }

  lemma CatchAllPart(cs: seq<RouteConfig>, req: Request)
    requires forall r :: r in cs ==> Simple(r)
    ensures Best(Filter(cs, HasNoPath()), Hits(req), MoreSpecific) == Best(Filter(cs, HasNoPath()), Extra(req), MoreHeaders)
  {
    var ns := Filter(cs, HasNoPath());
    forall r | r in ns ensures Hits(req)(r) == Extra(req)(r) { SimpleHit(r, req); }
    BestSame(ns, Hits(req), Extra(req), MoreSpecific, MoreHeaders);
  }

  lemma LinearSplits(cs: seq<RouteConfig>, req: Request)
    requires forall r :: r in cs ==> Simple(r)
    ensures MostSpecificHit(cs, req) == LinearIn(cs, req)
  {
    MoreSpecificIsOrder();
    FindInSorted(cs, Hits(req), MoreSpecific);
    assert forall x, y :: IsExactRule()(x) && !IsExactRule()(y) ==> MoreSpecific(x, y);
    BestDominated(cs, Hits(req), IsExactRule(), MoreSpecific);
    ExactPart(cs, req);
    PrefixAndCatchAll(cs, req);
    PrefixPart(cs, req);
    CatchAllPart(cs, req);
  }

  /** The fast matcher finds a route exactly when the linear one does, with the same path
      rule, and for prefix rules the same route. */
  lemma FastRefinesLinear(routes: seq<RouteConfig>, req: Request)
    requires forall r :: r in routes ==> Simple(r)
    ensures FastMatch(routes, req).Some? <==> LinearMatch(routes, req).Some?
    ensures FastMatch(routes, req).Some? ==>
      && FastMatch(routes, req).value.paths == LinearMatch(routes, req).value.paths
      && (IsPrefixRule()(FastMatch(routes, req).value) ==> FastMatch(routes, req) == LinearMatch(routes, req))
  {
    var key := BucketKey(HostKeys(routes), req.host);
    if key.Some? {
      var cs := Filter(routes, OfHost(key.value));
      LinearSplits(cs, req);
      PartsAgree(cs, req);
    }
  }

  lemma PartsAgree(cs: seq<RouteConfig>, req: Request)
    requires forall r :: r in cs ==> Simple(r)
    ensures var f, l := FastIn(cs, req), LinearIn(cs, req);
      && (f.Some? <==> l.Some?)
      && (f.Some? ==> f.value.paths == l.value.paths && (IsPrefixRule()(f.value) ==> f == l))
  {
    SameHitOrNone(Filter(cs, ExactAt(req.path)), Extra(req));
    SameHitOrNone(Filter(cs, HasNoPath()), Extra(req));
    var es := Filter(cs, ExactAt(req.path));
    forall r | r in es ensures r.paths == [PathRule(req.path, Exact)] {
      assert r in cs && ExactAt(req.path)(r);
    }
  }

  lemma SameHitOrNone(bk: seq<RouteConfig>, p: RouteConfig -> bool)
    ensures FindFirst(bk, p).Some? <==> Best(bk, p, MoreHeaders).Some?
  {
  }

  // ---- Exactly when the same route is returned ----

  function JointVerb(a: RouteConfig, b: RouteConfig): string {
    if a.methodMatch != "" then a.methodMatch else b.methodMatch
  }

  function JointHeaders(a: RouteConfig, b: RouteConfig): seq<(string, string)> {
    Map(a.headerMatches + b.headerMatches, (hm: HeaderMatch) => (hm.name, hm.value))
  }

  predicate ExactHeaders(r: RouteConfig) {
    forall i :: 0 <= i < |r.headerMatches| ==> r.headerMatches[i].kind.ExactHeader?
  }

  predicate CompatibleVerbs(a: RouteConfig, b: RouteConfig) {
    a.methodMatch == "" || b.methodMatch == "" || a.methodMatch == b.methodMatch
  }

  /** Position `m` asks for more headers than the earlier `f`, one request can satisfy both,
      and the smallest such request is not taken by anything before `f`. */
  ghost predicate Inverted(bk: seq<RouteConfig>, f: nat, m: nat) {
    && f < m < |bk| && MoreHeaders(bk[m], bk[f])
    && ExactHeaders(bk[f]) && ExactHeaders(bk[m]) && CompatibleVerbs(bk[f], bk[m])
    && forall k :: 0 <= k < f ==> !ExtraMatches(bk[k], JointVerb(bk[f], bk[m]), JointHeaders(bk[f], bk[m]))
  }

  ghost predicate WellOrdered(bk: seq<RouteConfig>) {
    forall f, m :: !Inverted(bk, f, m)
  }

  function ExtraOf(verb: string, headers: seq<(string, string)>): RouteConfig -> bool {
    (r: RouteConfig) => ExtraMatches(r, verb, headers)
  }

  /** The joint request satisfies both routes. */
  lemma JointHits(a: RouteConfig, b: RouteConfig)
    requires ExactHeaders(a) && ExactHeaders(b) && CompatibleVerbs(a, b)
    ensures ExtraMatches(a, JointVerb(a, b), JointHeaders(a, b)) && ExtraMatches(b, JointVerb(a, b), JointHeaders(a, b))
  {
    var hs := JointHeaders(a, b);
    forall i | 0 <= i < |a.headerMatches| ensures HeaderMatches(a.headerMatches[i], hs) {
      assert hs[i] == (a.headerMatches[i].name, a.headerMatches[i].value);
    }
    forall i | 0 <= i < |b.headerMatches| ensures HeaderMatches(b.headerMatches[i], hs) {
      assert hs[|a.headerMatches| + i] == (b.headerMatches[i].name, b.headerMatches[i].value);
    }
  }

  /** It is the smallest: whatever it satisfies, any request satisfying both satisfies too. */
  lemma JointMinimal(a: RouteConfig, b: RouteConfig, c: RouteConfig, verb: string, headers: seq<(string, string)>)
    requires ExtraMatches(a, verb, headers) && ExtraMatches(b, verb, headers)
    requires ExtraMatches(c, JointVerb(a, b), JointHeaders(a, b))
    ensures ExtraMatches(c, verb, headers)
  {
    var both := a.headerMatches + b.headerMatches;
    forall i | 0 <= i < |c.headerMatches| ensures HeaderMatches(c.headerMatches[i], headers) {
      var hc := c.headerMatches[i];
      assert HeaderMatches(hc, JointHeaders(a, b));
      var j :| 0 <= j < |both| && EqIgnoreCase(JointHeaders(a, b)[j].0, hc.name) && JointHeaders(a, b)[j].1 == hc.value;
      assert HeaderMatches(both[j], headers) by {
        assert both[j] == if j < |a.headerMatches| then a.headerMatches[j] else b.headerMatches[j - |a.headerMatches|];
      }
      var k :| 0 <= k < |headers| && EqIgnoreCase(headers[k].0, both[j].name) && headers[k].1 == both[j].value;
    }
  }

  lemma WellOrderedAgrees(bk: seq<RouteConfig>, verb: string, headers: seq<(string, string)>)
    requires WellOrdered(bk)
    ensures FindFirst(bk, ExtraOf(verb, headers)) == Best(bk, ExtraOf(verb, headers), MoreHeaders)
  {
    var p := ExtraOf(verb, headers);
    if Best(bk, p, MoreHeaders).Some? {
      LongerPrefixIsOrder();
      var m := BestPosition(bk, p, MoreHeaders);
      var f := FirstPositionOf(bk, p);
      if MoreHeaders(bk[m], bk[f]) {
        forall k | 0 <= k < f ensures !ExtraMatches(bk[k], JointVerb(bk[f], bk[m]), JointHeaders(bk[f], bk[m])) {
          if ExtraMatches(bk[k], JointVerb(bk[f], bk[m]), JointHeaders(bk[f], bk[m])) {
            JointMinimal(bk[f], bk[m], bk[k], verb, headers);
          }
        }
        assert Inverted(bk, f, m);
      }
      assert IsBestAt(bk, p, MoreHeaders, f);
      BestUnique(bk, p, MoreHeaders, f);
    }
  }

  lemma FirstPositionOf<T>(s: seq<T>, p: T -> bool) returns (f: nat)
    requires FindFirst(s, p).Some?
    ensures f < |s| && p(s[f]) && FindFirst(s, p) == Some(s[f]) && forall k :: 0 <= k < f ==> !p(s[k])
  {
    if p(s[0]) {
      f := 0;
    } else {
      f := FirstPositionOf(s[1..], p);
      f := f + 1;
      assert forall k :: 0 < k < f ==> s[k] == s[1..][k - 1];
    }
  }

  lemma InversionDiverges(bk: seq<RouteConfig>, f: nat, m: nat)
    requires Inverted(bk, f, m)
    ensures var p := ExtraOf(JointVerb(bk[f], bk[m]), JointHeaders(bk[f], bk[m])); FindFirst(bk, p) != Best(bk, p, MoreHeaders)
  {
    var p := ExtraOf(JointVerb(bk[f], bk[m]), JointHeaders(bk[f], bk[m]));
    JointHits(bk[f], bk[m]);
    FirstFound(bk, f, p);
    LongerPrefixIsOrder();
    var k := BestPosition(bk, p, MoreHeaders);
    assert p(bk[m]) && !MoreHeaders(bk[m], bk[k]);
  }

  /** Every exact-path bucket and the catch-all bucket of every host is well ordered. */
  ghost predicate BucketsWellOrdered(routes: seq<RouteConfig>) {
    forall h :: h in HostKeys(routes) ==>
      var cs := Filter(routes, OfHost(h));
      WellOrdered(Filter(cs, HasNoPath())) && forall path: string :: WellOrdered(Filter(cs, ExactAt(path)))
  }

  ghost predicate SameAnswers(routes: seq<RouteConfig>) {
    forall req: Request :: FastMatch(routes, req) == LinearMatch(routes, req)
  }

  /** Longer than every path of the bucket, and below none of them. */
  function Longest(cs: seq<RouteConfig>): (n: nat)
    ensures forall r :: r in cs && r.paths != [] ==> |r.paths[0].path| <= n
  {
    if cs == [] then 0
    else
      var rest := Longest(cs[1..]);
      if FirstLength(cs[0]) > rest then FirstLength(cs[0]) else rest
  }

  function Label(n: nat): string { seq(n, _ => 'a') }

  lemma LabelUnmatched(prefix: string, n: nat)
    requires |prefix| < n
    ensures !PrefixMatches(prefix, Label(n))
  {
    assert HasPrefix(Label(n), prefix) && prefix != "" ==> prefix[|prefix| - 1] == Label(n)[..|prefix|][|prefix| - 1];
  }

  lemma BucketDiffers(routes: seq<RouteConfig>, req: Request)
    requires req.host in HostKeys(routes)
    requires FastIn(Filter(routes, OfHost(req.host)), req) != MostSpecificHit(Filter(routes, OfHost(req.host)), req)
    ensures !SameAnswers(routes)
  {
    assert FastMatch(routes, req) != LinearMatch(routes, req);
  }

  lemma NoExactAt(cs: seq<RouteConfig>, path: string)
    requires forall r :: r in cs && r.paths != [] ==> |r.paths[0].path| < |path|
    ensures Filter(cs, ExactAt(path)) == []
  {
    forall i | 0 <= i < |cs| ensures !ExactAt(path)(cs[i]) { assert cs[i] in cs; }
    FilterNone(cs, ExactAt(path));
  }

  lemma NoPrefixHit(cs: seq<RouteConfig>, req: Request, n: nat)
    requires req.path == Label(n) && forall r :: r in cs && r.paths != [] ==> |r.paths[0].path| < n
    ensures FindFirst(PrefixRules(cs), PrefixHit(req)).None?
  {
    var ps := PrefixRules(cs);
    forall i | 0 <= i < |ps| ensures !PrefixHit(req)(ps[i]) {
      PrefixRuleIn(cs, i);
      LabelUnmatched(ps[i].paths[0].path, n);
    }
  }

  lemma PrefixRuleIn(cs: seq<RouteConfig>, i: nat)
    requires i < |PrefixRules(cs)|
    ensures PrefixRules(cs)[i] in cs && IsPrefixRule()(PrefixRules(cs)[i])
  {
    SortPermutes(Filter(cs, IsPrefixRule()), LongerPrefix);
    assert PrefixRules(cs)[i] in PrefixRules(cs);
  }

  // ---- Rules of other kinds ----

  /** A rule of another kind never matches in the linear matcher and is a prefix in the fast. */
  lemma OtherKindNeverHits(r: RouteConfig, req: Request)
    requires Other(r)
    ensures !RouteMatches(r, req)
    ensures PrefixHit(req)(r) <==> PrefixMatches(r.paths[0].path, req.path) && ExtraMatches(r, req.verb, req.headers)
  {
  }

  /** Nothing another kind of rule would have to yield to takes its smallest request: neither a
      rule on the same path ahead of it, nor both the exact rules on that path and the rules on
      that path with a slash added. */
  ghost predicate Surfaces(cs: seq<RouteConfig>, i: nat)
    requires i < |PrefixRules(cs)| && IsPrefixRule()(PrefixRules(cs)[i])
  {
    var ps := PrefixRules(cs);
    var r := ps[i];
    var p := r.paths[0].path;
    && ExactHeaders(r)
    && Free(ps[..i], p, r, r)
    && (EndsWithSlash(p) || Free(Filter(cs, IsExactRule()), p, r, r) || Free(ps[..i], p + "/", r, r))
  }

  /** No rule of the list on the path takes the smallest request of both `a` and `b`. */
  ghost predicate Free(rules: seq<RouteConfig>, path: string, a: RouteConfig, b: RouteConfig) {
    forall k :: 0 <= k < |rules| && rules[k].paths != [] && rules[k].paths[0].path == path ==>
      !ExtraMatches(rules[k], JointVerb(a, b), JointHeaders(a, b))
  }

  ghost predicate OtherSurfaces(cs: seq<RouteConfig>) {
    exists i :: 0 <= i < |PrefixRules(cs)| && Other(PrefixRules(cs)[i]) && Surfaces(cs, i)
  }

  ghost predicate NoneSurfaces(routes: seq<RouteConfig>) {
    forall h :: h in HostKeys(routes) ==> !OtherSurfaces(Filter(routes, OfHost(h)))
  }

  /** A path below `p`, but below no longer rule except `p` with a slash added. */
  function Below(p: string, n: nat): string { (if EndsWithSlash(p) then p else p + "/") + Label(n) }

  lemma BelowMatches(p: string, n: nat)
    ensures PrefixMatches(p, Below(p, n))
  {
    assert Below(p, n)[..|p|] == p;
  }

  lemma BelowOnly(p: string, n: nat, t: string)
    requires |p| <= |t| < n && PrefixMatches(t, Below(p, n))
    ensures t == p || (!EndsWithSlash(p) && t == p + "/")
  {
    var base := if EndsWithSlash(p) then p else p + "/";
    assert t == (base + Label(n))[..|t|];
    if |t| <= |base| {
      assert t == base[..|t|];
    } else {
      DeepUnmatched(base, n, t);
    }
  }

  lemma DeepUnmatched(base: string, n: nat, t: string)
    requires |base| < |t| < |base| + n
    ensures !PrefixMatches(t, base + Label(n))
  {
    var q := base + Label(n);
    var last := q[|t| - 1];
    assert q[|t|] == 'a' && last == 'a';
    assert HasPrefix(q, t) ==> t[|t| - 1] == last;
  }

  /** A rule that does not take a request of both does not take their smallest. */
  lemma FreeFrom(rules: seq<RouteConfig>, path: string, a: RouteConfig, b: RouteConfig, req: Request)
    requires Extra(req)(a) && Extra(req)(b)
    requires forall k :: 0 <= k < |rules| && rules[k].paths != [] && rules[k].paths[0].path == path ==> !Extra(req)(rules[k])
    ensures Free(rules, path, a, b)
  {
    forall k | 0 <= k < |rules| && rules[k].paths != [] && rules[k].paths[0].path == path
      ensures !ExtraMatches(rules[k], JointVerb(a, b), JointHeaders(a, b))
    {
      if ExtraMatches(rules[k], JointVerb(a, b), JointHeaders(a, b)) {
        JointMinimal(a, b, rules[k], req.verb, req.headers);
      }
    }
  }

  lemma ExtraIsExact(r: RouteConfig, req: Request)
    requires Extra(req)(r)
    ensures ExactHeaders(r)
  {
  }

  /** A request answered by another kind of rule shows that one surfaces. */
  lemma AnswerSurfaces(cs: seq<RouteConfig>, req: Request)
    requires FastIn(cs, req).Some? && Other(FastIn(cs, req).value)
    ensures OtherSurfaces(cs)
  {
    OtherIsPrefixAnswer(cs, req);
    var i := FirstPositionOf(PrefixRules(cs), PrefixHit(req));
    PrefixRuleIn(cs, i);
    FirstSurfaces(cs, req, i);
  }

  lemma FirstSurfaces(cs: seq<RouteConfig>, req: Request, i: nat)
    requires i < |PrefixRules(cs)| && IsPrefixRule()(PrefixRules(cs)[i])
    requires PrefixHit(req)(PrefixRules(cs)[i]) && forall k :: 0 <= k < i ==> !PrefixHit(req)(PrefixRules(cs)[k])
    requires FindFirst(Filter(cs, ExactAt(req.path)), Extra(req)).None?
    ensures Surfaces(cs, i)
  {
    var ahead, r := PrefixRules(cs)[..i], PrefixRules(cs)[i];
    var p := r.paths[0].path;
    ExtraIsExact(r, req);
    FreeFrom(ahead, p, r, r, req);
    if req.path == p {
      ExactFree(cs, r, r, req);
    } else if !EndsWithSlash(p) {
      SlashFree(ahead, r, req);
    }
  }

  lemma OtherIsPrefixAnswer(cs: seq<RouteConfig>, req: Request)
    requires FastIn(cs, req).Some? && Other(FastIn(cs, req).value)
    ensures FindFirst(Filter(cs, ExactAt(req.path)), Extra(req)).None?
    ensures FindFirst(PrefixRules(cs), PrefixHit(req)) == FastIn(cs, req)
  {
  }

  lemma ExactFree(cs: seq<RouteConfig>, a: RouteConfig, b: RouteConfig, req: Request)
    requires Extra(req)(a) && Extra(req)(b) && FindFirst(Filter(cs, ExactAt(req.path)), Extra(req)).None?
    ensures Free(Filter(cs, IsExactRule()), req.path, a, b)
  {
    var all, es := Filter(cs, IsExactRule()), Filter(cs, ExactAt(req.path));
    forall k | 0 <= k < |all| && all[k].paths != [] && all[k].paths[0].path == req.path ensures !Extra(req)(all[k]) {
      assert all[k] in all && all[k] in es;
      var j :| 0 <= j < |es| && es[j] == all[k];
    }
    FreeFrom(all, req.path, a, b, req);
  }

  lemma SlashFree(rules: seq<RouteConfig>, r: RouteConfig, req: Request)
    requires PrefixHit(req)(r) && req.path != r.paths[0].path && !EndsWithSlash(r.paths[0].path)
    requires forall k :: 0 <= k < |rules| ==> !PrefixHit(req)(rules[k])
    ensures Free(rules, r.paths[0].path + "/", r, r)
  {
    var p := r.paths[0].path;
    assert req.path[..|p| + 1] == req.path[..|p|] + [req.path[|p|]];
    assert PrefixMatches(p + "/", req.path);
    FreeFrom(rules, p + "/", r, r, req);
  }

  /** One that surfaces answers a request. */
  lemma SurfacingAnswers(cs: seq<RouteConfig>, i: nat) returns (req: Request)
    requires i < |PrefixRules(cs)| && Other(PrefixRules(cs)[i]) && Surfaces(cs, i)
    ensures FastIn(cs, req) == Some(PrefixRules(cs)[i])
  {
    var ps := PrefixRules(cs);
    var r := ps[i];
    var p := r.paths[0].path;
    var exact := !EndsWithSlash(p) && !Free(ps[..i], p + "/", r, r);
    var path := if exact then p else Below(p, Longest(cs) + 1);
    req := Request("", path, JointVerb(r, r), JointHeaders(r, r), 0);
    JointHits(r, r);
    BelowMatches(p, Longest(cs) + 1);
    assert PrefixHit(req)(r) by { assert p[..|p|] == p; }
    forall k | 0 <= k < i ensures !PrefixHit(req)(ps[k]) {
      AheadMisses(cs, i, k, req, exact);
    }
    FirstFound(ps, i, PrefixHit(req));
    ExactMisses(cs, i, req, exact);
  }

  lemma AheadMisses(cs: seq<RouteConfig>, i: nat, k: nat, req: Request, exact: bool)
    requires k < i < |PrefixRules(cs)| && Other(PrefixRules(cs)[i]) && Surfaces(cs, i)
    requires var r := PrefixRules(cs)[i]; var p := r.paths[0].path;
      && req.path == (if exact then p else Below(p, Longest(cs) + 1))
      && req.verb == JointVerb(r, r) && req.headers == JointHeaders(r, r)
      && (!exact ==> EndsWithSlash(p) || Free(PrefixRules(cs)[..i], p + "/", r, r))
    ensures !PrefixHit(req)(PrefixRules(cs)[k])
  {
    var ps := PrefixRules(cs);
    var r := ps[i];
    var p, t := r.paths[0].path, ps[k].paths;
    LongerPrefixIsOrder();
    SortSorts(Filter(cs, IsPrefixRule()), LongerPrefix);
    PrefixRuleIn(cs, k);
    assert !LongerPrefix(ps[i], ps[k]);
    assert ps[..i][k] == ps[k];
    if PrefixMatches(t[0].path, req.path) {
      if exact {
        assert t[0].path == p;
      } else {
        BelowOnly(p, Longest(cs) + 1, t[0].path);
      }
    }
  }

  lemma ExactMisses(cs: seq<RouteConfig>, i: nat, req: Request, exact: bool)
    requires i < |PrefixRules(cs)| && Other(PrefixRules(cs)[i]) && Surfaces(cs, i)
    requires var r := PrefixRules(cs)[i]; var p := r.paths[0].path;
      && req.path == (if exact then p else Below(p, Longest(cs) + 1))
      && req.verb == JointVerb(r, r) && req.headers == JointHeaders(r, r)
      && (exact ==> !EndsWithSlash(p) && !Free(PrefixRules(cs)[..i], p + "/", r, r))
    ensures FindFirst(Filter(cs, ExactAt(req.path)), Extra(req)).None?
  {
    var r := PrefixRules(cs)[i];
    if exact {
      ExactRulesMiss(cs, req, r, r);
    } else {
      NoExactAt(cs, req.path);
    }
  }

  lemma ExactRulesMiss(cs: seq<RouteConfig>, req: Request, a: RouteConfig, b: RouteConfig)
    requires Free(Filter(cs, IsExactRule()), req.path, a, b) && req.verb == JointVerb(a, b) && req.headers == JointHeaders(a, b)
    ensures FindFirst(Filter(cs, ExactAt(req.path)), Extra(req)).None?
  {
    var all, es := Filter(cs, IsExactRule()), Filter(cs, ExactAt(req.path));
    forall j | 0 <= j < |es| ensures !Extra(req)(es[j]) {
      assert es[j] in es && es[j] in all;
      var k :| 0 <= k < |all| && all[k] == es[j];
    }
  }

  // ---- All rules together ----

  lemma LinearKnown(cs: seq<RouteConfig>, req: Request)
    requires forall r :: r in cs ==> Plain(r)
    ensures MostSpecificHit(cs, req) == LinearIn(Filter(cs, Known()), req)
  {
    MoreSpecificIsOrder();
    FindInSorted(cs, Hits(req), MoreSpecific);
    forall r | r in cs && Hits(req)(r) ensures Known()(r) {
      if Other(r) {
        OtherKindNeverHits(r, req);
      }
    }
    BestRestrict(cs, Hits(req), Known(), MoreSpecific);
    var known := Filter(cs, Known());
    FindInSorted(known, Hits(req), MoreSpecific);
    LinearSplits(known, req);
  }

  lemma PartsKnown(cs: seq<RouteConfig>, path: string)
    requires forall r :: r in cs ==> Plain(r)
    ensures Filter(Filter(cs, Known()), ExactAt(path)) == Filter(cs, ExactAt(path))
    ensures Filter(Filter(cs, Known()), HasNoPath()) == Filter(cs, HasNoPath())
  {
    FilterFilter(cs, Known(), ExactAt(path));
    FilterFilter(cs, Known(), HasNoPath());
  }

  /** The best, if it satisfies `q`, is the best of those that do. */
  lemma {:induction false} BestKept<T(!new)>(s: seq<T>, p: T -> bool, q: T -> bool, less: (T, T) -> bool)
    requires StrictWeakOrder(less)
    ensures Best(s, p, less).None? ==> Best(Filter(s, q), p, less).None?
    ensures Best(s, p, less).Some? && q(Best(s, p, less).value) ==> Best(Filter(s, q), p, less) == Best(s, p, less)
  {
    if Best(s, p, less).Some? && q(Best(s, p, less).value) {
      var k := BestPosition(s, p, less);
      var kept := Filter(s, q);
      var m := KeptAt(s, q, k);
      forall j | 0 <= j < |kept| ensures kept[j] in s { assert kept[j] in kept; }
      assert kept[m] == s[k];
      KeptBest(s, p, q, less, k, m);
    } else {
      assert forall j :: 0 <= j < |Filter(s, q)| ==> Filter(s, q)[j] in Filter(s, q);
    }
  }

  /** Where an element ends up in the filtered list: everything before came from before. */
  lemma {:induction false} KeptAt<T(!new)>(s: seq<T>, q: T -> bool, k: nat) returns (m: nat)
    requires k < |s| && q(s[k])
    ensures m < |Filter(s, q)| && Filter(s, q)[m] == s[k]
    ensures Filter(s, q)[..m] == Filter(s[..k], q)
  {
    assert s == s[..k] + s[k..];
    FilterConcat(s[..k], s[k..], q);
    m := |Filter(s[..k], q)|;
    assert Filter(s[k..], q)[0] == s[k];
  }

  lemma KeptBest<T(!new)>(s: seq<T>, p: T -> bool, q: T -> bool, less: (T, T) -> bool, k: nat, m: nat)
    requires StrictWeakOrder(less) && IsBestAt(s, p, less, k)
    requires m < |Filter(s, q)| && Filter(s, q)[m] == s[k] && Filter(s, q)[..m] == Filter(s[..k], q)
    ensures Best(Filter(s, q), p, less) == Some(s[k])
  {
    var kept := Filter(s, q);
    forall j | 0 <= j < |kept| && p(kept[j]) ensures !less(kept[j], kept[m]) {
      assert kept[j] in kept;
      var i :| 0 <= i < |s| && s[i] == kept[j];
    }
    forall j | 0 <= j < m && p(kept[j]) ensures less(kept[m], kept[j]) {
      assert kept[j] == kept[..m][j] && kept[j] in Filter(s[..k], q);
      var i :| 0 <= i < k && s[..k][i] == kept[j];
    }
    assert IsBestAt(kept, p, less, m);
    BestUnique(kept, p, less, m);
  }

  /** Unless it is answered by another kind of rule, a request is answered as without them. */
  lemma FastKnown(cs: seq<RouteConfig>, req: Request)
    requires forall r :: r in cs ==> Plain(r)
    requires FastIn(cs, req).None? || !Other(FastIn(cs, req).value)
    ensures FastIn(cs, req) == FastIn(Filter(cs, Known()), req)
  {
    var ps := Filter(cs, IsPrefixRule());
    PartsKnown(cs, req.path);
    FilterSwap(cs, Known(), IsPrefixRule());
    LongerPrefixIsOrder();
    FindInSorted(ps, PrefixHit(req), LongerPrefix);
    FindInSorted(Filter(ps, Known()), PrefixHit(req), LongerPrefix);
    BestKept(ps, PrefixHit(req), Known(), LongerPrefix);
  }

  lemma {:induction false} FilterSwap<T(!new)>(s: seq<T>, p: T -> bool, q: T -> bool)
    ensures Filter(Filter(s, p), q) == Filter(Filter(s, q), p)
  {
    if s != [] {
      FilterSwap(s[1..], p, q);
      FilterHead(s, p);
      FilterHead(s, q);
      FilterConcat(if p(s[0]) then [s[0]] else [], Filter(s[1..], p), q);
      FilterConcat(if q(s[0]) then [s[0]] else [], Filter(s[1..], q), p);
    }
  }

  ghost predicate SamePathRule(f: Option<RouteConfig>, l: Option<RouteConfig>) {
    (f.Some? <==> l.Some?) && (f.Some? ==> f.value.paths == l.value.paths)
  }

  /** Request by request, fast and linear agree on the path rule unless the fast answer is a
      rule of another kind. */
  lemma AgreeUnlessOther(routes: seq<RouteConfig>, req: Request)
    requires forall r :: r in routes ==> Plain(r)
    ensures SamePathRule(FastMatch(routes, req), LinearMatch(routes, req)) <==>
            !(FastMatch(routes, req).Some? && Other(FastMatch(routes, req).value))
  {
    var key := BucketKey(HostKeys(routes), req.host);
    if key.Some? {
      var cs := Filter(routes, OfHost(key.value));
      LinearKnown(cs, req);
      LinearIsKnown(Filter(cs, Known()), req);
      if FastIn(cs, req).None? || !Other(FastIn(cs, req).value) {
        FastKnown(cs, req);
        PartsAgree(Filter(cs, Known()), req);
      }
    }
  }

  lemma LinearIsKnown(cs: seq<RouteConfig>, req: Request)
    requires forall r :: r in cs ==> Simple(r)
    ensures LinearIn(cs, req).Some? ==> Simple(LinearIn(cs, req).value) && !Other(LinearIn(cs, req).value)
  {
    LinearSplits(cs, req);
    SortPermutes(cs, MoreSpecific);
  }

  /** They agree on the path rule of every request if and only if no rule of another kind
      surfaces in its host's bucket. */
  lemma OtherKindsAgreeExactly(routes: seq<RouteConfig>)
    requires forall r :: r in routes ==> Plain(r)
    ensures (forall req: Request :: SamePathRule(FastMatch(routes, req), LinearMatch(routes, req))) <==> NoneSurfaces(routes)
  {
    if NoneSurfaces(routes) {
      forall req: Request ensures SamePathRule(FastMatch(routes, req), LinearMatch(routes, req)) {
        AgreeUnlessOther(routes, req);
        NoneAnswers(routes, req);
      }
    } else {
      var h :| h in HostKeys(routes) && OtherSurfaces(Filter(routes, OfHost(h)));
      var req := SurfacingShows(routes, h);
      AgreeUnlessOther(routes, req);
    }
  }

  lemma NoneAnswers(routes: seq<RouteConfig>, req: Request)
    requires NoneSurfaces(routes)
    ensures !(FastMatch(routes, req).Some? && Other(FastMatch(routes, req).value))
  {
    var key := BucketKey(HostKeys(routes), req.host);
    if key.Some? && FastMatch(routes, req).Some? && Other(FastMatch(routes, req).value) {
      AnswerSurfaces(Filter(routes, OfHost(key.value)), req);
    }
  }

  lemma SurfacingShows(routes: seq<RouteConfig>, h: string) returns (req: Request)
    requires h in HostKeys(routes) && OtherSurfaces(Filter(routes, OfHost(h)))
    ensures FastMatch(routes, req).Some? && Other(FastMatch(routes, req).value)
  {
    var cs := Filter(routes, OfHost(h));
    var i :| 0 <= i < |PrefixRules(cs)| && Other(PrefixRules(cs)[i]) && Surfaces(cs, i);
    req := SurfacingAnswers(cs, i);
    req := req.(host := h);
  }

  lemma OrderedPartsAgree(cs: seq<RouteConfig>, req: Request)
    requires WellOrdered(Filter(cs, HasNoPath())) && WellOrdered(Filter(cs, ExactAt(req.path)))
    ensures FastIn(cs, req) == LinearIn(cs, req)
  {
    WellOrderedAgrees(Filter(cs, ExactAt(req.path)), req.verb, req.headers);
    WellOrderedAgrees(Filter(cs, HasNoPath()), req.verb, req.headers);
    assert Extra(req) == ExtraOf(req.verb, req.headers);
  }

  lemma NonIncreasingIsWellOrdered(bk: seq<RouteConfig>)
    requires forall i, j :: 0 <= i < j < |bk| ==> |bk[j].headerMatches| <= |bk[i].headerMatches|
    ensures WellOrdered(bk)
  {
  }
}
