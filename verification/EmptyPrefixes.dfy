/** Exactly when the fast matcher returns the route the linear one does. An empty Prefix rule
    takes every path that is empty or starts with a slash: the fast matcher asks it before the
    routes without a path, the linear one sorts it among them. */
module EmptyPrefixes {
  import opened Collections
  import opened Text
  import opened Types
  import opened Matching
  import opened Matcher
  import opened FastMatcher

  predicate Empty(r: RouteConfig) { |r.paths| == 1 && r.paths[0].kind.Prefix? && r.paths[0].path == "" }

  /** At most one path, of any kind. */
  predicate Ruled(r: RouteConfig) { |r.paths| <= 1 }

  function IsEmpty(): RouteConfig -> bool { (r: RouteConfig) => Empty(r) }
  function Blank(): RouteConfig -> bool { (r: RouteConfig) => r.paths == [] || Empty(r) }
  function Lengthy(): RouteConfig -> bool { (r: RouteConfig) => Simple(r) && r.paths != [] }
  function NotOther(): RouteConfig -> bool { (r: RouteConfig) => !Other(r) }

  // ---- Both matchers in parts ----

  lemma LengthyFirst(req: Request, x: RouteConfig, y: RouteConfig)
    requires Ruled(y) && Hits(req)(y) && Lengthy()(x) && !Lengthy()(y)
    ensures MoreSpecific(x, y) && Blank()(y)
  {
    if Other(y) {
      OtherKindNeverHits(y, req);
    }
  }

  /** The linear matcher asks the rules with a path that is not empty, then the others by their
      header count. */
  lemma LinearParts(cs: seq<RouteConfig>, req: Request)
    requires forall r :: r in cs ==> Ruled(r)
    ensures MostSpecificHit(cs, req) ==
      OrElse(LinearIn(Filter(cs, Lengthy()), req), Best(Filter(cs, Blank()), Hits(req), MoreHeaders))
  {
    var ls, rest := Filter(cs, Lengthy()), Filter(cs, Not(Lengthy()));
    MoreSpecificIsOrder();
    FindInSorted(cs, Hits(req), MoreSpecific);
    forall x, y | x in cs && y in cs && Hits(req)(x) && Lengthy()(x) && Hits(req)(y) && !Lengthy()(y) ensures MoreSpecific(x, y) {
      LengthyFirst(req, x, y);
    }
    BestDominated(cs, Hits(req), Lengthy(), MoreSpecific);
    FindInSorted(ls, Hits(req), MoreSpecific);
    LinearSplits(ls, req);
    BlankRest(cs, req);
  }

  lemma BlankRest(cs: seq<RouteConfig>, req: Request)
    requires forall r :: r in cs ==> Ruled(r)
    ensures Best(Filter(cs, Not(Lengthy())), Hits(req), MoreSpecific) == Best(Filter(cs, Blank()), Hits(req), MoreHeaders)
  {
    var rest := Filter(cs, Not(Lengthy()));
    forall x | x in rest && Hits(req)(x) ensures Blank()(x) {
      if Other(x) {
        OtherKindNeverHits(x, req);
      }
    }
    BestRestrict(rest, Hits(req), Blank(), MoreSpecific);
    FilterFilter(cs, Not(Lengthy()), Blank());
    BestSame(Filter(cs, Blank()), Hits(req), Hits(req), MoreSpecific, MoreHeaders);
  }

  /** A prefix list without rules of other kinds: the longer ones, then the empty ones. */
  lemma PrefixHalves(cs: seq<RouteConfig>, req: Request)
    requires forall r :: r in cs ==> Ruled(r)
    ensures Best(Filter(Filter(cs, IsPrefixRule()), NotOther()), PrefixHit(req), LongerPrefix) ==
      OrElse(FindFirst(PrefixRules(Filter(cs, Lengthy())), PrefixHit(req)), Best(Filter(cs, IsEmpty()), Hits(req), MoreHeaders))
  {
    var ps := Filter(cs, IsPrefixRule());
    var known := Filter(ps, NotOther());
    LongerPrefixIsOrder();
    BestDominated(known, PrefixHit(req), Lengthy(), LongerPrefix);
    FilterFilter(ps, NotOther(), Lengthy());
    FilterSwap(cs, IsPrefixRule(), Lengthy());
    FindInSorted(Filter(Filter(cs, Lengthy()), IsPrefixRule()), PrefixHit(req), LongerPrefix);
    EmptyHalf(cs, req);
  }

  lemma EmptyHalf(cs: seq<RouteConfig>, req: Request)
    requires forall r :: r in cs ==> Ruled(r)
    ensures Best(Filter(Filter(Filter(cs, IsPrefixRule()), NotOther()), Not(Lengthy())), PrefixHit(req), LongerPrefix) ==
      Best(Filter(cs, IsEmpty()), Hits(req), MoreHeaders)
  {
    EmptiesLeft(cs);
    var es := Filter(cs, IsEmpty());
    forall r | r in es ensures PrefixHit(req)(r) == Hits(req)(r) && Empty(r) {
      EmptyHit(r, req);
    }
    BestSame(es, PrefixHit(req), Hits(req), LongerPrefix, MoreHeaders);
  }

  lemma EmptiesLeft(cs: seq<RouteConfig>)
    requires forall r :: r in cs ==> Ruled(r)
    ensures Filter(Filter(Filter(cs, IsPrefixRule()), NotOther()), Not(Lengthy())) == Filter(cs, IsEmpty())
  {
    var ps := Filter(cs, IsPrefixRule());
    var known := Filter(ps, NotOther());
    forall r | r in known ensures Not(Lengthy())(r) == IsEmpty()(r) {
      assert r in ps && r in cs;
    }
    FilterSame(known, Not(Lengthy()), IsEmpty());
    FilterFilter(ps, NotOther(), IsEmpty());
    FilterFilter(cs, IsPrefixRule(), IsEmpty());
  }

  lemma EmptyHit(r: RouteConfig, req: Request)
    requires Empty(r)
    ensures Hits(req)(r) <==> (req.path == "" || req.path[0] == '/') && Extra(req)(r)
    ensures PrefixHit(req)(r) == Hits(req)(r)
  {
    assert AnyPathMatches(r.paths, req.path) <==> PathMatches(r.paths[0], req.path);
    assert req.path[..0] == "";
  }

  /** The fast matcher asks the same rules first, then the empty prefixes by header count, then
      the routes without a path in their order. */
  lemma FastParts(cs: seq<RouteConfig>, req: Request)
    requires forall r :: r in cs ==> Ruled(r)
    requires FastIn(cs, req).None? || !Other(FastIn(cs, req).value)
    ensures FastIn(cs, req) == OrElse(FastIn(Filter(cs, Lengthy()), req),
              OrElse(Best(Filter(cs, IsEmpty()), Hits(req), MoreHeaders), FindFirst(Filter(cs, HasNoPath()), Extra(req))))
  {
    var ps := Filter(cs, IsPrefixRule());
    LengthyParts(cs, req.path);
    LongerPrefixIsOrder();
    FindInSorted(ps, PrefixHit(req), LongerPrefix);
    BestKept(ps, PrefixHit(req), NotOther(), LongerPrefix);
    PrefixHalves(cs, req);
  }

  lemma LengthyParts(cs: seq<RouteConfig>, path: string)
    requires forall r :: r in cs ==> Ruled(r)
    ensures Filter(Filter(cs, Lengthy()), ExactAt(path)) == Filter(cs, ExactAt(path))
    ensures Filter(Filter(cs, Lengthy()), HasNoPath()) == []
  {
    FilterFilter(cs, Lengthy(), ExactAt(path));
    FilterNone(Filter(cs, Lengthy()), HasNoPath());
  }

  lemma BlankParts(cs: seq<RouteConfig>)
    ensures Filter(Filter(cs, Blank()), IsEmpty()) == Filter(cs, IsEmpty())
    ensures Filter(Filter(cs, Blank()), HasNoPath()) == Filter(cs, HasNoPath())
  {
    FilterFilter(cs, Blank(), IsEmpty());
    FilterFilter(cs, Blank(), HasNoPath());
  }

  // ---- Empty prefixes overtaken ----

  /** The linear matcher puts position `c` before position `e`. */
  predicate Ahead(bl: seq<RouteConfig>, c: nat, e: nat)
    requires c < |bl| && e < |bl|
  {
    !MoreHeaders(bl[e], bl[c]) && (MoreHeaders(bl[c], bl[e]) || c < e)
  }

  /** One request can satisfy the empty prefix and the route without a path; the latter is ahead
      of every empty prefix that takes the smallest such request; and nothing with a path has to
      take it, neither on the empty path nor below the slash. */
  ghost predicate Overtakes(cs: seq<RouteConfig>, e: nat, c: nat) {
    var bl := Filter(cs, Blank());
    && e < |bl| && c < |bl| && Empty(bl[e]) && bl[c].paths == []
    && ExactHeaders(bl[e]) && ExactHeaders(bl[c]) && CompatibleVerbs(bl[e], bl[c])
    && (forall k :: 0 <= k < |bl| && Empty(bl[k]) && ExtraMatches(bl[k], JointVerb(bl[e], bl[c]), JointHeaders(bl[e], bl[c])) ==> Ahead(bl, c, k))
    && (|| Free(Filter(cs, IsExactRule()), "", bl[e], bl[c])
        || Free(Filter(Filter(cs, Lengthy()), IsPrefixRule()), "/", bl[e], bl[c]))
  }

  ghost predicate Overtaken(cs: seq<RouteConfig>) { exists e, c :: Overtakes(cs, e, c) }

  ghost predicate NoneOvertaken(routes: seq<RouteConfig>) {
    forall h :: h in HostKeys(routes) ==> !Overtaken(Filter(routes, OfHost(h)))
  }

  lemma CatchAllHit(r: RouteConfig, req: Request)
    requires r.paths == []
    ensures Hits(req)(r) == Extra(req)(r)
  {
  }

  /** If no empty prefix takes the request, the header counts decide among routes without a path. */
  lemma BlankWithoutEmpty(cs: seq<RouteConfig>, req: Request)
    requires Best(Filter(cs, IsEmpty()), Hits(req), MoreHeaders).None?
    ensures Best(Filter(cs, Blank()), Hits(req), MoreHeaders) == Best(Filter(cs, HasNoPath()), Extra(req), MoreHeaders)
  {
    var bl, es, ns := Filter(cs, Blank()), Filter(cs, IsEmpty()), Filter(cs, HasNoPath());
    BlankParts(cs);
    assert forall x :: x in es ==> !Hits(req)(x);
    assert forall x :: x in bl && Hits(req)(x) ==> HasNoPath()(x);
    BestRestrict(bl, Hits(req), HasNoPath(), MoreHeaders);
    forall r | r in ns ensures Hits(req)(r) == Extra(req)(r) { CatchAllHit(r, req); }
    BestSame(ns, Hits(req), Extra(req), MoreHeaders, MoreHeaders);
  }

  lemma SlashRulesFree(ls: seq<RouteConfig>, a: RouteConfig, b: RouteConfig, req: Request)
    requires Extra(req)(a) && Extra(req)(b) && req.path != "" && req.path[0] == '/'
    requires FindFirst(PrefixRules(ls), PrefixHit(req)).None?
    ensures Free(Filter(ls, IsPrefixRule()), "/", a, b)
  {
    var ps := Filter(ls, IsPrefixRule());
    LongerPrefixIsOrder();
    FindInSorted(ps, PrefixHit(req), LongerPrefix);
    assert req.path[..1] == "/";
    forall k | 0 <= k < |ps| && ps[k].paths != [] && ps[k].paths[0].path == "/" ensures !Extra(req)(ps[k]) {
      assert !PrefixHit(req)(ps[k]);
    }
    FreeFrom(ps, "/", a, b, req);
  }

  lemma AheadOfTakers(bl: seq<RouteConfig>, req: Request, e: nat, c: nat)
    requires IsBestAt(bl, Hits(req), MoreHeaders, c) && e < |bl| && Extra(req)(bl[e]) && Extra(req)(bl[c]) && (req.path == "" || req.path[0] == '/')
    requires bl[c].paths == []
    ensures forall k :: 0 <= k < |bl| && Empty(bl[k]) && ExtraMatches(bl[k], JointVerb(bl[e], bl[c]), JointHeaders(bl[e], bl[c])) ==> Ahead(bl, c, k)
  {
    forall k | 0 <= k < |bl| && Empty(bl[k]) && ExtraMatches(bl[k], JointVerb(bl[e], bl[c]), JointHeaders(bl[e], bl[c])) ensures Ahead(bl, c, k) {
      JointMinimal(bl[e], bl[c], bl[k], req.verb, req.headers);
      EmptyHit(bl[k], req);
    }
  }

  /** A request the linear matcher gives to a route without a path although an empty prefix
      takes it shows that one is overtaken. */
  lemma OvertakingShown(cs: seq<RouteConfig>, req: Request, e: nat, c: nat)
    requires var bl := Filter(cs, Blank());
      && IsBestAt(bl, Hits(req), MoreHeaders, c) && bl[c].paths == [] && e < |bl| && Empty(bl[e]) && Hits(req)(bl[e])
    requires FastIn(Filter(cs, Lengthy()), req).None? && Filter(Filter(cs, Lengthy()), ExactAt(req.path)) == Filter(cs, ExactAt(req.path))
    ensures Overtakes(cs, e, c)
  {
    var bl, ls := Filter(cs, Blank()), Filter(cs, Lengthy());
    var x, y := bl[e], bl[c];
    EmptyHit(x, req);
    CatchAllHit(y, req);
    ExtraIsExact(x, req);
    ExtraIsExact(y, req);
    AheadOfTakers(bl, req, e, c);
    if req.path == "" {
      ExactFree(cs, x, y, req);
    } else {
      SlashRulesFree(ls, x, y, req);
    }
  }

  lemma BlankAgrees(cs: seq<RouteConfig>, req: Request)
    requires !Overtaken(cs) && WellOrdered(Filter(cs, HasNoPath()))
    requires FastIn(Filter(cs, Lengthy()), req).None? && Filter(Filter(cs, Lengthy()), ExactAt(req.path)) == Filter(cs, ExactAt(req.path))
    ensures OrElse(Best(Filter(cs, IsEmpty()), Hits(req), MoreHeaders), FindFirst(Filter(cs, HasNoPath()), Extra(req))) ==
            Best(Filter(cs, Blank()), Hits(req), MoreHeaders)
  {
    var bl, es := Filter(cs, Blank()), Filter(cs, IsEmpty());
    LongerPrefixIsOrder();
    BlankParts(cs);
    if Best(es, Hits(req), MoreHeaders).None? {
      BlankWithoutEmpty(cs, req);
      WellOrderedAgrees(Filter(cs, HasNoPath()), req.verb, req.headers);
      assert Extra(req) == ExtraOf(req.verb, req.headers);
    } else {
      var x := Best(es, Hits(req), MoreHeaders).value;
      assert x in bl;
      var e :| 0 <= e < |bl| && bl[e] == x;
      var c := BestPosition(bl, Hits(req), MoreHeaders);
      assert bl[c] in bl;
      if Empty(bl[c]) {
        BestKept(bl, Hits(req), IsEmpty(), MoreHeaders);
      } else {
        OvertakingShown(cs, req, e, c);
      }
    }
  }

  lemma BucketAgrees(cs: seq<RouteConfig>, req: Request)
    requires forall r :: r in cs ==> Ruled(r)
    requires WellOrdered(Filter(cs, HasNoPath())) && WellOrdered(Filter(cs, ExactAt(req.path))) && !Overtaken(cs)
    requires FastIn(cs, req).None? || !Other(FastIn(cs, req).value)
    ensures FastIn(cs, req) == MostSpecificHit(cs, req)
  {
    FastParts(cs, req);
    LinearParts(cs, req);
    LengthyParts(cs, req.path);
    OrderedPartsAgree(Filter(cs, Lengthy()), req);
    if FastIn(Filter(cs, Lengthy()), req).None? {
      BlankAgrees(cs, req);
    }
  }

  // ---- Every disorder shows ----

  predicate Asks(req: Request, a: RouteConfig, b: RouteConfig) { req.verb == JointVerb(a, b) && req.headers == JointHeaders(a, b) }

  lemma ExactDiffers(cs: seq<RouteConfig>, f: nat, m: nat, req: Request)
    requires forall r :: r in cs ==> Ruled(r)
    requires var bk := Filter(cs, ExactAt(req.path)); Inverted(bk, f, m) && Asks(req, bk[f], bk[m])
    ensures FastIn(cs, req) != MostSpecificHit(cs, req)
  {
    var bk := Filter(cs, ExactAt(req.path));
    InversionDiverges(bk, f, m);
    JointHits(bk[f], bk[m]);
    LinearParts(cs, req);
    LengthyParts(cs, req.path);
    assert Extra(req) == ExtraOf(req.verb, req.headers);
    assert Extra(req)(bk[f]);
  }

  /** A path no rule knows leaves the choice to the routes without a path. */
  lemma FarRequest(cs: seq<RouteConfig>, req: Request)
    requires (forall r :: r in cs ==> Ruled(r)) && req.path == Label(Longest(cs) + 1)
    ensures FastIn(cs, req) == FindFirst(Filter(cs, HasNoPath()), Extra(req))
    ensures MostSpecificHit(cs, req) == Best(Filter(cs, HasNoPath()), Extra(req), MoreHeaders)
  {
    FarParts(cs, req, Longest(cs) + 1);
    FarParts(Filter(cs, Lengthy()), req, Longest(cs) + 1);
    LinearParts(cs, req);
    LengthyParts(cs, req.path);
    FarEmpties(cs, req);
    BlankWithoutEmpty(cs, req);
  }

  lemma FarParts(cs: seq<RouteConfig>, req: Request, n: nat)
    requires req.path == Label(n) && forall r :: r in cs && r.paths != [] ==> |r.paths[0].path| < n
    ensures FastIn(cs, req) == FindFirst(Filter(cs, HasNoPath()), Extra(req))
    ensures LinearIn(cs, req) == Best(Filter(cs, HasNoPath()), Extra(req), MoreHeaders)
  {
    NoExactAt(cs, req.path);
    NoPrefixHit(cs, req, n);
  }

  lemma FarEmpties(cs: seq<RouteConfig>, req: Request)
    requires req.path != "" && req.path[0] != '/'
    ensures Best(Filter(cs, IsEmpty()), Hits(req), MoreHeaders).None?
  {
    var es := Filter(cs, IsEmpty());
    forall i | 0 <= i < |es| ensures !Hits(req)(es[i]) {
      assert es[i] in es;
      EmptyHit(es[i], req);
    }
  }

  lemma CatchAllDiffers(cs: seq<RouteConfig>, f: nat, m: nat, req: Request)
    requires (forall r :: r in cs ==> Ruled(r)) && req.path == Label(Longest(cs) + 1)
    requires var bk := Filter(cs, HasNoPath()); Inverted(bk, f, m) && Asks(req, bk[f], bk[m])
    ensures FastIn(cs, req) != MostSpecificHit(cs, req)
  {
    InversionDiverges(Filter(cs, HasNoPath()), f, m);
    FarRequest(cs, req);
    assert Extra(req) == ExtraOf(req.verb, req.headers);
  }

  /** The request that shows a disorder in a bucket. */
  lemma DisorderRequest(cs: seq<RouteConfig>, h: string) returns (req: Request)
    requires forall r :: r in cs ==> Ruled(r)
    requires !WellOrdered(Filter(cs, HasNoPath())) || exists path: string :: !WellOrdered(Filter(cs, ExactAt(path)))
    ensures req.host == h && FastIn(cs, req) != MostSpecificHit(cs, req)
  {
    if !WellOrdered(Filter(cs, HasNoPath())) {
      var bk := Filter(cs, HasNoPath());
      var f: nat, m: nat :| Inverted(bk, f, m);
      req := Request(h, Label(Longest(cs) + 1), JointVerb(bk[f], bk[m]), JointHeaders(bk[f], bk[m]), 0);
      CatchAllDiffers(cs, f, m, req);
    } else {
      var path: string :| !WellOrdered(Filter(cs, ExactAt(path)));
      var bk := Filter(cs, ExactAt(path));
      var f: nat, m: nat :| Inverted(bk, f, m);
      req := Request(h, path, JointVerb(bk[f], bk[m]), JointHeaders(bk[f], bk[m]), 0);
      ExactDiffers(cs, f, m, req);
    }
  }

  lemma DisorderShows(routes: seq<RouteConfig>)
    requires forall r :: r in routes ==> Ruled(r)
    requires !BucketsWellOrdered(routes)
    ensures !SameAnswers(routes)
  {
    var h :| h in HostKeys(routes) &&
      !(WellOrdered(Filter(Filter(routes, OfHost(h)), HasNoPath())) && forall path: string :: WellOrdered(Filter(Filter(routes, OfHost(h)), ExactAt(path))));
    var req := DisorderRequest(Filter(routes, OfHost(h)), h);
    BucketDiffers(routes, req);
  }

  /** Where the request of an overtaking goes: past every rule with a path. */
  ghost function OpenPath(cs: seq<RouteConfig>, a: RouteConfig, b: RouteConfig): string {
    if Free(Filter(cs, IsExactRule()), "", a, b) then "" else Below("", Longest(cs) + 1)
  }

  lemma LengthyMiss(cs: seq<RouteConfig>, e: nat, c: nat, req: Request)
    requires (forall r :: r in cs ==> Ruled(r)) && Overtakes(cs, e, c)
    requires var bl := Filter(cs, Blank()); Asks(req, bl[e], bl[c]) && req.path == OpenPath(cs, bl[e], bl[c])
    ensures FindFirst(Filter(cs, ExactAt(req.path)), Extra(req)).None?
    ensures FindFirst(PrefixRules(Filter(cs, Lengthy())), PrefixHit(req)).None?
  {
    var bl, ls := Filter(cs, Blank()), Filter(cs, Lengthy());
    if req.path == "" {
      ExactRulesMiss(cs, req, bl[e], bl[c]);
    } else {
      NoExactAt(cs, req.path);
    }
    var ps := Filter(ls, IsPrefixRule());
    LongerPrefixIsOrder();
    FindInSorted(ps, PrefixHit(req), LongerPrefix);
    forall k | 0 <= k < |ps| ensures !PrefixHit(req)(ps[k]) {
      assert ps[k] in ps && ps[k] in cs;
      if PrefixMatches(ps[k].paths[0].path, req.path) && req.path != "" {
        BelowOnly("", Longest(cs) + 1, ps[k].paths[0].path);
      }
    }
  }

  lemma OvertakingDiffers(cs: seq<RouteConfig>, e: nat, c: nat, req: Request)
    requires (forall r :: r in cs ==> Ruled(r)) && Overtakes(cs, e, c)
    requires var bl := Filter(cs, Blank()); Asks(req, bl[e], bl[c]) && req.path == OpenPath(cs, bl[e], bl[c])
    requires FastIn(cs, req).None? || !Other(FastIn(cs, req).value)
    ensures FastIn(cs, req) != MostSpecificHit(cs, req)
  {
    var bl, ls := Filter(cs, Blank()), Filter(cs, Lengthy());
    LengthyMiss(cs, e, c, req);
    FastParts(cs, req);
    LinearParts(cs, req);
    LengthyParts(cs, req.path);
    assert FastIn(ls, req).None? && LinearIn(ls, req).None?;
    BlankDiffers(cs, e, c, req);
  }

  lemma BlankDiffers(cs: seq<RouteConfig>, e: nat, c: nat, req: Request)
    requires Overtakes(cs, e, c)
    requires var bl := Filter(cs, Blank()); Asks(req, bl[e], bl[c]) && (req.path == "" || req.path[0] == '/')
    ensures var es := Best(Filter(cs, IsEmpty()), Hits(req), MoreHeaders);
      es.Some? && es != Best(Filter(cs, Blank()), Hits(req), MoreHeaders)
  {
    var bl, es := Filter(cs, Blank()), Filter(cs, IsEmpty());
    JointHits(bl[e], bl[c]);
    EmptyHit(bl[e], req);
    CatchAllHit(bl[c], req);
    assert bl[e] in bl && bl[e] in es;
    LongerPrefixIsOrder();
    forall i | 0 <= i < |bl| && Empty(bl[i]) && Hits(req)(bl[i]) ensures Ahead(bl, c, i) {
      EmptyHit(bl[i], req);
    }
    var k := BestPosition(bl, Hits(req), MoreHeaders);
    assert !Empty(bl[k]);
  }

  lemma OvertakingRequest(cs: seq<RouteConfig>, h: string) returns (req: Request)
    requires forall r :: r in cs ==> Ruled(r)
    requires Overtaken(cs) && !OtherSurfaces(cs)
    ensures req.host == h && FastIn(cs, req) != MostSpecificHit(cs, req)
  {
    var e: nat, c: nat :| Overtakes(cs, e, c);
    var bl := Filter(cs, Blank());
    req := Request(h, OpenPath(cs, bl[e], bl[c]), JointVerb(bl[e], bl[c]), JointHeaders(bl[e], bl[c]), 0);
    if FastIn(cs, req).Some? && Other(FastIn(cs, req).value) {
      AnswerSurfaces(cs, req);
    }
    OvertakingDiffers(cs, e, c, req);
  }

  lemma OvertakingShows(routes: seq<RouteConfig>)
    requires forall r :: r in routes ==> Ruled(r)
    requires !NoneOvertaken(routes) && NoneSurfaces(routes)
    ensures !SameAnswers(routes)
  {
    var h :| h in HostKeys(routes) && Overtaken(Filter(routes, OfHost(h)));
    var req := OvertakingRequest(Filter(routes, OfHost(h)), h);
    BucketDiffers(routes, req);
  }

  lemma SurfacingDiffers(routes: seq<RouteConfig>)
    requires forall r :: r in routes ==> Ruled(r)
    requires !NoneSurfaces(routes)
    ensures !SameAnswers(routes)
  {
    var h :| h in HostKeys(routes) && OtherSurfaces(Filter(routes, OfHost(h)));
    var req := SurfacingShows(routes, h);
    var key := BucketKey(HostKeys(routes), req.host);
    var cs := Filter(routes, OfHost(key.value));
    if LinearMatch(routes, req).Some? {
      MoreSpecificIsOrder();
      FindInSorted(cs, Hits(req), MoreSpecific);
      if Other(LinearMatch(routes, req).value) {
        OtherKindNeverHits(LinearMatch(routes, req).value, req);
      }
    }
  }

  /** Routes with at most one path each, as the compiler emits them: fast and linear return the
      same route for every request if and only if no bucket holds an inversion, no rule of
      another kind surfaces and no empty prefix is overtaken. */
  lemma SameRouteExactly(routes: seq<RouteConfig>)
    requires forall r :: r in routes ==> Ruled(r)
    ensures SameAnswers(routes) <==> BucketsWellOrdered(routes) && NoneSurfaces(routes) && NoneOvertaken(routes)
  {
    if !NoneSurfaces(routes) {
      SurfacingDiffers(routes);
    } else if !BucketsWellOrdered(routes) {
      DisorderShows(routes);
    } else if !NoneOvertaken(routes) {
      OvertakingShows(routes);
    } else {
      forall req: Request ensures FastMatch(routes, req) == LinearMatch(routes, req) {
        OrderedBucketsAgree(routes, req);
      }
    }
  }

  lemma OrderedBucketsAgree(routes: seq<RouteConfig>, req: Request)
    requires forall r :: r in routes ==> Ruled(r)
    requires BucketsWellOrdered(routes) && NoneSurfaces(routes) && NoneOvertaken(routes)
    ensures FastMatch(routes, req) == LinearMatch(routes, req)
  {
    var key := BucketKey(HostKeys(routes), req.host);
    if key.Some? {
      NoneAnswers(routes, req);
      BucketAgrees(Filter(routes, OfHost(key.value)), req);
    }
  }
}
