/** Compiling and then matching means what the stored objects say: a request is answered by
    a compiled route exactly when the store holds a reason for it. */
module Preservation {
  import opened Collections
  import opened Text
  import opened Hostnames
  import opened Types
  import opened Policies
  import opened Store
  import opened Rules
  import opened Compiler
  import opened Listeners
  import opened Matching
  import opened Matcher
  import opened Meaning
  import Slicing

  // ---- Compiled criteria ----

  lemma SinglePath(paths: seq<PathRule>, rule: PathRule, path: string)
    requires paths == [rule]
    ensures AnyPathMatches(paths, path) <==> PathSatisfied(rule, path)
  {
    PrefixAsked(rule.path, path);
    assert paths[0] == rule;
  }

  lemma HeadersAsked(hms: seq<HeaderMatch>, headers: seq<(string, string)>)
    ensures (forall i :: 0 <= i < |hms| ==> HeaderMatches(hms[i], headers)) <==> HeadersSatisfied(hms, headers)
  {
    forall i | 0 <= i < |hms| ensures HeaderMatches(hms[i], headers) <==> hms[i].kind.ExactHeader? && HeaderGiven(hms[i], headers) {}
  }

  lemma HttpEntryMatches(rule: HttpRule, e: Option<RouteMatch>, host: string, tag: ListenerTag, req: Request)
    ensures RouteMatches(EntryConfig(rule, e, host, tag), req) <==> HttpSatisfied(e, req)
  {
    HeadersAsked(EntryConfig(rule, e, host, tag).headerMatches, req.headers);
    if e.Some? && e.value.path.Some? {
      SinglePath(EntryPaths(e), e.value.path.value, req.path);
    }
  }

  lemma GrpcEntryMatches(rule: GrpcRule, e: Option<GrpcRouteMatch>, host: string, tag: ListenerTag, req: Request)
    ensures RouteMatches(GrpcEntryConfig(rule, e, host, tag), req) <==> GrpcSatisfied(e, req)
  {
    HeadersAsked(GrpcEntryConfig(rule, e, host, tag).headerMatches, req.headers);
    if e.Some? {
      SinglePath([PathRule(GrpcPath(e.value), Prefix)], PathRule(GrpcPath(e.value), Prefix), req.path);
      GrpcPathAsked(e.value);
    }
  }

  /** Fields a route is matched by. */
  predicate SameCriteria(a: RouteConfig, b: RouteConfig) {
    && a.host == b.host && a.listener == b.listener && a.paths == b.paths
    && a.methodMatch == b.methodMatch && a.headerMatches == b.headerMatches
  }

  function Uncleared(snap: Snapshot, b: Binding): RouteConfig {
    var tag := TagFor(snap, b.site.parent, b.site.listener);
    match b
    case HttpBinding(_, _, _, rule, host, e) => EntryConfig(rule, e, host, tag)
    case GrpcBinding(_, _, _, rule, host, e) => GrpcEntryConfig(rule, e, host, tag)
  }

  lemma RoutingKeeps(a: RouteConfig, b: RouteConfig)
    requires SameRouting(a, b)
    ensures SameCriteria(a, b) && a.filters == b.filters && a.serviceName == b.serviceName && a.port == b.port && a.weightedBackends == b.weightedBackends
  {
  }

  /** Policies leave what a route is matched and forwarded by alone. */
  lemma PoliciesFramed(snap: Snapshot, b: Binding)
    ensures SameRouting(EmissionOf(snap, b).route, CompiledFrom(snap, b))
  {
  }

  lemma ClearingKeeps(snap: Snapshot, b: Binding)
    ensures SameCriteria(Uncleared(snap, b), EmissionOf(snap, b).route)
  {
  }

  lemma CompiledCriteria(snap: Snapshot, b: Binding)
    ensures SameCriteria(Uncleared(snap, b), CompiledFrom(snap, b))
  {
    ClearingKeeps(snap, b);
    PoliciesFramed(snap, b);
    RoutingKeeps(EmissionOf(snap, b).route, CompiledFrom(snap, b));
  }

  /** Compiled criteria hold of a request exactly when the match entry does. */
  lemma CompiledMatches(snap: Snapshot, b: Binding, req: Request)
    ensures RouteMatches(CompiledFrom(snap, b), req) <==> Satisfied(b, req)
  {
    CompiledCriteria(snap, b);
    var tag := TagFor(snap, b.site.parent, b.site.listener);
    match b {
      case HttpBinding(_, _, _, rule, host, e) => HttpEntryMatches(rule, e, host, tag, req);
      case GrpcBinding(_, _, _, rule, host, e) => GrpcEntryMatches(rule, e, host, tag, req);
    }
  }

  // ---- Listener and bucket, in terms of the store ----

  function ListenerName(b: Binding): string { GetOr(b.site.listener.hostname, "") }

  predicate BindingOnPort(b: Binding, port: nat) {
    port == 0 || b.site.listener.port == 0 || b.site.listener.port == port
  }

  /** The bindings of one Gateway, its own and those of its ListenerSets; `None` for all. */
  predicate Owned(snap: Snapshot, part: Option<NamespacedName>, b: Binding) {
    part.None? || OwnedBy(snap, b.site.parent, part.value)
  }

  function NamesOn(snap: Snapshot, part: Option<NamespacedName>, port: nat): set<string> {
    set b | b in Bindings(snap) && Owned(snap, part, b) && BindingOnPort(b, port) :: ListenerName(b)
  }

  function HostsOn(snap: Snapshot, part: Option<NamespacedName>, port: nat, lh: string): set<string> {
    set b | b in Bindings(snap) && Owned(snap, part, b) && BindingOnPort(b, port) && ListenerName(b) == lh :: b.host
  }

  /** What a data plane matches on: everything compiled, or the slice of its Gateway. */
  function PartRoutes(snap: Snapshot, part: Option<NamespacedName>): seq<RouteConfig> {
    if part.None? then CompiledRoutes(snap) else Filter(CompiledRoutes(snap), Slicing.RouteOf(part.value))
  }

  lemma CompiledOwner(snap: Snapshot, part: Option<NamespacedName>, b: Binding)
    ensures Owned(snap, part, b) <==> part.None? || Slicing.RouteOf(part.value)(CompiledFrom(snap, b))
  {
    CompiledCriteria(snap, b);
    if part.Some? {
      OwnerExactly(snap, b.site.parent, part.value);
    }
  }

  lemma ValidIsReason(snap: Snapshot, b: Binding)
    ensures Valid(snap, b) <==> Reason(snap, b)
  {
    BindingsExact(snap, b);
    ReasonsVisited(snap, b);
  }

  lemma PartHasReason(snap: Snapshot, part: Option<NamespacedName>, r: RouteConfig) returns (b: Binding)
    requires r in PartRoutes(snap, part)
    ensures Valid(snap, b) && Owned(snap, part, b) && CompiledFrom(snap, b) == r
  {
    b := CompiledHasReason(snap, r);
    CompiledOwner(snap, part, b);
  }

  lemma ReasonInPart(snap: Snapshot, part: Option<NamespacedName>, b: Binding)
    requires Valid(snap, b) && Owned(snap, part, b)
    ensures CompiledFrom(snap, b) in PartRoutes(snap, part)
  {
    ReasonIsCompiled(snap, b);
    CompiledOwner(snap, part, b);
  }

  /** Listener precedence: exact, then longer wildcard, then catch-all. */
  predicate Beats(x: string, y: string, host: string) {
    if ExactFor(x, host) != ExactFor(y, host) then ExactFor(x, host)
    else if ExactFor(x, host) then false
    else if WildcardFor(x, host) != WildcardFor(y, host) then WildcardFor(x, host)
    else WildcardFor(x, host) && |x| > |y|
  }

  /** `lh` wins among `names`: nothing beats it, and it is first of its equals. */
  ghost predicate Wins(lh: string, names: set<string>, host: string) {
    && lh in names && Serves(lh, host)
    && forall y :: y in names && Serves(y, host) && y != lh ==> !Beats(y, lh, host) && (Beats(lh, y, host) || LexLess(lh, y))
  }

  lemma ScoreIsPrecedence(x: string, y: string, host: string)
    requires SuffixesScoreBelowExact(host) && Serves(x, host) && Serves(y, host)
    ensures HigherScore(host)(x, y) <==> Beats(x, y, host)
  {
    ServesScored(x, host);
    ServesScored(y, host);
    assert !IsWildcard("");
    WildcardLower(host);
    WildcardLower(x);
    WildcardLower(y);
    if WildcardFor(x, host) { WildcardDot(x, host); }
    if WildcardFor(y, host) { WildcardDot(y, host); }
  }

  lemma SelectionWins(host: string, lhs: seq<string>, names: set<string>)
    requires SuffixesScoreBelowExact(host) && StrictlySorted(lhs)
    requires forall x :: x in lhs <==> x in names
    ensures forall lh :: SelectListener(host, lhs) == Some(lh) <==> Wins(lh, names, host)
  {
    var p, less := Scored(host), HigherScore(host);
    HigherScoreIsOrder(host);
    forall x ensures Serves(x, host) <==> p(x) { ServesScored(x, host); }
    var chosen := SelectListener(host, lhs);
    if chosen.Some? {
      var k := BestPosition(lhs, p, less);
      forall y | y in names && Serves(y, host) && y != lhs[k]
        ensures !Beats(y, lhs[k], host) && (Beats(lhs[k], y, host) || LexLess(lhs[k], y))
      {
        var j :| 0 <= j < |lhs| && lhs[j] == y;
        ScoreIsPrecedence(y, lhs[k], host);
        ScoreIsPrecedence(lhs[k], y, host);
      }
      assert Wins(lhs[k], names, host);
      forall lh | Wins(lh, names, host) ensures lh == lhs[k] {
        WinnerUnique(lh, lhs[k], names, host);
      }
    } else {
      forall lh ensures !Wins(lh, names, host) {
        if lh in lhs {
          var j :| 0 <= j < |lhs| && lhs[j] == lh;
          assert !p(lhs[j]);
        }
      }
    }
  }

  lemma WinnerUnique(x: string, y: string, names: set<string>, host: string)
    requires Wins(x, names, host) && Wins(y, names, host)
    ensures x == y
  {
    LexIsOrder();
  }

  // ---- The main theorem ----

  /** Binding `b` is a reason to answer `req`, on everything or for one Gateway. */
  ghost predicate Answers(snap: Snapshot, part: Option<NamespacedName>, req: Request, b: Binding) {
    && Reason(snap, b) && Owned(snap, part, b) && BindingOnPort(b, req.port)
    && Wins(ListenerName(b), NamesOn(snap, part, req.port), req.host)
    && IsBucket(HostsOn(snap, part, req.port, ListenerName(b)), req.host, b.host)
    && Satisfied(b, req)
  }

  lemma CompiledOnPort(snap: Snapshot, b: Binding, port: nat)
    ensures PortOk(CompiledFrom(snap, b), port) <==> BindingOnPort(b, port)
    ensures CompiledFrom(snap, b).listener.hostname == ListenerName(b) && CompiledFrom(snap, b).host == b.host
  {
    CompiledCriteria(snap, b);
  }

  lemma NamesAgree(snap: Snapshot, part: Option<NamespacedName>, port: nat, x: string)
    ensures x in BTreeOf(ListenerHostnames(Scoped(PartRoutes(snap, part), port))) <==> x in NamesOn(snap, part, port)
  {
    var routes := PartRoutes(snap, part);
    HostnamesOnPort(routes, port, x);
    if r :| r in routes && PortOk(r, port) && r.listener.hostname == x {
      var b := PartHasReason(snap, part, r);
      BindingsExact(snap, b);
      CompiledOnPort(snap, b, port);
    }
    if b :| b in Bindings(snap) && Owned(snap, part, b) && BindingOnPort(b, port) && ListenerName(b) == x {
      BindingsExact(snap, b);
      ReasonInPart(snap, part, b);
      CompiledOnPort(snap, b, port);
    }
  }

  lemma HostsAgree(snap: Snapshot, part: Option<NamespacedName>, port: nat, lh: string)
    ensures HostKeys(ListenerRoutes(PartRoutes(snap, part), port, lh)) == HostsOn(snap, part, port, lh)
  {
    var routes := PartRoutes(snap, part);
    var mine := ListenerRoutes(routes, port, lh);
    forall h | h in HostKeys(mine) ensures h in HostsOn(snap, part, port, lh) {
      var r :| r in mine && r.host == h;
      assert r in Scoped(routes, port);
      var b := PartHasReason(snap, part, r);
      BindingsExact(snap, b);
      CompiledOnPort(snap, b, port);
    }
    forall h | h in HostsOn(snap, part, port, lh) ensures h in HostKeys(mine) {
      var b :| b in Bindings(snap) && Owned(snap, part, b) && BindingOnPort(b, port) && ListenerName(b) == lh && b.host == h;
      BindingsExact(snap, b);
      ReasonInPart(snap, part, b);
      CompiledOnPort(snap, b, port);
      assert CompiledFrom(snap, b) in Scoped(routes, port);
      assert CompiledFrom(snap, b) in mine;
    }
  }

  lemma ChoiceAgrees(snap: Snapshot, part: Option<NamespacedName>, host: string, port: nat, lh: string)
    requires SuffixesScoreBelowExact(host)
    ensures ChosenListener(PartRoutes(snap, part), host, port) == Some(lh) <==> Wins(lh, NamesOn(snap, part, port), host)
  {
    var names := ListenerHostnames(Scoped(PartRoutes(snap, part), port));
    BTreeOfContents(names);
    forall x ensures x in BTreeOf(names) <==> x in NamesOn(snap, part, port) { NamesAgree(snap, part, port, x); }
    SelectionWins(host, BTreeOf(names), NamesOn(snap, part, port));
  }

  /** A reason for a compiled route is one to answer exactly when the route is eligible. */
  lemma AnswersIffEligible(snap: Snapshot, part: Option<NamespacedName>, req: Request, b: Binding)
    requires SuffixesScoreBelowExact(req.host) && Reason(snap, b) && Owned(snap, part, b)
    ensures Answers(snap, part, req, b) <==> Eligible(PartRoutes(snap, part), req, CompiledFrom(snap, b))
  {
    ReasonCompiled(snap, part, b);
    CompiledOnPort(snap, b, req.port);
    CompiledMatches(snap, b, req);
    ChoiceAgrees(snap, part, req.host, req.port, ListenerName(b));
    BucketAgrees(snap, part, req.host, req.port, ListenerName(b), b.host);
  }

  lemma ReasonCompiled(snap: Snapshot, part: Option<NamespacedName>, b: Binding)
    requires Reason(snap, b) && Owned(snap, part, b)
    ensures CompiledFrom(snap, b) in PartRoutes(snap, part)
  {
    ValidIsReason(snap, b);
    ReasonInPart(snap, part, b);
  }

  lemma BucketAgrees(snap: Snapshot, part: Option<NamespacedName>, host: string, port: nat, lh: string, key: string)
    ensures BucketIn(ListenerRoutes(PartRoutes(snap, part), port, lh), host) == Some(key) <==> IsBucket(HostsOn(snap, part, port, lh), host, key)
  {
    HostsAgree(snap, part, port, lh);
    BucketExactly(HostsOn(snap, part, port, lh), host, key);
  }

  predicate Ranked(r: RouteConfig, rank: Rank) {
    FirstIsExact(r) == rank.exact && FirstLength(r) == rank.length && |r.headerMatches| == rank.headers
  }

  lemma UnclearedRank(snap: Snapshot, b: Binding)
    ensures Ranked(Uncleared(snap, b), RankOf(b))
  {
    match b {
      case HttpBinding(_, _, _, _, _, e) =>
      case GrpcBinding(_, _, _, _, _, e) =>
        if e.Some? {
          assert |GrpcPath(e.value)| == GrpcLength(e.value);
        }
    }
  }

  /** The compiled route ranks as its match entry does. */
  lemma CompiledRank(snap: Snapshot, b: Binding)
    ensures Ranked(CompiledFrom(snap, b), RankOf(b))
  {
    CompiledCriteria(snap, b);
    UnclearedRank(snap, b);
    RankFramed(Uncleared(snap, b), CompiledFrom(snap, b), RankOf(b));
  }

  lemma RankFramed(a: RouteConfig, b: RouteConfig, rank: Rank)
    requires SameCriteria(a, b) && Ranked(a, rank)
    ensures Ranked(b, rank)
  {
  }

  lemma RanksAgree(snap: Snapshot, b: Binding, c: Binding)
    ensures MoreSpecific(CompiledFrom(snap, c), CompiledFrom(snap, b)) <==> Outranks(RankOf(c), RankOf(b))
  {
    CompiledRank(snap, b);
    CompiledRank(snap, c);
  }

  /** A reason to answer that no other outranks. */
  ghost predicate BestAnswer(snap: Snapshot, part: Option<NamespacedName>, req: Request, b: Binding) {
    && Answers(snap, part, req, b)
    && forall c :: Answers(snap, part, req, c) ==> !Outranks(RankOf(c), RankOf(b))
  }

  lemma AnswerIsEligible(snap: Snapshot, part: Option<NamespacedName>, req: Request, b: Binding)
    requires SuffixesScoreBelowExact(req.host) && Answers(snap, part, req, b)
    ensures Eligible(PartRoutes(snap, part), req, CompiledFrom(snap, b))
  {
    AnswersIffEligible(snap, part, req, b);
  }

  lemma FoundIsBestAnswer(snap: Snapshot, part: Option<NamespacedName>, req: Request) returns (b: Binding)
    requires SuffixesScoreBelowExact(req.host) && MatchRequest(PartRoutes(snap, part), req).Some?
    ensures BestAnswer(snap, part, req, b) && CompiledFrom(snap, b) == MatchRequest(PartRoutes(snap, part), req).value
  {
    var found := MatchRequest(PartRoutes(snap, part), req);
    MatchCharacterized(PartRoutes(snap, part), req);
    b := PartHasReason(snap, part, found.value);
    ValidIsReason(snap, b);
    AnswersIffEligible(snap, part, req, b);
    forall c | Answers(snap, part, req, c) ensures !Outranks(RankOf(c), RankOf(b)) {
      AnswerIsEligible(snap, part, req, c);
      RanksAgree(snap, b, c);
    }
  }

  /** A route is found exactly when the store has a reason to answer the request, and then one
      compiled from a most specific reason. */
  ghost predicate FoundFor(snap: Snapshot, part: Option<NamespacedName>, req: Request, found: Option<RouteConfig>) {
    && (found.None? <==> forall b :: !Answers(snap, part, req, b))
    && (found.Some? ==> exists b :: BestAnswer(snap, part, req, b) && CompiledFrom(snap, b) == found.value)
  }

  lemma NothingFound(snap: Snapshot, part: Option<NamespacedName>, req: Request, b: Binding)
    requires SuffixesScoreBelowExact(req.host) && MatchRequest(PartRoutes(snap, part), req).None?
    ensures !Answers(snap, part, req, b)
  {
    if Answers(snap, part, req, b) {
      AnswerIsEligible(snap, part, req, b);
      MatchCharacterized(PartRoutes(snap, part), req);
    }
  }

  lemma BestIsFound(snap: Snapshot, part: Option<NamespacedName>, req: Request, b: Binding, found: Option<RouteConfig>)
    requires BestAnswer(snap, part, req, b) && found == Some(CompiledFrom(snap, b))
    ensures FoundFor(snap, part, req, found)
  {
  }

  lemma PartThenMatch(snap: Snapshot, part: Option<NamespacedName>, req: Request)
    requires SuffixesScoreBelowExact(req.host)
    ensures FoundFor(snap, part, req, MatchRequest(PartRoutes(snap, part), req))
  {
    var found := MatchRequest(PartRoutes(snap, part), req);
    if found.Some? {
      var b := FoundIsBestAnswer(snap, part, req);
      BestIsFound(snap, part, req, b, found);
    } else {
      forall b ensures !Answers(snap, part, req, b) {
        NothingFound(snap, part, req, b);
      }
    }
  }

  /** Compile, then match on everything compiled. */
  lemma CompileThenMatch(snap: Snapshot, req: Request)
    requires SuffixesScoreBelowExact(req.host)
    ensures FoundFor(snap, None, req, MatchRequest(CompiledRoutes(snap), req))
  {
    PartThenMatch(snap, None, req);
  }

  lemma SliceRoutes(snap: Snapshot, h: Slicing.Hasher, c: Slicing.CompiledConfig, gw: NamespacedName)
    requires c.routes == CompiledRoutes(snap)
    ensures Slicing.Scope(h, c, gw).routes == PartRoutes(snap, Some(gw))
  {
  }

  /** Compile, slice, then match: a data plane on the slice of a Gateway answers exactly by the
      bindings that Gateway owns, as if no other were stored. */
  lemma SliceThenMatch(snap: Snapshot, h: Slicing.Hasher, c: Slicing.CompiledConfig, gw: NamespacedName, req: Request)
    requires SuffixesScoreBelowExact(req.host) && c.routes == CompiledRoutes(snap)
    ensures FoundFor(snap, Some(gw), req, MatchRequest(Slicing.Scope(h, c, gw).routes, req))
  {
    SliceRoutes(snap, h, c, gw);
    PartThenMatch(snap, Some(gw), req);
  }
}
