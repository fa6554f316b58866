/** One rule of a route compiled into RouteConfigs: exactly one per match entry. */
module Rules {
  import opened Collections
  import opened Types
  import opened Store

  // ---- Filters ----

  function PairsToMap(ps: seq<(string, string)>): map<string, string> {
    if ps == [] then map[] else PairsToMap(ps[..|ps| - 1])[ps[|ps| - 1].0 := ps[|ps| - 1].1]
  }

  /** The value a key has last. */
  ghost predicate LastPair(ps: seq<(string, string)>, k: string, v: string) {
    exists i :: 0 <= i < |ps| && ps[i] == (k, v) && forall j :: i < j < |ps| ==> ps[j].0 != k
  }

  ghost predicate MapOf(m: map<string, string>, ps: seq<(string, string)>) {
    forall k, v :: k in m && m[k] == v <==> LastPair(ps, k, v)
  }

  lemma LastPairStep(ps: seq<(string, string)>, k: string, v: string)
    requires ps != []
    ensures LastPair(ps, k, v) <==> ps[|ps| - 1] == (k, v) || (ps[|ps| - 1].0 != k && LastPair(ps[..|ps| - 1], k, v))
  {
    var n := |ps| - 1;
    if i :| 0 <= i < n && ps[..n][i] == (k, v) && (forall j :: i < j < n ==> ps[..n][j].0 != k) && ps[n].0 != k {
      assert ps[i] == (k, v);
      assert forall j :: i < j < n ==> ps[j] == ps[..n][j];
    }
    if i :| 0 <= i < n && ps[i] == (k, v) && forall j :: i < j < |ps| ==> ps[j].0 != k {
      assert ps[..n][i] == (k, v);
    }
  }

  /** Of several pairs with one key the last counts. */
  lemma {:induction false} PairsExactly(ps: seq<(string, string)>)
    ensures MapOf(PairsToMap(ps), ps)
  {
    if ps != [] {
      PairsExactly(ps[..|ps| - 1]);
      forall k, v ensures k in PairsToMap(ps) && PairsToMap(ps)[k] == v <==> LastPair(ps, k, v) {
        LastPairStep(ps, k, v);
      }
    }
  }

  function RedirectOf(f: HttpFilter): Redirect
    requires f.RequestRedirect?
  {
    Redirect(GetOr(f.scheme, ""), GetOr(f.hostname, ""), GetOr(f.port, 0), GetOr(f.path, ""), GetOr(f.pathType, ""), f.statusCode)
  }

  function AddFilter(acc: (RuleFilters, Option<Cors>), f: HttpFilter): (RuleFilters, Option<Cors>) {
    var fs := acc.0;
    match f
    case RequestHeaderModifier(add, set_, remove) =>
      (fs.(requestHeaders := Some(HeaderMutation(PairsToMap(add), PairsToMap(set_), remove))), acc.1)
    case ResponseHeaderModifier(add, set_, remove) =>
      (fs.(responseHeaders := Some(HeaderMutation(PairsToMap(add), PairsToMap(set_), remove))), acc.1)
    case RequestRedirect(_, _, _, _, _, _) => (fs.(redirect := Some(RedirectOf(f))), acc.1)
    case URLRewrite(hostname, path, pathType) =>
      (fs.(urlRewrite := Some(UrlRewrite(GetOr(hostname, ""), GetOr(path, ""), GetOr(pathType, "")))), acc.1)
    case RequestMirror(name, port, percent) => (fs.(mirrors := fs.mirrors + [MirrorBackend(name, port, percent)]), acc.1)
    case CorsFilter(cors) => (fs, Some(cors))
  }

  /** The filters of a rule, shared by all its match entries. */
  function FoldFilters(filters: seq<HttpFilter>): (RuleFilters, Option<Cors>) {
    if filters == [] then (NO_FILTERS, None) else AddFilter(FoldFilters(filters[..|filters| - 1]), filters[|filters| - 1])
  }

  predicate SameKind(f: HttpFilter, g: HttpFilter) {
    match f
    case RequestHeaderModifier(_, _, _) => g.RequestHeaderModifier?
    case ResponseHeaderModifier(_, _, _) => g.ResponseHeaderModifier?
    case RequestRedirect(_, _, _, _, _, _) => g.RequestRedirect?
    case URLRewrite(_, _, _) => g.URLRewrite?
    case RequestMirror(_, _, _) => g.RequestMirror?
    case CorsFilter(_) => g.CorsFilter?
  }

  ghost predicate MutationIs(m: Option<HeaderMutation>, add: seq<(string, string)>, set_: seq<(string, string)>, remove: seq<string>) {
    m.Some? && MapOf(m.value.add, add) && MapOf(m.value.set_, set_) && m.value.remove == remove
  }

  /** Where nothing is given the compiled text is empty. */
  predicate Says(text: string, given: Option<string>) {
    match given
    case None => text == ""
    case Some(t) => text == t
  }

  /** The compiled filters carry `f`: alone in its slot, or last of the mirrors. */
  ghost predicate Carries(acc: (RuleFilters, Option<Cors>), f: HttpFilter) {
    match f
    case RequestHeaderModifier(add, set_, remove) => MutationIs(acc.0.requestHeaders, add, set_, remove)
    case ResponseHeaderModifier(add, set_, remove) => MutationIs(acc.0.responseHeaders, add, set_, remove)
    case RequestRedirect(scheme, hostname, port, path, pathType, statusCode) =>
      && acc.0.redirect.Some? && var r := acc.0.redirect.value;
      && Says(r.scheme, scheme) && Says(r.hostname, hostname) && Says(r.path, path) && Says(r.pathType, pathType)
      && (port.Some? ==> r.port == port.value) && (port.None? ==> r.port == 0) && r.statusCode == statusCode
    case URLRewrite(hostname, path, pathType) =>
      && acc.0.urlRewrite.Some? && var r := acc.0.urlRewrite.value;
      && Says(r.hostname, hostname) && Says(r.path, path) && Says(r.pathType, pathType)
    case RequestMirror(name, port, percent) =>
      && acc.0.mirrors != [] && var m := acc.0.mirrors[|acc.0.mirrors| - 1];
      && m.serviceName == name && m.port == port && m.percent == percent
    case CorsFilter(cors) => acc.1 == Some(cors)
  }

  lemma AddedCarried(acc: (RuleFilters, Option<Cors>), f: HttpFilter)
    ensures Carries(AddFilter(acc, f), f)
  {
    match f
    case RequestHeaderModifier(add, set_, _) => PairsExactly(add); PairsExactly(set_);
    case ResponseHeaderModifier(add, set_, _) => PairsExactly(add); PairsExactly(set_);
    case _ =>
  }

  lemma OtherKindKeeps(acc: (RuleFilters, Option<Cors>), f: HttpFilter, g: HttpFilter)
    requires Carries(acc, f) && !SameKind(f, g)
    ensures Carries(AddFilter(acc, g), f)
  {
  }

  /** Of several filters of one kind the last is compiled, whatever filters of other kinds
      stand after it. */
  lemma {:induction false} LastFilterWins(init: seq<HttpFilter>, f: HttpFilter, tail: seq<HttpFilter>)
    requires forall i :: 0 <= i < |tail| ==> !SameKind(f, tail[i])
    ensures Carries(FoldFilters(init + [f] + tail), f)
  {
    var all := init + [f] + tail;
    if tail == [] {
      assert all[..|all| - 1] == init && all[|all| - 1] == f;
      AddedCarried(FoldFilters(init), f);
    } else {
      LastFilterWins(init, f, tail[..|tail| - 1]);
      assert all[..|all| - 1] == init + [f] + tail[..|tail| - 1];
      assert all[|all| - 1] == tail[|tail| - 1];
      OtherKindKeeps(FoldFilters(init + [f] + tail[..|tail| - 1]), f, tail[|tail| - 1]);
    }
  }

  /** A slot is filled exactly when there is a filter of its kind. */
  ghost predicate SlotsSay(fs: RuleFilters, cors: Option<Cors>, filters: seq<HttpFilter>) {
    && (fs.requestHeaders.Some? <==> exists i :: 0 <= i < |filters| && filters[i].RequestHeaderModifier?)
    && (fs.responseHeaders.Some? <==> exists i :: 0 <= i < |filters| && filters[i].ResponseHeaderModifier?)
    && (fs.redirect.Some? <==> exists i :: 0 <= i < |filters| && filters[i].RequestRedirect?)
    && (fs.urlRewrite.Some? <==> exists i :: 0 <= i < |filters| && filters[i].URLRewrite?)
    && (cors.Some? <==> exists i :: 0 <= i < |filters| && filters[i].CorsFilter?)
  }

  lemma SlotsAdd(acc: (RuleFilters, Option<Cors>), front: seq<HttpFilter>, f: HttpFilter)
    requires SlotsSay(acc.0, acc.1, front)
    ensures SlotsSay(AddFilter(acc, f).0, AddFilter(acc, f).1, front + [f])
  {
    var all := front + [f];
    assert all[|front|] == f && forall i :: 0 <= i < |front| ==> all[i] == front[i];
  }

  lemma {:induction false} SlotsFilled(filters: seq<HttpFilter>)
    ensures SlotsSay(FoldFilters(filters).0, FoldFilters(filters).1, filters)
  {
    if filters != [] {
      var n := |filters| - 1;
      SlotsFilled(filters[..n]);
      assert filters == filters[..n] + [filters[n]];
      SlotsAdd(FoldFilters(filters[..n]), filters[..n], filters[n]);
    }
  }

  function MirrorOf(f: HttpFilter): seq<MirrorBackend> {
    if f.RequestMirror? then [MirrorBackend(f.backendName, f.backendPort, f.percent)] else []
  }

  /** Mirrors accumulate, in the order the rule lists them. */
  lemma {:induction false} MirrorsAccumulate(filters: seq<HttpFilter>)
    ensures FoldFilters(filters).0.mirrors == FlatMap(filters, MirrorOf)
  {
    if filters != [] {
      var n := |filters| - 1;
      MirrorsAccumulate(filters[..n]);
      FlatMapStep(filters, n, MirrorOf);
      assert filters[..n + 1] == filters;
    }
  }

  // ---- Backends ----

  function IsModifier(): HttpFilter -> bool { (f: HttpFilter) => f.RequestHeaderModifier? }

  /** The first request-header modifier of a backendRef. */
  function BackendMutation(filters: seq<HttpFilter>): Option<HeaderMutation> {
    var m := FindFirst(filters, IsModifier());
    if m.None? then None else Some(HeaderMutation(PairsToMap(m.value.add), PairsToMap(m.value.set_), m.value.remove))
  }

  predicate NeedsWeights(refs: seq<BackendRef>, filtersCount: bool) {
    |refs| > 1 || exists i :: 0 <= i < |refs| && (refs[i].weight != 1 || (filtersCount && refs[i].filters != []))
  }

  function WeightedBackends(refs: seq<BackendRef>): seq<WeightedBackend> {
    if NeedsWeights(refs, true)
    then Map(refs, (b: BackendRef) => WeightedBackend(b.name, b.port, b.weight, BackendMutation(b.filters)))
    else []
  }

  /** The first request-header modifier of a backendRef, if it has one, and no other. */
  lemma FirstModifier(filters: seq<HttpFilter>)
    ensures BackendMutation(filters).None? <==> forall i :: 0 <= i < |filters| ==> !filters[i].RequestHeaderModifier?
    ensures forall i :: 0 <= i < |filters| && filters[i].RequestHeaderModifier? && (forall j :: 0 <= j < i ==> !filters[j].RequestHeaderModifier?) ==>
      MutationIs(BackendMutation(filters), filters[i].add, filters[i].set_, filters[i].remove)
  {
    forall i | 0 <= i < |filters| && filters[i].RequestHeaderModifier? && (forall j :: 0 <= j < i ==> !filters[j].RequestHeaderModifier?)
      ensures MutationIs(BackendMutation(filters), filters[i].add, filters[i].set_, filters[i].remove)
    {
      FirstFound(filters, i, IsModifier());
      PairsExactly(filters[i].add);
      PairsExactly(filters[i].set_);
    }
  }

  // ---- HTTP ----

  function Entries<M>(matches: seq<M>): seq<Option<M>> {
    if matches == [] then [None] else Map(matches, (m: M) => Some(m))
  }

  function EntryPaths(e: Option<RouteMatch>): seq<PathRule> {
    if e.Some? && e.value.path.Some? then [e.value.path.value] else []
  }

  function TrafficOf(rule: HttpRule): Traffic {
    Traffic(GetOr(rule.requestTimeoutMs, 0), GetOr(rule.backendRequestTimeoutMs, 0), None,
            if rule.retry.Some? then rule.retry.value.attempts else 0,
            if rule.retry.Some? then rule.retry.value.codes else [], [], FoldFilters(rule.filters).1)
  }

  /** The RouteConfig of one match entry; the primary backend is the first one, if any. */
  function EntryConfig(rule: HttpRule, e: Option<RouteMatch>, host: string, tag: ListenerTag): RouteConfig {
    RouteConfig(
      host, EntryPaths(e),
      if e.Some? then e.value.headers else [],
      if e.Some? then GetOr(e.value.verb, "") else "",
      if e.Some? then e.value.queryParams else [],
      None, tag,
      if rule.backendRefs == [] then "" else rule.backendRefs[0].name,
      if rule.backendRefs == [] then 0 else rule.backendRefs[0].port,
      "HTTP", WeightedBackends(rule.backendRefs), FoldFilters(rule.filters).0, TrafficOf(rule), NO_POLICY, "")
  }

  function RuleConfigs(rule: HttpRule, host: string, tag: ListenerTag): seq<RouteConfig> {
    Map(Entries(rule.matches), (e: Option<RouteMatch>) => EntryConfig(rule, e, host, tag))
  }

  method CollectFilters(filters: seq<HttpFilter>) returns (fs: RuleFilters, cors: Option<Cors>)
    ensures (fs, cors) == FoldFilters(filters)
  {
    fs, cors := NO_FILTERS, None;
    for i := 0 to |filters|
      invariant (fs, cors) == FoldFilters(filters[..i])
    {
      assert filters[..i + 1][..i] == filters[..i];
      match filters[i] {
        case RequestHeaderModifier(add, set_, remove) =>
          fs := fs.(requestHeaders := Some(HeaderMutation(PairsToMap(add), PairsToMap(set_), remove)));
        case ResponseHeaderModifier(add, set_, remove) =>
          fs := fs.(responseHeaders := Some(HeaderMutation(PairsToMap(add), PairsToMap(set_), remove)));
        case RequestRedirect(_, _, _, _, _, _) => fs := fs.(redirect := Some(RedirectOf(filters[i])));
        case URLRewrite(hostname, path, pathType) =>
          fs := fs.(urlRewrite := Some(UrlRewrite(GetOr(hostname, ""), GetOr(path, ""), GetOr(pathType, ""))));
        case RequestMirror(name, port, percent) => fs := fs.(mirrors := fs.mirrors + [MirrorBackend(name, port, percent)]);
        case CorsFilter(c) => cors := Some(c);
      }
    }
    assert filters[..|filters|] == filters;
  }

  function Blank(e: Option<RouteMatch>, host: string, tag: ListenerTag, fs: RuleFilters, traffic: Traffic): RouteConfig {
    RouteConfig(
      host, EntryPaths(e), if e.Some? then e.value.headers else [],
      if e.Some? then GetOr(e.value.verb, "") else "", if e.Some? then e.value.queryParams else [],
      None, tag, "", 0, "HTTP", [], fs, traffic, NO_POLICY, "")
  }

  /** The three branches for one match entry. The last loops over the backendRefs, yet yields
      exactly one RouteConfig: with several backends the weighted branch is taken. */
  method PushEntry(blank: RouteConfig, refs: seq<BackendRef>, acc: seq<RouteConfig>) returns (result: seq<RouteConfig>)
    requires blank.serviceName == "" && blank.port == 0 && blank.weightedBackends == []
    ensures result == acc + [blank.(serviceName := if refs == [] then "" else refs[0].name,
                                    port := if refs == [] then 0 else refs[0].port,
                                    weightedBackends := WeightedBackends(refs))]
  {
    var weighted := WeightedBackends(refs);
    result := acc;
    if weighted != [] {
      result := result + [blank.(serviceName := refs[0].name, port := refs[0].port, weightedBackends := weighted)];
    } else if refs == [] {
      result := result + [blank];
    } else {
      assert |refs| == 1;
      for j := 0 to |refs|
        invariant result == acc + if j == 0 then [] else [blank.(serviceName := refs[0].name, port := refs[0].port)]
      {
        result := result + [blank.(serviceName := refs[j].name, port := refs[j].port)];
      }
    }
  }

  lemma EntryIsBlankPlus(rule: HttpRule, e: Option<RouteMatch>, host: string, tag: ListenerTag)
    ensures EntryConfig(rule, e, host, tag) ==
      Blank(e, host, tag, FoldFilters(rule.filters).0, TrafficOf(rule)).(
        serviceName := if rule.backendRefs == [] then "" else rule.backendRefs[0].name,
        port := if rule.backendRefs == [] then 0 else rule.backendRefs[0].port,
        weightedBackends := WeightedBackends(rule.backendRefs))
  {
  }

  /** `compile_http_rule`. */
  method CompileHttpRule(rule: HttpRule, defaultHost: string, tag: ListenerTag) returns (result: seq<RouteConfig>)
    ensures result == RuleConfigs(rule, defaultHost, tag)
  {
    var fs, cors := CollectFilters(rule.filters);
    var traffic := TrafficOf(rule);
    var entries := Entries(rule.matches);
    ghost var configs := RuleConfigs(rule, defaultHost, tag);
    result := [];
    for i := 0 to |entries|
      invariant result == configs[..i]
    {
      var e := entries[i];
      EntryIsBlankPlus(rule, e, defaultHost, tag);
      result := PushEntry(Blank(e, defaultHost, tag, fs, traffic), rule.backendRefs, result);
      assert configs[i] == EntryConfig(rule, e, defaultHost, tag);
      TakeStep(configs, i);
    }
  }

  // ---- gRPC ----

  function GrpcPath(m: GrpcRouteMatch): string {
    var service, rpc := GetOr(m.service, ""), GetOr(m.rpc, "");
    if service != "" && rpc != "" then "/" + service + "/" + rpc
    else if service != "" then "/" + service
    else "/"
  }

  function GrpcWeighted(refs: seq<BackendRef>): seq<WeightedBackend> {
    if NeedsWeights(refs, false) then Map(refs, (b: BackendRef) => WeightedBackend(b.name, b.port, b.weight, None)) else []
  }

  function GrpcEntryConfig(rule: GrpcRule, e: Option<GrpcRouteMatch>, host: string, tag: ListenerTag): RouteConfig {
    RouteConfig(
      host,
      if e.Some? then [PathRule(GrpcPath(e.value), Prefix)] else [],
      if e.Some? then e.value.headers else [],
      "", [],
      if e.Some? then Some(GrpcMatch(GetOr(e.value.service, ""), GetOr(e.value.rpc, ""), e.value.kind)) else None,
      tag,
      if rule.backendRefs == [] then "" else rule.backendRefs[0].name,
      if rule.backendRefs == [] then 0 else rule.backendRefs[0].port,
      "GRPC", GrpcWeighted(rule.backendRefs), NO_FILTERS, NO_TRAFFIC, NO_POLICY, "")
  }

  function GrpcBlank(e: Option<GrpcRouteMatch>, host: string, tag: ListenerTag): RouteConfig {
    RouteConfig(
      host, if e.Some? then [PathRule(GrpcPath(e.value), Prefix)] else [], if e.Some? then e.value.headers else [], "", [],
      if e.Some? then Some(GrpcMatch(GetOr(e.value.service, ""), GetOr(e.value.rpc, ""), e.value.kind)) else None,
      tag, "", 0, "GRPC", [], NO_FILTERS, NO_TRAFFIC, NO_POLICY, "")
  }

  lemma GrpcEntryIsBlankPlus(rule: GrpcRule, e: Option<GrpcRouteMatch>, host: string, tag: ListenerTag)
    ensures GrpcEntryConfig(rule, e, host, tag) ==
      GrpcBlank(e, host, tag).(
        serviceName := if rule.backendRefs == [] then "" else rule.backendRefs[0].name,
        port := if rule.backendRefs == [] then 0 else rule.backendRefs[0].port,
        weightedBackends := GrpcWeighted(rule.backendRefs))
  {
  }
}
