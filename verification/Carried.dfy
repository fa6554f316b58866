/** What a compiled route carries beside its match criteria: listener and owner, backends and
    weights, filters, traffic settings, and the effects of policies. */
module Carried {
  import opened Collections
  import opened Text
  import opened Types
  import opened Store
  import opened Rules
  import opened Compiler
  import opened Meaning
  import opened Effects
  import opened Preservation
  import Policies
  import Slicing

  // ---- Listener and owner ----

  /** The listener is named as the parentRef names it, or by its own name; without a hostname it
      is the catch-all. */
  ghost predicate TagSays(snap: Snapshot, site: Site, tag: ListenerTag) {
    && tag.name == (match site.parent.section case Some(name) => name case None => site.listener.name)
    && tag.port == site.listener.port && Says(tag.hostname, site.listener.hostname)
    && OwnedBy(snap, site.parent, tag.gateway)
  }

  lemma TagCarried(snap: Snapshot, site: Site)
    ensures TagSays(snap, site, TagFor(snap, site.parent, site.listener))
  {
    OwnerExactly(snap, site.parent, OwnerGateway(snap, site.parent));
  }

  // ---- Backends ----

  function BackendRefsOf(b: Binding): seq<BackendRef> {
    match b
    case HttpBinding(_, _, _, rule, _, _) => rule.backendRefs
    case GrpcBinding(_, _, _, rule, _, _) => rule.backendRefs
  }

  /** Weights are compiled for several backends, or for one that is not plain; on HTTP routes a
      backend with filters of its own is not. */
  predicate Weighed(refs: seq<BackendRef>, http: bool) {
    |refs| > 1 || (|refs| == 1 && (refs[0].weight != 1 || (http && refs[0].filters != [])))
  }

  ghost predicate SameBackend(w: WeightedBackend, ref: BackendRef, http: bool) {
    && w.serviceName == ref.name && w.port == ref.port && w.weight == ref.weight
    && (http ==> ModifierSays(w.requestHeaders, ref.filters)) && (!http ==> w.requestHeaders.None?)
  }

  /** The first request-header modifier of the backend, if it has one. */
  ghost predicate ModifierSays(m: Option<HeaderMutation>, filters: seq<HttpFilter>) {
    && (m.None? <==> forall i :: 0 <= i < |filters| ==> !filters[i].RequestHeaderModifier?)
    && forall i :: FirstModifierAt(filters, i) ==> MutationIs(m, filters[i].add, filters[i].set_, filters[i].remove)
  }

  predicate FirstModifierAt(filters: seq<HttpFilter>, i: int) {
    0 <= i < |filters| && filters[i].RequestHeaderModifier? && forall j :: 0 <= j < i ==> !filters[j].RequestHeaderModifier?
  }

  /** The primary is the first backend, none where its grant is gone, and the weighted backends
      are the rule's, in order. */
  ghost predicate ForwardsTo(r: RouteConfig, refs: seq<BackendRef>, http: bool, denied: bool) {
    && (denied || refs == [] ==> r.serviceName == "" && r.port == 0)
    && (!denied && refs != [] ==> r.serviceName == refs[0].name && r.port == refs[0].port)
    && |r.weightedBackends| == (if Weighed(refs, http) then |refs| else 0)
    && forall i :: 0 <= i < |r.weightedBackends| ==> SameBackend(r.weightedBackends[i], refs[i], http)
  }

  /** The first backend is in another namespace and no grant opens it; for gRPC only a single
      backend without weight is asked for its grant. */
  predicate PrimaryDenied(snap: Snapshot, b: Binding) {
    var refs := BackendRefsOf(b);
    refs != [] &&
    match b
    case HttpBinding(_, hr, _, _, _, _) => refs[0].name != "" && !Granted(snap.grants, hr.namespace, "HTTPRoute", refs[0].namespace, refs[0].name)
    case GrpcBinding(_, gr, _, _, _, _) =>
      !Weighed(refs, false) && !Granted(snap.grants, gr.namespace, "GRPCRoute", refs[0].namespace, refs[0].name)
  }

  lemma WeighedExactly(refs: seq<BackendRef>, http: bool)
    ensures NeedsWeights(refs, http) <==> Weighed(refs, http)
  {
  }

  lemma ModifierCarried(filters: seq<HttpFilter>)
    ensures ModifierSays(BackendMutation(filters), filters)
  {
    FirstModifier(filters);
  }

  lemma WeightsCarried(refs: seq<BackendRef>, http: bool)
    ensures var ws := if http then WeightedBackends(refs) else GrpcWeighted(refs);
      && |ws| == (if Weighed(refs, http) then |refs| else 0)
      && forall i :: 0 <= i < |ws| ==> SameBackend(ws[i], refs[i], http)
  {
    WeighedExactly(refs, http);
    var ws := if http then WeightedBackends(refs) else GrpcWeighted(refs);
    forall i | 0 <= i < |ws| ensures SameBackend(ws[i], refs[i], http) {
      ModifierCarried(refs[i].filters);
    }
  }

  lemma EmissionCarries(snap: Snapshot, b: Binding)
    ensures EmissionOf(snap, b).route ==
      if PrimaryDenied(snap, b) then Uncleared(snap, b).(serviceName := "", port := 0) else Uncleared(snap, b)
  {
    var refs := BackendRefsOf(b);
    if refs != [] {
      match b {
        case HttpBinding(_, hr, _, rule, _, _) =>
          ClearsPrimary(snap, hr.namespace, refs, Uncleared(snap, b));
          GrantedExactly(snap.grants, hr.namespace, "HTTPRoute", refs[0].namespace, refs[0].name);
        case GrpcBinding(_, gr, _, rule, _, _) =>
          WeighedExactly(refs, false);
          GrantedExactly(snap.grants, gr.namespace, "GRPCRoute", refs[0].namespace, refs[0].name);
      }
    }
  }

  // ---- Filters and traffic ----

  /** The last filter of each kind, all mirrors in order, and nothing else. */
  ghost predicate FiltersSay(fs: RuleFilters, cors: Option<Cors>, filters: seq<HttpFilter>) {
    LastCarried(fs, cors, filters) && SlotsSay(fs, cors, filters) && fs.mirrors == FlatMap(filters, MirrorOf)
  }

  ghost predicate LastCarried(fs: RuleFilters, cors: Option<Cors>, filters: seq<HttpFilter>) {
    forall i :: LastOfKind(filters, i) ==> Rules.Carries((fs, cors), filters[i])
  }

  predicate LastOfKind(filters: seq<HttpFilter>, i: int) {
    0 <= i < |filters| && forall j :: i < j < |filters| ==> !SameKind(filters[i], filters[j])
  }

  lemma LastFilterCarried(filters: seq<HttpFilter>, i: int)
    requires LastOfKind(filters, i)
    ensures Rules.Carries(FoldFilters(filters), filters[i])
  {
    LastFilterWins(filters[..i], filters[i], filters[i + 1..]);
    assert filters[..i] + [filters[i]] + filters[i + 1..] == filters;
  }

  lemma FiltersCarried(filters: seq<HttpFilter>)
    ensures FiltersSay(FoldFilters(filters).0, FoldFilters(filters).1, filters)
  {
    SlotsFilled(filters);
    MirrorsAccumulate(filters);
    var acc := FoldFilters(filters);
    assert acc == (acc.0, acc.1);
    forall i | LastOfKind(filters, i) ensures Rules.Carries((acc.0, acc.1), filters[i]) {
      LastFilterCarried(filters, i);
    }
  }

  predicate Amount(n: nat, given: Option<nat>) {
    match given
    case None => n == 0
    case Some(m) => n == m
  }

  /** A rule's timeouts and retries land in their own fields; only a policy sets the others. */
  predicate TrafficSays(t: Traffic, rule: HttpRule) {
    && Amount(t.requestTimeoutMs, rule.requestTimeoutMs) && Amount(t.backendRequestTimeoutMs, rule.backendRequestTimeoutMs)
    && t.connectTimeoutMs.None? && t.retryOn == []
    && (rule.retry.Some? ==> t.maxRetries == rule.retry.value.attempts && t.retryCodes == rule.retry.value.codes)
    && (rule.retry.None? ==> t.maxRetries == 0 && t.retryCodes == [])
  }

  // ---- Together ----

  /** What the rule alone says of the route. */
  ghost predicate RuleSays(snap: Snapshot, b: Binding, r: RouteConfig) {
    && r.host == b.host && TagSays(snap, b.site, r.listener) && r.aiFederation == ""
    && ForwardsTo(r, BackendRefsOf(b), b.HttpBinding?, PrimaryDenied(snap, b))
    && r.policy == NO_POLICY
    && match b
       case HttpBinding(_, _, _, rule, _, e) =>
         && r.protocol == "HTTP" && r.grpcMatch.None?
         && r.queryParamMatches == (match e case Some(m) => m.queryParams case None => [])
         && FiltersSay(r.filters, r.traffic.cors, rule.filters) && TrafficSays(r.traffic, rule)
       case GrpcBinding(_, _, _, rule, _, e) =>
         && r.protocol == "GRPC" && r.queryParamMatches == [] && r.filters == NO_FILTERS && r.traffic == NO_TRAFFIC
         && (match e
             case None => r.grpcMatch.None?
             case Some(m) => r.grpcMatch.Some? && Says(r.grpcMatch.value.service, m.service) && Says(r.grpcMatch.value.rpc, m.rpc) &&
                             r.grpcMatch.value.kind == m.kind)
  }

  lemma HttpRuleSays(snap: Snapshot, b: Binding)
    requires b.HttpBinding?
    ensures RuleSays(snap, b, EmissionOf(snap, b).route)
  {
    TagCarried(snap, b.site);
    FiltersCarried(b.httpRule.filters);
    WeightsCarried(b.httpRule.backendRefs, true);
    EmissionCarries(snap, b);
  }

  lemma GrpcRuleSays(snap: Snapshot, b: Binding)
    requires b.GrpcBinding?
    ensures RuleSays(snap, b, EmissionOf(snap, b).route)
  {
    TagCarried(snap, b.site);
    WeightsCarried(b.grpcRule.backendRefs, false);
    EmissionCarries(snap, b);
  }

  /** The compiled route is what its rule says, changed by the governing policies and by nothing
      else. */
  lemma CompiledCarries(snap: Snapshot, b: Binding)
    ensures var plain, r := EmissionOf(snap, b).route, CompiledFrom(snap, b);
      && RuleSays(snap, b, plain)
      && r == plain.(traffic := r.traffic, policy := r.policy)
      && PoliciesSay(snap.policies, EmissionOf(snap, b).source, plain, r)
  {
    if b.HttpBinding? {
      HttpRuleSays(snap, b);
    } else {
      GrpcRuleSays(snap, b);
    }
    PolicyEffects(snap.policies, EmissionOf(snap, b).source, EmissionOf(snap, b).route);
    PoliciesFramed(snap, b);
  }

  // ---- Slices by owner ----

  /** A compiled route is in the slice of the Gateway that owns it, and in no other. */
  lemma SliceOfOwner(snap: Snapshot, h: Slicing.Hasher, c: Slicing.CompiledConfig, b: Binding, gw: NamespacedName)
    requires Reason(snap, b) && c.routes == CompiledRoutes(snap)
    ensures CompiledFrom(snap, b) in Slicing.Scope(h, c, gw).routes <==> OwnedBy(snap, b.site.parent, gw)
  {
    SliceRoutes(snap, h, c, gw);
    CompiledOwner(snap, Some(gw), b);
    ReasonCompiled(snap, None, b);
  }

  /** So a route attached through a ListenerSet is served by the data planes of the ListenerSet's
      parent Gateway, and by no others. */
  lemma ListenerSetServed(snap: Snapshot, h: Slicing.Hasher, c: Slicing.CompiledConfig, b: Binding)
    requires Reason(snap, b) && b.site.parent.kind.ListenerSetParent? && c.routes == CompiledRoutes(snap)
    ensures var key := NamespacedName(b.site.parent.namespace, b.site.parent.name);
      && key in snap.listenerSets && snap.listenerSets[key].accepted
      && forall gw :: CompiledFrom(snap, b) in Slicing.Scope(h, c, gw).routes <==> gw == snap.listenerSets[key].parentGateway
  {
    forall gw ensures CompiledFrom(snap, b) in Slicing.Scope(h, c, gw).routes <==> OwnedBy(snap, b.site.parent, gw) {
      SliceOfOwner(snap, h, c, b, gw);
    }
  }
}
