/** What the stored objects say, without the compiler's or the matcher's own tests: which
    listener a route is attached to, who owns it, what a match entry asks of a request, which
    entry is more specific, and which references are granted. */
module Meaning {
  import opened Collections
  import opened Text
  import opened Hostnames
  import opened Types
  import opened Store
  import opened Rules
  import opened Matching
  import opened Compiler

  // ---- What a match entry asks of a request ----

  predicate PathSatisfied(rule: PathRule, path: string) {
    match rule.kind
    case Exact => path == rule.path
    case Prefix => Begins(Elements(path), Elements(rule.path))
    case OtherKind(_) => false
  }

  /** Some request header has the name, up to letter case, and the value. */
  predicate HeaderGiven(hm: HeaderMatch, headers: seq<(string, string)>) {
    exists i :: 0 <= i < |headers| && Lower(headers[i].0) == Lower(hm.name) && headers[i].1 == hm.value
  }

  /** Every header asked for is asked for exactly, and given. */
  predicate HeadersSatisfied(hms: seq<HeaderMatch>, headers: seq<(string, string)>) {
    forall i :: 0 <= i < |hms| ==> hms[i].kind.ExactHeader? && HeaderGiven(hms[i], headers)
  }

  predicate HttpSatisfied(e: Option<RouteMatch>, req: Request) {
    e.Some? ==>
      && (e.value.path.Some? ==> PathSatisfied(e.value.path.value, req.path))
      && (e.value.verb.Some? ==> e.value.verb.value == "" || e.value.verb.value == req.verb)
      && HeadersSatisfied(e.value.headers, req.headers)
  }

  /** The elements a gRPC entry asks the path to begin with: the empty one before the first
      slash, then the service and the method if the service is given. */
  function GrpcAsked(m: GrpcRouteMatch): seq<string> {
    if m.service.None? || m.service.value == "" then ["", ""]
    else if m.rpc.None? || m.rpc.value == "" then [""] + Elements(m.service.value)
    else [""] + Elements(m.service.value) + Elements(m.rpc.value)
  }

  predicate GrpcSatisfied(e: Option<GrpcRouteMatch>, req: Request) {
    e.Some? ==> Begins(Elements(req.path), GrpcAsked(e.value)) && HeadersSatisfied(e.value.headers, req.headers)
  }

  predicate Satisfied(b: Binding, req: Request) {
    match b
    case HttpBinding(_, _, _, _, _, e) => HttpSatisfied(e, req)
    case GrpcBinding(_, _, _, _, _, e) => GrpcSatisfied(e, req)
  }

  /** For a service and a method without slashes: the call is to that method of that service,
      to any method of the service, or to any path at all. */
  lemma GrpcCalls(m: GrpcRouteMatch, path: string)
    requires (m.service.Some? ==> '/' !in m.service.value) && (m.rpc.Some? ==> '/' !in m.rpc.value)
    ensures var q, service, rpc := Elements(path), GetOr(m.service, ""), GetOr(m.rpc, "");
      Begins(q, GrpcAsked(m)) <==>
        && |q| >= 2 && q[0] == ""
        && (service != "" ==> q[1] == service)
        && (service != "" && rpc != "" ==> |q| >= 3 && q[2] == rpc)
  {
    if m.service.Some? && m.service.value != "" {
      NoSlashElement(m.service.value);
      assert [""] + [m.service.value] == ["", m.service.value];
      if m.rpc.Some? && m.rpc.value != "" {
        NoSlashElement(m.rpc.value);
        assert [""] + [m.service.value] + [m.rpc.value] == ["", m.service.value, m.rpc.value];
      }
    }
  }

  /** The compiled path is the path asked for. */
  lemma GrpcPathAsked(m: GrpcRouteMatch)
    ensures Elements(GrpcPath(m)) == GrpcAsked(m)
  {
    var service, rpc := GetOr(m.service, ""), GetOr(m.rpc, "");
    if service == "" {
      assert "/" == "" + "/" + "";
      ElementsConcat("", "");
      assert Elements("") == [""];
      assert [""] + [""] == ["", ""];
    } else {
      assert "/" + service == "" + "/" + service;
      ElementsConcat("", service);
      if rpc != "" {
        ElementsConcat("/" + service, rpc);
      }
    }
  }

  lemma PrefixAsked(prefix: string, path: string)
    ensures PrefixMatches(prefix, path) <==> Begins(Elements(path), Elements(prefix))
  {
    PrefixIsElementwise(prefix, path);
    BeginsIsPrefix(prefix, path);
  }

  // ---- Which entry is more specific ----

  datatype Rank = Rank(exact: bool, length: nat, headers: nat)

  function GrpcLength(m: GrpcRouteMatch): nat {
    if m.service.None? || m.service.value == "" then 1
    else if m.rpc.None? || m.rpc.value == "" then 1 + |m.service.value|
    else 2 + |m.service.value| + |m.rpc.value|
  }

  function RankOf(b: Binding): Rank {
    match b
    case HttpBinding(_, _, _, _, _, e) =>
      if e.None? then Rank(false, 0, 0)
      else if e.value.path.None? then Rank(false, 0, |e.value.headers|)
      else Rank(e.value.path.value.kind == Exact, |e.value.path.value.path|, |e.value.headers|)
    case GrpcBinding(_, _, _, _, _, e) =>
      if e.None? then Rank(false, 0, 0) else Rank(false, GrpcLength(e.value), |e.value.headers|)
  }

  /** An exact path before any other, then the longer path, then more headers. */
  predicate Outranks(a: Rank, b: Rank) {
    || (a.exact && !b.exact)
    || (a.exact == b.exact && a.length > b.length)
    || (a.exact == b.exact && a.length == b.length && a.headers > b.headers)
  }

  // ---- Attachment ----

  /** The listener is one of the parent's: a stored Gateway's, or a stored and accepted
      ListenerSet's. */
  predicate HasListener(snap: Snapshot, pr: ParentRef, l: ListenerState) {
    var key := NamespacedName(pr.namespace, pr.name);
    || (pr.kind.GatewayParent? && key in snap.gateways && l in snap.gateways[key].listeners)
    || (pr.kind.ListenerSetParent? && key in snap.listenerSets && snap.listenerSets[key].accepted && l in snap.listenerSets[key].listeners)
  }

  /** The namespace that counts as the listener's own. */
  predicate HomeOf(snap: Snapshot, pr: ParentRef, ns: string) {
    var key := NamespacedName(pr.namespace, pr.name);
    ns == if pr.kind.ListenerSetParent? && key in snap.listenerSets then snap.listenerSets[key].namespace else pr.namespace
  }

  predicate HasLabel(labels: map<string, map<string, string>>, ns: string, want: (string, string)) {
    ns in labels && want.0 in labels[ns] && labels[ns][want.0] == want.1
  }

  /** Routes of the namespace are let in: all are, or those of the listener's own namespace, or
      those whose namespace has every label selected. */
  predicate LetsIn(snap: Snapshot, pr: ParentRef, allowed: AllowedRoutes, ns: string) {
    || allowed.from.All?
    || (allowed.from.Same? && HomeOf(snap, pr, ns))
    || (allowed.from.Selector? && allowed.selector.Some? &&
        forall i :: 0 <= i < |allowed.selector.value| ==> HasLabel(snap.namespaceLabels, ns, allowed.selector.value[i]))
  }

  /** The route in `ns` with these parentRefs is attached at the site. */
  predicate Attached(snap: Snapshot, ns: string, prs: seq<ParentRef>, site: Site) {
    var pr, l := site.parent, site.listener;
    && pr in prs && pr.accepted && HasListener(snap, pr, l) && l.accepted
    && l.protocol in {HTTP, HTTPS}
    && pr.section in {None, Some(l.name)} && pr.port in {None, Some(l.port)}
    && LetsIn(snap, pr, l.allowed, ns)
  }

  lemma AttachedIsSite(snap: Snapshot, ns: string, prs: seq<ParentRef>, site: Site)
    ensures SiteOk(snap, ns, prs, site) <==> Attached(snap, ns, prs, site)
  {
    LetsInExactly(snap, site.parent, site.listener.allowed, ns);
  }

  lemma LetsInExactly(snap: Snapshot, pr: ParentRef, allowed: AllowedRoutes, ns: string)
    ensures NamespaceAllowed(allowed, ns, ParentNamespace(snap, pr), LabelsOf(snap, ns)) <==> LetsIn(snap, pr, allowed, ns)
  {
    if allowed.from.Selector? && allowed.selector.Some? {
      var sel := allowed.selector.value;
      assert forall i :: 0 <= i < |sel| ==> (HasLabel(snap.namespaceLabels, ns, sel[i]) <==>
        sel[i].0 in LabelsOf(snap, ns) && LabelsOf(snap, ns)[sel[i].0] == sel[i].1);
    }
  }

  /** A reason for a compiled route to exist: a stored route, attached at the site, one of its
      rules, one of the rule's matches (or none, if it has none) and an effective hostname. */
  ghost predicate Reason(snap: Snapshot, b: Binding) {
    match b
    case HttpBinding(key, hr, site, rule, host, e) =>
      && (key, hr) in snap.httpRoutes && Attached(snap, hr.namespace, hr.parentRefs, site)
      && rule in hr.rules && host in HostsAt(site, hr.hostnames)
      && (if e.None? then rule.matches == [] else e.value in rule.matches)
    case GrpcBinding(key, gr, site, rule, host, e) =>
      && (key, gr) in snap.grpcRoutes && Attached(snap, gr.namespace, gr.parentRefs, site)
      && rule in gr.rules && host in HostsAt(site, gr.hostnames)
      && (if e.None? then rule.matches == [] else e.value in rule.matches)
  }

  lemma EntryMember<M>(matches: seq<M>, e: Option<M>)
    ensures e in Entries(matches) <==> if e.None? then matches == [] else e.value in matches
  {
    if e.Some? && e.value in matches {
      var i :| 0 <= i < |matches| && matches[i] == e.value;
      assert Entries(matches)[i] == e;
    }
  }

  /** The loops of the compiler visit exactly the reasons. */
  lemma ReasonsVisited(snap: Snapshot, b: Binding)
    ensures b in Bindings(snap) <==> Reason(snap, b)
  {
    BindingsExact(snap, b);
    match b {
      case HttpBinding(_, hr, site, rule, _, e) =>
        AttachedIsSite(snap, hr.namespace, hr.parentRefs, site);
        EntryMember(rule.matches, e);
      case GrpcBinding(_, gr, site, rule, _, e) =>
        AttachedIsSite(snap, gr.namespace, gr.parentRefs, site);
        EntryMember(rule.matches, e);
    }
  }

  // ---- Ownership ----

  /** The Gateway that owns what is attached through the parentRef: the Gateway it names, or the
      parent Gateway of the ListenerSet it names. */
  predicate OwnedBy(snap: Snapshot, pr: ParentRef, gw: NamespacedName) {
    var key := NamespacedName(pr.namespace, pr.name);
    && (pr.kind.GatewayParent? ==> gw == key)
    && (pr.kind.ListenerSetParent? && key in snap.listenerSets ==> gw == snap.listenerSets[key].parentGateway)
    && (pr.kind.ListenerSetParent? && key !in snap.listenerSets ==> gw == key)
  }

  lemma OwnerExactly(snap: Snapshot, pr: ParentRef, gw: NamespacedName)
    ensures OwnerGateway(snap, pr) == gw <==> OwnedBy(snap, pr, gw)
  {
  }

  // ---- References ----

  /** A route may refer to a Service of its own namespace, or one that a grant of the Service's
      namespace opens to routes of its kind and namespace, by name or altogether. */
  predicate Granted(grants: seq<ReferenceGrant>, fromNs: string, kind: string, toNs: string, service: string) {
    || fromNs == toNs
    || exists g :: g in grants && g.namespace == toNs && GrantFrom("gateway.networking.k8s.io", kind, fromNs) in g.from &&
                   (GrantTo("", "Service", None) in g.to || GrantTo("", "Service", Some(service)) in g.to)
  }

  lemma GrantedExactly(grants: seq<ReferenceGrant>, fromNs: string, kind: string, toNs: string, service: string)
    ensures ReferenceAllowed(grants, fromNs, kind, toNs, service) <==> Granted(grants, fromNs, kind, toNs, service)
  {
    forall g ensures GrantCovers(g, fromNs, kind, toNs, service) <==>
      && g.namespace == toNs && GrantFrom("gateway.networking.k8s.io", kind, fromNs) in g.from
      && (GrantTo("", "Service", None) in g.to || GrantTo("", "Service", Some(service)) in g.to)
    {
      CoversExactly(g, fromNs, kind, toNs, service);
    }
  }

  lemma CoversExactly(g: ReferenceGrant, fromNs: string, kind: string, toNs: string, service: string)
    ensures GrantCovers(g, fromNs, kind, toNs, service) <==>
      && g.namespace == toNs && GrantFrom("gateway.networking.k8s.io", kind, fromNs) in g.from
      && (GrantTo("", "Service", None) in g.to || GrantTo("", "Service", Some(service)) in g.to)
  {
    if j :| 0 <= j < |g.to| && g.to[j].group == "" && g.to[j].kind == "Service" && (g.to[j].name.None? || g.to[j].name == Some(service)) {
      assert g.to[j] == GrantTo("", "Service", None) || g.to[j] == GrantTo("", "Service", Some(service));
    }
    if t :| t in g.to && (t == GrantTo("", "Service", None) || t == GrantTo("", "Service", Some(service))) {
      var j :| 0 <= j < |g.to| && g.to[j] == t;
    }
  }
}
