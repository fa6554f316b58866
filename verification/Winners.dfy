/** Picking one policy among several that target the same resource. */
module Winners {
  import opened Collections
  import opened Text
  import opened Types

  // ---- `is_policy_winner` ----

  datatype Contender = Contender(created: Option<int>, key: NamespacedName)

  /** The key as it is printed and compared. */
  function Display(key: NamespacedName): string { key.namespace + "/" + key.name }

  predicate LexAtMost(a: string, b: string) { !LexLess(b, a) }

  /** `is_policy_winner`: whether `existing` wins over `new_`. */
  predicate IsPolicyWinner(existing: Contender, new_: Contender) {
    match (existing.created, new_.created)
    case (Some(e), Some(n)) => if e == n then LexAtMost(Display(existing.key), Display(new_.key)) else e < n
    case (Some(_), None) => true
    case (None, Some(_)) => false
    case (None, None) => LexAtMost(Display(existing.key), Display(new_.key))
  }

  /** Created earlier; without a timestamp counts as created last; of two created together the
      one printed first. */
  predicate Precedes(a: Contender, b: Contender) {
    if a.created == b.created then LexLess(a.key.namespace + "/" + a.key.name, b.key.namespace + "/" + b.key.name)
    else b.created.None? || (a.created.Some? && a.created.value < b.created.value)
  }

  /** A contender wins over another exactly when the other does not precede it. */
  lemma WinnerExactly(a: Contender, b: Contender)
    ensures IsPolicyWinner(a, b) <==> !Precedes(b, a)
  {
  }

  predicate Older(a: Contender, b: Contender) { !IsPolicyWinner(b, a) }

  lemma OlderOrder()
    ensures StrictWeakOrder(Older)
  {
    LexIsOrder();
  }

  /** Two contenders beat each other exactly when they are equally old and print alike. */
  lemma WinnerAntisymmetric(a: Contender, b: Contender)
    ensures IsPolicyWinner(a, b) || IsPolicyWinner(b, a)
    ensures IsPolicyWinner(a, b) && IsPolicyWinner(b, a) <==> a.created == b.created && Display(a.key) == Display(b.key)
  {
    LexIsOrder();
  }

  lemma WinnerTransitive(a: Contender, b: Contender, c: Contender)
    requires IsPolicyWinner(a, b) && IsPolicyWinner(b, c)
    ensures IsPolicyWinner(a, c)
  {
    OlderOrder();
    NotLessTransitive(Older, c, b, a);
  }

  lemma NotLessTransitive<T(!new)>(less: (T, T) -> bool, a: T, b: T, c: T)
    requires StrictWeakOrder(less) && !less(a, b) && !less(b, c)
    ensures !less(a, c)
  {
  }

  /** Namespaces hold no slash, so distinct keys print differently. */
  lemma DisplayInjective(a: NamespacedName, b: NamespacedName)
    requires '/' !in a.namespace && '/' !in b.namespace && Display(a) == Display(b)
    ensures a == b
  {
    var s := Display(a);
    var m, n := |a.namespace|, |b.namespace|;
    forall i | 0 <= i < m ensures s[i] != '/' {
      assert s[i] == a.namespace[i];
    }
    forall i | 0 <= i < n ensures s[i] != '/' {
      assert s[i] == b.namespace[i];
    }
    FirstSlash(s, m, n);
    assert a.namespace == s[..m] && b.namespace == s[..n];
    assert a.name == s[m + 1..] && b.name == s[n + 1..];
  }

  lemma FirstSlash(s: string, m: nat, n: nat)
    requires m < |s| && n < |s| && s[m] == s[n] == '/'
    requires forall i :: 0 <= i < m ==> s[i] != '/'
    requires forall i :: 0 <= i < n ==> s[i] != '/'
    ensures m == n
  {
  }

  // ---- Tournaments ----

  datatype Bracket = Entrant(contender: Contender) | Match(left: Bracket, right: Bracket)

  function Play(b: Bracket): Contender {
    match b
    case Entrant(c) => c
    case Match(l, r) => if IsPolicyWinner(Play(l), Play(r)) then Play(l) else Play(r)
  }

  function Entrants(b: Bracket): set<Contender> {
    match b
    case Entrant(c) => {c}
    case Match(l, r) => Entrants(l) + Entrants(r)
  }

  lemma {:induction false} ChampionBeatsAll(b: Bracket)
    ensures Play(b) in Entrants(b)
    ensures forall c :: c in Entrants(b) ==> IsPolicyWinner(Play(b), c)
  {
    OlderOrder();
    match b
    case Entrant(c) => WinnerAntisymmetric(c, c);
    case Match(l, r) =>
      ChampionBeatsAll(l);
      ChampionBeatsAll(r);
      WinnerAntisymmetric(Play(l), Play(r));
      forall c | c in Entrants(b) ensures IsPolicyWinner(Play(b), c) {
        if c in Entrants(l) {
          WinnerTransitive(Play(b), Play(l), c);
        } else {
          WinnerTransitive(Play(b), Play(r), c);
        }
      }
  }

  /** Any two tournaments between the same contenders, whose keys print differently, have the
      same champion. */
  lemma ChampionUnique(a: Bracket, b: Bracket)
    requires Entrants(a) == Entrants(b)
    requires forall c, d :: c in Entrants(a) && d in Entrants(a) && Display(c.key) == Display(d.key) ==> c == d
    ensures Play(a) == Play(b)
  {
    ChampionBeatsAll(a);
    ChampionBeatsAll(b);
    WinnerAntisymmetric(Play(a), Play(b));
  }

  /** The tournament the controller plays: in list order, the holder against the next. */
  function InOrder(cs: seq<Contender>): Bracket
    requires cs != []
  {
    if |cs| == 1 then Entrant(cs[0]) else Match(InOrder(cs[..|cs| - 1]), Entrant(cs[|cs| - 1]))
  }

  lemma {:induction false} InOrderEntrants(cs: seq<Contender>)
    requires cs != []
    ensures forall c :: c in Entrants(InOrder(cs)) <==> c in cs
  {
    var n := |cs| - 1;
    assert cs == cs[..n] + [cs[n]];
    if n > 0 {
      InOrderEntrants(cs[..n]);
    }
  }

  datatype PolicyTarget = PolicyTarget(group: string, kind: string, namespace: string, name: string, section: Option<string>)
  datatype Held = Held(target: PolicyTarget, created: Option<int>, accepted: bool)

  function ContenderAt(policies: map<NamespacedName, Held>, target: PolicyTarget): NamespacedName -> seq<Contender> {
    (k: NamespacedName) => ContenderFor(policies, target, k)
  }

  function ContenderFor(policies: map<NamespacedName, Held>, target: PolicyTarget, k: NamespacedName): seq<Contender> {
    if k in policies && policies[k].target == target then [Contender(policies[k].created, k)] else []
  }

  /** The policies of one target, in the order the map is iterated. */
  function Contenders(policies: map<NamespacedName, Held>, order: seq<NamespacedName>, target: PolicyTarget): seq<Contender> {
    FlatMap(order, ContenderAt(policies, target))
  }

  /** The flag a policy ends up with: with one contender at most, the policy being reconciled is
      accepted; otherwise exactly the champion among the target's policies is. */
  function Flag(policies: map<NamespacedName, Held>, order: seq<NamespacedName>, current: NamespacedName, target: PolicyTarget, k: NamespacedName): bool
    requires k in policies
  {
    var cs := Contenders(policies, order, target);
    if |cs| <= 1 then k == current || policies[k].accepted
    else if policies[k].target == target then k == Play(InOrder(cs)).key
    else policies[k].accepted
  }

  lemma ContenderMember(policies: map<NamespacedName, Held>, order: seq<NamespacedName>, target: PolicyTarget, c: Contender)
    ensures c in Contenders(policies, order, target) <==>
      c.key in order && c.key in policies && policies[c.key].target == target && c.created == policies[c.key].created
  {
    var f := ContenderAt(policies, target);
    FlatMapMember(order, f, c);
    if c.key in order && c.key in policies && policies[c.key].target == target && c.created == policies[c.key].created {
      var i :| 0 <= i < |order| && order[i] == c.key;
      assert c in f(order[i]);
    }
  }

  method CollectContenders(policies: map<NamespacedName, Held>, order: seq<NamespacedName>, target: PolicyTarget) returns (cs: seq<Contender>)
    ensures cs == Contenders(policies, order, target)
  {
    cs := [];
    for i := 0 to |order|
      invariant cs == FlatMap(order[..i], ContenderAt(policies, target))
    {
      FlatMapStep(order, i, ContenderAt(policies, target));
      if order[i] in policies && policies[order[i]].target == target {
        cs := cs + [Contender(policies[order[i]].created, order[i])];
      }
    }
    assert order[..|order|] == order;
  }

  method FindWinner(cs: seq<Contender>) returns (winner: Contender)
    requires cs != []
    ensures winner == Play(InOrder(cs))
  {
    winner := cs[0];
    for i := 1 to |cs|
      invariant winner == Play(InOrder(cs[..i]))
    {
      assert cs[..i + 1][..i] == cs[..i];
      if !IsPolicyWinner(winner, cs[i]) {
        winner := cs[i];
      }
    }
    assert cs[..|cs|] == cs;
  }

  predicate Contends(cs: seq<Contender>, k: NamespacedName) { exists j :: 0 <= j < |cs| && cs[j].key == k }

  method SetFlags(policies: map<NamespacedName, Held>, cs: seq<Contender>, winner: NamespacedName) returns (after: map<NamespacedName, Held>)
    requires forall j :: 0 <= j < |cs| ==> cs[j].key in policies
    ensures after.Keys == policies.Keys
    ensures forall k :: k in policies ==> after[k] == if Contends(cs, k) then policies[k].(accepted := k == winner) else policies[k]
  {
    after := policies;
    for i := 0 to |cs|
      invariant after.Keys == policies.Keys
      invariant forall k :: k in policies ==>
        after[k] == if exists j :: 0 <= j < i && cs[j].key == k then policies[k].(accepted := k == winner) else policies[k]
    {
      var key := cs[i].key;
      after := after[key := after[key].(accepted := key == winner)];
    }
  }

  lemma ContendsExactly(policies: map<NamespacedName, Held>, order: seq<NamespacedName>, target: PolicyTarget, k: NamespacedName)
    requires forall key :: key in order <==> key in policies
    ensures Contends(Contenders(policies, order, target), k) <==> k in policies && policies[k].target == target
  {
    var cs := Contenders(policies, order, target);
    if j :| 0 <= j < |cs| && cs[j].key == k {
      assert cs[j] in cs;
      ContenderMember(policies, order, target, cs[j]);
    }
    if k in policies && policies[k].target == target {
      ContenderMember(policies, order, target, Contender(policies[k].created, k));
      var j :| 0 <= j < |cs| && cs[j] == Contender(policies[k].created, k);
    }
  }

  /** `resolve_conflicts`. */
  method ResolveConflicts(policies: map<NamespacedName, Held>, order: seq<NamespacedName>, current: NamespacedName, target: PolicyTarget)
    returns (after: map<NamespacedName, Held>)
    requires forall k :: k in order <==> k in policies
    ensures after.Keys == policies.Keys
    ensures forall k :: k in policies ==> after[k] == policies[k].(accepted := Flag(policies, order, current, target, k))
  {
    var cs := CollectContenders(policies, order, target);
    if |cs| <= 1 {
      after := policies;
      if current in policies {
        after := after[current := policies[current].(accepted := true)];
      }
    } else {
      var winner := FindWinner(cs);
      forall k ensures Contends(cs, k) <==> k in policies && policies[k].target == target {
        ContendsExactly(policies, order, target, k);
      }
      assert forall j :: 0 <= j < |cs| ==> Contends(cs, cs[j].key);
      after := SetFlags(policies, cs, winner.key);
    }
  }

  ghost predicate OnlyAccepted(policies: map<NamespacedName, Held>, order: seq<NamespacedName>, current: NamespacedName, target: PolicyTarget, k: NamespacedName) {
    && k in policies && policies[k].target == target && Flag(policies, order, current, target, k)
    && forall j :: j in policies && policies[j].target == target && Flag(policies, order, current, target, j) ==> j == k
  }

  /** With two contenders or more, exactly one policy of the target is accepted. */
  lemma OneAccepted(policies: map<NamespacedName, Held>, order: seq<NamespacedName>, current: NamespacedName, target: PolicyTarget)
    requires forall k :: k in order <==> k in policies
    requires |Contenders(policies, order, target)| > 1
    ensures exists k :: OnlyAccepted(policies, order, current, target, k)
  {
    var cs := Contenders(policies, order, target);
    ChampionBeatsAll(InOrder(cs));
    InOrderEntrants(cs);
    var k := Play(InOrder(cs)).key;
    ContenderMember(policies, order, target, Play(InOrder(cs)));
    assert OnlyAccepted(policies, order, current, target, k);
  }

  ghost predicate KeysDistinct(cs: seq<Contender>) {
    forall i, j :: 0 <= i < j < |cs| ==> Display(cs[i].key) != Display(cs[j].key)
  }

  /** The champion is the oldest, whatever the order of the map. */
  lemma ChampionIsOldest(cs: seq<Contender>, perm: seq<Contender>)
    requires cs != [] && KeysDistinct(cs) && multiset(perm) == multiset(cs)
    ensures perm != [] && Play(InOrder(perm)) == Play(InOrder(cs))
    ensures Play(InOrder(cs)) in cs && forall c :: c in cs ==> !Precedes(c, Play(InOrder(cs)))
    ensures forall c, d :: c in cs && d in cs && c.key == d.key ==> c == d
  {
    assert |multiset(perm)| == |multiset(cs)|;
    InOrderEntrants(cs);
    InOrderEntrants(perm);
    forall c ensures c in perm <==> c in cs {
      assert c in multiset(perm) <==> c in multiset(cs);
    }
    assert Entrants(InOrder(perm)) == Entrants(InOrder(cs));
    ChampionUnique(InOrder(perm), InOrder(cs));
    ChampionBeatsAll(InOrder(cs));
    forall c | c in cs ensures !Precedes(c, Play(InOrder(cs))) {
      WinnerExactly(Play(InOrder(cs)), c);
    }
  }

  /** No policy of the same target precedes policy `k`. */
  ghost predicate Leads(policies: map<NamespacedName, Held>, target: PolicyTarget, k: NamespacedName)
    requires k in policies
  {
    forall j :: j in policies && policies[j].target == target ==>
      !Precedes(Contender(policies[j].created, j), Contender(policies[k].created, k))
  }

  /** Keys that are iterated once and print differently. */
  ghost predicate Iterates(order: seq<NamespacedName>, policies: map<NamespacedName, Held>) {
    && (forall k :: k in order <==> k in policies)
    && (forall i, j :: 0 <= i < j < |order| ==> order[i] != order[j])
    && (forall a, b :: a in policies && b in policies && Display(a) == Display(b) ==> a == b)
  }

  lemma AloneIsCurrent(policies: map<NamespacedName, Held>, order: seq<NamespacedName>, current: NamespacedName, target: PolicyTarget, k: NamespacedName)
    requires Iterates(order, policies) && |Contenders(policies, order, target)| <= 1
    requires current in policies && policies[current].target == target && k in policies && policies[k].target == target
    ensures k == current
  {
    ContenderMember(policies, order, target, Contender(policies[current].created, current));
    ContenderMember(policies, order, target, Contender(policies[k].created, k));
  }

  /** After the conflict is resolved a policy of the target is accepted exactly when none of the
      target precedes it, whatever the order of the map; the others keep their flags. */
  lemma AcceptedExactly(policies: map<NamespacedName, Held>, order: seq<NamespacedName>, current: NamespacedName, target: PolicyTarget, k: NamespacedName)
    requires Iterates(order, policies) && current in policies && policies[current].target == target && k in policies
    ensures Flag(policies, order, current, target, k) <==> if policies[k].target == target then Leads(policies, target, k) else policies[k].accepted
  {
    var cs := Contenders(policies, order, target);
    if policies[k].target == target {
      if |cs| <= 1 {
        AloneIsCurrent(policies, order, current, target, k);
        forall j | j in policies && policies[j].target == target
          ensures !Precedes(Contender(policies[j].created, j), Contender(policies[k].created, k))
        {
          AloneIsCurrent(policies, order, current, target, j);
          LexIsOrder();
        }
      } else {
        ChampionLeads(policies, order, target, k);
      }
    }
  }

  lemma ChampionLeads(policies: map<NamespacedName, Held>, order: seq<NamespacedName>, target: PolicyTarget, k: NamespacedName)
    requires Iterates(order, policies) && k in policies && policies[k].target == target && Contenders(policies, order, target) != []
    ensures k == Play(InOrder(Contenders(policies, order, target))).key <==> Leads(policies, target, k)
  {
    var cs := Contenders(policies, order, target);
    var w, me := Play(InOrder(cs)), Contender(policies[k].created, k);
    ChampionBeatsAll(InOrder(cs));
    InOrderEntrants(cs);
    ContenderMember(policies, order, target, w);
    ContenderMember(policies, order, target, me);
    forall j | j in policies && policies[j].target == target ensures !Precedes(Contender(policies[j].created, j), w) {
      ContenderMember(policies, order, target, Contender(policies[j].created, j));
      WinnerExactly(w, Contender(policies[j].created, j));
    }
    if Leads(policies, target, k) {
      assert w == Contender(policies[w.key].created, w.key);
      WinnerExactly(me, w);
      WinnerAntisymmetric(w, me);
    }
  }

  // ---- `pick_oldest` ----

  datatype TlsPolicy = TlsPolicy(
    accepted: bool, kind: string, namespace: string, name: string, section: Option<string>, created: Option<int>, hostname: string)

  function PickOldest(current: Option<TlsPolicy>, candidate: Option<TlsPolicy>): Option<TlsPolicy> {
    match (current, candidate)
    case (None, c) => c
    case (c, None) => c
    case (Some(a), Some(b)) =>
      if a.created.Some? && b.created.Some? && b.created.value < a.created.value then Some(b) else Some(a)
  }

  function FoldOldest(ps: seq<TlsPolicy>): Option<TlsPolicy> {
    if ps == [] then None else PickOldest(FoldOldest(ps[..|ps| - 1]), Some(ps[|ps| - 1]))
  }

  predicate Earlier(a: TlsPolicy, b: TlsPolicy) { a.created.Some? && b.created.Some? && a.created.value < b.created.value }

  /** `p` is the first of the earliest timestamped policies. */
  ghost predicate FirstEarliest(ps: seq<TlsPolicy>, p: TlsPolicy) {
    exists k :: 0 <= k < |ps| && ps[k] == p && p.created.Some? &&
      forall j :: 0 <= j < |ps| && ps[j].created.Some? ==>
        if j < k then p.created.value < ps[j].created.value else p.created.value <= ps[j].created.value
  }

  /** The fold keeps the first policy for good when it has no timestamp; otherwise it ends at
      the first of the earliest. */
  lemma {:induction false} FoldPicks(ps: seq<TlsPolicy>)
    requires ps != []
    ensures FoldOldest(ps).Some?
    ensures ps[0].created.None? ==> FoldOldest(ps) == Some(ps[0])
    ensures ps[0].created.Some? ==> FirstEarliest(ps, FoldOldest(ps).value)
  {
    var n := |ps| - 1;
    if n == 0 {
      assert FoldOldest(ps[..0]) == None;
    } else {
      var front := ps[..n];
      FoldPicks(front);
      if ps[0].created.Some? {
        FoldStep(front, FoldOldest(front).value, ps[n]);
        assert front + [ps[n]] == ps;
      }
    }
  }

  lemma FoldStep(front: seq<TlsPolicy>, p: TlsPolicy, last: TlsPolicy)
    requires FirstEarliest(front, p)
    ensures FirstEarliest(front + [last], PickOldest(Some(p), Some(last)).value)
  {
    var k :| 0 <= k < |front| && front[k] == p && p.created.Some? &&
      forall j :: 0 <= j < |front| && front[j].created.Some? ==>
        if j < k then p.created.value < front[j].created.value else p.created.value <= front[j].created.value;
    var all := front + [last];
    var r := PickOldest(Some(p), Some(last)).value;
    if last.created.Some? && last.created.value < p.created.value {
      assert all[|front|] == r;
    } else {
      assert all[k] == r;
    }
  }

  /** So the oldest policy is picked exactly when the first has a timestamp or none has. */
  lemma OldestExactly(ps: seq<TlsPolicy>)
    requires ps != []
    ensures (forall p :: p in ps ==> !Earlier(p, FoldOldest(ps).value)) && (FoldOldest(ps).value.created.None? ==> forall p :: p in ps ==> p.created.None?)
       <==> (ps[0].created.Some? || forall p :: p in ps ==> p.created.None?)
  {
    FoldPicks(ps);
    if ps[0].created.Some? {
      forall p | p in ps ensures !Earlier(p, FoldOldest(ps).value) {
        var j :| 0 <= j < |ps| && ps[j] == p;
      }
    }
  }

  // ---- The backend TLS policy of a Service port ----

  predicate Targets(p: TlsPolicy, namespace: string, name: string) {
    p.accepted && p.kind == "Service" && p.namespace == namespace && p.name == name
  }

  function SectionMatch(namespace: string, name: string, port: Option<string>): TlsPolicy -> bool {
    (p: TlsPolicy) => Targets(p, namespace, name) && p.section.Some? && port == p.section
  }

  function ServiceWide(namespace: string, name: string): TlsPolicy -> bool {
    (p: TlsPolicy) => Targets(p, namespace, name) && p.section.None?
  }

  lemma FoldSnoc(ps: seq<TlsPolicy>, p: TlsPolicy)
    ensures FoldOldest(ps + [p]) == PickOldest(FoldOldest(ps), Some(p))
  {
    assert (ps + [p])[..|ps|] == ps;
  }

  lemma FoldFilterStep(ps: seq<TlsPolicy>, i: nat, f: TlsPolicy -> bool)
    requires i < |ps|
    ensures var before := FoldOldest(Filter(ps[..i], f));
      FoldOldest(Filter(ps[..i + 1], f)) == if f(ps[i]) then PickOldest(before, Some(ps[i])) else before
  {
    FilterStep(ps, i, f);
    var kept := Filter(ps[..i], f);
    FoldSnoc(kept, ps[i]);
    assert kept + [] == kept;
  }

  function TlsFor(policies: seq<TlsPolicy>, namespace: string, name: string, port: Option<string>): Option<TlsPolicy> {
    OrElse(FoldOldest(Filter(policies, SectionMatch(namespace, name, port))), FoldOldest(Filter(policies, ServiceWide(namespace, name))))
  }

  /** An accepted policy for the Service, for this port's section or for all its ports. */
  predicate Covers(p: TlsPolicy, namespace: string, name: string, port: Option<string>) {
    p.accepted && p.kind == "Service" && p.namespace == namespace && p.name == name && (p.section.None? || p.section == port)
  }

  /** A policy is found exactly when one covers the port, it is one of them, and one for the
      port's section if there is any; the oldest of its scope, if the first met has a timestamp. */
  lemma TlsForExactly(policies: seq<TlsPolicy>, namespace: string, name: string, port: Option<string>)
    ensures var found := TlsFor(policies, namespace, name, port);
      && (found.None? <==> forall p :: p in policies ==> !Covers(p, namespace, name, port))
      && (found.Some? ==>
            && found.value in policies && Covers(found.value, namespace, name, port)
            && (found.value.section.None? ==> forall p :: p in policies && Covers(p, namespace, name, port) ==> p.section.None?)
            && (found.value.created.Some? ==>
                  forall p :: p in policies && Covers(p, namespace, name, port) && p.section == found.value.section ==> !Earlier(p, found.value)))
  {
    var bySection, byService := Filter(policies, SectionMatch(namespace, name, port)), Filter(policies, ServiceWide(namespace, name));
    FoldMember(bySection);
    FoldMember(byService);
    forall p ensures p in policies && Covers(p, namespace, name, port) <==> p in bySection || p in byService {}
    var scope := if bySection != [] then bySection else byService;
    if scope != [] {
      FoldPicks(scope);
      if FoldOldest(scope).value.created.Some? {
        OldestExactly(scope);
      }
    }
    assert bySection != [] ==> bySection[0] in bySection;
    assert byService != [] ==> byService[0] in byService;
  }

  /** The selection loop: a policy naming the port's section always beats a Service-wide one;
      within each scope, the fold decides. */
  method BackendTlsFor(policies: seq<TlsPolicy>, namespace: string, name: string, port: Option<string>) returns (winner: Option<TlsPolicy>)
    ensures winner == TlsFor(policies, namespace, name, port)
    ensures (exists p :: p in policies && Targets(p, namespace, name) && p.section.Some? && port == p.section) ==>
      winner.Some? && winner.value.section == port
  {
    var section: Option<TlsPolicy>, wide: Option<TlsPolicy> := None, None;
    ghost var bySection, byService := SectionMatch(namespace, name, port), ServiceWide(namespace, name);
    for i := 0 to |policies|
      invariant section == FoldOldest(Filter(policies[..i], bySection))
      invariant wide == FoldOldest(Filter(policies[..i], byService))
    {
      var p := policies[i];
      FoldFilterStep(policies, i, bySection);
      FoldFilterStep(policies, i, byService);
      if Targets(p, namespace, name) {
        if p.section.Some? {
          if port == p.section {
            section := PickOldest(section, Some(p));
          }
        } else {
          wide := PickOldest(wide, Some(p));
        }
      }
    }
    assert policies[..|policies|] == policies;
    winner := OrElse(section, wide);
    FoldMember(Filter(policies, bySection));
  }

  lemma {:induction false} FoldMember(ps: seq<TlsPolicy>)
    ensures FoldOldest(ps).Some? <==> ps != []
    ensures FoldOldest(ps).Some? ==> FoldOldest(ps).value in ps
  {
    if ps != [] {
      FoldMember(ps[..|ps| - 1]);
    }
  }
}
