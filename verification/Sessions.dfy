/** Data planes connect, report what they applied, and are forgotten when a config stream of
    theirs is dropped: by node id, whichever stream of the node it was. */
module Sessions {
  import opened Collections
  import opened Types
  import opened Slicing
  import opened Programmed

  /** An open stream; `reported` once its node was recorded since it opened. */
  datatype Session = Session(node: string, reported: bool)

  datatype Server = Server(view: View, sessions: map<nat, Session>)

  datatype Event =
    | Connect(session: nat, node: string, applied: Applied)
    | Report(node: string, applied: Applied)
    | Disconnect(session: nat)

  /** `single`: a node connects only when no stream of its id is open. */
  datatype Rules = Rules(single: bool)

  const EMPTY := Server(View(0, map[], map[], map[]), map[])

  /** The record is taken: a fingerprint other than 0, within the cap or known already. */
  predicate Taken(s: Server, node: string, a: Applied) { a.fingerprint != 0 && Accepts(s.view, node) }

  function Marked(sessions: map<nat, Session>, node: string): map<nat, Session> {
    map id | id in sessions :: if sessions[id].node == node then Session(node, true) else sessions[id]
  }

  function Recorded(s: Server, node: string, a: Applied): Server {
    if Taken(s, node, a) then Server(WithNode(s.view, node, a), Marked(s.sessions, node)) else s
  }

  predicate Open(s: Server, node: string) { exists id :: id in s.sessions && s.sessions[id].node == node }

  function Step(rules: Rules, s: Server, e: Event): Option<Server> {
    match e
    case Connect(id, node, a) =>
      if id in s.sessions || (rules.single && Open(s, node)) then None
      else Some(Recorded(s.(sessions := s.sessions[id := Session(node, false)]), node, a))
    case Report(node, a) => Some(Recorded(s, node, a))
    case Disconnect(id) =>
      if id !in s.sessions then None
      else Some(Server(WithoutNode(s.view, s.sessions[id].node), s.sessions - {id}))
  }

  /** A stream opens under a fresh number, and under `single` only where the node has none. */
  lemma ConnectsExactly(rules: Rules, s: Server, id: nat, node: string, a: Applied)
    ensures Step(rules, s, Connect(id, node, a)).Some? <==>
      id !in s.sessions && (rules.single ==> forall other :: other in s.sessions ==> s.sessions[other].node != node)
    ensures Step(rules, s, Connect(id, node, a)).Some? ==>
      var t := Step(rules, s, Connect(id, node, a)).value;
      id in t.sessions && t.sessions[id].node == node && (t.sessions[id].reported <==> Taken(s, node, a))
  {
  }

  /** A run: `ss[i]` is the server before event `i`. */
  ghost predicate IsRun(rules: Rules, ss: seq<Server>, events: seq<Event>) {
    && |ss| == |events| + 1 && ss[0] == EMPTY
    && forall i :: 0 <= i < |events| ==> Step(rules, ss[i], events[i]) == Some(ss[i + 1])
  }

  // ---- When a node is recorded ----

  predicate Records(s: Server, e: Event, node: string) {
    !e.Disconnect? && e.node == node && Taken(s, node, e.applied)
  }

  predicate Drops(s: Server, e: Event, node: string) {
    e.Disconnect? && e.session in s.sessions && s.sessions[e.session].node == node
  }

  predicate Touches(s: Server, e: Event, node: string) { Records(s, e, node) || Drops(s, e, node) }

  /** Event `i` recorded the node, and up to `n` it was neither recorded again nor was a stream
      of its id dropped. */
  ghost predicate Stands(ss: seq<Server>, events: seq<Event>, i: nat, n: nat, node: string)
    requires i < n <= |events| < |ss|
  {
    Records(ss[i], events[i], node) && forall j :: i < j < n ==> !Touches(ss[j], events[j], node)
  }

  lemma OneEvent(rules: Rules, s: Server, e: Event, node: string)
    requires Step(rules, s, e).Some?
    ensures var t := Step(rules, s, e).value.view.applied;
      && (Records(s, e, node) ==> node in t && t[node] == e.applied)
      && (Drops(s, e, node) ==> node !in t)
      && (!Touches(s, e, node) ==> (node in t <==> node in s.view.applied) && (node in t ==> t[node] == s.view.applied[node]))
  {
  }

  ghost predicate StandsWith(ss: seq<Server>, events: seq<Event>, n: nat, node: string, a: Applied)
    requires n <= |events| < |ss|
  {
    exists i :: 0 <= i < n && Stands(ss, events, i, n, node) && events[i].applied == a
  }

  predicate Holds(s: Server, node: string, a: Applied) { node in s.view.applied && s.view.applied[node] == a }

  lemma StandsOn(ss: seq<Server>, events: seq<Event>, i: nat, m: nat, node: string)
    requires i < m < |events| < |ss|
    ensures Stands(ss, events, i, m + 1, node) <==> Stands(ss, events, i, m, node) && !Touches(ss[m], events[m], node)
  {
  }

  lemma StandsStep(ss: seq<Server>, events: seq<Event>, m: nat, node: string, a: Applied)
    requires m < |events| < |ss|
    ensures StandsWith(ss, events, m + 1, node, a) <==>
      || (Records(ss[m], events[m], node) && events[m].applied == a)
      || (StandsWith(ss, events, m, node, a) && !Touches(ss[m], events[m], node))
  {
    if Records(ss[m], events[m], node) && events[m].applied == a {
      assert Stands(ss, events, m, m + 1, node);
    }
    if i :| 0 <= i < m && Stands(ss, events, i, m, node) && events[i].applied == a {
      StandsOn(ss, events, i, m, node);
    }
    if i :| 0 <= i < m + 1 && Stands(ss, events, i, m + 1, node) && events[i].applied == a {
      if i < m {
        StandsOn(ss, events, i, m, node);
      }
    }
  }

  /** In every run, a node is recorded with what it applied exactly when its last report stands:
      no stream of its id was dropped since. */
  lemma {:induction false} RecordedExactly(rules: Rules, ss: seq<Server>, events: seq<Event>, n: nat, node: string, a: Applied)
    requires IsRun(rules, ss, events) && n <= |events|
    ensures Holds(ss[n], node, a) <==> StandsWith(ss, events, n, node, a)
  {
    if n > 0 {
      var m := n - 1;
      RecordedExactly(rules, ss, events, m, node, a);
      assert Step(rules, ss[m], events[m]) == Some(ss[m + 1]);
      OneEvent(rules, ss[m], events[m], node);
      StandsStep(ss, events, m, node, a);
    }
  }

  predicate WithinCap(s: Server) { |s.view.applied| <= 1000 }

  /** A report is taken exactly when it names a fingerprint and keeps the record within 1000
      nodes. */
  lemma TakenExactly(s: Server, node: string, a: Applied)
    requires WithinCap(s)
    ensures Taken(s, node, a) <==> a.fingerprint != 0 && |WithNode(s.view, node, a).applied| <= 1000
  {
    CapExactly(s.view, node, a);
  }

  lemma {:induction false} CapKept(rules: Rules, ss: seq<Server>, events: seq<Event>, n: nat)
    requires IsRun(rules, ss, events) && n <= |events|
    ensures WithinCap(ss[n])
  {
    if n > 0 {
      var m := n - 1;
      CapKept(rules, ss, events, m);
      assert Step(rules, ss[m], events[m]) == Some(ss[m + 1]);
      match events[m]
      case Connect(_, node, a) => TakenExactly(ss[m], node, a);
      case Report(node, a) => TakenExactly(ss[m], node, a);
      case Disconnect(id) => RemovalShrinks(ss[m].view.applied, ss[m].sessions[id].node);
    }
  }

  // ---- A node with a live stream stays recorded ----

  /** Every node that reported on a stream still open is recorded. */
  ghost predicate LiveRecorded(s: Server) {
    forall id :: id in s.sessions && s.sessions[id].reported ==> s.sessions[id].node in s.view.applied
  }

  ghost predicate OnePerNode(s: Server) {
    forall i, j :: i in s.sessions && j in s.sessions && s.sessions[i].node == s.sessions[j].node ==> i == j
  }

  ghost predicate Inv(s: Server) { LiveRecorded(s) && OnePerNode(s) }

  lemma RecordedKeeps(s: Server, node: string, a: Applied)
    requires Inv(s)
    ensures Inv(Recorded(s, node, a))
  {
  }

  lemma StepKeeps(s: Server, e: Event)
    requires Inv(s) && Step(Rules(true), s, e).Some?
    ensures Inv(Step(Rules(true), s, e).value)
  {
    match e
    case Connect(id, node, a) =>
      var t := s.(sessions := s.sessions[id := Session(node, false)]);
      assert Inv(t);
      RecordedKeeps(t, node, a);
    case Report(node, a) => RecordedKeeps(s, node, a);
    case Disconnect(id) =>
  }

  lemma {:induction false} RunKeeps(ss: seq<Server>, events: seq<Event>, n: nat)
    requires IsRun(Rules(true), ss, events) && n <= |events|
    ensures Inv(ss[n])
  {
    if n > 0 {
      RunKeeps(ss, events, n - 1);
      assert Step(Rules(true), ss[n - 1], events[n - 1]) == Some(ss[n - 1 + 1]);
      StepKeeps(ss[n - 1], events[n - 1]);
    }
  }

  ghost predicate AlwaysLiveRecorded(rules: Rules) {
    forall ss: seq<Server>, events: seq<Event> :: IsRun(rules, ss, events) ==> LiveRecorded(ss[|events|])
  }

  /** A node reconnects and only then its former stream is dropped: the live stream's record
      goes with it. */
  lemma OldDropForgets(node: string, a: Applied) returns (ss: seq<Server>, events: seq<Event>)
    requires a.fingerprint != 0
    ensures IsRun(Rules(false), ss, events) && !LiveRecorded(ss[|events|])
    ensures ss[|events|].sessions == map[1 := Session(node, true)] && ss[|events|].view.applied == map[]
  {
    var recorded := View(0, map[], map[], map[node := a]);
    var one, two := map[0 := Session(node, true)], map[0 := Session(node, true), 1 := Session(node, true)];
    events := [Connect(0, node, a), Connect(1, node, a), Disconnect(0)];
    ss := [EMPTY, Server(recorded, one), Server(recorded, two), Server(EMPTY.view, map[1 := Session(node, true)])];
    assert Marked(map[0 := Session(node, false)], node) == one;
    assert Step(Rules(false), ss[0], events[0]) == Some(ss[1]);
    assert Marked(one[1 := Session(node, false)], node) == two && WithNode(recorded, node, a) == recorded;
    assert Step(Rules(false), ss[1], events[1]) == Some(ss[2]);
    assert recorded.applied - {node} == map[] && two - {0} == map[1 := Session(node, true)];
    assert Step(Rules(false), ss[2], events[2]) == Some(ss[3]);
    assert 1 in ss[3].sessions;
  }

  /** In every run a node that reported on a stream still open is recorded, if and only if nodes
      connect only when their former stream was dropped. */
  lemma LiveRecordedExactly(rules: Rules)
    ensures AlwaysLiveRecorded(rules) <==> rules.single
  {
    if rules.single {
      forall ss: seq<Server>, events: seq<Event> | IsRun(rules, ss, events) ensures LiveRecorded(ss[|events|]) {
        RunKeeps(ss, events, |events|);
      }
    } else {
      var ss, events := OldDropForgets("", Applied(NamespacedName("", ""), 1));
      assert IsRun(rules, ss, events);
    }
  }
}
