/** What a listener knows of a Gateway's Programmed answer, over whole runs of the store.

    An operation reads the answer, changes a map, reads the answer again and publishes an event
    if it moved; operations of several threads may overlap and time passes between their steps.
    A listener reads the answer when it gets to an event. Every changed slice schedules one
    check for when the grace of the replaced slice is over. One read of the answer and one
    change are steps of their own. */
module ProgrammedRuns {
  import opened Collections
  import opened Types
  import opened Slicing
  import opened Programmed

  datatype Op =
    | SetSlice(gateway: NamespacedName, fingerprint: U64)
    | RemoveSlice(gateway: NamespacedName)
    | Apply(node: string, applied: Applied)
    | ForgetNode(node: string)
    | CheckGrace(gateway: NamespacedName)

  /** How far an operation is. `flag` says, of a slice, whether it changed; of a check, whether
      it pruned something. */
  datatype Stage = Begun | Changed(flag: bool)

  /** An operation under way: whether it compares the answer of the Gateway watched, and what
      it read of it before. */
  datatype Pending = Pending(op: Op, concerns: bool, before: bool, stage: Stage)

  datatype Act =
    | Begin(id: nat, op: Op)
    | Change(id: nat)
    | Close(id: nat)
    | Fire(id: nat, gateway: NamespacedName, due: int)
    | StoreFingerprint(fingerprint: U64)
    | Listen

  datatype Timed = Timed(act: Act, at: int)

  /** The store and one listener of one Gateway: the answer it was `told` last, whether an event
      waits for it, the operations under way and the checks `due`. The rest is history: `lost`,
      the Gateway departed with a lapse untold; `replaced`, the slices replaced since the Gateway
      (re)appeared; and when they were `pruned` last. */
  datatype World = World(
    view: View, now: int, told: bool, woken: bool, open: map<nat, Pending>, due: multiset<int>,
    lost: bool, replaced: seq<Superseded>, pruned: Option<int>)

  function Init(now: int): World { World(View(0, map[], map[], map[]), now, false, false, map[], multiset{}, false, [], None) }

  /** `serial`: an operation begins only when no other is under way. `prompt`: a listener gets to
      an event before anything else happens. */
  datatype Rules = Rules(serial: bool, prompt: bool)

  // ---- Operations ----

  /** The changes `Programmed.ConfigStore` makes, on values. */
  function After(v: View, op: Op, at: int): View {
    match op
    case SetSlice(x, fp) => WithSlice(v, x, fp, at)
    case RemoveSlice(x) => WithoutSlice(v, x)
    case Apply(node, a) => WithNode(v, node, a)
    case ForgetNode(node) => WithoutNode(v, node)
    case CheckGrace(x) => Pruned(v, x, at)
  }

  /** Calls that return at once take no step: a rejected report, an unknown node. */
  predicate Admitted(v: View, op: Op) {
    match op
    case Apply(node, a) => a.fingerprint != 0 && Accepts(v, node)
    case ForgetNode(node) => node in v.applied
    case CheckGrace(_) => false
    case _ => true
  }

  /** Whether the operation compares the answer of `g`; a node's Gateway is looked up first. */
  predicate Concerns(g: NamespacedName, v: View, op: Op) {
    match op
    case SetSlice(x, _) => x == g
    case RemoveSlice(x) => x == g
    case Apply(node, a) => a.gateway == g || LeftBy(v, node, a.gateway) == g
    case ForgetNode(node) => node in v.applied && v.applied[node].gateway == g
    case CheckGrace(x) => x == g
  }

  function NodesOf(v: View, g: NamespacedName): set<string> { set n | n in v.applied && v.applied[n].gateway == g }

  /** Operations on nodes compare the answers of the Gateways whose data planes they touch. */
  lemma ConcernsExactly(g: NamespacedName, v: View, node: string, a: Applied)
    ensures Concerns(g, v, ForgetNode(node)) <==> NodesOf(WithoutNode(v, node), g) != NodesOf(v, g)
    ensures Concerns(g, v, Apply(node, a)) <==> node in NodesOf(v, g) || node in NodesOf(WithNode(v, node, a), g)
  {
    if Concerns(g, v, ForgetNode(node)) {
      assert node in NodesOf(v, g) && node !in NodesOf(WithoutNode(v, node), g);
    } else {
      assert NodesOf(WithoutNode(v, node), g) == NodesOf(v, g);
    }
  }

  /** A report is taken up exactly when it names a fingerprint and keeps the record within 1000
      nodes; a departure, when the node is on record. */
  lemma AdmittedExactly(v: View, node: string, a: Applied)
    requires |v.applied| <= 1000
    ensures Admitted(v, Apply(node, a)) <==> a.fingerprint != 0 && |WithNode(v, node, a).applied| <= 1000
    ensures Admitted(v, ForgetNode(node)) <==> WithoutNode(v, node) != v
  {
    CapExactly(v, node, a);
    if node in v.applied {
      assert node !in WithoutNode(v, node).applied;
    } else {
      assert v.applied - {node} == v.applied;
    }
  }

  predicate Changes(g: NamespacedName, v: View, op: Op) {
    op.SetSlice? && op.gateway == g && !(g in v.slices && v.slices[g] == op.fingerprint)
  }

  predicate Replaces(g: NamespacedName, v: View, op: Op) { Changes(g, v, op) && g in v.slices }
  predicate Departs(g: NamespacedName, op: Op) { op.RemoveSlice? && op.gateway == g }

  predicate Answer(g: NamespacedName, w: World) { IsProgrammedFor(w.view, g, w.now) }

  predicate Prunes(g: NamespacedName, v: View, at: int) {
    |Filter(SuperGet(v, g), Young(at))| < |SuperGet(v, g)|
  }

  function Began(g: NamespacedName, w: World, id: nat, op: Op): World {
    w.(open := w.open[id := Pending(op, Concerns(g, w.view, op), Answer(g, w), Begun)])
  }

  function Made(g: NamespacedName, w: World, id: nat, p: Pending): World {
    w.(view := After(w.view, p.op, w.now),
       open := w.open[id := p.(stage := Changed(Changes(g, w.view, p.op)))],
       replaced := if Replaces(g, w.view, p.op) then w.replaced + [Superseded(w.view.slices[g], w.now)]
                   else if Departs(g, p.op) then [] else w.replaced,
       pruned := if Replaces(g, w.view, p.op) then Some(w.now) else if Departs(g, p.op) then None else w.pruned)
  }

  function Fired(g: NamespacedName, w: World, id: nat, x: NamespacedName, due: int): World {
    w.(view := Pruned(w.view, x, w.now),
       open := w.open[id := Pending(CheckGrace(x), x == g, false, Changed(x == g && Prunes(g, w.view, w.now)))],
       due := if x == g then w.due - multiset{due} else w.due,
       pruned := if x == g then Some(w.now) else w.pruned)
  }

  /** An operation publishes if the answer is not the one it read before; a check, if it pruned
      something and the Gateway is not Programmed. */
  predicate Publishes(g: NamespacedName, w: World, p: Pending) {
    p.concerns && p.stage.Changed? && if p.op.CheckGrace? then p.stage.flag && !Answer(g, w) else Answer(g, w) != p.before
  }

  function Closed(g: NamespacedName, w: World, id: nat, p: Pending): World
    requires p.stage.Changed?
  {
    w.(open := w.open - {id},
       due := if p.op.SetSlice? && p.op.gateway == g && p.stage.flag then w.due + multiset{w.now + GRACE} else w.due,
       woken := w.woken || Publishes(g, w, p),
       lost := !Publishes(g, w, p) && (w.lost || (Departs(g, p.op) && w.told && !Answer(g, w))))
  }

  /** A check is scheduled, ten seconds ahead, exactly when a slice of the Gateway is recorded
      that differs from the one there was. */
  lemma SchedulesExactly(g: NamespacedName, w: World, id: nat, p: Pending, later: World)
    requires !p.op.CheckGrace? && later.open == Made(g, w, id, p).open
    ensures id in later.open && later.open[id].stage.Changed?
    ensures Closed(g, later, id, later.open[id]).due ==
      if p.op.SetSlice? && p.op.gateway == g && (g !in w.view.slices || w.view.slices[g] != p.op.fingerprint)
      then later.due + multiset{later.now + 10_000_000_000} else later.due
  {
  }

  predicate MayBegin(rules: Rules, w: World, id: nat) { id !in w.open && (rules.serial ==> w.open == map[]) }

  /** The step, the clock already moved on. */
  function Taken(rules: Rules, g: NamespacedName, w: World, a: Act): Option<World> {
    match a
    case Begin(id, op) => if MayBegin(rules, w, id) && Admitted(w.view, op) then Some(Began(g, w, id, op)) else None
    case Change(id) => if id in w.open && w.open[id].stage.Begun? then Some(Made(g, w, id, w.open[id])) else None
    case Close(id) => if id in w.open && w.open[id].stage.Changed? then Some(Closed(g, w, id, w.open[id])) else None
    case Fire(id, x, due) =>
      if MayBegin(rules, w, id) && (x == g ==> due in w.due && due <= w.now) then Some(Fired(g, w, id, x, due)) else None
    case StoreFingerprint(fp) => Some(w.(view := w.view.(compiled := fp)))
    case Listen => if w.woken then Some(w.(told := Answer(g, w), woken := false)) else None
  }

  predicate Due(rules: Rules, w: World, t: Timed) {
    w.now <= t.at && (rules.prompt && w.woken ==> t.act.Listen?)
  }

  function Step(rules: Rules, g: NamespacedName, w: World, t: Timed): Option<World> {
    if Due(rules, w, t) then Taken(rules, g, w.(now := t.at), t.act) else None
  }

  function Run(rules: Rules, g: NamespacedName, w: World, ops: seq<Timed>): Option<World>
    decreases |ops|
  {
    if ops == [] then Some(w)
    else
      var next := Step(rules, g, w, ops[0]);
      if next.None? then None else Run(rules, g, next.value, ops[1..])
  }

  /** The step is not a fingerprint store that moves the answer; `Programmed.FingerprintStoreSilent`
      says which do. */
  ghost predicate Steady(g: NamespacedName, w: World, t: Timed) {
    t.act.StoreFingerprint? ==> !Moved(w.view, w.view.(compiled := t.act.fingerprint), g, t.at)
  }

  ghost predicate Calm(rules: Rules, g: NamespacedName, w: World, ops: seq<Timed>)
    decreases |ops|
  {
    ops == [] ||
    (Steady(g, w, ops[0]) && (Step(rules, g, w, ops[0]).Some? ==> Calm(rules, g, Step(rules, g, w, ops[0]).value, ops[1..])))
  }

  // ---- Slices in grace, in every run ----

  /** The slices in grace are those replaced whose grace was not over at the last pruning. */
  function Remaining(replaced: seq<Superseded>, pruned: Option<int>): seq<Superseded> {
    if pruned.None? then replaced else Filter(replaced, Young(pruned.value))
  }

  ghost predicate Kept(g: NamespacedName, w: World) {
    && (g in w.view.superseded ==> g in w.view.slices)
    && SuperGet(w.view, g) == Remaining(w.replaced, w.pruned)
    && (w.pruned.Some? ==> w.pruned.value <= w.now)
    && (forall x :: x in w.replaced ==> x.at <= w.now)
  }

  lemma ReplacedRemaining(replaced: seq<Superseded>, pruned: Option<int>, at: int, x: Superseded)
    requires (pruned.Some? ==> pruned.value <= at) && x.at == at
    ensures Filter(Remaining(replaced, pruned), Young(at)) + [x] == Remaining(replaced + [x], Some(at))
    ensures Filter(Remaining(replaced, pruned), Young(at)) == Remaining(replaced, Some(at))
  {
    FilterConcat(replaced, [x], Young(at));
    if pruned.Some? {
      FilterFilter(replaced, Young(pruned.value), Young(at));
    }
    assert Filter([x], Young(at)) == [x];
  }

  lemma MadeKeepsKept(g: NamespacedName, w: World, id: nat, p: Pending)
    requires Kept(g, w) && !p.op.CheckGrace?
    ensures Kept(g, Made(g, w, id, p))
    ensures !Replaces(g, w.view, p.op) && !Departs(g, p.op) ==> SuperGet(Made(g, w, id, p).view, g) == SuperGet(w.view, g)
    ensures Replaces(g, w.view, p.op) ==> SuperGet(Made(g, w, id, p).view, g) != []
  {
    var t := Made(g, w, id, p);
    if Replaces(g, w.view, p.op) {
      var x := Superseded(w.view.slices[g], w.now);
      ReplacedRemaining(w.replaced, w.pruned, w.now, x);
      assert SuperGet(t.view, g) == Filter(SuperGet(w.view, g), Young(w.now)) + [x];
    } else if Departs(g, p.op) {
      assert SuperGet(t.view, g) == [];
    } else {
      assert SuperGet(t.view, g) == SuperGet(w.view, g);
    }
  }

  lemma FiredKeepsKept(g: NamespacedName, w: World, id: nat, x: NamespacedName, due: int)
    requires Kept(g, w)
    ensures Kept(g, Fired(g, w, id, x, due))
    ensures SuperGet(Fired(g, w, id, x, due).view, g) == if x == g then Filter(SuperGet(w.view, g), Young(w.now)) else SuperGet(w.view, g)
  {
    ReplacedRemaining(w.replaced, w.pruned, w.now, Superseded(0, w.now));
  }

  /** No check is ever waiting to change: its first step prunes. */
  ghost predicate NoCheckBegun(open: map<nat, Pending>) {
    forall id :: id in open && open[id].op.CheckGrace? ==> open[id].stage.Changed?
  }

  /** Kept depends on the view, the history and the clock. */
  lemma KeptFramed(g: NamespacedName, w: World, t: World)
    requires Kept(g, w) && w.now <= t.now
    requires t.view.slices == w.view.slices && t.view.superseded == w.view.superseded
    requires t.replaced == w.replaced && t.pruned == w.pruned
    ensures Kept(g, t)
  {
  }

  lemma ActKeepsKept(rules: Rules, g: NamespacedName, w: World, a: Act)
    requires Kept(g, w) && NoCheckBegun(w.open) && Taken(rules, g, w, a).Some?
    ensures Kept(g, Taken(rules, g, w, a).value)
  {
    var t := Taken(rules, g, w, a).value;
    match a
    case Change(id) => MadeKeepsKept(g, w, id, w.open[id]);
    case Fire(id, x, due) => FiredKeepsKept(g, w, id, x, due);
    case Begin(_, _) => KeptFramed(g, w, t);
    case Close(_) => KeptFramed(g, w, t);
    case StoreFingerprint(_) => KeptFramed(g, w, t);
    case Listen => KeptFramed(g, w, t);
  }

  lemma UpdateKeepsBegun(open: map<nat, Pending>, id: nat, p: Pending)
    requires NoCheckBegun(open) && (p.op.CheckGrace? ==> p.stage.Changed?)
    ensures NoCheckBegun(open[id := p]) && NoCheckBegun(open - {id})
  {
  }

  lemma ActKeepsBegun(rules: Rules, g: NamespacedName, w: World, a: Act)
    requires NoCheckBegun(w.open) && Taken(rules, g, w, a).Some?
    ensures NoCheckBegun(Taken(rules, g, w, a).value.open)
  {
    var open := Taken(rules, g, w, a).value.open;
    match a
    case Begin(id, op) => UpdateKeepsBegun(w.open, id, Began(g, w, id, op).open[id]);
    case Change(id) => UpdateKeepsBegun(w.open, id, open[id]);
    case Close(id) => UpdateKeepsBegun(w.open, id, w.open[id]);
    case Fire(id, x, due) => UpdateKeepsBegun(w.open, id, Fired(g, w, id, x, due).open[id]);
    case _ =>
  }

  lemma StepKeepsKept(rules: Rules, g: NamespacedName, w: World, t: Timed)
    requires Kept(g, w) && NoCheckBegun(w.open) && Step(rules, g, w, t).Some?
    ensures Kept(g, Step(rules, g, w, t).value) && NoCheckBegun(Step(rules, g, w, t).value.open)
  {
    var u := w.(now := t.at);
    KeptFramed(g, w, u);
    ActKeepsKept(rules, g, u, t.act);
    ActKeepsBegun(rules, g, u, t.act);
  }

  lemma {:induction false} RunKeepsKept(rules: Rules, g: NamespacedName, w: World, ops: seq<Timed>)
    requires Kept(g, w) && NoCheckBegun(w.open) && Run(rules, g, w, ops).Some?
    ensures Kept(g, Run(rules, g, w, ops).value)
    decreases |ops|
  {
    if ops != [] {
      StepKeepsKept(rules, g, w, ops[0]);
      RunKeepsKept(rules, g, Step(rules, g, w, ops[0]).value, ops[1..]);
    }
  }

  lemma PrunesExactly(v: View, g: NamespacedName, at: int)
    ensures Prunes(g, v, at) <==> exists x :: x in SuperGet(v, g) && x.at + GRACE <= at
  {
    var old_ := SuperGet(v, g);
    FilterShorter(old_, Young(at));
    if x :| x in old_ && x.at + GRACE <= at {
      var i :| 0 <= i < |old_| && old_[i] == x;
      assert !Young(at)(old_[i]);
    }
    if i :| 0 <= i < |old_| && !Young(at)(old_[i]) {
      assert old_[i] in old_;
    }
  }

  lemma RemainingMember(replaced: seq<Superseded>, pruned: Option<int>, x: Superseded)
    ensures x in Remaining(replaced, pruned) <==> x in replaced && (pruned.Some? ==> pruned.value < x.at + GRACE)
  {
  }

  /** In every run, however operations overlap: a check that fires publishes at its close exactly
      when the grace of a slice replaced had ended after the last pruning before it and by then,
      and the Gateway is not Programmed at the close. */
  lemma CheckReportsExactly(rules: Rules, g: NamespacedName, start: int, ops: seq<Timed>, w: World, id: nat, due: int, fired: World)
    requires Run(rules, g, Init(start), ops) == Some(w)
    requires Taken(rules, g, w, Fire(id, g, due)) == Some(fired)
    ensures forall later: World :: Publishes(g, later, fired.open[id]) <==>
      && !Answer(g, later)
      && exists x :: x in w.replaced && x.at + GRACE <= w.now && (w.pruned.Some? ==> w.pruned.value < x.at + GRACE)
  {
    RunKeepsKept(rules, g, Init(start), ops);
    PrunesExactly(w.view, g, w.now);
    forall x ensures x in SuperGet(w.view, g) <==> x in w.replaced && (w.pruned.Some? ==> w.pruned.value < x.at + GRACE) {
      RemainingMember(w.replaced, w.pruned, x);
    }
  }

  // ---- What a listener knows, under the rules ----

  const CAREFUL := Rules(true, true)

  /** A check is to come for every slice in grace, or an operation under way will schedule one. */
  ghost predicate Scheduling(g: NamespacedName, open: map<nat, Pending>) {
    exists id :: id in open && open[id].op.SetSlice? && open[id].op.gateway == g && open[id].stage == Changed(true)
  }

  ghost predicate Scheduled(g: NamespacedName, w: World) {
    Scheduling(g, w.open) || forall x :: x in SuperGet(w.view, g) ==> Covered(w.due, x)
  }

  ghost predicate Covered(due: multiset<int>, x: Superseded) { exists d :: d in due && x.at + GRACE <= d }

  /** Between operations: a Programmed Gateway is known to be; a lapse untold has left a slice in
      grace behind, or was lost with the Gateway. */
  ghost predicate Known(g: NamespacedName, w: World) {
    && (Answer(g, w) ==> w.told)
    && (w.told && !Answer(g, w) ==> w.lost || SuperGet(w.view, g) != [])
    && (w.lost ==> w.told && !Answer(g, w))
  }

  /** What an operation carries from its first read to its close. */
  ghost predicate Carried(g: NamespacedName, w: World, p: Pending) {
    && (p.before ==> w.told)
    && (w.told && !p.before ==> w.lost || SuperGet(w.view, g) != [] || (Departs(g, p.op) && p.stage.Changed?))
    && (w.lost ==> w.told && !p.before)
  }

  ghost predicate CheckKnown(g: NamespacedName, w: World, pruned: bool) {
    && (Answer(g, w) ==> w.told)
    && (w.told && !Answer(g, w) ==> w.lost || SuperGet(w.view, g) != [] || pruned)
    && (w.lost ==> w.told && !Answer(g, w))
  }

  ghost predicate UnderWay(g: NamespacedName, w: World, p: Pending) {
    match p.stage
    case Begun => Known(g, w) && p.concerns == Concerns(g, w.view, p.op) && (p.concerns ==> Carried(g, w, p))
    case Changed(flag) =>
      if !p.concerns then Known(g, w)
      else if p.op.CheckGrace? then CheckKnown(g, w, flag)
      else Carried(g, w, p)
  }

  ghost predicate Single(open: map<nat, Pending>) { forall i, j :: i in open && j in open ==> i == j }

  ghost predicate Inv(g: NamespacedName, w: World) {
    && Kept(g, w) && Scheduled(g, w) && NoCheckBegun(w.open) && Single(w.open)
    && (w.woken ==> w.open == map[] && !w.lost)
    && (!w.woken && w.open == map[] ==> Known(g, w))
    && (forall id :: id in w.open ==> UnderWay(g, w, w.open[id]))
  }

  lemma TimeKeepsKnown(g: NamespacedName, w: World, at: int, pruned: bool)
    requires w.now <= at && CheckKnown(g, w, pruned)
    ensures CheckKnown(g, w.(now := at), pruned)
  {
    var t := w.(now := at);
    if Answer(g, t) {
      NoSilentGain(w.view, g, w.now, at);
    } else if Answer(g, w) {
      LapseLeavesExpired(w.view, g, w.now, at);
    }
  }

  /** Time passes: the answer may lapse, and leaves an expired slice behind when it does. */
  lemma TimeKeeps(g: NamespacedName, w: World, at: int)
    requires Inv(g, w) && w.now <= at
    ensures Inv(g, w.(now := at))
  {
    var t := w.(now := at);
    if !w.woken && w.open == map[] {
      TimeKeepsKnown(g, w, at, false);
    }
    forall id | id in w.open ensures UnderWay(g, t, t.open[id]) {
      var p := w.open[id];
      if p.stage.Begun? || !p.concerns {
        TimeKeepsKnown(g, w, at, false);
      } else if p.op.CheckGrace? {
        TimeKeepsKnown(g, w, at, p.stage.flag);
      }
    }
  }

  lemma BeginKeeps(g: NamespacedName, w: World, id: nat, op: Op)
    requires Inv(g, w) && w.open == map[] && !w.woken && !op.CheckGrace?
    ensures Inv(g, Began(g, w, id, op))
  {
    var t := Began(g, w, id, op);
    assert t.open == map[id := t.open[id]];
    assert Known(g, t) && Carried(g, t, t.open[id]);
    assert !Scheduling(g, w.open);
  }

  /** A change elsewhere moves nothing here. */
  lemma ElsewhereUnmoved(g: NamespacedName, v: View, op: Op, at: int)
    requires !Concerns(g, v, op) && !op.CheckGrace?
    ensures !Moved(v, After(v, op, at), g, at)
  {
    match op
    case SetSlice(x, fp) => SliceMovesOne(v, x, fp, at);
    case RemoveSlice(x) => RemovalMovesOne(v, x, at);
    case Apply(node, a) => RecordingMovesTwo(v, node, a, at);
    case ForgetNode(node) =>
      if node in v.applied {
        ForgettingMovesOne(v, node, at);
      } else {
        assert v.applied - {node} == v.applied;
      }
  }

  lemma MadeUnderWay(g: NamespacedName, w: World, id: nat, p: Pending)
    requires Kept(g, w) && p.stage.Begun? && UnderWay(g, w, p) && !p.op.CheckGrace?
    ensures UnderWay(g, Made(g, w, id, p), Made(g, w, id, p).open[id])
  {
    MadeKeepsKept(g, w, id, p);
    if !p.concerns {
      ElsewhereUnmoved(g, w.view, p.op, w.now);
    }
  }

  lemma MadeScheduled(g: NamespacedName, w: World, id: nat, p: Pending)
    requires Kept(g, w) && Scheduled(g, w) && !Scheduling(g, w.open) && !p.op.CheckGrace?
    ensures Scheduled(g, Made(g, w, id, p))
  {
    var t := Made(g, w, id, p);
    MadeKeepsKept(g, w, id, p);
    if Changes(g, w.view, p.op) {
      assert t.open[id].stage == Changed(true);
    } else if Departs(g, p.op) {
      assert SuperGet(t.view, g) == [];
    }
  }

  lemma ChangeKeeps(g: NamespacedName, w: World, id: nat)
    requires Inv(g, w) && id in w.open && w.open[id].stage.Begun?
    ensures Inv(g, Made(g, w, id, w.open[id]))
  {
    var p := w.open[id];
    var t := Made(g, w, id, p);
    assert w.open == map[id := p] && t.open == map[id := t.open[id]];
    assert !Scheduling(g, w.open);
    MadeKeepsKept(g, w, id, p);
    MadeUnderWay(g, w, id, p);
    MadeScheduled(g, w, id, p);
  }

  lemma ClosedKnown(g: NamespacedName, w: World, id: nat, p: Pending)
    requires p.stage.Changed? && UnderWay(g, w, p) && !w.woken
    ensures !Publishes(g, w, p) ==> Known(g, Closed(g, w, id, p))
    ensures Publishes(g, w, p) ==> !Closed(g, w, id, p).lost
  {
  }

  lemma ClosedScheduled(g: NamespacedName, w: World, id: nat, p: Pending)
    requires Kept(g, w) && Scheduled(g, w) && w.open == map[id := p] && p.stage.Changed?
    ensures Scheduled(g, Closed(g, w, id, p))
  {
    var t := Closed(g, w, id, p);
    if p.op.SetSlice? && p.op.gateway == g && p.stage.flag {
      forall x | x in SuperGet(t.view, g) ensures Covered(t.due, x) {
        RemainingMember(w.replaced, w.pruned, x);
        assert w.now + GRACE in t.due;
      }
    } else {
      assert !Scheduling(g, w.open);
    }
  }

  lemma CloseKeeps(g: NamespacedName, w: World, id: nat)
    requires Inv(g, w) && id in w.open && w.open[id].stage.Changed?
    ensures Inv(g, Closed(g, w, id, w.open[id]))
  {
    var p := w.open[id];
    assert w.open == map[id := p] && w.open - {id} == map[];
    ClosedKnown(g, w, id, p);
    ClosedScheduled(g, w, id, p);
  }

  lemma FiredScheduled(g: NamespacedName, w: World, id: nat, x: NamespacedName, due: int)
    requires Kept(g, w) && Scheduled(g, w) && w.open == map[] && (x == g ==> due in w.due && due <= w.now)
    ensures Scheduled(g, Fired(g, w, id, x, due))
  {
    var t := Fired(g, w, id, x, due);
    FiredKeepsKept(g, w, id, x, due);
    assert !Scheduling(g, w.open);
    forall y | y in SuperGet(t.view, g) ensures Covered(t.due, y) {
      assert y in SuperGet(w.view, g);
      var d :| d in w.due && y.at + GRACE <= d;
      assert x == g ==> Young(w.now)(y);
      assert d in t.due;
    }
  }

  lemma FireKeeps(g: NamespacedName, w: World, id: nat, x: NamespacedName, due: int)
    requires Inv(g, w) && w.open == map[] && !w.woken && (x == g ==> due in w.due && due <= w.now)
    ensures Inv(g, Fired(g, w, id, x, due))
  {
    var t := Fired(g, w, id, x, due);
    assert t.open == map[id := t.open[id]];
    FiredKeepsKept(g, w, id, x, due);
    FiredScheduled(g, w, id, x, due);
    PruningInvisible(w.view, x, g, w.now);
    FilterShorter(SuperGet(w.view, g), Young(w.now));
    if x == g && !Prunes(g, w.view, w.now) {
      FilterAll(SuperGet(w.view, g), Young(w.now));
    }
  }

  lemma StoreKeeps(g: NamespacedName, w: World, fp: U64)
    requires Inv(g, w) && !Moved(w.view, w.view.(compiled := fp), g, w.now)
    ensures Inv(g, w.(view := w.view.(compiled := fp)))
  {
    var t := w.(view := w.view.(compiled := fp));
    assert Answer(g, t) == Answer(g, w);
  }

  lemma StepKeeps(g: NamespacedName, w: World, t: Timed)
    requires Inv(g, w) && Steady(g, w, t) && Step(CAREFUL, g, w, t).Some?
    ensures Inv(g, Step(CAREFUL, g, w, t).value)
  {
    var u := w.(now := t.at);
    TimeKeeps(g, w, t.at);
    match t.act
    case Begin(id, op) => BeginKeeps(g, u, id, op);
    case Change(id) => ChangeKeeps(g, u, id);
    case Close(id) => CloseKeeps(g, u, id);
    case Fire(id, x, due) => FireKeeps(g, u, id, x, due);
    case StoreFingerprint(fp) => StoreKeeps(g, u, fp);
    case Listen =>
  }

  lemma {:induction false} RunKeeps(g: NamespacedName, w: World, ops: seq<Timed>)
    requires Inv(g, w) && Calm(CAREFUL, g, w, ops) && Run(CAREFUL, g, w, ops).Some?
    ensures Inv(g, Run(CAREFUL, g, w, ops).value)
    decreases |ops|
  {
    if ops != [] {
      StepKeeps(g, w, ops[0]);
      RunKeeps(g, Step(CAREFUL, g, w, ops[0]).value, ops[1..]);
    }
  }

  // ---- Main results, over every run ----

  ghost predicate Leads(rules: Rules, g: NamespacedName, w: World, ops: seq<Timed>, t: World) {
    Calm(rules, g, w, ops) && Run(rules, g, w, ops) == Some(t)
  }

  ghost predicate Reaches(rules: Rules, g: NamespacedName, start: int, ops: seq<Timed>, w: World) {
    Leads(rules, g, Init(start), ops, w)
  }

  /** Nothing is under way and no event waits. */
  predicate Quiet(w: World) { w.open == map[] && !w.woken }

  /** With operations one at a time and events heard before anything else happens, a listener never believes a Gateway
      unprogrammed that is Programmed. When it believes one Programmed that has lapsed, the
      Gateway departed with the lapse untold, or a check is still due for a slice in grace. */
  lemma LapsePending(g: NamespacedName, start: int, ops: seq<Timed>, w: World)
    requires Reaches(CAREFUL, g, start, ops, w) && Quiet(w)
    ensures Answer(g, w) ==> w.told
    ensures w.told && !Answer(g, w) && !w.lost ==> exists x :: x in SuperGet(w.view, g) && Covered(w.due, x)
  {
    RunKeeps(g, Init(start), ops);
    assert !Scheduling(g, w.open);
    if w.told && !Answer(g, w) && !w.lost {
      assert SuperGet(w.view, g)[0] in SuperGet(w.view, g);
    }
  }

  predicate AtRest(w: World) { Quiet(w) && w.due == multiset{} }

  /** Once the scheduled checks have fired, what a listener was told is the answer, if and only
      if the Gateway did not depart with a lapse untold. */
  lemma ToldAtRest(g: NamespacedName, start: int, ops: seq<Timed>, w: World)
    requires Reaches(CAREFUL, g, start, ops, w) && AtRest(w)
    ensures w.told == Answer(g, w) <==> !w.lost
  {
    LapsePending(g, start, ops, w);
    RunKeeps(g, Init(start), ops);
  }

  /** Without any rule: closing an operation and hearing what it published leaves the listener
      right exactly when it publishes or was told what the operation read before. */
  lemma ClosingExactly(g: NamespacedName, w: World, id: nat, p: Pending)
    requires p.concerns && p.stage.Changed? && !p.op.CheckGrace? && !w.woken
    ensures var t := Closed(g, w, id, p);
      (if t.woken then Answer(g, t) else t.told) == Answer(g, t) <==> Publishes(g, w, p) || w.told == p.before
  {
  }
}
