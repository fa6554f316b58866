/** Runs of the store in which a listener stays wrong, and with them the exact rules under
    which none does. */
module ProgrammedRaces {
  import opened Collections
  import opened Types
  import opened Slicing
  import opened Programmed
  import opened ProgrammedRuns

  // ---- Composing runs ----

  lemma {:induction false} Then(rules: Rules, g: NamespacedName, w: World, a: seq<Timed>, t: World, b: seq<Timed>, u: World)
    requires Leads(rules, g, w, a, t) && Leads(rules, g, t, b, u)
    ensures Leads(rules, g, w, a + b, u)
    decreases |a|
  {
    if a == [] {
      assert a + b == b;
    } else {
      assert (a + b)[1..] == a[1..] + b;
      Then(rules, g, Step(rules, g, w, a[0]).value, a[1..], t, b, u);
    }
  }

  lemma One(rules: Rules, g: NamespacedName, w: World, a: Act, at: int, t: World)
    requires Step(rules, g, w, Timed(a, at)) == Some(t) && Steady(g, w, Timed(a, at))
    ensures Leads(rules, g, w, [Timed(a, at)], t)
  {
    assert [Timed(a, at)][1..] == [];
  }

  lemma And(rules: Rules, g: NamespacedName, w: World, a: seq<Timed>, t: World, b: Act, at: int, u: World)
    requires Leads(rules, g, w, a, t) && Step(rules, g, t, Timed(b, at)) == Some(u) && Steady(g, t, Timed(b, at))
    ensures Leads(rules, g, w, a + [Timed(b, at)], u)
  {
    One(rules, g, t, b, at, u);
    Then(rules, g, w, a, t, [Timed(b, at)], u);
  }

  /** An operation from its first read to its close, with nothing in between. */
  function Whole(op: Op, at: int): seq<Timed> { [Timed(Begin(0, op), at)] + [Timed(Change(0), at)] + [Timed(Close(0), at)] }

  function Done(g: NamespacedName, w: World, op: Op): World {
    var p := Pending(op, Concerns(g, w.view, op), Answer(g, w), Begun);
    var m := Made(g, w.(open := map[0 := p]), 0, p);
    Closed(g, m, 0, m.open[0]).(open := map[])
  }

  predicate Free(rules: Rules, w: World) { w.open == map[] && (rules.prompt ==> !w.woken) }

  lemma WholeLeads(rules: Rules, g: NamespacedName, w: World, op: Op, at: int)
    requires Free(rules, w) && Admitted(w.view, op) && w.now <= at
    ensures Leads(rules, g, w, Whole(op, at), Done(g, w.(now := at), op))
  {
    var u := w.(now := at);
    var b := Began(g, u, 0, op);
    var m := Made(g, b, 0, b.open[0]);
    assert b.open == map[0 := b.open[0]] && m.open == map[0 := m.open[0]] && m.open - {0} == map[];
    One(rules, g, w, Begin(0, op), at, b);
    And(rules, g, w, [Timed(Begin(0, op), at)], b, Change(0), at, m);
    And(rules, g, w, [Timed(Begin(0, op), at)] + [Timed(Change(0), at)], m, Close(0), at, Done(g, u, op));
  }

  lemma AndWhole(rules: Rules, g: NamespacedName, start: World, ops: seq<Timed>, w: World, op: Op, at: int, t: World)
    requires Leads(rules, g, start, ops, w) && Free(rules, w) && Admitted(w.view, op) && w.now <= at && Done(g, w.(now := at), op) == t
    ensures Leads(rules, g, start, ops + Whole(op, at), t)
  {
    WholeLeads(rules, g, w, op, at);
    Then(rules, g, start, ops, w, Whole(op, at), t);
  }

  /** A check from firing to its close. */
  function Check(g: NamespacedName, due: int, at: int): seq<Timed> { [Timed(Fire(0, g, due), at)] + [Timed(Close(0), at)] }

  function Checked(g: NamespacedName, w: World, due: int, at: int): World {
    var view := Pruned(w.view, g, at);
    w.(now := at, view := view, due := w.due - multiset{due}, pruned := Some(at),
       woken := Prunes(g, w.view, at) && !IsProgrammedFor(view, g, at))
  }

  lemma AndCheck(rules: Rules, g: NamespacedName, start: World, ops: seq<Timed>, w: World, due: int, at: int)
    requires Leads(rules, g, start, ops, w) && w.open == map[] && !w.woken && !w.lost && due in w.due && due <= at && w.now <= at
    ensures Leads(rules, g, start, ops + Check(g, due, at), Checked(g, w, due, at))
  {
    var f := Fired(g, w.(now := at), 0, g, due);
    assert f.open == map[0 := f.open[0]] && f.open - {0} == map[];
    One(rules, g, w, Fire(0, g, due), at, f);
    And(rules, g, w, [Timed(Fire(0, g, due), at)], f, Close(0), at, Checked(g, w, due, at));
    Then(rules, g, start, ops, w, Check(g, due, at), Checked(g, w, due, at));
  }

  // ---- Two operations at once ----

  /** The store with slice 1 compiled and these data planes; slices were never replaced. */
  function Serving(g: NamespacedName, nodes: map<string, Applied>, told: bool): World {
    World(View(1, map[g := 1], map[], nodes), 0, told, false, map[], multiset{GRACE}, false, [], None)
  }

  /** Slice 1 is compiled and a data plane applies `fp`. */
  lemma OneNodeUnheard(rules: Rules, g: NamespacedName, fp: U64) returns (ops: seq<Timed>)
    requires fp != 0
    ensures Leads(rules, g, Init(0), ops, Serving(g, map["a" := Applied(g, fp)], false).(woken := fp == 1))
  {
    var stored := Init(0).(view := View(1, map[], map[], map[]));
    ops := [Timed(StoreFingerprint(1), 0)];
    One(rules, g, Init(0), StoreFingerprint(1), 0, stored);
    AndWhole(rules, g, Init(0), ops, stored, SetSlice(g, 1), 0, Serving(g, map[], false));
    ops := ops + Whole(SetSlice(g, 1), 0);
    Alone(g, fp);
    var applied := Serving(g, map["a" := Applied(g, fp)], false).(woken := fp == 1);
    AndWhole(rules, g, Init(0), ops, Serving(g, map[], false), Apply("a", Applied(g, fp)), 0, applied);
    ops := ops + Whole(Apply("a", Applied(g, fp)), 0);
  }

  lemma OneNode(rules: Rules, g: NamespacedName, fp: U64) returns (ops: seq<Timed>)
    requires fp != 0
    ensures Leads(rules, g, Init(0), ops, Serving(g, map["a" := Applied(g, fp)], fp == 1))
  {
    ops := OneNodeUnheard(rules, g, fp);
    Alone(g, fp);
    if fp == 1 {
      var w := Serving(g, map["a" := Applied(g, fp)], false).(woken := true);
      And(rules, g, Init(0), ops, w, Listen, 0, Serving(g, map["a" := Applied(g, fp)], true));
      ops := ops + [Timed(Listen, 0)];
    }
  }

  lemma Alone(g: NamespacedName, fp: U64)
    ensures forall at :: IsProgrammedFor(View(1, map[g := 1], map[], map["a" := Applied(g, fp)]), g, at) <==> fp == 1
    ensures forall at :: !IsProgrammedFor(View(1, map[g := 1], map[], map[]), g, at)
  {
    assert "a" in map["a" := Applied(g, fp)];
  }

  /** The check that is due changes nothing. */
  lemma CheckIdle(rules: Rules, g: NamespacedName, ops: seq<Timed>, nodes: map<string, Applied>, told: bool) returns (more: seq<Timed>, w: World)
    requires Leads(rules, g, Init(0), ops, Serving(g, nodes, told))
    ensures Leads(rules, g, Init(0), more, w) && AtRest(w) && !w.lost && w.told == told && w.view == Serving(g, nodes, told).view
  {
    AndCheck(rules, g, Init(0), ops, Serving(g, nodes, told), GRACE, GRACE);
    more, w := ops + Check(g, GRACE, GRACE), Checked(g, Serving(g, nodes, told), GRACE, GRACE);
    assert multiset{GRACE} - multiset{GRACE} == multiset{};
  }

  predicate OfNode(op: Op) { op.Apply? || op.ForgetNode? }

  /** An operation on a node already begun changes and closes. */
  lemma Finish(rules: Rules, g: NamespacedName, w: World, id: nat) returns (ops: seq<Timed>)
    requires id in w.open && OfNode(w.open[id].op) && w.open[id].concerns && w.open[id].stage.Begun?
    requires !w.woken && !w.lost
    ensures var view := After(w.view, w.open[id].op, w.now);
      Leads(rules, g, w, ops, w.(view := view, open := w.open - {id}, woken := IsProgrammedFor(view, g, w.now) != w.open[id].before))
  {
    var p := w.open[id];
    var m := Made(g, w, id, p);
    var q := m.open[id];
    var c := Closed(g, m, id, q);
    assert m.open - {id} == w.open - {id};
    One(rules, g, w, Change(id), w.now, m);
    And(rules, g, w, [Timed(Change(id), w.now)], m, Close(id), w.now, c);
    ops := [Timed(Change(id), w.now)] + [Timed(Close(id), w.now)];
    assert c == w.(view := m.view, open := w.open - {id}, woken := Answer(g, m) != p.before);
  }

  function Reading(g: NamespacedName, w: World, op: Op): Pending { Pending(op, Concerns(g, w.view, op), Answer(g, w), Begun) }

  lemma BothBegin(rules: Rules, g: NamespacedName, w: World, x: Op, y: Op) returns (ops: seq<Timed>)
    requires !rules.serial && w.open == map[] && !w.woken && Admitted(w.view, x) && Admitted(w.view, y)
    ensures Leads(rules, g, w, ops, w.(open := map[0 := Reading(g, w, x), 1 := Reading(g, w, y)]))
  {
    var one := w.(open := map[0 := Reading(g, w, x)]);
    One(rules, g, w, Begin(0, x), w.now, one);
    And(rules, g, w, [Timed(Begin(0, x), w.now)], one, Begin(1, y), w.now, w.(open := map[0 := Reading(g, w, x), 1 := Reading(g, w, y)]));
    ops := [Timed(Begin(0, x), w.now)] + [Timed(Begin(1, y), w.now)];
  }

  ghost predicate Crosses(g: NamespacedName, w: World, x: Op, y: Op) {
    && OfNode(x) && OfNode(y) && Concerns(g, w.view, x) && Concerns(g, w.view, y)
    && Admitted(w.view, x) && Admitted(w.view, y)
    && Moved(w.view, After(w.view, y, w.now), g, w.now)
    && !Moved(w.view, After(After(w.view, y, w.now), x, w.now), g, w.now)
  }

  /** Two operations read the answer, the second moves it and tells, the first moves it back
      and tells nothing. */
  lemma Crossing(rules: Rules, g: NamespacedName, w: World, x: Op, y: Op) returns (ops: seq<Timed>)
    requires !rules.serial && w.open == map[] && !w.woken && !w.lost && Crosses(g, w, x, y)
    ensures Leads(rules, g, w, ops, w.(view := After(After(w.view, y, w.now), x, w.now), told := !Answer(g, w)))
  {
    var v := After(w.view, y, w.now);
    var both := w.(open := map[0 := Reading(g, w, x), 1 := Reading(g, w, y)]);
    var heard := w.(view := v, open := map[0 := Reading(g, w, x)], told := !Answer(g, w));
    ops := BothBegin(rules, g, w, x, y);
    var second := Finish(rules, g, both, 1);
    assert both.open - {1} == map[0 := Reading(g, w, x)];
    Then(rules, g, w, ops, both, second, heard.(told := w.told, woken := true));
    ops := ops + second;
    And(rules, g, w, ops, heard.(told := w.told, woken := true), Listen, w.now, heard);
    ops := ops + [Timed(Listen, w.now)];
    var first := Finish(rules, g, heard, 0);
    assert heard.open - {0} == map[];
    Then(rules, g, w, ops, heard, first, heard.(view := After(v, x, w.now), open := map[]));
    ops := ops + first;
  }

  ghost predicate StaysWrong(rules: Rules, g: NamespacedName, told: bool) {
    exists ops, w :: Reaches(rules, g, 0, ops, w) && AtRest(w) && !w.lost && w.told == told && Answer(g, w) != told
  }

  lemma CrossingStays(rules: Rules, g: NamespacedName, ops: seq<Timed>, nodes: map<string, Applied>, x: Op, y: Op, after: map<string, Applied>)
    requires !rules.serial
    requires var w := Serving(g, nodes, IsProgrammedFor(View(1, map[g := 1], map[], nodes), g, 0));
      && Leads(rules, g, Init(0), ops, w) && Crosses(g, w, x, y)
      && After(After(w.view, y, 0), x, 0) == View(1, map[g := 1], map[], after)
    ensures StaysWrong(rules, g, !IsProgrammedFor(View(1, map[g := 1], map[], nodes), g, 0))
  {
    var before := IsProgrammedFor(View(1, map[g := 1], map[], nodes), g, 0);
    var crossed := Crossing(rules, g, Serving(g, nodes, before), x, y);
    Then(rules, g, Init(0), ops, Serving(g, nodes, before), crossed, Serving(g, after, !before));
    var more, w := CheckIdle(rules, g, ops + crossed, after, !before);
    NeverReplaced(g, after, 0, GRACE);
    assert Reaches(rules, g, 0, more, w);
  }

  /** Where no slice is in grace, time changes no answer. */
  lemma NeverReplaced(g: NamespacedName, nodes: map<string, Applied>, one: int, two: int)
    ensures var v := View(1, map[g := 1], map[], nodes); IsProgrammedFor(v, g, one) == IsProgrammedFor(v, g, two)
  {
  }

  /** A data plane leaves while another reports. Both operations read Programmed; the first tells
      that it no longer is, the second finds what it read before and tells nothing. */
  lemma GainUntold(rules: Rules, g: NamespacedName)
    requires !rules.serial
    ensures StaysWrong(rules, g, false)
  {
    var a, b := map["a" := Applied(g, 1)], map["b" := Applied(g, 1)];
    Alone(g, 1);
    assert a - {"a"} == map[] && map[]["b" := Applied(g, 1)] == b && "b" in b;
    var ops := OneNode(rules, g, 1);
    CrossingStays(rules, g, ops, a, Apply("b", Applied(g, 1)), ForgetNode("a"), b);
  }

  /** A data plane on an old slice reports the current one while its former session ends. Both
      operations read not Programmed; the report is told, the departure is not. */
  lemma LossUntold(rules: Rules, g: NamespacedName)
    requires !rules.serial
    ensures StaysWrong(rules, g, true)
  {
    var stale, current := map["a" := Applied(g, 2)], map["a" := Applied(g, 1)];
    Alone(g, 1);
    Alone(g, 2);
    assert stale["a" := Applied(g, 1)] == current && current - {"a"} == map[];
    var ops := OneNode(rules, g, 2);
    CrossingStays(rules, g, ops, stale, ForgetNode("a"), Apply("a", Applied(g, 1)), map[]);
  }

  // ---- Events heard late, lapses untold ----

  /** A data plane runs slice 1, replaced at time 0 by slice 2. */
  function Lapsing(g: NamespacedName, told: bool, woken: bool): World {
    World(View(1, map[g := 2], map[g := [Superseded(1, 0)]], map["a" := Applied(g, 1)]), 0, told, woken, map[],
          multiset{GRACE, GRACE}, false, [Superseded(1, 0)], Some(0))
  }

  function Running(g: NamespacedName, slice: U64, old_: Superseded): View {
    View(1, map[g := slice], map[g := [old_]], map["a" := Applied(g, 1)])
  }

  lemma RunningAnswer(g: NamespacedName, slice: U64, old_: Superseded, at: int)
    ensures IsProgrammedFor(Running(g, slice, old_), g, at) <==> slice == 1 || (old_.fingerprint == 1 && at - old_.at < GRACE)
  {
    var v := Running(g, slice, old_);
    assert "a" in v.applied && v.superseded[g][0] == old_;
  }

  lemma SliceReplaced(v: View, g: NamespacedName, fp: U64, at: int, w: View)
    requires g in v.slices && v.slices[g] != fp && (forall x :: x in SuperGet(v, g) ==> x.at + GRACE <= at)
    requires w == v.(slices := v.slices[g := fp], superseded := v.superseded[g := [Superseded(v.slices[g], at)]])
    ensures WithSlice(v, g, fp, at) == w
  {
    FilterNone(SuperGet(v, g), Young(at));
    assert [] + [Superseded(v.slices[g], at)] == [Superseded(v.slices[g], at)];
  }

  lemma AndReplaced(rules: Rules, g: NamespacedName, ops: seq<Timed>, told: bool)
    requires Leads(rules, g, Init(0), ops, Serving(g, map["a" := Applied(g, 1)], told).(woken := !told)) && (rules.prompt ==> told)
    ensures Leads(rules, g, Init(0), ops + Whole(SetSlice(g, 2), 0), Lapsing(g, told, !told))
  {
    Alone(g, 1);
    RunningAnswer(g, 2, Superseded(1, 0), 0);
    SliceReplaced(View(1, map[g := 1], map[], map["a" := Applied(g, 1)]), g, 2, 0, Running(g, 2, Superseded(1, 0)));
    AndWhole(rules, g, Init(0), ops, Serving(g, map["a" := Applied(g, 1)], told).(woken := !told), SetSlice(g, 2), 0, Lapsing(g, told, !told));
  }

  lemma Lapses(rules: Rules, g: NamespacedName) returns (ops: seq<Timed>)
    ensures Leads(rules, g, Init(0), ops, Lapsing(g, true, false))
  {
    ops := OneNode(rules, g, 1);
    AndReplaced(rules, g, ops, true);
    ops := ops + Whole(SetSlice(g, 2), 0);
  }

  /** The listener was not told that a Gateway is Programmed, and two slices went by. */
  function Missed(g: NamespacedName): World {
    World(Running(g, 1, Superseded(2, GRACE)), GRACE, false, false, map[], multiset{GRACE, GRACE, GRACE + GRACE}, false,
          [Superseded(1, 0), Superseded(2, GRACE)], Some(GRACE))
  }

  /** The listener hears of a gain only when the answer has lapsed; the operation under way then
      restores the answer it read before the lapse, and tells nothing. */
  lemma HeardLate(rules: Rules, g: NamespacedName) returns (ops: seq<Timed>)
    requires !rules.prompt
    ensures Leads(rules, g, Init(0), ops, Missed(g))
  {
    ops := OneNodeUnheard(rules, g, 1);
    AndReplaced(rules, g, ops, false);
    ops := ops + Whole(SetSlice(g, 2), 0);
    var w := Lapsing(g, false, true);
    var p := Pending(SetSlice(g, 1), true, true, Begun);
    RunningAnswer(g, 2, Superseded(1, 0), 0);
    And(rules, g, Init(0), ops, w, Begin(0, SetSlice(g, 1)), 0, w.(open := map[0 := p]));
    ops := ops + [Timed(Begin(0, SetSlice(g, 1)), 0)];
    var heard := Lapsing(g, false, false).(now := GRACE, open := map[0 := p]);
    RunningAnswer(g, 2, Superseded(1, 0), GRACE);
    And(rules, g, Init(0), ops, w.(open := map[0 := p]), Listen, GRACE, heard);
    ops := ops + [Timed(Listen, GRACE)];
    var rest := RestoredSilently(rules, g);
    Then(rules, g, Init(0), ops, heard, rest, Missed(g));
    ops := ops + rest;
  }

  lemma RestoredSilently(rules: Rules, g: NamespacedName) returns (ops: seq<Timed>)
    ensures Leads(rules, g, Lapsing(g, false, false).(now := GRACE, open := map[0 := Pending(SetSlice(g, 1), true, true, Begun)]), ops, Missed(g))
  {
    var p := Pending(SetSlice(g, 1), true, true, Begun);
    var w := Lapsing(g, false, false).(now := GRACE, open := map[0 := p]);
    SliceReplaced(w.view, g, 1, GRACE, Running(g, 1, Superseded(2, GRACE)));
    var m := Missed(g).(due := multiset{GRACE, GRACE}, open := map[0 := p.(stage := Changed(true))]);
    assert Made(g, w, 0, p) == m;
    One(rules, g, w, Change(0), GRACE, m);
    RunningAnswer(g, 1, Superseded(2, GRACE), GRACE);
    assert m.open - {0} == map[] && m.due + multiset{GRACE + GRACE} == Missed(g).due;
    assert Closed(g, m, 0, m.open[0]) == Missed(g);
    And(rules, g, w, [Timed(Change(0), GRACE)], m, Close(0), GRACE, Missed(g));
    ops := [Timed(Change(0), GRACE)] + [Timed(Close(0), GRACE)];
  }

  /** The answer of a data plane that runs the current slice stays, and no check reports. */
  lemma ChecksSilent(rules: Rules, g: NamespacedName, ops: seq<Timed>) returns (more: seq<Timed>, w: World)
    requires Leads(rules, g, Init(0), ops, Missed(g))
    ensures Leads(rules, g, Init(0), more, w) && AtRest(w) && !w.lost && !w.told && Answer(g, w)
  {
    var at := GRACE + GRACE;
    var one := CheckedCurrent(g, Missed(g), GRACE);
    AndCheck(rules, g, Init(0), ops, Missed(g), GRACE, at);
    more := ops + Check(g, GRACE, at);
    var two := CheckedCurrent(g, one, GRACE);
    AndCheck(rules, g, Init(0), more, one, GRACE, at);
    more := more + Check(g, GRACE, at);
    w := CheckedCurrent(g, two, at);
    AndCheck(rules, g, Init(0), more, two, at, at);
    more := more + Check(g, at, at);
  }

  lemma CheckedCurrent(g: NamespacedName, w: World, due: int) returns (t: World)
    requires Current(g, w.view) && w.open == map[] && !w.lost && !w.told
    ensures t == Checked(g, w, due, GRACE + GRACE) && Current(g, t.view) && Quiet(t) && !t.lost && !t.told && Answer(g, t)
    ensures t.due == w.due - multiset{due}
  {
    t := Checked(g, w, due, GRACE + GRACE);
    assert "a" in t.view.applied;
  }

  predicate Current(g: NamespacedName, v: View) {
    v.compiled == 1 && g in v.slices && v.slices[g] == 1 && "a" in v.applied && v.applied["a"] == Applied(g, 1)
  }

  lemma LateUntold(rules: Rules, g: NamespacedName)
    requires !rules.prompt
    ensures StaysWrong(rules, g, false)
  {
    var ops := HeardLate(rules, g);
    var more, w := ChecksSilent(rules, g, ops);
    assert Reaches(rules, g, 0, more, w);
  }

  /** A recompile after the lapse and before the check prunes the evidence: the check that fires
      publishes nothing, and the listener goes on believing the Gateway Programmed. */
  lemma RecompileHidesLapse(g: NamespacedName)
    ensures exists ops, w, t :: Reaches(CAREFUL, g, 0, ops, w) && Quiet(w) && w.told && !Answer(g, w) &&
              Taken(CAREFUL, g, w, Fire(0, g, GRACE)) == Some(t) && 0 in t.open && !Publishes(g, t, t.open[0])
  {
    var ops := Lapses(CAREFUL, g);
    var l := Lapsing(g, true, false);
    var w := World(Running(g, 3, Superseded(2, GRACE)), GRACE, true, false, map[], multiset{GRACE, GRACE, GRACE + GRACE}, false,
                   [Superseded(1, 0), Superseded(2, GRACE)], Some(GRACE));
    SliceReplaced(l.view, g, 3, GRACE, w.view);
    RunningAnswer(g, 2, Superseded(1, 0), GRACE);
    RunningAnswer(g, 3, Superseded(2, GRACE), GRACE);
    AndWhole(CAREFUL, g, Init(0), ops, l, SetSlice(g, 3), GRACE, w);
    assert Reaches(CAREFUL, g, 0, ops + Whole(SetSlice(g, 3), GRACE), w);
    FiresSilently(g, w);
  }

  lemma FiresSilently(g: NamespacedName, w: World)
    requires w.open == map[] && GRACE in w.due && GRACE <= w.now && forall x :: x in SuperGet(w.view, g) ==> w.now < x.at + GRACE
    ensures exists t :: Taken(CAREFUL, g, w, Fire(0, g, GRACE)) == Some(t) && 0 in t.open && !Publishes(g, t, t.open[0])
  {
    PrunesExactly(w.view, g, w.now);
    var t := Fired(g, w, 0, g, GRACE);
    assert Taken(CAREFUL, g, w, Fire(0, g, GRACE)) == Some(t);
    assert t.open[0].stage == Changed(false);
  }

  /** A Gateway that departs between the lapse and the check leaves the listener believing it
      Programmed for good. */
  lemma DepartureLosesLapse(g: NamespacedName)
    ensures exists ops, w :: Reaches(CAREFUL, g, 0, ops, w) && Quiet(w) && w.lost && w.told && !Answer(g, w) && g !in w.view.slices
  {
    var ops := Lapses(CAREFUL, g);
    var l := Lapsing(g, true, false);
    var w := World(View(1, map[], map[], map["a" := Applied(g, 1)]), GRACE, true, false, map[], l.due, true, [], None);
    RunningAnswer(g, 2, Superseded(1, 0), GRACE);
    assert WithoutSlice(l.view, g) == w.view;
    AndWhole(CAREFUL, g, Init(0), ops, l, RemoveSlice(g), GRACE, w);
    assert Reaches(CAREFUL, g, 0, ops + Whole(RemoveSlice(g), GRACE), w);
  }

  // ---- The rules needed ----

  /** In every run under the rules, once the scheduled checks have fired, what a listener was
      told is the answer, unless the Gateway departed with a lapse untold. */
  ghost predicate AlwaysTold(rules: Rules) {
    forall g, start, ops, w :: Reaches(rules, g, start, ops, w) && AtRest(w) && !w.lost ==> w.told == Answer(g, w)
  }

  /** That holds exactly when operations are one at a time and events are heard before anything else happens. */
  lemma ToldExactly(rules: Rules)
    ensures AlwaysTold(rules) <==> rules.serial && rules.prompt
  {
    var g := NamespacedName("", "");
    if !rules.serial {
      GainUntold(rules, g);
    } else if !rules.prompt {
      LateUntold(rules, g);
    } else {
      forall g, start, ops, w | Reaches(rules, g, start, ops, w) && AtRest(w) && !w.lost ensures w.told == Answer(g, w) {
        ToldAtRest(g, start, ops, w);
      }
    }
  }
}
