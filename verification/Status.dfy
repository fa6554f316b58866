/** `status.parents` of a route, written by several controllers, each keeping the others'
    entries as it read them. Reading and patching are separate steps: a patch replaces the
    whole list by what was computed from the list read. */
module Status {
  import opened Collections

  datatype Core = Core(kind: string, status: string, reason: string, message: string, generation: Option<int>)
  datatype Condition = Condition(core: Core, transition: int)
  datatype ParentStatus = ParentStatus(controller: string, parentRef: string, conditions: seq<Condition>)

  function CoreOf(): Condition -> Core { (c: Condition) => c.core }
  function Cores(cs: seq<Condition>): seq<Core> { Map(cs, CoreOf()) }

  /** `conditions_equal`: equal but for the transition times. */
  method ConditionsEqual(a: seq<Condition>, b: seq<Condition>) returns (equal: bool)
    ensures equal <==> Cores(a) == Cores(b)
  {
    if |a| != |b| {
      assert |Cores(a)| != |Cores(b)|;
      return false;
    }
    for i := 0 to |a|
      invariant forall j :: 0 <= j < i ==> a[j].core == b[j].core
    {
      if a[i].core != b[i].core {
        assert Cores(a)[i] != Cores(b)[i];
        return false;
      }
    }
    return true;
  }

  /** Every field is compared but the transition time. */
  lemma CoresExactly(a: seq<Condition>, b: seq<Condition>)
    ensures Cores(a) == Cores(b) <==> |a| == |b| && forall i :: 0 <= i < |a| ==> SameCondition(a[i], b[i])
  {
    if Cores(a) == Cores(b) {
      forall i | 0 <= i < |a| ensures SameCondition(a[i], b[i]) {
        assert Cores(a)[i] == Cores(b)[i];
      }
    }
  }

  predicate SameCondition(a: Condition, b: Condition) {
    && a.core.kind == b.core.kind && a.core.status == b.core.status && a.core.reason == b.core.reason
    && a.core.message == b.core.message && a.core.generation == b.core.generation
  }

  // ---- Merging ----

  function OwnedBy(me: string): ParentStatus -> bool { (p: ParentStatus) => p.controller == me }
  function Foreign(me: string): ParentStatus -> bool { (p: ParentStatus) => p.controller != me }
  function ConditionsOf(): ParentStatus -> seq<Condition> { (p: ParentStatus) => p.conditions }

  /** `merge_route_parents`. */
  function Merge(me: string, existing: seq<ParentStatus>, ours: seq<ParentStatus>): seq<ParentStatus> {
    Filter(existing, Foreign(me)) + ours
  }

  /** `own_parent_conditions`. */
  function OwnConditions(me: string, existing: seq<ParentStatus>): seq<Condition> {
    FlatMap(Filter(existing, OwnedBy(me)), ConditionsOf())
  }

  /** The conditions of the controller's own entries, one entry after the other. */
  function OwnInOrder(me: string, existing: seq<ParentStatus>): seq<Condition> {
    if existing == [] then []
    else (if existing[0].controller == me then existing[0].conditions else []) + OwnInOrder(me, existing[1..])
  }

  lemma {:induction false} OwnExactly(me: string, existing: seq<ParentStatus>)
    ensures OwnConditions(me, existing) == OwnInOrder(me, existing)
  {
    if existing != [] {
      OwnExactly(me, existing[1..]);
      FilterHead(existing, OwnedBy(me));
      var rest := Filter(existing[1..], OwnedBy(me));
      assert ([existing[0]] + rest)[1..] == rest;
    }
  }

  // ---- Reconciling ----

  /** What a controller wants to say of one parent; the transition times are those of the
      reconcile. */
  datatype Wanted = Wanted(parentRef: string, cores: seq<Core>)

  function AtTime(time: int): Core -> Condition { (k: Core) => Condition(k, time) }
  function Dated(me: string, time: int): Wanted -> ParentStatus {
    (w: Wanted) => ParentStatus(me, w.parentRef, Map(w.cores, AtTime(time)))
  }
  function CoresOf(): Wanted -> seq<Core> { (w: Wanted) => w.cores }

  type Desired = string -> seq<Wanted>

  function Ours(desired: Desired, me: string, time: int): seq<ParentStatus> { Map(desired(me), Dated(me, time)) }

  predicate Writes(desired: Desired, me: string, time: int, status: seq<ParentStatus>) {
    Cores(OwnConditions(me, status)) != Cores(FlatMap(Ours(desired, me, time), ConditionsOf()))
  }

  /** One undisturbed reconcile: `patch_status_if_changed` with the merged entries. */
  function Reconcile(desired: Desired, me: string, time: int, status: seq<ParentStatus>): seq<ParentStatus> {
    if Writes(desired, me, time, status) then Merge(me, status, Ours(desired, me, time)) else status
  }

  // ---- Transition times ----

  /** What is wanted, flattened and without times. */
  function WantedCores(desired: Desired, me: string): seq<Core> { FlatMap(desired(me), CoresOf()) }

  lemma {:induction false} DatedCores(ws: seq<Wanted>, me: string, time: int)
    ensures Cores(FlatMap(Map(ws, Dated(me, time)), ConditionsOf())) == FlatMap(ws, CoresOf())
  {
    var f := Dated(me, time);
    if ws != [] {
      DatedCores(ws[1..], me, time);
      assert Map(ws, f)[1..] == Map(ws[1..], f);
      var head := f(ws[0]).conditions;
      var tail := FlatMap(Map(ws[1..], f), ConditionsOf());
      assert Cores(head + tail) == Cores(head) + Cores(tail);
      assert Cores(head) == ws[0].cores;
    }
  }

  predicate Settled(desired: Desired, me: string, status: seq<ParentStatus>) {
    Cores(OwnConditions(me, status)) == WantedCores(desired, me)
  }

  /** Fresh transition times never cause a write: whether there is one is decided by the
      conditions alone. */
  lemma WriteIgnoresTimes(desired: Desired, me: string, time: int, status: seq<ParentStatus>)
    ensures Writes(desired, me, time, status) <==> !Settled(desired, me, status)
  {
    DatedCores(desired(me), me, time);
  }

  // ---- Foreign entries ----

  predicate AllOwned(ours: seq<ParentStatus>, me: string) { forall i :: 0 <= i < |ours| ==> ours[i].controller == me }

  lemma MergeOwn(me: string, status: seq<ParentStatus>, ours: seq<ParentStatus>)
    requires AllOwned(ours, me)
    ensures Filter(Merge(me, status, ours), OwnedBy(me)) == ours
  {
    var foreign := Filter(status, Foreign(me));
    FilterConcat(foreign, ours, OwnedBy(me));
    forall i | 0 <= i < |foreign| ensures foreign[i].controller != me {
      assert foreign[i] in foreign;
    }
    FilterNone(foreign, OwnedBy(me));
    FilterAll(ours, OwnedBy(me));
  }

  lemma MergeForeign(me: string, seen: seq<ParentStatus>, ours: seq<ParentStatus>)
    requires AllOwned(ours, me)
    ensures Filter(Merge(me, seen, ours), Foreign(me)) == Filter(seen, Foreign(me))
  {
    FilterConcat(Filter(seen, Foreign(me)), ours, Foreign(me));
    FilterNone(ours, Foreign(me));
    FilterIdempotent(seen, Foreign(me));
  }

  /** A controller's own entries come after all the others. */
  lemma OursLast(me: string, seen: seq<ParentStatus>, ours: seq<ParentStatus>, i: nat, j: nat)
    requires AllOwned(ours, me) && i < j < |Merge(me, seen, ours)| && Merge(me, seen, ours)[i].controller == me
    ensures Merge(me, seen, ours)[j].controller == me
  {
    var foreign := Filter(seen, Foreign(me));
    assert forall k :: 0 <= k < |foreign| ==> foreign[k] in foreign;
  }

  /** A patch computed from `seen` keeps the entries other controllers have on `current`, in
      order, if and only if those are the ones it saw. */
  lemma PatchKeepsForeignExactly(me: string, seen: seq<ParentStatus>, ours: seq<ParentStatus>, current: seq<ParentStatus>)
    requires AllOwned(ours, me)
    ensures Filter(Merge(me, seen, ours), Foreign(me)) == Filter(current, Foreign(me)) <==>
            Filter(seen, Foreign(me)) == Filter(current, Foreign(me))
  {
    MergeForeign(me, seen, ours);
  }

  // ---- Several controllers ----

  /** A reconcile under way: the status its route object carried, and when it was dated. */
  datatype Flight = Flight(seen: seq<ParentStatus>, time: int)

  /** `history` holds every status the route has had, the current one last; a controller works
      on one reconcile of a route at a time. `patched` says which status a controller's own last
      patch made. `finished` and `writers` are history: the controllers that completed a turn,
      and those that wrote, in order. */
  datatype State = State(
    history: seq<seq<ParentStatus>>, flights: map<string, Flight>, patched: map<string, nat>,
    finished: set<string>, writers: seq<string>)

  datatype Action =
    | Read(controller: string, age: nat, time: int)
    | Skip(controller: string)
    | Patch(controller: string)
    | Drop(controller: string)

  /** `ownRead`: a reconcile reads no status from before its controller's own last patch; it may
      lag behind the others'. `guarded`: a patch lands only while the foreign entries are those
      it saw. */
  datatype Rules = Rules(ownRead: bool, guarded: bool)

  function Current(s: State): seq<ParentStatus> { if s.history == [] then [] else s.history[|s.history| - 1] }

  function Init(status: seq<ParentStatus>): State { State([status], map[], map[], {}, []) }

  function OwnSince(s: State, c: string): nat { if c in s.patched then s.patched[c] else 0 }

  function Landed(desired: Desired, s: State, c: string, f: Flight): State {
    State(s.history + [Merge(c, f.seen, Ours(desired, c, f.time))], s.flights - {c}, s.patched[c := |s.history|],
          s.finished + {c}, s.writers + [c])
  }

  predicate MayLand(rules: Rules, s: State, c: string, f: Flight) {
    rules.guarded ==> Filter(f.seen, Foreign(c)) == Filter(Current(s), Foreign(c))
  }

  function Step(rules: Rules, desired: Desired, s: State, a: Action): Option<State> {
    match a
    case Read(c, age, time) =>
      if c in s.flights || age >= |s.history| || (rules.ownRead && |s.history| - 1 - age < OwnSince(s, c)) then None
      else Some(s.(flights := s.flights[c := Flight(s.history[|s.history| - 1 - age], time)]))
    case Skip(c) =>
      if c in s.flights && !Writes(desired, c, s.flights[c].time, s.flights[c].seen)
      then Some(s.(flights := s.flights - {c}, finished := s.finished + {c})) else None
    case Patch(c) =>
      if c in s.flights && Writes(desired, c, s.flights[c].time, s.flights[c].seen) && MayLand(rules, s, c, s.flights[c])
      then Some(Landed(desired, s, c, s.flights[c])) else None
    case Drop(c) => Some(s.(flights := s.flights - {c}))
  }

  function Run(rules: Rules, desired: Desired, s: State, schedule: seq<Action>): Option<State>
    decreases |schedule|
  {
    if schedule == [] then Some(s)
    else
      var next := Step(rules, desired, s, schedule[0]);
      if next.None? then None else Run(rules, desired, next.value, schedule[1..])
  }

  predicate Wrote(s: State, t: State, c: string) { t.writers == s.writers + [c] && |t.history| == |s.history| + 1 && t.history[..|s.history|] == s.history }

  /** A read begins a turn and any other step ends it, of that controller alone; only a patch
      writes, one status each. */
  lemma TurnShape(rules: Rules, desired: Desired, s: State, a: Action)
    requires Step(rules, desired, s, a).Some?
    ensures var t := Step(rules, desired, s, a).value;
      && (a.controller in t.flights <==> a.Read?)
      && (forall d :: d != a.controller ==> (d in t.flights <==> d in s.flights) && (d in s.flights ==> t.flights[d] == s.flights[d]))
      && (a.Patch? ==> Wrote(s, t, a.controller)) && (!a.Patch? ==> t.history == s.history && t.writers == s.writers && t.patched == s.patched)
      && t.finished == (if a.Patch? || a.Skip? then s.finished + {a.controller} else s.finished)
  {
  }

  lemma LandedEntries(rules: Rules, desired: Desired, s: State, c: string, f: Flight, other: string)
    requires s.history != []
    ensures Filter(Current(Landed(desired, s, c, f)), OwnedBy(c)) == Ours(desired, c, f.time)
    ensures rules.guarded && MayLand(rules, s, c, f) && other != c ==>
      Filter(Current(Landed(desired, s, c, f)), OwnedBy(other)) == Filter(Current(s), OwnedBy(other))
  {
    var ours := Ours(desired, c, f.time);
    MergeOwn(c, f.seen, ours);
    if rules.guarded && MayLand(rules, s, c, f) && other != c {
      MergeForeign(c, f.seen, ours);
      FilterFilter(Merge(c, f.seen, ours), Foreign(c), OwnedBy(other));
      FilterFilter(Current(s), Foreign(c), OwnedBy(other));
    }
  }

  /** Guarded patches never touch another controller's entries, even when reads are old. */
  lemma StepKeepsForeign(rules: Rules, desired: Desired, s: State, a: Action, other: string)
    requires rules.guarded && s.history != [] && Step(rules, desired, s, a).Some? && a.controller != other
    ensures Filter(Current(Step(rules, desired, s, a).value), OwnedBy(other)) == Filter(Current(s), OwnedBy(other))
    ensures Step(rules, desired, s, a).value.history != []
  {
    if a.Patch? {
      LandedEntries(rules, desired, s, a.controller, s.flights[a.controller], other);
    }
  }

  /** In every schedule of guarded patches, a controller that takes no turn finds its entries as
      they were, in order. */
  lemma {:induction false} ForeignSurvives(rules: Rules, desired: Desired, s: State, schedule: seq<Action>, other: string)
    requires rules.guarded && s.history != [] && Run(rules, desired, s, schedule).Some?
    requires forall i :: 0 <= i < |schedule| ==> schedule[i].controller != other
    ensures Filter(Current(Run(rules, desired, s, schedule).value), OwnedBy(other)) == Filter(Current(s), OwnedBy(other))
    decreases |schedule|
  {
    if schedule != [] {
      StepKeepsForeign(rules, desired, s, schedule[0], other);
      ForeignSurvives(rules, desired, Step(rules, desired, s, schedule[0]).value, schedule[1..], other);
    }
  }

  // ---- Convergence ----

  /** A controller's entries, and whether such entries say what it wants. */
  datatype View = View(own: (seq<ParentStatus>, string) -> seq<ParentStatus>, settled: (string, seq<ParentStatus>) -> bool)

  function ViewOf(desired: Desired): View {
    View((status: seq<ParentStatus>, c: string) => Filter(status, OwnedBy(c)),
         (c: string, own: seq<ParentStatus>) => Cores(FlatMap(own, ConditionsOf())) == WantedCores(desired, c))
  }

  /** A controller's entries are the same in every status since its own last patch, so it reads
      them as they stand; once through with a turn it has the conditions it wants, and whoever
      wrote is through with a turn. */
  ghost predicate Inv(v: View, s: State) {
    && s.history != []
    && (forall c :: c in s.patched ==> s.patched[c] < |s.history|)
    && (forall c, i :: OwnSince(s, c) <= i < |s.history| ==> v.own(s.history[i], c) == v.own(Current(s), c))
    && (forall c :: c in s.flights ==> v.own(s.flights[c].seen, c) == v.own(Current(s), c))
    && (forall c :: c in s.finished ==> v.settled(c, v.own(Current(s), c)))
    && (forall c :: c in s.writers ==> c in s.finished)
    && Distinct(s.writers)
  }

  const CAREFUL := Rules(true, true)

  lemma ReadKeeps(v: View, s: State, c: string, i: nat, time: int)
    requires Inv(v, s) && OwnSince(s, c) <= i < |s.history|
    ensures Inv(v, s.(flights := s.flights[c := Flight(s.history[i], time)]))
  {
  }

  lemma SkipKeeps(v: View, s: State, c: string)
    requires Inv(v, s) && c in s.flights && v.settled(c, v.own(s.flights[c].seen, c))
    ensures Inv(v, s.(flights := s.flights - {c}, finished := s.finished + {c}))
  {
  }

  lemma DropKeeps(v: View, s: State, c: string)
    requires Inv(v, s)
    ensures Inv(v, s.(flights := s.flights - {c}))
  {
    var t := s.(flights := s.flights - {c});
    assert forall d :: OwnSince(t, d) == OwnSince(s, d);
  }

  lemma PatchKeeps(v: View, s: State, c: string, next: seq<ParentStatus>)
    requires Inv(v, s) && c in s.flights && !v.settled(c, v.own(s.flights[c].seen, c))
    requires v.settled(c, v.own(next, c)) && forall d :: d != c ==> v.own(next, d) == v.own(Current(s), d)
    ensures Inv(v, State(s.history + [next], s.flights - {c}, s.patched[c := |s.history|], s.finished + {c}, s.writers + [c]))
  {
    assert c !in s.writers;
  }

  lemma OursSettle(desired: Desired, c: string, time: int)
    ensures ViewOf(desired).settled(c, Ours(desired, c, time))
  {
    DatedCores(desired(c), c, time);
  }

  lemma WritesUnsettled(desired: Desired, c: string, f: Flight)
    ensures Writes(desired, c, f.time, f.seen) <==> !ViewOf(desired).settled(c, ViewOf(desired).own(f.seen, c))
  {
    WriteIgnoresTimes(desired, c, f.time, f.seen);
  }

  lemma LandingKeeps(desired: Desired, s: State, c: string)
    requires Inv(ViewOf(desired), s) && c in s.flights
    requires Writes(desired, c, s.flights[c].time, s.flights[c].seen) && MayLand(CAREFUL, s, c, s.flights[c])
    ensures Inv(ViewOf(desired), Landed(desired, s, c, s.flights[c]))
  {
    var v, f := ViewOf(desired), s.flights[c];
    var next := Merge(c, f.seen, Ours(desired, c, f.time));
    WritesUnsettled(desired, c, f);
    OursSettle(desired, c, f.time);
    LandedEntries(CAREFUL, desired, s, c, f, c);
    forall d | d != c ensures v.own(next, d) == v.own(Current(s), d) {
      LandedEntries(CAREFUL, desired, s, c, f, d);
    }
    PatchKeeps(v, s, c, next);
  }

  lemma ReadStepKeeps(desired: Desired, s: State, c: string, age: nat, time: int)
    requires Inv(ViewOf(desired), s) && Step(CAREFUL, desired, s, Read(c, age, time)).Some?
    ensures Inv(ViewOf(desired), Step(CAREFUL, desired, s, Read(c, age, time)).value)
  {
    ReadKeeps(ViewOf(desired), s, c, |s.history| - 1 - age, time);
  }

  lemma SkipStepKeeps(desired: Desired, s: State, c: string)
    requires Inv(ViewOf(desired), s) && Step(CAREFUL, desired, s, Skip(c)).Some?
    ensures Inv(ViewOf(desired), Step(CAREFUL, desired, s, Skip(c)).value)
  {
    WritesUnsettled(desired, c, s.flights[c]);
    SkipKeeps(ViewOf(desired), s, c);
  }

  lemma StepKeeps(desired: Desired, s: State, a: Action)
    requires Inv(ViewOf(desired), s) && Step(CAREFUL, desired, s, a).Some?
    ensures Inv(ViewOf(desired), Step(CAREFUL, desired, s, a).value)
  {
    match a
    case Read(c, age, time) => ReadStepKeeps(desired, s, c, age, time);
    case Skip(c) => SkipStepKeeps(desired, s, c);
    case Patch(c) => LandingKeeps(desired, s, c);
    case Drop(c) => DropKeeps(ViewOf(desired), s, c);
  }

  lemma {:induction false} RunKeeps(desired: Desired, s: State, schedule: seq<Action>)
    requires Inv(ViewOf(desired), s) && Run(CAREFUL, desired, s, schedule).Some?
    ensures Inv(ViewOf(desired), Run(CAREFUL, desired, s, schedule).value)
    decreases |schedule|
  {
    if schedule != [] {
      StepKeeps(desired, s, schedule[0]);
      RunKeeps(desired, Step(CAREFUL, desired, s, schedule[0]).value, schedule[1..]);
    }
  }

  /** In every schedule in which no read is older than the reader's own last patch and patches
      land on the foreign entries they saw, each controller writes at most once, whatever the
      transition times. */
  lemma OneWriteEach(desired: Desired, status: seq<ParentStatus>, schedule: seq<Action>, s: State)
    requires Run(CAREFUL, desired, Init(status), schedule) == Some(s)
    ensures Distinct(s.writers)
  {
    RunKeeps(desired, Init(status), schedule);
  }

  /** And every controller through with a turn has the conditions it wants. */
  lemma TurnSettles(desired: Desired, status: seq<ParentStatus>, schedule: seq<Action>, s: State, c: string)
    requires Run(CAREFUL, desired, Init(status), schedule) == Some(s) && c in s.finished
    ensures Settled(desired, c, Current(s))
  {
    RunKeeps(desired, Init(status), schedule);
  }

  // ---- What breaks without each rule ----

  const READY := Core("Accepted", "True", "Accepted", "", None)

  /** Every controller wants one condition on one parent. */
  function OneEach(): Desired { (c: string) => [Wanted("gateway", [READY])] }

  function EntryOf(c: string): ParentStatus { ParentStatus(c, "gateway", [Condition(READY, 0)]) }

  lemma OursIsEntry(c: string)
    ensures Ours(OneEach(), c, 0) == [EntryOf(c)] && WantedCores(OneEach(), c) == [READY]
  {
    var ws := OneEach()(c);
    assert Map([READY], AtTime(0)) == [Condition(READY, 0)];
    assert FlatMap(ws, CoresOf()) == CoresOf()(ws[0]) + FlatMap(ws[1..], CoresOf());
  }

  lemma SettledByEntry(c: string, status: seq<ParentStatus>)
    ensures Filter(status, OwnedBy(c)) == [EntryOf(c)] ==> Settled(OneEach(), c, status)
    ensures Filter(status, OwnedBy(c)) == [] ==> !Settled(OneEach(), c, status)
  {
    OursIsEntry(c);
    OursSettle(OneEach(), c, 0);
  }

  lemma AbsentWrites(c: string, seen: seq<ParentStatus>)
    requires Filter(seen, OwnedBy(c)) == []
    ensures Writes(OneEach(), c, 0, seen)
  {
    SettledByEntry(c, seen);
    WriteIgnoresTimes(OneEach(), c, 0, seen);
  }

  lemma SoleLanding(rules: Rules, desired: Desired, s: State, c: string, f: Flight)
    requires s.flights == map[] && Writes(desired, c, f.time, f.seen) && MayLand(rules, s, c, f)
    ensures Step(rules, desired, s.(flights := map[c := f]), Patch(c)) == Some(Landed(desired, s, c, f))
  {
    var one := s.(flights := map[c := f]);
    assert one.flights - {c} == map[];
    assert MayLand(rules, one, c, f) by { assert Current(one) == Current(s); }
    assert Landed(desired, one, c, f) == Landed(desired, s, c, f);
  }

  /** One turn that writes: a read of the status `age` steps back, then the patch. */
  lemma TurnWrites(rules: Rules, desired: Desired, s: State, c: string, age: nat, f: Flight)
    requires s.flights == map[] && age < |s.history| && (rules.ownRead ==> |s.history| - 1 - age >= OwnSince(s, c))
    requires f == Flight(s.history[|s.history| - 1 - age], 0) && Writes(desired, c, 0, f.seen) && MayLand(rules, s, c, f)
    ensures Run(rules, desired, s, [Read(c, age, 0), Patch(c)]) == Some(Landed(desired, s, c, f))
  {
    var one := s.(flights := map[c := f]);
    assert Step(rules, desired, s, Read(c, age, 0)) == Some(one);
    SoleLanding(rules, desired, s, c, f);
    assert [Read(c, age, 0), Patch(c)][1..] == [Patch(c)];
    assert Run(rules, desired, one, [Patch(c)]) == Step(rules, desired, one, Patch(c));
  }

  lemma {:induction false} RunConcat(rules: Rules, desired: Desired, s: State, a: seq<Action>, b: seq<Action>)
    requires Run(rules, desired, s, a).Some?
    ensures Run(rules, desired, s, a + b) == Run(rules, desired, Run(rules, desired, s, a).value, b)
    decreases |a|
  {
    if a == [] {
      assert a + b == b;
    } else {
      assert (a + b)[1..] == a[1..] + b;
      RunConcat(rules, desired, Step(rules, desired, s, a[0]).value, a[1..], b);
    }
  }

  /** Two controllers read the empty status and both patch: the second patch drops the first
      entry, and the first controller writes again. */
  lemma LostEntryTwoWrites(rules: Rules)
    requires !rules.guarded
    ensures exists schedule, s :: Run(rules, OneEach(), Init([]), schedule) == Some(s) && s.writers == ["a", "b", "a"]
  {
    var t := BothRead(rules);
    AfterBoth(rules, t);
    var first := [Read("a", 0, 0), Read("b", 0, 0), Patch("a"), Patch("b")];
    RunConcat(rules, OneEach(), Init([]), first, [Read("a", 0, 0), Patch("a")]);
  }

  lemma AfterBoth(rules: Rules, t: State)
    requires !rules.guarded && OwnSince(t, "a") < |t.history|
    requires t.flights == map[] && t.writers == ["a", "b"] && Current(t) == Ours(OneEach(), "b", 0)
    ensures exists s :: Run(rules, OneEach(), t, [Read("a", 0, 0), Patch("a")]) == Some(s) && s.writers == ["a", "b", "a"]
  {
    OursIsEntry("b");
    assert Filter([EntryOf("b")], OwnedBy("a")) == [];
    AbsentWrites("a", Current(t));
    TurnWrites(rules, OneEach(), t, "a", 0, Flight(Current(t), 0));
  }

  lemma BothRead(rules: Rules) returns (t: State)
    requires !rules.guarded
    ensures Run(rules, OneEach(), Init([]), [Read("a", 0, 0), Read("b", 0, 0), Patch("a"), Patch("b")]) == Some(t)
    ensures t.flights == map[] && t.writers == ["a", "b"] && OwnSince(t, "a") < |t.history| && Current(t) == Ours(OneEach(), "b", 0)
  {
    var d := OneEach();
    var schedule := [Read("a", 0, 0), Read("b", 0, 0), Patch("a"), Patch("b")];
    var f := Flight([], 0);
    var s0 := Init([]);
    var s2 := s0.(flights := map["a" := f, "b" := f]);
    ReadsBoth(rules);
    LandsOnEmpty(rules, s2, "a");
    var s3 := Landed(d, s2, "a", f);
    LandsOnEmpty(rules, s3, "b");
    t := Landed(d, s3, "b", f);
    assert Merge("b", [], Ours(d, "b", 0)) == Ours(d, "b", 0);
    assert Run(rules, d, s3, [Patch("b")]) == Some(t);
    assert [Patch("a"), Patch("b")][1..] == [Patch("b")];
    assert Run(rules, d, s2, [Patch("a"), Patch("b")]) == Some(t);
    RunConcat(rules, d, s0, [Read("a", 0, 0), Read("b", 0, 0)], [Patch("a"), Patch("b")]);
    assert [Read("a", 0, 0), Read("b", 0, 0)] + [Patch("a"), Patch("b")] == schedule;
    assert t.flights == map[];
  }

  lemma ReadsBoth(rules: Rules)
    ensures Run(rules, OneEach(), Init([]), [Read("a", 0, 0), Read("b", 0, 0)]) ==
      Some(Init([]).(flights := map["a" := Flight([], 0), "b" := Flight([], 0)]))
  {
    var s1 := Init([]).(flights := map["a" := Flight([], 0)]);
    assert Step(rules, OneEach(), Init([]), Read("a", 0, 0)) == Some(s1);
    assert [Read("a", 0, 0), Read("b", 0, 0)][1..] == [Read("b", 0, 0)] && [Read("b", 0, 0)][1..] == [];
    assert Run(rules, OneEach(), s1, [Read("b", 0, 0)]) == Step(rules, OneEach(), s1, Read("b", 0, 0));
  }

  lemma LandsOnEmpty(rules: Rules, s: State, c: string)
    requires !rules.guarded && c in s.flights && s.flights[c] == Flight([], 0)
    ensures Step(rules, OneEach(), s, Patch(c)) == Some(Landed(OneEach(), s, c, Flight([], 0)))
  {
    AbsentWrites(c, []);
  }

  /** A controller that reads the status from before its own patch writes it again, although no
      foreign entry is touched. */
  lemma StaleReadTwoWrites()
    ensures exists schedule, s :: Run(Rules(false, true), OneEach(), Init([]), schedule) == Some(s) && s.writers == ["a", "a"]
  {
    var rules, d := Rules(false, true), OneEach();
    var s := Init([]);
    AbsentWrites("a", []);
    TurnWrites(rules, d, s, "a", 0, Flight([], 0));
    var t := Landed(d, s, "a", Flight([], 0));
    OursIsEntry("a");
    assert Current(t) == [EntryOf("a")];
    assert Filter(Current(t), Foreign("a")) == [];
    assert t.history[0] == [];
    TurnWrites(rules, d, t, "a", 1, Flight([], 0));
    var first, second := [Read("a", 0, 0), Patch("a")], [Read("a", 1, 0), Patch("a")];
    RunConcat(rules, d, s, first, second);
    assert Run(rules, d, s, first + second) == Some(Landed(d, t, "a", Flight([], 0)));
  }

  /** Every schedule, whatever the controllers want, has each write at most once. */
  ghost predicate AlwaysOneWrite(rules: Rules) {
    forall desired: Desired, status: seq<ParentStatus>, schedule: seq<Action>, s: State ::
      Run(rules, desired, Init(status), schedule) == Some(s) ==> Distinct(s.writers)
  }

  /** The two rules are what it takes, neither more nor less. */
  lemma OneWriteExactly(rules: Rules)
    ensures AlwaysOneWrite(rules) <==> rules.ownRead && rules.guarded
  {
    if rules.ownRead && rules.guarded {
      forall desired: Desired, status: seq<ParentStatus>, schedule: seq<Action>, s: State
        | Run(rules, desired, Init(status), schedule) == Some(s) ensures Distinct(s.writers)
      {
        OneWriteEach(desired, status, schedule, s);
      }
    } else if !rules.guarded {
      LostEntryTwoWrites(rules);
      var schedule, s :| Run(rules, OneEach(), Init([]), schedule) == Some(s) && s.writers == ["a", "b", "a"];
      assert s.writers[0] == s.writers[2];
    } else {
      StaleReadTwoWrites();
      var schedule, s :| Run(Rules(false, true), OneEach(), Init([]), schedule) == Some(s) && s.writers == ["a", "a"];
      assert s.writers[0] == s.writers[1];
    }
  }

  // ---- Parents ----

  function AsWanted(): ParentStatus -> Wanted { (p: ParentStatus) => Wanted(p.parentRef, Cores(p.conditions)) }

  /** The controller's entries say what it wants, of the parents it wants. */
  predicate UpToDate(desired: Desired, me: string, status: seq<ParentStatus>) {
    Map(Filter(status, OwnedBy(me)), AsWanted()) == desired(me)
  }

  /** The parentRefs are not compared, so a reconcile brings the entries up to date exactly when
      they already were or the flattened conditions differ. */
  lemma UpToDateExactly(desired: Desired, me: string, time: int, status: seq<ParentStatus>)
    ensures UpToDate(desired, me, Reconcile(desired, me, time, status)) <==>
      UpToDate(desired, me, status) || !Settled(desired, me, status)
  {
    WriteIgnoresTimes(desired, me, time, status);
    if Writes(desired, me, time, status) {
      MergeOwn(me, status, Ours(desired, me, time));
      DatedAsWanted(desired(me), me, time);
    }
  }

  lemma DatedAsWanted(ws: seq<Wanted>, me: string, time: int)
    ensures Map(Map(ws, Dated(me, time)), AsWanted()) == ws
  {
    forall i | 0 <= i < |ws| ensures Map(Map(ws, Dated(me, time)), AsWanted())[i] == ws[i] {
      assert Cores(Map(ws[i].cores, AtTime(time))) == ws[i].cores;
    }
  }

  /** A controller whose conditions are as wanted leaves entries alone that name another parent. */
  lemma ParentChangeMissed(me: string, time: int)
    ensures exists desired: Desired, status: seq<ParentStatus> ::
      Settled(desired, me, status) && !UpToDate(desired, me, Reconcile(desired, me, time, status))
  {
    var core := Core("Accepted", "True", "Accepted", "", None);
    var desired: Desired := (c: string) => [Wanted("new", [core])];
    var status := [ParentStatus(me, "old", [Condition(core, 0)])];
    assert Filter(status, OwnedBy(me)) == status;
    assert FlatMap(status, ConditionsOf()) == ConditionsOf()(status[0]) + FlatMap(status[1..], ConditionsOf());
    assert OwnConditions(me, status) == [Condition(core, 0)];
    var ws := desired(me);
    assert FlatMap(ws, CoresOf()) == CoresOf()(ws[0]) + FlatMap(ws[1..], CoresOf());
    assert Cores([Condition(core, 0)]) == [core];
    assert Settled(desired, me, status);
    assert Map(status, AsWanted())[0].parentRef == "old";
    UpToDateExactly(desired, me, time, status);
  }
}
