/** The part of the store that answers whether a Gateway is Programmed, and tells when the
    answer moves. Times are nanoseconds. */
module Programmed {
  import opened Collections
  import opened Types
  import opened Slicing

  const GRACE := 10_000_000_000
  const MAX_DATA_PLANE_NODES := 1000

  datatype Applied = Applied(gateway: NamespacedName, fingerprint: U64)
  datatype Superseded = Superseded(fingerprint: U64, at: int)

  /** The fields the answer depends on. */
  datatype View = View(
    compiled: U64, slices: map<NamespacedName, U64>, superseded: map<NamespacedName, seq<Superseded>>,
    applied: map<string, Applied>)

  predicate InGrace(old_: seq<Superseded>, fp: U64, now: int) {
    exists i :: 0 <= i < |old_| && old_[i].fingerprint == fp && now - old_[i].at < GRACE
  }

  predicate CurrentOrInGrace(v: View, g: NamespacedName, fp: U64, now: int) {
    || (g in v.slices && v.slices[g] == fp)
    || (g in v.superseded && InGrace(v.superseded[g], fp, now))
  }

  /** `is_programmed_for`. */
  predicate IsProgrammedFor(v: View, g: NamespacedName, now: int) {
    && v.compiled != 0 && g in v.slices
    && exists n :: n in v.applied && v.applied[n].gateway == g && CurrentOrInGrace(v, g, v.applied[n].fingerprint, now)
  }

  /** A data plane of the Gateway runs its slice, or one replaced less than ten seconds ago, and
      something was compiled. */
  ghost predicate Runs(v: View, g: NamespacedName, node: string, now: int) {
    && node in v.applied && v.applied[node].gateway == g
    && var fp := v.applied[node].fingerprint;
    || (g in v.slices && fp == v.slices[g])
    || exists x :: g in v.superseded && x in v.superseded[g] && x.fingerprint == fp && now < x.at + 10_000_000_000
  }

  lemma ProgrammedExactly(v: View, g: NamespacedName, now: int)
    ensures IsProgrammedFor(v, g, now) <==> v.compiled != 0 && g in v.slices && exists node :: Runs(v, g, node, now)
  {
    forall node | node in v.applied && v.applied[node].gateway == g
      ensures Runs(v, g, node, now) <==> CurrentOrInGrace(v, g, v.applied[node].fingerprint, now)
    {
      var fp := v.applied[node].fingerprint;
      if x :| g in v.superseded && x in v.superseded[g] && x.fingerprint == fp && now < x.at + 10_000_000_000 {
        var i :| 0 <= i < |v.superseded[g]| && v.superseded[g][i] == x;
      }
      if g in v.superseded && InGrace(v.superseded[g], fp, now) {
        var i :| 0 <= i < |v.superseded[g]| && v.superseded[g][i].fingerprint == fp && now - v.superseded[g][i].at < GRACE;
        assert v.superseded[g][i] in v.superseded[g];
      }
    }
  }

  function Young(now: int): Superseded -> bool { (s: Superseded) => now - s.at < GRACE }

  function SuperGet(v: View, g: NamespacedName): seq<Superseded> { if g in v.superseded then v.superseded[g] else [] }

  function WithSlice(v: View, g: NamespacedName, fp: U64, now: int): View {
    v.(slices := v.slices[g := fp],
       superseded := if g in v.slices && v.slices[g] != fp
                     then v.superseded[g := Filter(SuperGet(v, g), Young(now)) + [Superseded(v.slices[g], now)]]
                     else v.superseded)
  }

  /** A changed slice joins those in grace, and those whose grace is over are dropped then; an
      unchanged one changes nothing; no other Gateway is touched. */
  lemma SliceSet(v: View, g: NamespacedName, fp: U64, now: int)
    ensures var w := WithSlice(v, g, fp, now);
      && w.compiled == v.compiled && w.applied == v.applied
      && g in w.slices && w.slices[g] == fp
      && (forall x :: x != g ==> (x in w.slices <==> x in v.slices) && (x in v.slices ==> w.slices[x] == v.slices[x]) && SuperGet(w, x) == SuperGet(v, x))
      && (forall s :: s in SuperGet(w, g) <==>
            if g in v.slices && v.slices[g] != fp
            then s == Superseded(v.slices[g], now) || (s in SuperGet(v, g) && now < s.at + 10_000_000_000)
            else s in SuperGet(v, g))
  {
  }

  function WithoutSlice(v: View, g: NamespacedName): View {
    v.(slices := v.slices - {g}, superseded := v.superseded - {g})
  }

  function Pruned(v: View, g: NamespacedName, now: int): View {
    if g in v.superseded then v.(superseded := v.superseded[g := Filter(v.superseded[g], Young(now))]) else v
  }

  predicate Accepts(v: View, node: string) { |v.applied| < MAX_DATA_PLANE_NODES || node in v.applied }

  /** The answer for a Gateway depends on its own slice and its own data planes. */
  lemma AnswerFramed(v: View, w: View, g: NamespacedName, now: int)
    requires v.compiled == w.compiled
    requires (g in v.slices <==> g in w.slices) && (g in v.slices ==> v.slices[g] == w.slices[g])
    requires (g in v.superseded <==> g in w.superseded) && (g in v.superseded ==> v.superseded[g] == w.superseded[g])
    requires forall n :: n in v.applied && v.applied[n].gateway == g ==> n in w.applied && w.applied[n] == v.applied[n]
    requires forall n :: n in w.applied && w.applied[n].gateway == g ==> n in v.applied && v.applied[n] == w.applied[n]
    ensures IsProgrammedFor(v, g, now) <==> IsProgrammedFor(w, g, now)
  {
  }

  predicate Moved(before: View, after: View, g: NamespacedName, now: int) {
    IsProgrammedFor(before, g, now) != IsProgrammedFor(after, g, now)
  }

  /** The events a change must publish: the Gateways whose answer moved. */
  ghost predicate Reports(before: View, after: View, now: int, events: seq<NamespacedName>) {
    forall g :: g in events <==> Moved(before, after, g, now)
  }

  function Report(before: View, after: View, g: NamespacedName, now: int): seq<NamespacedName> {
    if Moved(before, after, g, now) then [g] else []
  }

  /** A node that left one Gateway and joined another: the one left is reported first. */
  function MoveReport(before: View, after: View, left: NamespacedName, joined: NamespacedName, now: int): seq<NamespacedName> {
    (if left != joined then Report(before, after, left, now) else []) + Report(before, after, joined, now)
  }

  ghost predicate OnlyMoves(before: View, after: View, now: int, who: set<NamespacedName>) {
    forall x :: x !in who ==> !Moved(before, after, x, now)
  }

  lemma OneReport(before: View, after: View, now: int, g: NamespacedName)
    requires OnlyMoves(before, after, now, {g})
    ensures Reports(before, after, now, Report(before, after, g, now))
  {
  }

  lemma TwoReports(before: View, after: View, now: int, a: NamespacedName, b: NamespacedName)
    requires OnlyMoves(before, after, now, {a, b})
    ensures Reports(before, after, now, Report(before, after, a, now) + Report(before, after, b, now))
  {
  }

  lemma SliceMovesOne(v: View, g: NamespacedName, fp: U64, now: int)
    ensures OnlyMoves(v, WithSlice(v, g, fp, now), now, {g})
  {
    forall x | x != g ensures !Moved(v, WithSlice(v, g, fp, now), x, now) {
      AnswerFramed(v, WithSlice(v, g, fp, now), x, now);
    }
  }

  lemma RemovalMovesOne(v: View, g: NamespacedName, now: int)
    ensures OnlyMoves(v, WithoutSlice(v, g), now, {g})
  {
    forall x | x != g ensures !Moved(v, WithoutSlice(v, g), x, now) {
      AnswerFramed(v, WithoutSlice(v, g), x, now);
    }
  }

  function WithoutNode(v: View, node: string): View { v.(applied := v.applied - {node}) }

  lemma ForgettingMovesOne(v: View, node: string, now: int)
    requires node in v.applied
    ensures OnlyMoves(v, WithoutNode(v, node), now, {v.applied[node].gateway})
  {
    forall x | x != v.applied[node].gateway ensures !Moved(v, WithoutNode(v, node), x, now) {
      AnswerFramed(v, WithoutNode(v, node), x, now);
    }
  }

  function WithNode(v: View, node: string, a: Applied): View { v.(applied := v.applied[node := a]) }

  /** The Gateway a node served before, or `g`. */
  function LeftBy(v: View, node: string, g: NamespacedName): NamespacedName {
    if node in v.applied then v.applied[node].gateway else g
  }

  lemma RecordingMovesTwo(v: View, node: string, a: Applied, now: int)
    ensures OnlyMoves(v, WithNode(v, node, a), now, {LeftBy(v, node, a.gateway), a.gateway})
  {
    forall x | x != a.gateway && x != LeftBy(v, node, a.gateway) ensures !Moved(v, WithNode(v, node, a), x, now) {
      AnswerFramed(v, WithNode(v, node, a), x, now);
    }
  }

  lemma MoveReports(v: View, node: string, a: Applied, now: int)
    ensures Reports(v, WithNode(v, node, a), now, MoveReport(v, WithNode(v, node, a), LeftBy(v, node, a.gateway), a.gateway, now))
  {
    RecordingMovesTwo(v, node, a, now);
    TwoReports(v, WithNode(v, node, a), now, LeftBy(v, node, a.gateway), a.gateway);
    OneOrTwo(v, WithNode(v, node, a), now, LeftBy(v, node, a.gateway), a.gateway);
  }

  lemma OneOrTwo(before: View, after: View, now: int, left: NamespacedName, joined: NamespacedName)
    ensures forall x :: x in MoveReport(before, after, left, joined, now) <==>
                        x in Report(before, after, left, now) + Report(before, after, joined, now)
  {
  }

  class ConfigStore {
    var compiled: U64
    var slices: map<NamespacedName, U64>
    var superseded: map<NamespacedName, seq<Superseded>>
    var applied: map<string, Applied>
    var events: seq<NamespacedName>

    function Now(): View
      reads this
    {
      View(compiled, slices, superseded, applied)
    }

    ghost predicate Valid()
      reads this
    {
      |applied| <= MAX_DATA_PLANE_NODES && forall n :: n in applied ==> applied[n].fingerprint != 0
    }

    constructor ()
      ensures Valid() && Now() == View(0, map[], map[], map[]) && events == []
    {
      compiled, slices, superseded, applied, events := 0, map[], map[], map[], [];
    }

    /** The tail of `with_programmed_change`. */
    method PublishIfMoved(ghost was: View, g: NamespacedName, before: bool, now: int)
      requires before == IsProgrammedFor(was, g, now)
      modifies this`events
      ensures events == old(events) + Report(was, Now(), g, now)
    {
      if IsProgrammedFor(Now(), g, now) != before {
        events := events + [g];
      }
    }

    /** `set_compiled_slice`. */
    method SetCompiledSlice(g: NamespacedName, fp: U64, now: int) returns (changed: bool)
      requires Valid()
      modifies this
      ensures Valid() && Now() == WithSlice(old(Now()), g, fp, now)
      ensures changed <==> !(g in old(slices) && old(slices)[g] == fp)
      ensures events == old(events) + Report(old(Now()), Now(), g, now)
      ensures Reports(old(Now()), Now(), now, Report(old(Now()), Now(), g, now))
    {
      ghost var was := Now();
      var before := IsProgrammedFor(Now(), g, now);
      changed := RecordSlice(g, fp, now);
      PublishIfMoved(was, g, before, now);
      SliceMovesOne(was, g, fp, now);
      OneReport(was, Now(), now, g);
    }

    method RecordSlice(g: NamespacedName, fp: U64, now: int) returns (changed: bool)
      modifies this`slices, this`superseded
      ensures Now() == WithSlice(old(Now()), g, fp, now)
      ensures changed <==> !(g in old(slices) && old(slices)[g] == fp)
    {
      changed := true;
      if g in slices {
        if slices[g] == fp {
          changed := false;
        } else {
          var kept := if g in superseded then Filter(superseded[g], Young(now)) else [];
          superseded := superseded[g := kept + [Superseded(slices[g], now)]];
        }
      }
      slices := slices[g := fp];
    }

    /** `remove_compiled_slice`. */
    method RemoveCompiledSlice(g: NamespacedName, now: int)
      requires Valid()
      modifies this
      ensures Valid() && Now() == WithoutSlice(old(Now()), g)
      ensures events == old(events) + Report(old(Now()), Now(), g, now)
      ensures Reports(old(Now()), Now(), now, Report(old(Now()), Now(), g, now))
    {
      ghost var was := Now();
      var before := IsProgrammedFor(Now(), g, now);
      slices, superseded := slices - {g}, superseded - {g};
      PublishIfMoved(was, g, before, now);
      RemovalMovesOne(was, g, now);
      OneReport(was, Now(), now, g);
    }

    /** `forget_data_plane`. */
    method ForgetDataPlane(node: string, now: int)
      requires Valid()
      modifies this
      ensures Valid() && Now() == WithoutNode(old(Now()), node)
      ensures old(events) <= events && Reports(old(Now()), Now(), now, events[|old(events)|..])
    {
      ghost var was := Now();
      if node !in applied {
        assert applied - {node} == applied;
        return;
      }
      var g := applied[node].gateway;
      var before := IsProgrammedFor(Now(), g, now);
      applied := applied - {node};
      RemovalShrinks(was.applied, node);
      PublishIfMoved(was, g, before, now);
      ForgettingMovesOne(was, node, now);
      OneReport(was, Now(), now, g);
      assert events[|old(events)|..] == Report(was, Now(), g, now);
    }

    /** `record_applied`: rejects fingerprint 0 and, at the cap, nodes not yet known. */
    method RecordApplied(node: string, g: NamespacedName, fp: U64, now: int) returns (ok: bool)
      requires Valid()
      modifies this
      ensures Valid() && (ok <==> fp != 0 && Accepts(old(Now()), node))
      ensures Now() == if ok then WithNode(old(Now()), node, Applied(g, fp)) else old(Now())
      ensures events == old(events) + if ok then MoveReport(old(Now()), Now(), LeftBy(old(Now()), node, g), g, now) else []
      ensures old(events) <= events && Reports(old(Now()), Now(), now, events[|old(events)|..])
    {
      ghost var was := Now();
      ok := fp != 0 && Accepts(Now(), node);
      if ok {
        Admit(node, Applied(g, fp), now);
        MoveReports(was, node, Applied(g, fp), now);
        assert events[|old(events)|..] == MoveReport(was, Now(), LeftBy(was, node, g), g, now);
      }
    }

    method Admit(node: string, a: Applied, now: int)
      requires Valid() && a.fingerprint != 0 && Accepts(Now(), node)
      modifies this
      ensures Valid() && Now() == WithNode(old(Now()), node, a)
      ensures events == old(events) + MoveReport(old(Now()), Now(), LeftBy(old(Now()), node, a.gateway), a.gateway, now)
    {
      ghost var was := Now();
      var left := LeftBy(Now(), node, a.gateway);
      var leftBefore := IsProgrammedFor(Now(), left, now);
      var joinedBefore := IsProgrammedFor(Now(), a.gateway, now);
      UpdateGrows(applied, node, a);
      applied := applied[node := a];
      if left != a.gateway {
        PublishIfMoved(was, left, leftBefore, now);
      }
      PublishIfMoved(was, a.gateway, joinedBefore, now);
    }

    /** `expire_programmed_grace`. */
    method ExpireProgrammedGrace(g: NamespacedName, now: int)
      requires Valid()
      modifies this`superseded, this`events
      ensures Valid() && Now() == Pruned(old(Now()), g, now)
      ensures events == old(events) + if GraceLost(old(Now()), g, now) then [g] else []
    {
      var had := false;
      if g in superseded {
        var kept := Filter(superseded[g], Young(now));
        had := |kept| < |superseded[g]|;
        superseded := superseded[g := kept];
      }
      PruningInvisible(old(Now()), g, g, now);
      if had && !IsProgrammedFor(Now(), g, now) {
        events := events + [g];
      }
    }

    /** The store of `compiled_fingerprint` by the compilation loop, which publishes nothing. */
    method StoreCompiledFingerprint(fp: U64)
      requires Valid()
      modifies this`compiled
      ensures Valid() && Now() == old(Now()).(compiled := fp)
    {
      compiled := fp;
    }
  }

  lemma RemovalShrinks(m: map<string, Applied>, node: string)
    ensures |m - {node}| <= |m|
  {
    assert (m - {node}).Keys <= m.Keys;
    SubsetSize((m - {node}).Keys, m.Keys);
  }

  lemma {:induction false} SubsetSize(a: set<string>, b: set<string>)
    requires a <= b
    ensures |a| <= |b|
  {
    if a != {} {
      var x :| x in a;
      SubsetSize(a - {x}, b - {x});
    }
  }

  lemma UpdateGrows(m: map<string, Applied>, node: string, a: Applied)
    ensures |m[node := a]| == if node in m then |m| else |m| + 1
  {
    assert m[node := a].Keys == m.Keys + {node};
  }

  /** A node is accepted exactly when the record stays within 1000 nodes. */
  lemma CapExactly(v: View, node: string, a: Applied)
    requires |v.applied| <= 1000
    ensures Accepts(v, node) <==> |WithNode(v, node, a).applied| <= 1000
  {
    UpdateGrows(v.applied, node, a);
  }

  /** A departed Gateway has no slice, none in grace, and is not Programmed; the others keep
      theirs. */
  lemma SliceRemoved(v: View, g: NamespacedName, now: int)
    ensures var w := WithoutSlice(v, g);
      && g !in w.slices && SuperGet(w, g) == [] && !IsProgrammedFor(w, g, now) && w.applied == v.applied && w.compiled == v.compiled
      && forall x :: x != g ==> (x in w.slices <==> x in v.slices) && (x in v.slices ==> w.slices[x] == v.slices[x]) && SuperGet(w, x) == SuperGet(v, x)
  {
  }

  // ---- What the answer means across time ----

  lemma {:induction false} YoungKept(old_: seq<Superseded>, fp: U64, now: int)
    ensures InGrace(Filter(old_, Young(now)), fp, now) <==> InGrace(old_, fp, now)
  {
    var kept := Filter(old_, Young(now));
    if i :| 0 <= i < |old_| && old_[i].fingerprint == fp && now - old_[i].at < GRACE {
      assert old_[i] in kept;
      var j :| 0 <= j < |kept| && kept[j] == old_[i];
    }
    if j :| 0 <= j < |kept| && kept[j].fingerprint == fp && now - kept[j].at < GRACE {
      assert kept[j] in old_;
    }
  }

  /** Pruning expired slices moves nobody's answer. */
  lemma PruningInvisible(v: View, g: NamespacedName, x: NamespacedName, now: int)
    ensures IsProgrammedFor(Pruned(v, g, now), x, now) <==> IsProgrammedFor(v, x, now)
  {
    var w := Pruned(v, g, now);
    forall fp ensures CurrentOrInGrace(w, x, fp, now) <==> CurrentOrInGrace(v, x, fp, now) {
      if x == g && g in v.superseded {
        YoungKept(v.superseded[g], fp, now);
      }
    }
  }

  /** A recompile never takes Programmed away at once. */
  lemma RecompileKeepsProgrammed(v: View, g: NamespacedName, fp: U64, now: int)
    requires IsProgrammedFor(v, g, now)
    ensures IsProgrammedFor(WithSlice(v, g, fp, now), g, now)
  {
    var w := WithSlice(v, g, fp, now);
    var n :| n in v.applied && v.applied[n].gateway == g && CurrentOrInGrace(v, g, v.applied[n].fingerprint, now);
    var running := v.applied[n].fingerprint;
    if v.slices[g] != fp {
      var kept := Filter(SuperGet(v, g), Young(now));
      var old_ := w.superseded[g];
      if running == v.slices[g] {
        assert old_[|kept|] == Superseded(running, now);
      } else {
        YoungKept(v.superseded[g], running, now);
        var j :| 0 <= j < |kept| && kept[j].fingerprint == running && now - kept[j].at < GRACE;
        assert old_[j] == kept[j];
      }
      assert InGrace(old_, running, now);
    }
  }

  /** A data plane on the slice just replaced keeps its Gateway Programmed for the whole grace. */
  lemma GraceWindow(v: View, g: NamespacedName, fp: U64, now: int, node: string, later: int)
    requires v.compiled != 0 && g in v.slices && node in v.applied && v.applied[node] == Applied(g, v.slices[g])
    requires now <= later < now + GRACE
    ensures IsProgrammedFor(WithSlice(v, g, fp, now), g, later)
  {
    var w := WithSlice(v, g, fp, now);
    if v.slices[g] != fp {
      var kept := Filter(SuperGet(v, g), Young(now));
      assert w.superseded[g][|kept|] == Superseded(v.slices[g], now);
      assert InGrace(w.superseded[g], v.slices[g], later);
    }
    assert CurrentOrInGrace(w, g, w.applied[node].fingerprint, later);
  }

  /** Whether the scheduled check has something to tell. */
  predicate GraceLost(v: View, g: NamespacedName, now: int) {
    && g in v.superseded && |Filter(v.superseded[g], Young(now))| < |v.superseded[g]|
    && !IsProgrammedFor(v, g, now)
  }

  lemma {:induction false} FilterShorter<T(!new)>(s: seq<T>, p: T -> bool)
    ensures |Filter(s, p)| <= |s|
    ensures |Filter(s, p)| < |s| <==> exists i :: 0 <= i < |s| && !p(s[i])
  {
    if s != [] {
      FilterShorter(s[1..], p);
      if i :| 0 <= i < |s| && !p(s[i]) {
        assert i > 0 ==> s[1..][i - 1] == s[i];
      }
    }
  }

  /** An answer that lapsed merely because time passed leaves an expired slice behind. */
  lemma LapseLeavesExpired(v: View, g: NamespacedName, earlier: int, now: int)
    requires earlier <= now && IsProgrammedFor(v, g, earlier) && !IsProgrammedFor(v, g, now)
    ensures GraceLost(v, g, now)
  {
    var n :| n in v.applied && v.applied[n].gateway == g && CurrentOrInGrace(v, g, v.applied[n].fingerprint, earlier);
    var fp := v.applied[n].fingerprint;
    assert !CurrentOrInGrace(v, g, fp, now);
    var i :| 0 <= i < |v.superseded[g]| && v.superseded[g][i].fingerprint == fp && earlier - v.superseded[g][i].at < GRACE;
    assert !Young(now)(v.superseded[g][i]);
    FilterShorter(v.superseded[g], Young(now));
  }

  /** Time alone never makes a Gateway Programmed. */
  lemma NoSilentGain(v: View, g: NamespacedName, earlier: int, now: int)
    requires earlier <= now && IsProgrammedFor(v, g, now)
    ensures IsProgrammedFor(v, g, earlier)
  {
    var n :| n in v.applied && v.applied[n].gateway == g && CurrentOrInGrace(v, g, v.applied[n].fingerprint, now);
    var fp := v.applied[n].fingerprint;
    if !(v.slices[g] == fp) {
      var i :| 0 <= i < |v.superseded[g]| && v.superseded[g][i].fingerprint == fp && now - v.superseded[g][i].at < GRACE;
      assert earlier - v.superseded[g][i].at < GRACE;
      assert InGrace(v.superseded[g], fp, earlier);
    }
    assert CurrentOrInGrace(v, g, fp, earlier);
  }

  /** Storing the global fingerprint publishes nothing, and moves an answer exactly when it goes
      to or from 0 while the Gateway would otherwise be Programmed. */
  lemma FingerprintStoreSilent(v: View, fp: U64, g: NamespacedName, now: int)
    ensures IsProgrammedFor(v.(compiled := fp), g, now) != IsProgrammedFor(v, g, now) <==>
      (v.compiled == 0) != (fp == 0) && IsProgrammedFor(v.(compiled := 1), g, now)
  {
    var one := v.(compiled := 1);
    AnswerSame(one, v, g, now);
    AnswerSame(one, v.(compiled := fp), g, now);
  }

  lemma AnswerSame(one: View, v: View, g: NamespacedName, now: int)
    requires one == v.(compiled := 1)
    ensures IsProgrammedFor(v, g, now) <==> v.compiled != 0 && IsProgrammedFor(one, g, now)
  {
    assert forall fp :: CurrentOrInGrace(v, g, fp, now) <==> CurrentOrInGrace(one, g, fp, now);
  }

  /** A data plane that reconnects before the first compile, running what that compile will
      produce, is found Programmed with nobody told. */
  method ReconnectBeforeCompile(node: string, g: NamespacedName, slice: U64, whole: U64, now: int) returns (store: ConfigStore)
    requires slice != 0 && whole != 0
    ensures fresh(store) && store.events == [] && IsProgrammedFor(store.Now(), g, now)
  {
    store := new ConfigStore();
    var ok := store.RecordApplied(node, g, slice, now);
    var changed := store.SetCompiledSlice(g, slice, now);
    assert store.events == [];
    store.StoreCompiledFingerprint(whole);
    assert node in store.applied && store.applied[node] == Applied(g, slice);
    assert CurrentOrInGrace(store.Now(), g, store.applied[node].fingerprint, now);
  }

  /** No data plane can acknowledge fingerprint 0, so a Gateway whose slice sums to 0 is never
      Programmed once its grace is over. */
  lemma ZeroSliceUnprogrammed(store: ConfigStore, g: NamespacedName, now: int)
    requires store.Valid() && g in store.slices && store.slices[g] == 0
    requires g in store.superseded ==> forall i :: 0 <= i < |store.superseded[g]| ==> store.superseded[g][i].at + GRACE <= now
    ensures !IsProgrammedFor(store.Now(), g, now)
  {
  }
}
