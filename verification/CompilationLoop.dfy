/** The compilation loop and the writers that wake it, as one state machine.

    A writer updates one or more cells of the store, sets the dirty flag, then notifies once; a
    notification that finds nobody waiting is kept as a permit. The loop takes a permit, absorbs more until
    the writes are quiet, clears the dirty flag and compiles, reading the store one cell at a
    time while writers go on. A cell is what can be read atomically: one shard of one map. */
module CompilationLoop {
  import opened Collections
  import opened Types
  import opened Slicing

  type Cell = nat
  type Contents = string
  type Cells = map<Cell, Contents>

  datatype Seen = Seen(cell: Cell, contents: Option<Contents>)

  /** A compile is any program over what it has read so far: it may read cells repeatedly and
      in any order, panic, or finish with a configuration and the live Gateways. A hash set it
      iterates has a new order in every compile; each order gives one program. */
  datatype Move = Read(cell: Cell) | Panic | Done(config: CompiledConfig, live: set<NamespacedName>)
  type Program = seq<Seen> -> Move
  type Orders = nat -> Program

  datatype WriterPhase = Inserted | Marked

  datatype Pc =
    | Parked
    | Quiet
    | Check
    | Compiling(order: nat, log: seq<Seen>)
    | Departing
    | Recording(recorded: set<NamespacedName>)
    | Deciding
    | StoringVersion
    | StoringFingerprint
    | Sending

  datatype Outcome = Never | Panicked | Compiled(order: nat, log: seq<Seen>, config: CompiledConfig, live: set<NamespacedName>)

  /** A broadcast: the configuration and what it is stamped with. */
  datatype Message = Message(version: nat, fingerprint: U64, config: CompiledConfig)

  /** `last` is the last finished compile, with the configuration being published. Two fields
      are history: `touched`, some writer has marked the store, and `first`, the configuration
      of the first compile that finished. */
  datatype State = State(
    cells: Cells, writers: map<nat, WriterPhase>, dirty: bool, permit: bool,
    pc: Pc, last: Outcome, version: nat, lastFingerprint: U64,
    compiledVersion: nat, compiledFingerprint: U64, slices: map<NamespacedName, U64>, sent: seq<Message>,
    touched: bool, first: Option<CompiledConfig>)

  datatype Action =
    | Write(writer: nat, cell: Cell, contents: Option<Contents>)
    | Mark(writer: nat)
    | Notify(writer: nat)
    | Wake
    | Absorb
    | Settle
    | TakeDirty(order: nat)
    | Advance
    | Forget(gateway: NamespacedName)
    | StartRecording
    | Record(gateway: NamespacedName)
    | FinishRecording
    | Decide
    | StoreVersion
    | StoreFingerprint
    | Send

  /** The fingerprint of a configuration and of a Gateway's slice of it. */
  datatype Prints = Prints(whole: CompiledConfig -> U64, slice: (CompiledConfig, NamespacedName) -> U64)

  function Init(cells: Cells): State {
    State(cells, map[], true, false, Parked, Never, 0, 0, 0, 0, map[], [], false, None)
  }

  function Look(cells: Cells, cell: Cell): Option<Contents> {
    if cell in cells then Some(cells[cell]) else None
  }

  function Put(cells: Cells, cell: Cell, contents: Option<Contents>): Cells {
    if contents.Some? then cells[cell := contents.value] else cells - {cell}
  }

  // ---- Steps ----

  function WriterStep(s: State, a: Action): Option<State> {
    match a
    case Write(w, cell, contents) =>
      if w in s.writers && s.writers[w].Marked? then None
      else Some(s.(cells := Put(s.cells, cell, contents), writers := s.writers[w := Inserted]))
    case Mark(w) =>
      if w in s.writers && s.writers[w].Marked? then None
      else Some(s.(dirty := true, touched := true, writers := s.writers[w := Marked]))
    case Notify(w) =>
      if w in s.writers && s.writers[w].Marked? then Some(s.(permit := true, writers := s.writers - {w})) else None
    case _ => None
  }

  function WakeStep(s: State, a: Action): Option<State> {
    match a
    case Wake => if s.pc.Parked? && s.permit then Some(s.(permit := false, pc := Quiet)) else None
    case Absorb => if s.pc.Quiet? && s.permit then Some(s.(permit := false)) else None
    case Settle => if s.pc.Quiet? then Some(s.(pc := Check)) else None
    case TakeDirty(order) =>
      if !s.pc.Check? then None
      else if s.dirty then Some(s.(dirty := false, pc := Compiling(order, [])))
      else Some(s.(pc := Parked))
    case _ => None
  }

  function AfterDone(s: State, config: CompiledConfig, live: set<NamespacedName>): State
    requires s.pc.Compiling?
  {
    s.(pc := Departing, last := Compiled(s.pc.order, s.pc.log, config, live),
       first := if s.first.None? then Some(config) else s.first)
  }

  function CompileStep(program: Orders, s: State): Option<State> {
    if !s.pc.Compiling? then None
    else
      match program(s.pc.order)(s.pc.log)
      case Read(cell) => Some(s.(pc := Compiling(s.pc.order, s.pc.log + [Seen(cell, Look(s.cells, cell))])))
      case Panic => Some(s.(pc := Parked, last := Panicked))
      case Done(config, live) => Some(AfterDone(s, config, live))
  }

  function SliceStep(prints: Prints, s: State, a: Action): Option<State> {
    if !s.last.Compiled? then None
    else
      match a
      case Forget(g) =>
        if s.pc.Departing? && g in s.slices && g !in s.last.live then Some(s.(slices := s.slices - {g})) else None
      case StartRecording =>
        if s.pc.Departing? && s.slices.Keys <= s.last.live then Some(s.(pc := Recording({}))) else None
      case Record(g) =>
        if s.pc.Recording? && g in s.last.live - s.pc.recorded then
          Some(s.(slices := s.slices[g := prints.slice(s.last.config, g)], pc := Recording(s.pc.recorded + {g})))
        else None
      case FinishRecording =>
        if s.pc.Recording? && s.pc.recorded == s.last.live then Some(s.(pc := Deciding)) else None
      case _ => None
  }

  predicate At(s: State, pc: Pc) { s.pc == pc && s.last.Compiled? }

  function AfterDecide(prints: Prints, s: State): State
    requires At(s, Deciding)
  {
    var fp := prints.whole(s.last.config);
    if fp == s.lastFingerprint && s.version > 0 then s.(pc := Parked)
    else s.(version := s.version + 1, lastFingerprint := fp, pc := StoringVersion)
  }

  function AfterSend(s: State): State
    requires At(s, Sending)
  {
    s.(sent := s.sent + [Message(s.version, s.lastFingerprint, s.last.config)], pc := Parked)
  }

  function PublishStep(prints: Prints, s: State, a: Action): Option<State> {
    match a
    case Decide => if At(s, Deciding) then Some(AfterDecide(prints, s)) else None
    case StoreVersion =>
      if At(s, StoringVersion) then Some(s.(compiledVersion := s.version, pc := StoringFingerprint)) else None
    case StoreFingerprint =>
      if At(s, StoringFingerprint) then Some(s.(compiledFingerprint := s.lastFingerprint, pc := Sending)) else None
    case Send => if At(s, Sending) then Some(AfterSend(s)) else None
    case _ => None
  }

  function LoopStep(prints: Prints, program: Orders, s: State, a: Action): Option<State> {
    match a
    case Advance => CompileStep(program, s)
    case Forget(_) | StartRecording | Record(_) | FinishRecording => SliceStep(prints, s, a)
    case _ => PublishStep(prints, s, a)
  }

  function Step(prints: Prints, program: Orders, s: State, a: Action): Option<State> {
    match a
    case Write(_, _, _) | Mark(_) | Notify(_) => WriterStep(s, a)
    case Wake | Absorb | Settle | TakeDirty(_) => WakeStep(s, a)
    case _ => LoopStep(prints, program, s, a)
  }

  /** The state after a schedule, if every action was enabled in turn. */
  function Run(prints: Prints, program: Orders, cells: Cells, schedule: seq<Action>): Option<State> {
    if schedule == [] then Some(Init(cells))
    else
      var before := Run(prints, program, cells, schedule[..|schedule| - 1]);
      if before.None? then None else Step(prints, program, before.value, schedule[|schedule| - 1])
  }

  // ---- What a compile of one fixed store is ----

  ghost predicate Follows(program: Program, log: seq<Seen>) {
    forall i :: 0 <= i < |log| ==> program(log[..i]) == Read(log[i].cell)
  }

  ghost predicate Stale(log: seq<Seen>, cells: Cells) {
    exists i :: 0 <= i < |log| && log[i].contents != Look(cells, log[i].cell)
  }

  /** `config` and `live` are what the program finishes with when nothing changes under it. */
  ghost predicate Finishes(program: Program, cells: Cells, config: CompiledConfig, live: set<NamespacedName>) {
    exists log :: Follows(program, log) && !Stale(log, cells) && program(log) == Done(config, live)
  }

  /** A compile of the store, in some order. */
  ghost predicate CompilesTo(program: Orders, cells: Cells, config: CompiledConfig, live: set<NamespacedName>) {
    exists order :: Finishes(program(order), cells, config, live)
  }

  lemma {:induction false} SameReads(program: Program, cells: Cells, a: seq<Seen>, b: seq<Seen>, i: nat)
    requires Follows(program, a) && Follows(program, b) && !Stale(a, cells) && !Stale(b, cells)
    requires i <= |a| && i <= |b|
    ensures a[..i] == b[..i]
  {
    if i > 0 {
      SameReads(program, cells, a, b, i - 1);
      assert program(a[..i - 1]) == Read(a[i - 1].cell);
      assert program(b[..i - 1]) == Read(b[i - 1].cell);
      assert a[i - 1] == b[i - 1];
      assert a[..i] == a[..i - 1] + [a[i - 1]];
      assert b[..i] == b[..i - 1] + [b[i - 1]];
    }
  }

  lemma LogsAgree(program: Program, cells: Cells, a: seq<Seen>, b: seq<Seen>)
    requires Follows(program, a) && Follows(program, b) && !Stale(a, cells) && !Stale(b, cells)
    requires program(a).Done? && program(b).Done?
    ensures a == b
  {
    if |a| <= |b| {
      Shorter(program, cells, a, b);
    } else {
      Shorter(program, cells, b, a);
    }
  }

  lemma Shorter(program: Program, cells: Cells, a: seq<Seen>, b: seq<Seen>)
    requires Follows(program, a) && Follows(program, b) && !Stale(a, cells) && !Stale(b, cells)
    requires program(a).Done? && |a| <= |b|
    ensures a == b
  {
    SameReads(program, cells, a, b, |a|);
    assert a[..|a|] == a && b[..|b|] == b;
    assert b[..|a|] == a;
  }

  /** In one order, the compile of a store is unique. */
  lemma CompileUnique(program: Program, cells: Cells, c: CompiledConfig, l: set<NamespacedName>, c': CompiledConfig, l': set<NamespacedName>)
    requires Finishes(program, cells, c, l) && Finishes(program, cells, c', l')
    ensures c == c' && l == l'
  {
    var a :| Follows(program, a) && !Stale(a, cells) && program(a) == Done(c, l);
    var b :| Follows(program, b) && !Stale(b, cells) && program(b) == Done(c', l');
    LogsAgree(program, cells, a, b);
  }

  /** The order decides nothing but the order of the lists compiled. */
  ghost predicate OrderBlind(program: Orders) {
    forall cells, c, l, c', l' :: CompilesTo(program, cells, c, l) && CompilesTo(program, cells, c', l') ==> Permuted(c, c') && l == l'
  }

  // ---- Invariants ----

  ghost predicate Unmarked(s: State) { exists w :: w in s.writers && s.writers[w].Inserted? }
  ghost predicate Unnotified(s: State) { exists w :: w in s.writers && s.writers[w].Marked? }

  /** A read that went stale is covered by the dirty flag or by a writer about to set it. */
  ghost predicate Covered(s: State, log: seq<Seen>) { Stale(log, s.cells) ==> s.dirty || Unmarked(s) }

  ghost predicate Fresh(program: Orders, s: State) {
    && (s.pc.Compiling? ==> Follows(program(s.pc.order), s.pc.log) && Covered(s, s.pc.log))
    && (s.last.Compiled? ==>
          Follows(program(s.last.order), s.last.log) && program(s.last.order)(s.last.log) == Done(s.last.config, s.last.live))
    && (s.last.Compiled? && !s.pc.Compiling? ==> Covered(s, s.last.log))
  }

  /** A dirty store has a wake-up on its way. */
  ghost predicate Awake(s: State) {
    && (s.dirty && s.touched ==> s.permit || Unnotified(s) || s.pc.Quiet? || s.pc.Check?)
    && (s.last.Never? ==> s.dirty || s.pc.Compiling?)
  }

  predicate Publishing(pc: Pc) { pc.StoringVersion? || pc.StoringFingerprint? || pc.Sending? }
  predicate HasConfig(pc: Pc) { pc.Departing? || pc.Recording? || pc.Deciding? || Publishing(pc) }

  ghost predicate Broadcasts(prints: Prints, sent: seq<Message>) {
    && (forall i :: 0 <= i < |sent| ==> sent[i].version == i + 1 && sent[i].fingerprint == prints.whole(sent[i].config))
    && (forall i :: 0 < i < |sent| ==> sent[i].fingerprint != sent[i - 1].fingerprint)
  }

  function SentFingerprint(s: State): U64 { if s.sent == [] then 0 else s.sent[|s.sent| - 1].fingerprint }

  ghost predicate Counters(prints: Prints, s: State) {
    if Publishing(s.pc) then
      && s.version == |s.sent| + 1 && s.last.Compiled? && s.lastFingerprint == prints.whole(s.last.config)
      && (s.sent != [] ==> s.lastFingerprint != SentFingerprint(s))
      && s.compiledVersion == (if s.pc.StoringVersion? then |s.sent| else s.version)
      && s.compiledFingerprint == (if s.pc.Sending? then s.lastFingerprint else SentFingerprint(s))
    else
      && s.version == |s.sent| && s.lastFingerprint == SentFingerprint(s)
      && s.compiledVersion == s.version && s.compiledFingerprint == s.lastFingerprint
  }

  ghost function SlicesOf(prints: Prints, config: CompiledConfig, live: set<NamespacedName>): map<NamespacedName, U64> {
    map g | g in live :: prints.slice(config, g)
  }

  ghost predicate Recorded(prints: Prints, s: State) {
    && (HasConfig(s.pc) ==> s.last.Compiled?)
    && (s.pc.Recording? ==>
          && s.slices.Keys <= s.last.live && s.pc.recorded <= s.last.live
          && forall g :: g in s.pc.recorded ==> g in s.slices && s.slices[g] == prints.slice(s.last.config, g))
    && (s.last.Compiled? && !s.pc.Departing? && !s.pc.Recording? ==> s.slices == SlicesOf(prints, s.last.config, s.last.live))
  }

  ghost predicate Delivered(prints: Prints, s: State) {
    s.last.Compiled? && !HasConfig(s.pc) ==> s.sent != [] && SentFingerprint(s) == prints.whole(s.last.config)
  }

  /** The first compile finished is the first sent. */
  ghost predicate FirstIsFirst(s: State) {
    && (s.last.Compiled? ==> s.first.Some?)
    && (s.sent != [] ==> s.first == Some(s.sent[0].config))
    && (s.first.Some? && s.sent == [] ==> HasConfig(s.pc) && s.last.Compiled? && s.first == Some(s.last.config))
  }

  ghost predicate Woken(program: Orders, s: State) { Fresh(program, s) && Awake(s) }

  ghost predicate Published(prints: Prints, s: State) {
    Broadcasts(prints, s.sent) && Counters(prints, s) && Recorded(prints, s) && Delivered(prints, s) && FirstIsFirst(s)
  }

  ghost predicate Inv(prints: Prints, program: Orders, s: State) { Woken(program, s) && Published(prints, s) }

  // ---- Preservation ----

  /** Steps of writers, waking and reading leave the published side alone. */
  lemma PublishedFramed(prints: Prints, s: State, t: State)
    requires Published(prints, s)
    requires t.version == s.version && t.lastFingerprint == s.lastFingerprint && t.compiledVersion == s.compiledVersion
    requires t.compiledFingerprint == s.compiledFingerprint && t.slices == s.slices && t.sent == s.sent && t.last == s.last && t.first == s.first
    requires t.pc == s.pc || (!HasConfig(s.pc) && !HasConfig(t.pc))
    ensures Published(prints, t)
  {
  }

  predicate Waking(pc: Pc) { pc.Quiet? || pc.Check? || pc.Compiling? }

  predicate SameWaking(s: State, t: State) {
    && t.cells == s.cells && t.writers == s.writers && t.dirty == s.dirty && t.permit == s.permit
    && t.touched == s.touched && t.last == s.last && !Waking(s.pc) && !Waking(t.pc)
  }

  /** Steps of recording and publishing leave the waking side alone. */
  lemma WokenFramed(program: Orders, s: State, t: State)
    requires Woken(program, s) && SameWaking(s, t)
    ensures Woken(program, t)
  {
    assert Unmarked(t) <==> Unmarked(s);
    assert Unnotified(t) <==> Unnotified(s);
  }

  lemma WriterKeeps(prints: Prints, program: Orders, s: State, a: Action)
    requires Inv(prints, program, s) && WriterStep(s, a).Some?
    ensures Inv(prints, program, WriterStep(s, a).value)
  {
    var t := WriterStep(s, a).value;
    PublishedFramed(prints, s, t);
    if a.Write? {
      assert t.writers[a.writer].Inserted?;
      assert Unmarked(t);
      if Unnotified(s) {
        var w :| w in s.writers && s.writers[w].Marked?;
        assert w in t.writers && t.writers[w].Marked?;
      }
    } else if a.Mark? {
      assert t.writers[a.writer].Marked?;
      assert Unnotified(t);
    } else {
      if Unmarked(s) {
        var w :| w in s.writers && s.writers[w].Inserted?;
        assert w in t.writers && t.writers[w].Inserted?;
      }
    }
  }

  lemma WakeKeeps(prints: Prints, program: Orders, s: State, a: Action)
    requires Inv(prints, program, s) && WakeStep(s, a).Some?
    ensures Inv(prints, program, WakeStep(s, a).value)
  {
    PublishedFramed(prints, s, WakeStep(s, a).value);
    WakeKeepsWoken(program, s, a);
  }

  lemma WakeKeepsWoken(program: Orders, s: State, a: Action)
    requires Woken(program, s) && WakeStep(s, a).Some?
    ensures Woken(program, WakeStep(s, a).value)
  {
    var t := WakeStep(s, a).value;
    assert Unmarked(t) <==> Unmarked(s);
    assert Unnotified(t) <==> Unnotified(s);
  }

  lemma CompileKeeps(prints: Prints, program: Orders, s: State)
    requires Inv(prints, program, s) && CompileStep(program, s).Some?
    ensures Inv(prints, program, CompileStep(program, s).value)
  {
    match program(s.pc.order)(s.pc.log)
    case Read(cell) =>
      ReadKeepsWoken(program, s, cell);
      PublishedFramed(prints, s, s.(pc := Compiling(s.pc.order, s.pc.log + [Seen(cell, Look(s.cells, cell))])));
    case Panic => PanicKeeps(prints, program, s);
    case Done(config, live) => DoneKeeps(prints, program, s, config, live);
  }

  lemma PanicKeeps(prints: Prints, program: Orders, s: State)
    requires Inv(prints, program, s) && s.pc.Compiling?
    ensures Inv(prints, program, s.(pc := Parked, last := Panicked))
  {
    FinishKeepsWoken(program, s, s.(pc := Parked, last := Panicked));
    FinishKeepsPublished(prints, s, s.(pc := Parked, last := Panicked));
  }

  lemma DoneKeeps(prints: Prints, program: Orders, s: State, config: CompiledConfig, live: set<NamespacedName>)
    requires Inv(prints, program, s) && s.pc.Compiling? && program(s.pc.order)(s.pc.log) == Done(config, live)
    ensures Inv(prints, program, AfterDone(s, config, live))
  {
    FinishKeepsWoken(program, s, AfterDone(s, config, live));
    FinishKeepsPublished(prints, s, AfterDone(s, config, live));
  }

  lemma ReadKeepsWoken(program: Orders, s: State, cell: Cell)
    requires Woken(program, s) && s.pc.Compiling? && program(s.pc.order)(s.pc.log) == Read(cell)
    ensures Woken(program, s.(pc := Compiling(s.pc.order, s.pc.log + [Seen(cell, Look(s.cells, cell))])))
  {
    var seen := Seen(cell, Look(s.cells, cell));
    var t := s.(pc := Compiling(s.pc.order, s.pc.log + [seen]));
    ReadKeeps(program(s.pc.order), s.cells, s.pc.log, seen);
    assert Unmarked(t) <==> Unmarked(s);
    assert Unnotified(t) <==> Unnotified(s);
  }

  lemma FinishKeepsWoken(program: Orders, s: State, t: State)
    requires Woken(program, s) && s.pc.Compiling? && t == s.(pc := t.pc, last := t.last, first := t.first)
    requires !Waking(t.pc) && !t.last.Never?
    requires t.last.Compiled? ==> t.last.order == s.pc.order && t.last.log == s.pc.log && program(s.pc.order)(s.pc.log) == Done(t.last.config, t.last.live)
    ensures Woken(program, t)
  {
    assert Unmarked(t) <==> Unmarked(s);
    assert Unnotified(t) <==> Unnotified(s);
  }

  lemma FinishKeepsPublished(prints: Prints, s: State, t: State)
    requires Published(prints, s) && s.pc.Compiling? && t == s.(pc := t.pc, last := t.last, first := t.first)
    requires (t.pc.Parked? && t.last.Panicked? && t.first == s.first) ||
             (t.pc.Departing? && t.last.Compiled? && t.first == if s.first.None? then Some(t.last.config) else s.first)
    ensures Published(prints, t)
  {
  }

  lemma ReadKeeps(program: Program, cells: Cells, log: seq<Seen>, seen: Seen)
    requires Follows(program, log) && program(log) == Read(seen.cell) && seen.contents == Look(cells, seen.cell)
    ensures Follows(program, log + [seen]) && (Stale(log + [seen], cells) ==> Stale(log, cells))
  {
    var longer := log + [seen];
    forall i | 0 <= i < |longer| ensures program(longer[..i]) == Read(longer[i].cell) {
      assert longer[..i] == log[..i];
      assert log[..|log|] == log;
    }
    if i :| 0 <= i < |longer| && longer[i].contents != Look(cells, longer[i].cell) {
      assert log[i] == longer[i];
    }
  }

  lemma SliceKeeps(prints: Prints, program: Orders, s: State, a: Action)
    requires Inv(prints, program, s) && SliceStep(prints, s, a).Some?
    ensures Inv(prints, program, SliceStep(prints, s, a).value)
  {
    WokenFramed(program, s, SliceStep(prints, s, a).value);
  }

  lemma BroadcastsExtend(prints: Prints, sent: seq<Message>, m: Message)
    requires Broadcasts(prints, sent) && m.version == |sent| + 1 && m.fingerprint == prints.whole(m.config)
    requires sent != [] ==> m.fingerprint != sent[|sent| - 1].fingerprint
    ensures Broadcasts(prints, sent + [m])
  {
  }

  lemma WithholdKeeps(prints: Prints, s: State)
    requires Published(prints, s) && At(s, Deciding) && prints.whole(s.last.config) == s.lastFingerprint && s.version > 0
    ensures Published(prints, s.(pc := Parked))
  {
  }

  lemma ReleaseKeeps(prints: Prints, s: State, fp: U64)
    requires Published(prints, s) && At(s, Deciding) && prints.whole(s.last.config) == fp
    requires fp != s.lastFingerprint || s.version == 0
    ensures Published(prints, s.(version := s.version + 1, lastFingerprint := fp, pc := StoringVersion))
  {
  }

  lemma DecideKeeps(prints: Prints, program: Orders, s: State)
    requires Inv(prints, program, s) && At(s, Deciding)
    ensures Inv(prints, program, AfterDecide(prints, s))
  {
    var fp := prints.whole(s.last.config);
    if fp == s.lastFingerprint && s.version > 0 {
      WokenFramed(program, s, s.(pc := Parked));
      WithholdKeeps(prints, s);
    } else {
      WokenFramed(program, s, s.(version := s.version + 1, lastFingerprint := fp, pc := StoringVersion));
      ReleaseKeeps(prints, s, fp);
    }
  }

  lemma StoreVersionKeeps(prints: Prints, program: Orders, s: State)
    requires Inv(prints, program, s) && At(s, StoringVersion)
    ensures Inv(prints, program, s.(compiledVersion := s.version, pc := StoringFingerprint))
  {
    WokenFramed(program, s, s.(compiledVersion := s.version, pc := StoringFingerprint));
  }

  lemma StoreFingerprintKeeps(prints: Prints, program: Orders, s: State)
    requires Inv(prints, program, s) && At(s, StoringFingerprint)
    ensures Inv(prints, program, s.(compiledFingerprint := s.lastFingerprint, pc := Sending))
  {
    WokenFramed(program, s, s.(compiledFingerprint := s.lastFingerprint, pc := Sending));
  }

  lemma SendKeeps(prints: Prints, program: Orders, s: State)
    requires Inv(prints, program, s) && At(s, Sending)
    ensures Inv(prints, program, AfterSend(s))
  {
    WokenFramed(program, s, AfterSend(s));
    BroadcastsExtend(prints, s.sent, Message(s.version, s.lastFingerprint, s.last.config));
  }

  lemma PublishKeeps(prints: Prints, program: Orders, s: State, a: Action)
    requires Inv(prints, program, s) && PublishStep(prints, s, a).Some?
    ensures Inv(prints, program, PublishStep(prints, s, a).value)
  {
    match a
    case Decide => DecideKeeps(prints, program, s);
    case StoreVersion => StoreVersionKeeps(prints, program, s);
    case StoreFingerprint => StoreFingerprintKeeps(prints, program, s);
    case Send => SendKeeps(prints, program, s);
  }

  lemma LoopKeeps(prints: Prints, program: Orders, s: State, a: Action)
    requires Inv(prints, program, s) && LoopStep(prints, program, s, a).Some?
    ensures Inv(prints, program, LoopStep(prints, program, s, a).value)
  {
    match a
    case Advance => CompileKeeps(prints, program, s);
    case Forget(_) | StartRecording | Record(_) | FinishRecording => SliceKeeps(prints, program, s, a);
    case _ => PublishKeeps(prints, program, s, a);
  }

  lemma StepKeeps(prints: Prints, program: Orders, s: State, a: Action)
    requires Inv(prints, program, s) && Step(prints, program, s, a).Some?
    ensures Inv(prints, program, Step(prints, program, s, a).value)
  {
    match a
    case Write(_, _, _) | Mark(_) | Notify(_) => WriterKeeps(prints, program, s, a);
    case Wake | Absorb | Settle | TakeDirty(_) => WakeKeeps(prints, program, s, a);
    case _ => LoopKeeps(prints, program, s, a);
  }

  lemma {:induction false} RunKeeps(prints: Prints, program: Orders, cells: Cells, schedule: seq<Action>)
    requires Run(prints, program, cells, schedule).Some?
    ensures Inv(prints, program, Run(prints, program, cells, schedule).value)
  {
    if schedule != [] {
      var n := |schedule| - 1;
      RunKeeps(prints, program, cells, schedule[..n]);
      StepKeeps(prints, program, Run(prints, program, cells, schedule[..n]).value, schedule[n]);
    }
  }

  // ---- Main results, over every schedule ----

  /** The fingerprints the loop computes. */
  ghost function PrintsOf(h: Hasher): Prints {
    Prints((c: CompiledConfig) => Fingerprint(h, c), (c: CompiledConfig, g: NamespacedName) => Scope(h, c, g).fingerprint)
  }

  ghost predicate Reaches(h: Hasher, program: Orders, cells: Cells, schedule: seq<Action>, s: State) {
    Run(PrintsOf(h), program, cells, schedule) == Some(s)
  }

  /** Writers are done and the loop sleeps with no permit to wake it. */
  predicate Quiescent(s: State) { s.pc.Parked? && !s.permit && s.writers == map[] }

  /** No lost update: whatever the interleaving and however torn the reads, once writers are
      done and the loop is asleep, the store is clean and, unless the last compile panicked,
      that compile is a compile of the store as it stands; its fingerprint is the one
      last sent, and the slice fingerprints on record are its slices'. */
  lemma NoLostUpdate(h: Hasher, program: Orders, cells: Cells, schedule: seq<Action>, s: State)
    requires Reaches(h, program, cells, schedule, s)
    requires Quiescent(s) && s.touched
    ensures !s.dirty && !s.last.Never?
    ensures !s.last.Panicked? ==>
      && CompilesTo(program, s.cells, s.last.config, s.last.live)
      && s.sent != [] && s.sent[|s.sent| - 1].fingerprint == Fingerprint(h, s.last.config)
      && s.slices == map g | g in s.last.live :: Scope(h, s.last.config, g).fingerprint
  {
    RunKeeps(PrintsOf(h), program, cells, schedule);
    assert s.last.Compiled? ==> Finishes(program(s.last.order), s.cells, s.last.config, s.last.live);
  }

  predicate LoopAction(a: Action) { !a.Write? && !a.Mark? && !a.Notify? }

  /** The loop is never stuck but asleep: in every reachable state in which it is not waiting
      for a permit, some step of its own is enabled. */
  lemma NeverStuck(h: Hasher, program: Orders, cells: Cells, schedule: seq<Action>, s: State)
    requires Reaches(h, program, cells, schedule, s)
    requires !(s.pc.Parked? && !s.permit)
    ensures exists a :: LoopAction(a) && Step(PrintsOf(h), program, s, a).Some?
  {
    RunKeeps(PrintsOf(h), program, cells, schedule);
    NextEnabled(PrintsOf(h), program, s);
  }

  lemma NextEnabled(prints: Prints, program: Orders, s: State)
    requires Recorded(prints, s) && !(s.pc.Parked? && !s.permit)
    ensures LoopAction(NextAction(s)) && Step(prints, program, s, NextAction(s)).Some?
  {
    if s.pc.Recording? && NextAction(s).FinishRecording? {
      assert forall g :: g in s.last.live ==> g in s.last.live - s.pc.recorded || g in s.pc.recorded;
      assert s.pc.recorded == s.last.live;
    }
  }

  /** A step the loop can take. */
  ghost function NextAction(s: State): Action {
    match s.pc
    case Parked => Wake
    case Quiet => Settle
    case Check => TakeDirty(0)
    case Compiling(_, _) => Advance
    case Departing =>
      if s.last.Compiled? && exists g :: g in s.slices && g !in s.last.live then
        var g :| g in s.slices && g !in s.last.live;
        Forget(g)
      else StartRecording
    case Recording(recorded) =>
      if s.last.Compiled? && exists g :: g in s.last.live - recorded then
        var g :| g in s.last.live - recorded;
        Record(g)
      else FinishRecording
    case Deciding => Decide
    case StoringVersion => StoreVersion
    case StoringFingerprint => StoreFingerprint
    case Sending => Send
  }

  /** So at rest, if the order of hash sets decides nothing but the order of lists, what was
      sent and what is on record agree with every compile of the store as it stands. */
  lemma EveryCompileAgrees(h: Hasher, program: Orders, cells: Cells, schedule: seq<Action>, s: State, c: CompiledConfig, l: set<NamespacedName>)
    requires Reaches(h, program, cells, schedule, s)
    requires Quiescent(s) && s.touched && !s.last.Panicked?
    requires OrderBlind(program) && CompilesTo(program, s.cells, c, l)
    ensures s.sent != [] && s.sent[|s.sent| - 1].fingerprint == Fingerprint(h, c)
    ensures s.slices.Keys == l && forall g :: g in l ==> s.slices[g] == Scope(h, c, g).fingerprint
  {
    NoLostUpdate(h, program, cells, schedule, s);
    assert Permuted(s.last.config, c) && s.last.live == l;
    FingerprintPermutes(h, s.last.config, c);
    forall g | g in l ensures s.slices[g] == Scope(h, c, g).fingerprint {
      OrderInvisible(h, s.last.config, c, g);
    }
  }

  predicate NoNotify(schedule: seq<Action>) { forall i :: 0 <= i < |schedule| ==> !schedule[i].Notify? }

  /** Whatever is written, until the first notification the loop stays parked without a permit,
      the store dirty, nothing compiled and nothing sent. */
  lemma {:induction false} FirstWakeNeeded(prints: Prints, program: Orders, cells: Cells, schedule: seq<Action>)
    requires NoNotify(schedule) && Run(prints, program, cells, schedule).Some?
    ensures var s := Run(prints, program, cells, schedule).value;
      s.pc.Parked? && !s.permit && s.dirty && s.sent == [] && s.last.Never?
  {
    if schedule != [] {
      FirstWakeNeeded(prints, program, cells, schedule[..|schedule| - 1]);
      assert !schedule[|schedule| - 1].Notify?;
    }
  }

  /** Broadcasts are versioned 1, 2, 3, ..., carry the fingerprint of their contents, and
      consecutive ones differ in it. */
  lemma BroadcastsOrdered(h: Hasher, program: Orders, cells: Cells, schedule: seq<Action>, s: State)
    requires Reaches(h, program, cells, schedule, s)
    ensures forall i :: 0 <= i < |s.sent| ==> s.sent[i].version == i + 1 && s.sent[i].fingerprint == Fingerprint(h, s.sent[i].config)
    ensures forall i :: 0 < i < |s.sent| ==> s.sent[i].fingerprint != s.sent[i - 1].fingerprint
  {
    RunKeeps(PrintsOf(h), program, cells, schedule);
  }

  /** The first compile that finishes is the first broadcast, whatever its fingerprint: it is
      sent before the loop sleeps again. */
  lemma FirstCompileSent(h: Hasher, program: Orders, cells: Cells, schedule: seq<Action>, s: State)
    requires Reaches(h, program, cells, schedule, s) && s.first.Some?
    ensures s.sent != [] ==> s.sent[0].config == s.first.value
    ensures s.pc.Parked? || s.pc.Compiling? ==> s.sent != []
  {
    RunKeeps(PrintsOf(h), program, cells, schedule);
  }

  function Stamped(m: Message): CompiledConfig { Broadcast(m.config, m.version, m.fingerprint) }

  /** When a broadcast is about to be sent, its version and fingerprint are on record, and so
      is, for every live Gateway and no other, the fingerprint of the slice that Gateway's data
      plane will be streamed from it. */
  lemma RecordedBeforeSend(h: Hasher, program: Orders, cells: Cells, schedule: seq<Action>, s: State)
    requires Reaches(h, program, cells, schedule, s) && s.pc.Sending?
    ensures s.last.Compiled? && s.slices.Keys == s.last.live
    ensures s.compiledVersion == s.version == |s.sent| + 1
    ensures s.compiledFingerprint == s.lastFingerprint == Fingerprint(h, s.last.config)
    ensures var m := Message(s.version, s.lastFingerprint, s.last.config);
      forall g :: g in s.slices ==> s.slices[g] == Scope(h, Stamped(m), g).fingerprint
  {
    RunKeeps(PrintsOf(h), program, cells, schedule);
    assert s.slices == SlicesOf(PrintsOf(h), s.last.config, s.last.live);
    StampedSlices(h, Message(s.version, s.lastFingerprint, s.last.config));
  }

  lemma StampedSlices(h: Hasher, m: Message)
    ensures forall g :: Scope(h, Stamped(m), g).fingerprint == Scope(h, m.config, g).fingerprint
  {
    forall g ensures Scope(h, Stamped(m), g).fingerprint == Scope(h, m.config, g).fingerprint {
      AcknowledgementAgrees(h, m.config, m.version, m.fingerprint, g);
    }
  }

  /** At rest, every live Gateway's data plane is streamed a slice with the fingerprint on
      record, if the configuration sent last has the contents of the one compiled last up to
      order; a compile is withheld only when their fingerprints are equal. */
  lemma AcknowledgedAtRest(h: Hasher, program: Orders, cells: Cells, schedule: seq<Action>, s: State, g: NamespacedName)
    requires Reaches(h, program, cells, schedule, s)
    requires Quiescent(s) && s.touched && s.last.Compiled? && g in s.slices
    ensures s.sent != [] && s.sent[|s.sent| - 1].fingerprint == Fingerprint(h, s.last.config)
    ensures var newest := s.sent[|s.sent| - 1];
      Permuted(newest.config, s.last.config) ==> s.slices[g] == Scope(h, Stamped(newest), g).fingerprint
  {
    NoLostUpdate(h, program, cells, schedule, s);
    var newest := s.sent[|s.sent| - 1];
    StampedSlices(h, newest);
    if Permuted(newest.config, s.last.config) {
      OrderInvisible(h, newest.config, s.last.config, g);
    }
  }
}
