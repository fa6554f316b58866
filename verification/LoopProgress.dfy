/** The steps of the compilation loop lead somewhere: writers get their writes and their wake-up
    through, the loop falls asleep again, and slices are forgotten only when their Gateway left. */
module LoopProgress {
  import opened Collections
  import opened Types
  import opened Slicing
  import opened CompilationLoop

  /** A writer with nothing pending can change a cell, mark the store and notify, whatever the
      loop is doing; then the cell is changed and no other, the store is dirty and a permit is
      there, and the loop is where it was. */
  lemma WriterRuns(prints: Prints, program: Orders, s: State, w: nat, cell: Cell, contents: Option<Contents>) returns (t: State)
    requires w !in s.writers
    ensures var written := Step(prints, program, s, Write(w, cell, contents));
      && written.Some? && var marked := Step(prints, program, written.value, Mark(w));
      && marked.Some? && Step(prints, program, marked.value, Notify(w)) == Some(t)
    ensures Look(t.cells, cell) == contents && forall other :: other != cell ==> Look(t.cells, other) == Look(s.cells, other)
    ensures t.dirty && t.touched && t.permit && t.writers == s.writers
    ensures t == s.(cells := t.cells, dirty := true, touched := true, permit := true)
  {
    var written := Step(prints, program, s, Write(w, cell, contents)).value;
    var marked := Step(prints, program, written, Mark(w)).value;
    t := Step(prints, program, marked, Notify(w)).value;
    assert s.writers[w := Inserted][w := Marked] - {w} == s.writers;
  }

  /** A recorded slice is lost only when the last compile found its Gateway gone. */
  lemma SliceLostOnlyWhenDeparted(prints: Prints, program: Orders, s: State, a: Action, g: NamespacedName)
    requires Step(prints, program, s, a).Some? && g in s.slices && g !in Step(prints, program, s, a).value.slices
    ensures s.last.Compiled? && g !in s.last.live && s.pc.Departing?
  {
  }

  // ---- Falling asleep ----

  /** How far the loop is from sleep: the stage, and what is left to do in it. */
  datatype Distance = Distance(stage: nat, left: nat)

  function DistanceOf(s: State): Distance {
    match s.pc
    case Parked => Distance(0, 0)
    case Sending => Distance(1, 0)
    case StoringFingerprint => Distance(2, 0)
    case StoringVersion => Distance(3, 0)
    case Deciding => Distance(4, 0)
    case Recording(recorded) => Distance(5, if s.last.Compiled? then |s.last.live - recorded| else 0)
    case Departing => Distance(6, if s.last.Compiled? then |s.slices.Keys - s.last.live| else 0)
    case Compiling(_, _) => Distance(7, 0)
    case Check => Distance(8, 0)
    case Quiet => Distance(9, if s.permit then 1 else 0)
  }

  predicate Nearer(a: Distance, b: Distance) { a.stage < b.stage || (a.stage == b.stage && a.left < b.left) }

  /** A step that reads one more cell. */
  predicate Reads(program: Orders, s: State, a: Action) {
    a.Advance? && s.pc.Compiling? && program(s.pc.order)(s.pc.log).Read?
  }

  lemma WakeNearer(s: State, a: Action)
    requires WakeStep(s, a).Some? && !a.Wake?
    ensures Nearer(DistanceOf(WakeStep(s, a).value), DistanceOf(s))
  {
  }

  lemma CompileNearer(program: Orders, s: State)
    requires CompileStep(program, s).Some? && !program(s.pc.order)(s.pc.log).Read?
    ensures Nearer(DistanceOf(CompileStep(program, s).value), DistanceOf(s))
  {
  }

  lemma ForgetNearer(prints: Prints, s: State, g: NamespacedName)
    requires SliceStep(prints, s, Forget(g)).Some?
    ensures Nearer(DistanceOf(SliceStep(prints, s, Forget(g)).value), DistanceOf(s))
  {
    assert (s.slices - {g}).Keys - s.last.live == (s.slices.Keys - s.last.live) - {g};
  }

  lemma RecordNearer(prints: Prints, s: State, g: NamespacedName)
    requires SliceStep(prints, s, Record(g)).Some?
    ensures Nearer(DistanceOf(SliceStep(prints, s, Record(g)).value), DistanceOf(s))
  {
    assert s.last.live - (s.pc.recorded + {g}) == (s.last.live - s.pc.recorded) - {g};
  }

  lemma SliceNearer(prints: Prints, s: State, a: Action)
    requires SliceStep(prints, s, a).Some?
    ensures Nearer(DistanceOf(SliceStep(prints, s, a).value), DistanceOf(s))
  {
    match a
    case Forget(g) => ForgetNearer(prints, s, g);
    case Record(g) => RecordNearer(prints, s, g);
    case _ =>
  }

  lemma PublishNearer(prints: Prints, s: State, a: Action)
    requires PublishStep(prints, s, a).Some?
    ensures Nearer(DistanceOf(PublishStep(prints, s, a).value), DistanceOf(s))
  {
    assert DistanceOf(PublishStep(prints, s, a).value).stage < DistanceOf(s).stage;
  }

  /** Every step of the loop but waking up and reading brings it nearer to sleep. */
  lemma LoopAdvances(prints: Prints, program: Orders, s: State, a: Action)
    requires Step(prints, program, s, a).Some? && LoopAction(a) && !a.Wake? && !Reads(program, s, a)
    ensures Nearer(DistanceOf(Step(prints, program, s, a).value), DistanceOf(s))
  {
    match a
    case Absorb => WakeNearer(s, a);
    case Settle => WakeNearer(s, a);
    case TakeDirty(_) => WakeNearer(s, a);
    case Advance => CompileNearer(program, s);
    case Forget(_) => SliceNearer(prints, s, a);
    case StartRecording => SliceNearer(prints, s, a);
    case Record(_) => SliceNearer(prints, s, a);
    case FinishRecording => SliceNearer(prints, s, a);
    case _ => PublishNearer(prints, s, a);
  }
}
