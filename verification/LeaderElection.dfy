/** Lease-based leader election: several controllers read a shared lease and patch it. Times
    are microseconds of one clock. */
module LeaderElection {
  import opened Collections

  const SECOND := 1_000_000
  const LEASE_SECONDS := 15
  const LEASE_DURATION := LEASE_SECONDS * SECOND

  datatype Lease = Lease(
    holder: Option<string>, acquired: Option<int>, renewed: Option<int>, seconds: Option<int>, transitions: Option<int>)

  function HolderOf(l: Lease): string { GetOr(l.holder, "") }

  /** `lease_is_free`. */
  predicate LeaseIsFree(holder: string, renewed: Option<int>, seconds: int, now: int) {
    || holder == ""
    || renewed.None?
    || now >= renewed.value + (if seconds > 0 then seconds else 0) * SECOND
  }

  predicate Free(l: Lease, now: int) { LeaseIsFree(HolderOf(l), l.renewed, GetOr(l.seconds, LEASE_SECONDS), now) }

  // ---- One attempt: a read, then a patch computed from what was read ----

  /** A read and the patch that follows it, until the patch lands or is given up. */
  datatype Flight = Flight(controller: nat, seen: Option<Lease>, readAt: int, releasing: bool)

  datatype Patch = Create | Renew | TakeOver(transitions: int) | Release(acquired: Option<int>, transitions: int)

  /** What `try_acquire_or_renew` or `release_lease` sends after its read, if anything. */
  function PatchFor(id: string, f: Flight, checked: int): Option<Patch> {
    if f.releasing then
      if f.seen.Some? && f.seen.value.holder == Some(id) then
        Some(Release(f.seen.value.acquired, GetOr(f.seen.value.transitions, 0)))
      else None
    else if f.seen.None? then Some(Create)
    else if HolderOf(f.seen.value) == id then Some(Renew)
    else if Free(f.seen.value, checked) then Some(TakeOver(GetOr(f.seen.value.transitions, 0) + 1))
    else None
  }

  /** What the API server makes of a patch: with `retain`, fields a patch omits keep their
      value; otherwise they are dropped. */
  function Patched(retain: bool, id: string, patch: Patch, stamp: int, current: Option<Lease>): Option<Lease> {
    match patch
    case Create =>
      if current.Some? then None
      else Some(Lease(Some(id), Some(stamp), Some(stamp), Some(LEASE_SECONDS), Some(0)))
    case Renew =>
      var base := if retain && current.Some? then current.value else Lease(None, None, None, None, None);
      Some(base.(renewed := Some(stamp), seconds := Some(LEASE_SECONDS)))
    case TakeOver(transitions) => Some(Lease(Some(id), Some(stamp), Some(stamp), Some(LEASE_SECONDS), Some(transitions)))
    case Release(acquired, transitions) => Some(Lease(Some(""), acquired, Some(stamp), Some(1), Some(transitions)))
  }

  // ---- The protocol ----

  /** `atomic`: a patch lands only if the lease is still what was read. */
  datatype Rules = Rules(atomic: bool, retain: bool)

  /** The response to a patch that landed, on its way to the controller. */
  datatype Answer = Answer(controller: nat, stamp: int)

  /** An acquire or renew: the renew time it wrote, and when the call returned. */
  datatype Success = Success(stamp: int, returned: int)

  /** `success` holds each controller's last acknowledged acquire or renew; `released` are the
      controllers that began a graceful shutdown. */
  datatype State = State(
    now: int, lease: Option<Lease>, flights: set<Flight>, answers: set<Answer>, success: map<nat, Success>, released: set<nat>)

  datatype Action =
    | Tick(elapsed: nat)
    | Get(controller: nat, releasing: bool)
    | Put(flight: Flight, checked: int, stamp: int)
    | Ack(answer: Answer)
    | Drop(flight: Flight)

  type Identities = nat -> string

  function Init(now: int, lease: Option<Lease>): State { State(now, lease, {}, {}, map[], {}) }

  function Landed(rules: Rules, ids: Identities, s: State, f: Flight, checked: int, stamp: int): Option<Lease> {
    var patch := PatchFor(ids(f.controller), f, checked);
    if patch.None? then None else Patched(rules.retain, ids(f.controller), patch.value, stamp, s.lease)
  }

  function Step(rules: Rules, ids: Identities, s: State, a: Action): Option<State> {
    match a
    case Tick(elapsed) => Some(s.(now := s.now + elapsed))
    case Get(c, releasing) =>
      if c in s.released then None
      else Some(s.(flights := s.flights + {Flight(c, s.lease, s.now, releasing)},
                   released := if releasing then s.released + {c} else s.released))
    case Put(f, checked, stamp) =>
      if f !in s.flights || !(f.readAt <= checked <= stamp <= s.now) || (rules.atomic && f.seen != s.lease) then None
      else
        var landed := Landed(rules, ids, s, f, checked, stamp);
        if landed.None? then Some(s.(flights := s.flights - {f}))
        else Some(s.(flights := s.flights - {f}, lease := landed,
                     answers := if f.releasing then s.answers else s.answers + {Answer(f.controller, stamp)}))
    case Ack(answer) =>
      if answer !in s.answers then None
      else Some(s.(answers := s.answers - {answer}, success := s.success[answer.controller := Success(answer.stamp, s.now)]))
    case Drop(f) => Some(s.(flights := s.flights - {f}))
  }

  function Run(rules: Rules, ids: Identities, s: State, schedule: seq<Action>): Option<State>
    decreases |schedule|
  {
    if schedule == [] then Some(s)
    else
      var next := Step(rules, ids, s, schedule[0]);
      if next.None? then None else Run(rules, ids, next.value, schedule[1..])
  }

  /** Not shut down, and the renew time of its last success is younger than the lease duration. */
  predicate Fresh(s: State, c: nat) {
    c in s.success && c !in s.released && s.now < s.success[c].stamp + LEASE_DURATION
  }

  ghost predicate DistinctIdentities(ids: Identities) {
    (forall c :: ids(c) != "") && forall c, d :: c != d ==> ids(c) != ids(d)
  }

  // ---- Invariant ----

  predicate NotFromFuture(lease: Option<Lease>, now: int) {
    lease.Some? && lease.value.renewed.Some? ==> lease.value.renewed.value <= now
  }

  /** The lease is `id`'s, renewed at or after `since`, for the full duration. */
  predicate HeldBy(lease: Option<Lease>, id: string, since: int) {
    && lease.Some? && lease.value.holder == Some(id) && lease.value.seconds == Some(LEASE_SECONDS)
    && lease.value.renewed.Some? && since <= lease.value.renewed.value
  }

  /** A renewal of `c` stamped `stamp`, known to it or not, is backed by the lease while young. */
  predicate Backed(ids: Identities, s: State, c: nat, stamp: int) {
    c !in s.released && s.now < stamp + LEASE_DURATION ==> HeldBy(s.lease, ids(c), stamp)
  }

  ghost predicate Inv(ids: Identities, s: State) {
    && NotFromFuture(s.lease, s.now)
    && (forall f :: f in s.flights ==> NotFromFuture(f.seen, f.readAt) && (f.releasing ==> f.controller in s.released))
    && (forall a :: a in s.answers ==> Backed(ids, s, a.controller, a.stamp) && a.stamp <= s.now)
    && (forall c :: c in s.success ==> Backed(ids, s, c, s.success[c].stamp))
    && (forall c :: c in s.success ==> s.success[c].stamp <= s.success[c].returned <= s.now)
  }

  const CAREFUL := Rules(true, true)

  /** While the lease is held and fresh, no other controller has a patch to send. */
  lemma OnlyHolderLands(holder: string, since: int, id: string, f: Flight, checked: int, lease: Option<Lease>, now: int)
    requires holder != "" && holder != id && HeldBy(lease, holder, since) && now < since + LEASE_DURATION
    requires f.seen == lease && checked <= now
    ensures PatchFor(id, f, checked).None?
  {
  }

  /** A patch that lands keeps every renewal backed. */
  lemma LandingBacks(ids: Identities, s: State, f: Flight, checked: int, stamp: int, c: nat, since: int)
    requires DistinctIdentities(ids) && f.seen == s.lease && f.readAt <= checked <= stamp <= s.now
    requires NotFromFuture(f.seen, f.readAt) && (f.releasing ==> f.controller in s.released)
    requires Landed(CAREFUL, ids, s, f, checked, stamp).Some?
    requires Backed(ids, s, c, since)
    ensures Backed(ids, s.(lease := Landed(CAREFUL, ids, s, f, checked, stamp)), c, since)
  {
    if c != f.controller && c !in s.released && s.now < since + LEASE_DURATION {
      OnlyHolderLands(ids(c), since, ids(f.controller), f, checked, s.lease, s.now);
    }
  }

  lemma PutKeeps(ids: Identities, s: State, f: Flight, checked: int, stamp: int)
    requires DistinctIdentities(ids) && Inv(ids, s)
    requires Step(CAREFUL, ids, s, Put(f, checked, stamp)).Some?
    ensures Inv(ids, Step(CAREFUL, ids, s, Put(f, checked, stamp)).value)
  {
    var t := Step(CAREFUL, ids, s, Put(f, checked, stamp)).value;
    if Landed(CAREFUL, ids, s, f, checked, stamp).Some? {
      forall a | a in s.answers ensures Backed(ids, t, a.controller, a.stamp) {
        LandingBacks(ids, s, f, checked, stamp, a.controller, a.stamp);
      }
      forall c | c in s.success ensures Backed(ids, t, c, s.success[c].stamp) {
        LandingBacks(ids, s, f, checked, stamp, c, s.success[c].stamp);
      }
    }
  }

  lemma StepKeeps(ids: Identities, s: State, a: Action)
    requires DistinctIdentities(ids) && Inv(ids, s) && Step(CAREFUL, ids, s, a).Some?
    ensures Inv(ids, Step(CAREFUL, ids, s, a).value)
  {
    var t := Step(CAREFUL, ids, s, a).value;
    if a.Put? {
      PutKeeps(ids, s, a.flight, a.checked, a.stamp);
    } else {
      assert forall c, stamp :: Backed(ids, s, c, stamp) ==> Backed(ids, t, c, stamp);
    }
  }

  lemma {:induction false} RunKeeps(ids: Identities, s: State, schedule: seq<Action>)
    requires DistinctIdentities(ids) && Inv(ids, s) && Run(CAREFUL, ids, s, schedule).Some?
    ensures Inv(ids, Run(CAREFUL, ids, s, schedule).value)
    decreases |schedule|
  {
    if schedule != [] {
      StepKeeps(ids, s, schedule[0]);
      RunKeeps(ids, Step(CAREFUL, ids, s, schedule[0]).value, schedule[1..]);
    }
  }

  // ---- Main results ----

  ghost predicate Reaches(rules: Rules, ids: Identities, s: State) {
    exists now, lease, schedule ::
      NotFromFuture(lease, now) && Run(rules, ids, Init(now, lease), schedule) == Some(s)
  }

  /** Fresh leaders are unique: in every run, from any lease not dated in the future, two
      controllers are never both fresh, and a fresh one is the lease's holder. */
  lemma FreshLeadersUnique(ids: Identities, s: State, c: nat, d: nat)
    requires DistinctIdentities(ids) && Reaches(CAREFUL, ids, s)
    ensures Fresh(s, c) ==> s.lease.Some? && HolderOf(s.lease.value) == ids(c)
    ensures Fresh(s, c) && Fresh(s, d) ==> c == d
  {
    var now, lease, schedule :| NotFromFuture(lease, now) && Run(CAREFUL, ids, Init(now, lease), schedule) == Some(s);
    RunKeeps(ids, Init(now, lease), schedule);
  }

  function CurrentHolder(s: State): string { if s.lease.None? then "" else HolderOf(s.lease.value) }

  /** The holder changes only when there was no lease, the lease was free (released, never
      renewed or expired), or the holder itself releases it. */
  lemma HolderChangesWhenFree(ids: Identities, s: State, a: Action)
    requires Step(CAREFUL, ids, s, a).Some? && CurrentHolder(Step(CAREFUL, ids, s, a).value) != CurrentHolder(s)
    ensures a.Put?
    ensures s.lease.None? || Free(s.lease.value, s.now) || (a.flight.releasing && CurrentHolder(s) == ids(a.flight.controller))
  {
    var f := a.flight;
    var patch := PatchFor(ids(f.controller), f, a.checked);
    if s.lease.Some? && patch.Some? && patch.value.TakeOver? {
      FreeStays(s.lease.value, a.checked, s.now);
    }
  }

  lemma FreeStays(l: Lease, earlier: int, later: int)
    requires Free(l, earlier) && earlier <= later
    ensures Free(l, later)
  {
  }

  // ---- Counterexample runs ----

  function Named(): Identities { (c: nat) => if c == 0 then "a" else if c == 1 then "b" else Many(c) }

  /** A name of its own for every number. */
  function Many(c: nat): string { seq(c, _ => 'c') }

  lemma NamesDistinct()
    ensures DistinctIdentities(Named())
  {
    forall c: nat, d: nat | c != d ensures Named()(c) != Named()(d) {
      assert |Many(c)| == c && |Many(d)| == d;
      assert c < 2 ==> |Named()(c)| == 1;
      assert d < 2 ==> |Named()(d)| == 1;
    }
    forall c: nat ensures Named()(c) != "" {
      assert |Many(c)| == c;
    }
  }

  /** A run from a lease not dated in the future ends with two fresh controllers. */
  ghost predicate TwoFresh(rules: Rules, ids: Identities) {
    exists now, lease, schedule :: NotFromFuture(lease, now) && BothFresh(Run(rules, ids, Init(now, lease), schedule))
  }

  predicate BothFresh(s: Option<State>) { s.Some? && Fresh(s.value, 0) && Fresh(s.value, 1) }

  function Attempt(s: State, c: nat): Flight { Flight(c, s.lease, s.now, false) }

  /** A read, its patch stamped at once and landing `delay` later, and the response. */
  function Turn(s: State, c: nat, delay: nat): seq<Action> {
    [Get(c, false), Tick(delay), Put(Attempt(s, c), s.now, s.now), Ack(Answer(c, s.now))]
  }

  /** What the patch makes of the lease. */
  function Next(rules: Rules, ids: Identities, s: State, c: nat): Option<Lease> {
    Landed(rules, ids, s, Attempt(s, c), s.now, s.now)
  }

  function Taken(rules: Rules, ids: Identities, s: State, c: nat, delay: nat): State {
    s.(now := s.now + delay, lease := Next(rules, ids, s, c), success := s.success[c := Success(s.now, s.now + delay)])
  }

  predicate Idle(s: State) { s.flights == {} && s.answers == {} && s.released == {} }

  lemma TurnRuns(rules: Rules, ids: Identities, s: State, c: nat, delay: nat)
    requires s.flights == {} && s.answers == {} && c !in s.released && Next(rules, ids, s, c).Some?
    ensures Run(rules, ids, s, Turn(s, c, delay)) == Some(Taken(rules, ids, s, c, delay))
    ensures Idle(s) ==> Idle(Taken(rules, ids, s, c, delay))
  {
    var f := Attempt(s, c);
    var a := Turn(s, c, delay);
    var s1 := s.(flights := {f});
    var s2 := s1.(now := s.now + delay);
    var s3 := s2.(flights := {}, lease := Next(rules, ids, s, c), answers := {Answer(c, s.now)});
    assert s.flights + {f} == {f};
    assert Step(rules, ids, s, a[0]) == Some(s1);
    assert Step(rules, ids, s1, a[1]) == Some(s2);
    assert s2.flights - {f} == {} && s2.answers + {Answer(c, s.now)} == {Answer(c, s.now)};
    assert Step(rules, ids, s2, a[2]) == Some(s3);
    assert s3.answers - {Answer(c, s.now)} == {};
    assert Step(rules, ids, s3, a[3]) == Some(Taken(rules, ids, s, c, delay));
    assert a[1..][1..][1..] == [a[3]] && [a[3]][1..] == [];
    assert Run(rules, ids, s3, [a[3]]) == Some(Taken(rules, ids, s, c, delay));
    assert Run(rules, ids, s2, a[1..][1..]) == Some(Taken(rules, ids, s, c, delay));
    assert Run(rules, ids, s1, a[1..]) == Some(Taken(rules, ids, s, c, delay));
  }

  lemma {:induction false} RunConcat(rules: Rules, ids: Identities, s: State, a: seq<Action>, b: seq<Action>)
    requires Run(rules, ids, s, a).Some?
    ensures Run(rules, ids, s, a + b) == Run(rules, ids, Run(rules, ids, s, a).value, b)
    decreases |a|
  {
    if a == [] {
      assert a + b == b;
    } else {
      assert (a + b)[1..] == a[1..] + b;
      RunConcat(rules, ids, Step(rules, ids, s, a[0]).value, a[1..], b);
    }
  }

  // ---- Acquiring and releasing ----

  /** When the lease runs out: a duration that is missing counts as 15 seconds, a negative one
      as none. */
  function RunsOut(l: Lease): int
    requires l.renewed.Some?
  {
    l.renewed.value + SECOND * (match l.seconds case None => 15 case Some(n) => if n < 0 then 0 else n)
  }

  /** There is no lease, or it is the controller's own, released, never renewed or run out. */
  predicate Acquirable(lease: Option<Lease>, id: string, now: int) {
    lease.Some? ==>
      || lease.value.holder in {None, Some(""), Some(id)}
      || lease.value.renewed.None?
      || RunsOut(lease.value) <= now
  }

  /** The controller holds the lease from now; the holder changed, and is counted, unless it held
      it before. */
  predicate Holds(before: Option<Lease>, after: Option<Lease>, id: string, now: int) {
    && after.Some? && after.value.holder == Some(id) && after.value.renewed == Some(now) && after.value.seconds == Some(15)
    && if before.None? then after.value.acquired == Some(now) && after.value.transitions == Some(0)
       else if before.value.holder == Some(id) then
         after.value.acquired == before.value.acquired && after.value.transitions == before.value.transitions
       else
         && after.value.acquired == Some(now)
         && after.value.transitions == Some(1 + match before.value.transitions case None => 0 case Some(n) => n)
  }

  /** An undisturbed attempt acquires or renews exactly when the lease is acquirable. */
  lemma AttemptExactly(ids: Identities, s: State, c: nat)
    requires ids(c) != ""
    ensures Next(CAREFUL, ids, s, c).Some? <==> Acquirable(s.lease, ids(c), s.now)
    ensures Next(CAREFUL, ids, s, c).Some? ==> Holds(s.lease, Next(CAREFUL, ids, s, c), ids(c), s.now)
  {
  }

  function Leaving(s: State, c: nat): Flight { Flight(c, s.lease, s.now, true) }

  /** A graceful shutdown: the read and, after it, the patch. */
  function Departure(s: State, c: nat): seq<Action> { [Get(c, true), Put(Leaving(s, c), s.now, s.now)] }

  /** The lease as the departing controller leaves it: without holder, its history kept; a lease
      of another is left alone. */
  predicate Left(before: Option<Lease>, after: Option<Lease>, id: string, now: int) {
    if before.None? || before.value.holder != Some(id) then after == before
    else
      && after.Some? && after.value.holder == Some("") && after.value.renewed == Some(now) && after.value.seconds == Some(1)
      && after.value.acquired == before.value.acquired
      && after.value.transitions == Some(match before.value.transitions case None => 0 case Some(n) => n)
  }

  lemma DepartureRuns(ids: Identities, s: State, c: nat) returns (t: State)
    requires Idle(s)
    ensures Run(CAREFUL, ids, s, Departure(s, c)) == Some(t) && Left(s.lease, t.lease, ids(c), s.now)
    ensures t.now == s.now && t.flights == {} && t.answers == {} && t.released == {c} && t.success == s.success
  {
    var f, a := Leaving(s, c), Departure(s, c);
    var s1 := s.(flights := {f}, released := {c});
    assert s.flights + {f} == {f} && s.released + {c} == {c} && s1.flights - {f} == {};
    assert Step(CAREFUL, ids, s, a[0]) == Some(s1);
    t := Step(CAREFUL, ids, s1, a[1]).value;
    assert a[1..] == [a[1]] && [a[1]][1..] == [];
    assert Run(CAREFUL, ids, s1, [a[1]]) == Some(t);
  }

  /** After a graceful shutdown of the holder any other controller acquires at once. */
  lemma ReleaseHandsOver(ids: Identities, s: State, c: nat, d: nat) returns (t: State, u: State)
    requires DistinctIdentities(ids) && Idle(s) && c != d && s.lease.Some? && s.lease.value.holder == Some(ids(c))
    ensures Run(CAREFUL, ids, s, Departure(s, c)) == Some(t)
    ensures Run(CAREFUL, ids, t, Turn(t, d, 0)) == Some(u) && Fresh(u, d) && !Fresh(u, c) && u.lease.Some? && u.lease.value.holder == Some(ids(d)) && u.now == s.now
  {
    t := DepartureRuns(ids, s, c);
    AttemptExactly(ids, t, d);
    TurnRuns(CAREFUL, ids, t, d, 0);
    u := Taken(CAREFUL, ids, t, d, 0);
  }

  // ---- Runs with two leaders ----

  /** A patch that lands on a lease other than the one read: both controllers saw the same
      expired lease and both take it over. */
  lemma StalePatchTwoLeaders(rules: Rules)
    requires !rules.atomic
    ensures TwoFresh(rules, Named())
  {
    var ids := Named();
    var lease := Some(Lease(Some("gone"), None, Some(0), Some(LEASE_SECONDS), None));
    var s := Init(LEASE_DURATION, lease);
    var f := Attempt(s, 1);
    var s1 := s.(flights := {f});
    var t := Taken(rules, ids, s, 0, 0).(flights := {f});
    assert s.flights + {f} == {f};
    assert Step(rules, ids, s, Get(1, false)) == Some(s1);
    FirstOfTwo(rules, s1, f);
    var a := [Get(1, false)] + [Get(0, false), Put(Attempt(s1, 0), s1.now, s1.now), Ack(Answer(0, s1.now))];
    var u := t.(flights := {}, lease := Next(rules, ids, s, 1), answers := {Answer(1, t.now)});
    assert t.flights - {f} == {} && t.answers + {Answer(1, t.now)} == {Answer(1, t.now)};
    assert Step(rules, ids, t, Put(f, t.now, t.now)) == Some(u);
    var w := u.(answers := {}, success := u.success[1 := Success(t.now, t.now)]);
    assert Step(rules, ids, u, Ack(Answer(1, t.now))) == Some(w);
    var b := [Put(f, t.now, t.now), Ack(Answer(1, t.now))];
    assert b[1..] == [Ack(Answer(1, t.now))] && Run(rules, ids, u, b[1..]) == Some(w);
    assert Run(rules, ids, t, b) == Some(w);
    assert a[1..] == [Get(0, false), Put(Attempt(s1, 0), s1.now, s1.now), Ack(Answer(0, s1.now))];
    assert Run(rules, ids, s, a) == Some(t);
    RunConcat(rules, ids, s, a, b);
    assert BothFresh(Run(rules, ids, Init(LEASE_DURATION, lease), a + b));
  }

  /** Controller 0 takes its turn while the flight `f` of controller 1 is under way. */
  lemma FirstOfTwo(rules: Rules, s: State, f: Flight)
    requires s.flights == {f} && f.controller == 1 && s.answers == {} && s.released == {}
    requires Next(rules, Named(), s, 0).Some?
    ensures Run(rules, Named(), s, [Get(0, false), Put(Attempt(s, 0), s.now, s.now), Ack(Answer(0, s.now))]) ==
      Some(Taken(rules, Named(), s, 0, 0))
  {
    var ids, g := Named(), Attempt(s, 0);
    var a := [Get(0, false), Put(g, s.now, s.now), Ack(Answer(0, s.now))];
    var s1 := s.(flights := {f, g});
    var s2 := s.(lease := Next(rules, ids, s, 0), answers := {Answer(0, s.now)});
    assert s.flights + {g} == s1.flights && s1.flights - {g} == {f} && s1.answers + {Answer(0, s.now)} == {Answer(0, s.now)};
    assert Step(rules, ids, s1, a[1]) == Some(s2);
    assert s2.answers - {Answer(0, s.now)} == {};
    assert a[1..][1..] == [a[2]] && [a[2]][1..] == [];
    assert Run(rules, ids, s2, [a[2]]) == Some(Taken(rules, ids, s, 0, 0));
    assert Run(rules, ids, s1, a[1..]) == Some(Taken(rules, ids, s, 0, 0));
  }

  /** The renew patch names no holder; where omitted fields are dropped, a renewal gives the
      lease away. */
  lemma DroppedHolderTwoLeaders(rules: Rules)
    requires !rules.retain
    ensures TwoFresh(rules, Named())
  {
    var ids := Named();
    var s := Init(0, None);
    TurnRuns(rules, ids, s, 0, 0);
    var one := Taken(rules, ids, s, 0, 0);
    TurnRuns(rules, ids, one, 0, 0);
    var two := Taken(rules, ids, one, 0, 0);
    TurnRuns(rules, ids, two, 1, 0);
    RunConcat(rules, ids, s, Turn(s, 0, 0), Turn(one, 0, 0) + Turn(two, 1, 0));
    RunConcat(rules, ids, one, Turn(one, 0, 0), Turn(two, 1, 0));
    assert BothFresh(Run(rules, ids, Init(0, None), Turn(s, 0, 0) + (Turn(one, 0, 0) + Turn(two, 1, 0))));
  }

  function AllSame(): Identities { (c: nat) => "same" }

  /** Two controllers under one identity renew the same lease. */
  lemma EqualIdentitiesTwoLeaders()
    ensures TwoFresh(CAREFUL, AllSame())
  {
    var ids := AllSame();
    var s := Init(0, None);
    TurnRuns(CAREFUL, ids, s, 0, 0);
    var one := Taken(CAREFUL, ids, s, 0, 0);
    TurnRuns(CAREFUL, ids, one, 1, 0);
    RunConcat(CAREFUL, ids, s, Turn(s, 0, 0), Turn(one, 1, 0));
    assert BothFresh(Run(CAREFUL, ids, Init(0, None), Turn(s, 0, 0) + Turn(one, 1, 0)));
  }

  ghost predicate AlwaysUnique(rules: Rules) {
    forall ids: Identities, s: State, c: nat, d: nat ::
      DistinctIdentities(ids) && Reaches(rules, ids, s) && Fresh(s, c) && Fresh(s, d) ==> c == d
  }

  /** Fresh leaders of different identities are unique in every run exactly when a patch lands
      only on the lease that was read and keeps the fields it omits. */
  lemma UniqueExactly(rules: Rules)
    ensures AlwaysUnique(rules) <==> rules.atomic && rules.retain
  {
    if rules == CAREFUL {
      forall ids: Identities, s: State, c: nat, d: nat
        | DistinctIdentities(ids) && Reaches(rules, ids, s) && Fresh(s, c) && Fresh(s, d) ensures c == d
      {
        FreshLeadersUnique(ids, s, c, d);
      }
    } else {
      if !rules.atomic {
        StalePatchTwoLeaders(rules);
      } else {
        DroppedHolderTwoLeaders(rules);
      }
      TwoFreshRefutes(rules);
    }
  }

  lemma TwoFreshRefutes(rules: Rules)
    requires TwoFresh(rules, Named())
    ensures !AlwaysUnique(rules)
  {
    NamesDistinct();
    var now, lease, schedule :| NotFromFuture(lease, now) && BothFresh(Run(rules, Named(), Init(now, lease), schedule));
    var s := Run(rules, Named(), Init(now, lease), schedule).value;
    assert Reaches(rules, Named(), s) && Fresh(s, 0) && Fresh(s, 1);
  }

  // ---- Successes dated by when the call returned ----

  /** Not shut down, and its last successful call returned less than `age` ago. */
  predicate RecentReturn(s: State, c: nat, age: int) {
    c in s.success && c !in s.released && s.now < s.success[c].returned + age
  }

  predicate BothRecent(s: State, c: nat, d: nat, age: int) { RecentReturn(s, c, age) && RecentReturn(s, d, age) }

  /** Every acknowledged call returned within `delay` of its stamp. */
  ghost predicate ReturnsWithin(s: State, delay: int) {
    forall c :: c in s.success ==> s.success[c].returned - s.success[c].stamp <= delay
  }

  ghost predicate UniqueByReturn(delay: int, age: int) {
    forall ids: Identities, s: State, c: nat, d: nat ::
      DistinctIdentities(ids) && Reaches(CAREFUL, ids, s) && ReturnsWithin(s, delay) && BothRecent(s, c, d, age) ==> c == d
  }

  /** A call may take up to `delay` after its stamp to return. Dated by their return, successes
      younger than `age` are one controller's if and only if `age` leaves that delay out of the
      lease duration. With the write timeout of 15 seconds for the patch alone, nothing is left. */
  lemma UniqueByReturnExactly(delay: nat, age: int)
    requires delay <= LEASE_DURATION
    ensures UniqueByReturn(delay, age) <==> age <= LEASE_DURATION - delay
  {
    if age <= LEASE_DURATION - delay {
      forall ids: Identities, s: State, c: nat, d: nat
        | DistinctIdentities(ids) && Reaches(CAREFUL, ids, s) && ReturnsWithin(s, delay) && BothRecent(s, c, d, age) ensures c == d
      {
        assert Fresh(s, c) && Fresh(s, d);
        FreshLeadersUnique(ids, s, c, d);
      }
    } else {
      var s := SlowReturn(delay, LEASE_DURATION);
      NamesDistinct();
      assert BothRecent(s, 0, 1, age);
    }
  }

  /** Controller 0's patch lands `delay` after its stamp; 1 takes over at `at`, when the lease
      has run out. */
  lemma SlowReturn(delay: nat, at: int) returns (s: State)
    requires delay <= LEASE_DURATION <= at
    ensures Reaches(CAREFUL, Named(), s) && ReturnsWithin(s, delay) && s.released == {} && s.now == at
    ensures s.success.Keys == {0, 1} && s.success[0] == Success(0, delay) && s.success[1] == Success(at, at)
  {
    var ids, init := Named(), Init(0, None);
    TurnRuns(CAREFUL, ids, init, 0, delay);
    var one := Taken(CAREFUL, ids, init, 0, delay);
    var wait := [Tick(at - delay)];
    var two := one.(now := at);
    assert Run(CAREFUL, ids, one, wait) == Some(two) by { assert wait[1..] == []; }
    TurnRuns(CAREFUL, ids, two, 1, 0);
    s := Taken(CAREFUL, ids, two, 1, 0);
    RunConcat(CAREFUL, ids, init, Turn(init, 0, delay), wait + Turn(two, 1, 0));
    RunConcat(CAREFUL, ids, one, wait, Turn(two, 1, 0));
    assert Run(CAREFUL, ids, Init(0, None), Turn(init, 0, delay) + (wait + Turn(two, 1, 0))) == Some(s);
  }

  // ---- The renewal loop ----

  const RENEWAL_INTERVAL := 5 * SECOND
  const WRITE_TIMEOUT := 15 * SECOND
  const MAX_RENEWAL_FAILURES := 3

  datatype Outcome = Renewed | HeldByOther | Failed

  /** One call of `try_acquire_or_renew` and how long it took. */
  datatype Trial = Trial(outcome: Outcome, took: int)

  /** A read and a patch each end within the write timeout; a lease held by another is found
      out by the read alone. */
  predicate Timely(t: Trial) {
    0 <= t.took <= (if t.outcome.HeldByOther? then WRITE_TIMEOUT else 2 * WRITE_TIMEOUT)
  }

  predicate Miss(trials: seq<Trial>, i: int) { 0 <= i < |trials| && !trials[i].outcome.Renewed? }

  /** Trial `k` is the third miss in a row. */
  predicate ThirdMiss(trials: seq<Trial>, k: int) { Miss(trials, k - 2) && Miss(trials, k - 1) && Miss(trials, k) }

  /** When the last of `trials` ended, and when the loop goes on after it. */
  function EndOf(acquired: int, trials: seq<Trial>): int
    decreases |trials|, 0
  {
    if trials == [] then acquired
    else ResumedAfter(acquired, trials[..|trials| - 1]) + RENEWAL_INTERVAL + trials[|trials| - 1].took
  }

  function ResumedAfter(acquired: int, trials: seq<Trial>): int
    decreases |trials|, 1
  {
    EndOf(acquired, trials) + if trials != [] && trials[|trials| - 1].outcome.HeldByOther? then LEASE_DURATION else 0
  }

  /** When the last success ended: a renewal, or the acquire the loop started from. */
  function LastSuccess(acquired: int, trials: seq<Trial>): int {
    if trials == [] then acquired
    else if trials[|trials| - 1].outcome.Renewed? then EndOf(acquired, trials)
    else LastSuccess(acquired, trials[..|trials| - 1])
  }

  /** The loop started right after an acquire at time `acquired`. Leadership ends exactly at the
      first third miss in a row, and then for good, 15 to 105 seconds after the last success. */
  method RenewalLoop(acquired: int, trials: seq<Trial>) returns (leading: bool, ended: nat, now: int, lastSuccess: int)
    requires forall i :: 0 <= i < |trials| ==> Timely(trials[i])
    ensures leading <==> forall k :: 0 <= k < |trials| ==> !ThirdMiss(trials, k)
    ensures !leading ==> ended < |trials| && ThirdMiss(trials, ended) && forall k :: 0 <= k < ended ==> !ThirdMiss(trials, k)
    ensures !leading ==> now == EndOf(acquired, trials[..ended + 1]) && lastSuccess == LastSuccess(acquired, trials[..ended + 1])
    ensures !leading ==> 15 * SECOND <= now - lastSuccess <= 105 * SECOND
  {
    leading, ended, now, lastSuccess := true, 0, acquired, acquired;
    var failures := 0;
    while ended < |trials|
      invariant ended <= |trials| && failures < MAX_RENEWAL_FAILURES && failures <= ended
      invariant forall k :: 0 <= k < ended ==> !ThirdMiss(trials, k)
      invariant forall i :: ended - failures <= i < ended ==> Miss(trials, i)
      invariant failures < ended ==> !Miss(trials, ended - failures - 1)
      invariant now == ResumedAfter(acquired, trials[..ended]) && lastSuccess == LastSuccess(acquired, trials[..ended])
      invariant failures * RENEWAL_INTERVAL <= now - lastSuccess <= failures * 35 * SECOND
    {
      var trial := trials[ended];
      assert trials[..ended + 1][..ended] == trials[..ended];
      now := now + RENEWAL_INTERVAL + trial.took;
      if trial.outcome.Renewed? {
        failures, lastSuccess := 0, now;
      } else {
        failures := failures + 1;
        if failures >= MAX_RENEWAL_FAILURES {
          assert ThirdMiss(trials, ended);
          leading := false;
          return;
        }
        if trial.outcome.HeldByOther? {
          now := now + LEASE_DURATION;
        }
      }
      ended := ended + 1;
    }
  }

  /** Trials of a leader whose flag is up until the third of them ends. */
  ghost predicate LeadsThrough(trials: seq<Trial>) {
    (forall i :: 0 <= i < |trials| ==> Timely(trials[i])) && |trials| == 3 && ThirdMiss(trials, 2)
  }

  /** With every call timing out the flag is down only 105 seconds after the last success. */
  lemma StepsDownLate(acquired: int) returns (trials: seq<Trial>)
    ensures LeadsThrough(trials) && LastSuccess(acquired, trials) == acquired && EndOf(acquired, trials) == acquired + 105 * SECOND
  {
    var slow := Trial(Failed, 2 * WRITE_TIMEOUT);
    var two := [slow] + [slow];
    trials := two + [slow];
    assert [] + [slow] == [slow] && two[1] == slow;
    FailedTrial(acquired, [], slow);
    FailedTrial(acquired, [slow], slow);
    FailedTrial(acquired, two, slow);
  }

  /** The flag outlives the lease: at any time from 15 to 105 seconds after the last success of
      controller 0, its flag may be up while controller 1 has just acquired the lease. */
  lemma FlagsOverlap(at: int)
    requires LEASE_DURATION <= at < 105 * SECOND
    ensures exists s, trials: seq<Trial> ::
      && Reaches(CAREFUL, Named(), s) && s.now == at && Fresh(s, 1) && 0 in s.success && s.success[0] == Success(0, 0)
      && LeadsThrough(trials) && LastSuccess(0, trials) == 0 && at < EndOf(0, trials)
  {
    var s := SlowReturn(0, at);
    var trials := StepsDownLate(0);
    assert Reaches(CAREFUL, Named(), s) && LeadsThrough(trials);
  }

  lemma FailedTrial(acquired: int, trials: seq<Trial>, t: Trial)
    requires t.outcome.Failed? && (trials == [] || trials[|trials| - 1].outcome.Failed?)
    ensures EndOf(acquired, trials + [t]) == EndOf(acquired, trials) + RENEWAL_INTERVAL + t.took
    ensures LastSuccess(acquired, trials + [t]) == LastSuccess(acquired, trials)
  {
    assert (trials + [t])[..|trials|] == trials;
  }
}
