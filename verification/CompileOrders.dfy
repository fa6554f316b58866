/** The modelled compile as a program of the compilation loop: it reads the store, compiles the
    routes, then reads and compiles one backend group per Service, in the order of a hash set
    that is new in every compile. */
module CompileOrders {
  import opened Collections
  import opened Types
  import opened Store
  import opened L4Routes
  import opened Slicing
  import opened CompilationLoop
  import Compiler

  // ---- Programs in parts ----

  /** What a part of a compile does after what it has read: reads on, or gives its result. */
  datatype Part<+T> = Ask(cell: Cell) | Give(value: T)

  type Reader<T> = seq<Seen> -> Part<T>

  ghost predicate Follows'<T>(r: Reader<T>, log: seq<Seen>) {
    forall i :: 0 <= i < |log| ==> r(log[..i]) == Ask(log[i].cell)
  }

  /** The part gives `v` when nothing changes under it. */
  ghost predicate Gives<T>(r: Reader<T>, cells: Cells, v: T) {
    exists log :: Follows'(r, log) && !Stale(log, cells) && r(log) == Give(v)
  }

  const NOTHING := CompiledConfig("", 0, 0, [], [], [], [], [], [], [], [], [], [])

  /** The reads of a part, as a program. */
  function Reads<T>(r: Reader<T>): Program {
    (log: seq<Seen>) => if r(log).Ask? then Read(r(log).cell) else Done(NOTHING, {})
  }

  lemma GivesOne<T>(r: Reader<T>, cells: Cells, v: T, w: T)
    requires Gives(r, cells, v) && Gives(r, cells, w)
    ensures v == w
  {
    var a :| Follows'(r, a) && !Stale(a, cells) && r(a) == Give(v);
    var b :| Follows'(r, b) && !Stale(b, cells) && r(b) == Give(w);
    LogsAgree(Reads(r), cells, a, b);
  }

  /** The first length at which the part gives its result. */
  function FirstGive<T>(r: Reader<T>, log: seq<Seen>, n: nat): (m: Option<nat>)
    requires n <= |log|
    ensures m.Some? ==> n <= m.value <= |log| && r(log[..m.value]).Give?
    ensures m.Some? ==> forall i :: n <= i < m.value ==> r(log[..i]).Ask?
    ensures m.None? ==> forall i :: n <= i <= |log| ==> r(log[..i]).Ask?
    decreases |log| - n
  {
    if r(log[..n]).Give? then Some(n) else if n == |log| then None else FirstGive(r, log, n + 1)
  }

  /** One part, then another that may depend on its result. */
  function Then<T, U>(r: Reader<T>, next: T -> Reader<U>): Reader<U> { (log: seq<Seen>) => ThenAt(r, next, log) }

  function ThenAt<T, U>(r: Reader<T>, next: T -> Reader<U>, log: seq<Seen>): Part<U> {
    var n := FirstGive(r, log, 0);
    if n.None? then assert log[..|log|] == log; Ask(r(log).cell)
    else next(r(log[..n.value]).value)(log[n.value..])
  }

  lemma FirstGiveIs<T>(r: Reader<T>, log: seq<Seen>, n: nat)
    requires n <= |log| && r(log[..n]).Give? && forall i :: 0 <= i < n ==> r(log[..i]).Ask?
    ensures FirstGive(r, log, 0) == Some(n)
  {
  }

  lemma ThenBefore<T, U>(r: Reader<T>, next: T -> Reader<U>, log: seq<Seen>, n: nat, i: nat)
    requires i < n <= |log| && forall j :: 0 <= j < n ==> r(log[..j]).Ask?
    ensures Then(r, next)(log[..i]) == Ask(r(log[..i]).cell)
  {
    var part := log[..i];
    forall j: nat | j <= i ensures r(part[..j]).Ask? {
      assert part[..j] == log[..j];
    }
    assert FirstGive(r, part, 0).None?;
    assert part[..|part|] == part;
  }

  lemma ThenAfter<T, U>(r: Reader<T>, next: T -> Reader<U>, log: seq<Seen>, n: nat, i: nat)
    requires n <= i <= |log| && r(log[..n]).Give? && forall j :: 0 <= j < n ==> r(log[..j]).Ask?
    ensures Then(r, next)(log[..i]) == next(r(log[..n]).value)(log[n..i])
  {
    var part := log[..i];
    forall j: nat | j <= n ensures part[..j] == log[..j] {}
    FirstGiveIs(r, part, n);
    assert part[n..] == log[n..i];
  }

  /** What the parts give together: the first its result, the second what it gives after it. */
  lemma ThenGives<T, U>(r: Reader<T>, next: T -> Reader<U>, cells: Cells, u: U)
    requires Gives(Then(r, next), cells, u)
    ensures exists v :: Gives(r, cells, v) && Gives(next(v), cells, u)
  {
    var log :| Follows'(Then(r, next), log) && !Stale(log, cells) && Then(r, next)(log) == Give(u);
    assert log[..|log|] == log;
    var m := FirstGive(r, log, 0);
    assert m.Some?;
    var n := m.value;
    var v := r(log[..n]).value;
    FirstPart(r, next, log, n, cells);
    SecondPart(r, next, log, n, cells);
    assert Gives(r, cells, v) && Gives(next(v), cells, u) by {
      ThenAfter(r, next, log, n, |log|);
      assert log[n..|log|] == log[n..];
    }
  }

  lemma FirstPart<T, U>(r: Reader<T>, next: T -> Reader<U>, log: seq<Seen>, n: nat, cells: Cells)
    requires Follows'(Then(r, next), log) && !Stale(log, cells) && FirstGive(r, log, 0) == Some(n)
    ensures Follows'(r, log[..n]) && !Stale(log[..n], cells)
  {
    var a := log[..n];
    forall i | 0 <= i < n ensures r(a[..i]) == Ask(a[i].cell) && a[i].contents == Look(cells, a[i].cell) {
      ThenBefore(r, next, log, n, i);
      assert a[..i] == log[..i] && a[i] == log[i];
    }
  }

  lemma SecondPart<T, U>(r: Reader<T>, next: T -> Reader<U>, log: seq<Seen>, n: nat, cells: Cells)
    requires Follows'(Then(r, next), log) && !Stale(log, cells) && FirstGive(r, log, 0) == Some(n)
    ensures Follows'(next(r(log[..n]).value), log[n..]) && !Stale(log[n..], cells)
  {
    var b, q := log[n..], next(r(log[..n]).value);
    forall i | 0 <= i < |b| ensures q(b[..i]) == Ask(b[i].cell) && b[i].contents == Look(cells, b[i].cell) {
      ThenAfter(r, next, log, n, n + i);
      assert b[..i] == log[n..n + i] && b[i] == log[n + i];
    }
  }

  // ---- The compile ----

  function Const<T>(v: T): Reader<T> { (log: seq<Seen>) => Give(v) }

  lemma ConstGives<T>(v: T, cells: Cells, w: T)
    requires Gives(Const(v), cells, w)
    ensures v == w
  {
  }

  /** What the first part of a compile reads: the stored objects; `rest` holds the parts of the
      configuration that are not modelled, `services` the Services collected for them. */
  datatype Input = Input(
    snap: Snapshot, tcp: seq<Entry>, udp: seq<Entry>, rest: CompiledConfig, services: set<ServiceKey>, live: set<NamespacedName>)

  ghost function Services(input: Input): set<ServiceKey> { input.services + BackendsOf(input.tcp) + BackendsOf(input.udp) }

  function Config(input: Input, groups: seq<BackendGroup>): CompiledConfig {
    input.rest.(routes := Compiler.CompiledRoutes(input.snap), backends := groups,
                tcpRoutes := Compile(TCP, input.snap.gateways, input.tcp),
                udpRoutes := Compile(UDP, input.snap.gateways, input.udp))
  }

  type Pools = ServiceKey -> Reader<BackendGroup>

  /** One group per Service, in the order given. */
  function Groups(pools: Pools, keys: seq<ServiceKey>, done: seq<BackendGroup>): Reader<seq<BackendGroup>>
    decreases |keys|, 1
  {
    if keys == [] then Const(done) else Then(pools(keys[0]), MoreGroups(pools, keys, done))
  }

  function MoreGroups(pools: Pools, keys: seq<ServiceKey>, done: seq<BackendGroup>): BackendGroup -> Reader<seq<BackendGroup>>
    requires keys != []
    decreases |keys|, 0
  {
    (g: BackendGroup) => Groups(pools, keys[1..], done + [g])
  }

  type Order = (nat, set<ServiceKey>) -> seq<ServiceKey>

  ghost predicate IsOrder(order: Order) { forall k, services :: multiset(order(k, services)) == multiset(services) }

  datatype Result = Result(config: CompiledConfig, live: set<NamespacedName>)

  function Finish(input: Input): seq<BackendGroup> -> Reader<Result> {
    (groups: seq<BackendGroup>) => Const(Result(Config(input, groups), input.live))
  }

  ghost function AfterInput(pools: Pools, order: Order, k: nat): Input -> Reader<Result> {
    (input: Input) => Then(Groups(pools, order(k, Services(input)), []), Finish(input))
  }

  function AsProgram(r: Reader<Result>): Program { (log: seq<Seen>) => MoveOf(r(log)) }

  function MoveOf(p: Part<Result>): Move {
    match p
    case Ask(cell) => Read(cell)
    case Give(v) => Done(v.config, v.live)
  }

  ghost function Modelled(inputs: Reader<Input>, pools: Pools, order: Order): Orders {
    (k: nat) => AsProgram(Then(inputs, AfterInput(pools, order, k)))
  }

  lemma FinishesGives(r: Reader<Result>, cells: Cells, c: CompiledConfig, l: set<NamespacedName>)
    requires Finishes(AsProgram(r), cells, c, l)
    ensures Gives(r, cells, Result(c, l))
  {
    var log: seq<Seen> :| Follows(AsProgram(r), log) && !Stale(log, cells) && AsProgram(r)(log) == Done(c, l);
    forall i | 0 <= i < |log| ensures r(log[..i]) == Ask(log[i].cell) {
      assert AsProgram(r)(log[..i]) == Read(log[i].cell);
    }
    assert Follows'(r, log) && r(log) == Give(Result(c, l));
  }

  /** Each Service's group is what its own part gives. */
  ghost predicate GroupsGiven(pools: Pools, keys: seq<ServiceKey>, cells: Cells, done: seq<BackendGroup>, groups: seq<BackendGroup>) {
    && |groups| == |done| + |keys| && groups[..|done|] == done
    && forall i :: 0 <= i < |keys| ==> Gives(pools(keys[i]), cells, groups[|done| + i])
  }

  lemma GroupAdded(pools: Pools, keys: seq<ServiceKey>, cells: Cells, done: seq<BackendGroup>, g: BackendGroup, groups: seq<BackendGroup>)
    requires keys != [] && Gives(pools(keys[0]), cells, g) && GroupsGiven(pools, keys[1..], cells, done + [g], groups)
    ensures GroupsGiven(pools, keys, cells, done, groups)
  {
    var n := |done|;
    assert groups[..n + 1] == done + [g];
    assert groups[n] == groups[..n + 1][n] == g;
    assert groups[..n] == groups[..n + 1][..n] == done;
    forall i | 0 < i < |keys| ensures Gives(pools(keys[i]), cells, groups[n + i]) {
      assert keys[i] == keys[1..][i - 1] && n + i == |done + [g]| + (i - 1);
    }
  }

  lemma {:induction false} GroupsGive(pools: Pools, keys: seq<ServiceKey>, cells: Cells, done: seq<BackendGroup>, groups: seq<BackendGroup>)
    requires Gives(Groups(pools, keys, done), cells, groups)
    ensures GroupsGiven(pools, keys, cells, done, groups)
    decreases |keys|
  {
    if keys == [] {
      ConstGives(done, cells, groups);
    } else {
      var next := MoreGroups(pools, keys, done);
      ThenGives(pools(keys[0]), next, cells, groups);
      var g :| Gives(pools(keys[0]), cells, g) && Gives(next(g), cells, groups);
      GroupsGive(pools, keys[1..], cells, done + [g], groups);
      GroupAdded(pools, keys, cells, done, g, groups);
    }
  }

  ghost function GroupOf(pools: Pools, cells: Cells): ServiceKey -> BackendGroup {
    (key: ServiceKey) => GroupFor(pools, cells, key)
  }

  ghost function GroupFor(pools: Pools, cells: Cells, key: ServiceKey): BackendGroup {
    if exists g :: Gives(pools(key), cells, g) then var g :| Gives(pools(key), cells, g); g else BackendGroup("", 0, [])
  }

  lemma GroupsAreMap(pools: Pools, keys: seq<ServiceKey>, cells: Cells, groups: seq<BackendGroup>)
    requires GroupsGiven(pools, keys, cells, [], groups)
    ensures groups == Map(keys, GroupOf(pools, cells))
  {
    forall i | 0 <= i < |keys| ensures groups[i] == GroupFor(pools, cells, keys[i]) {
      assert Gives(pools(keys[i]), cells, groups[i]);
      GivesOne(pools(keys[i]), cells, groups[i], GroupFor(pools, cells, keys[i]));
    }
  }

  lemma ModelledGives(inputs: Reader<Input>, pools: Pools, order: Order, cells: Cells, c: CompiledConfig, l: set<NamespacedName>)
    returns (input: Input, keys: seq<ServiceKey>)
    requires IsOrder(order) && CompilesTo(Modelled(inputs, pools, order), cells, c, l)
    ensures Gives(inputs, cells, input) && multiset(keys) == multiset(Services(input))
    ensures c == Config(input, Map(keys, GroupOf(pools, cells))) && l == input.live
  {
    var k :| Finishes(Modelled(inputs, pools, order)(k), cells, c, l);
    var result := Result(c, l);
    FinishesGives(Then(inputs, AfterInput(pools, order, k)), cells, c, l);
    ThenGives(inputs, AfterInput(pools, order, k), cells, result);
    input :| Gives(inputs, cells, input) && Gives(AfterInput(pools, order, k)(input), cells, result);
    keys := order(k, Services(input));
    ThenGives(Groups(pools, keys, []), Finish(input), cells, result);
    var groups :| Gives(Groups(pools, keys, []), cells, groups) && Gives(Finish(input)(groups), cells, result);
    ConstGives(Result(Config(input, groups), input.live), cells, result);
    GroupsGive(pools, keys, cells, [], groups);
    GroupsAreMap(pools, keys, cells, groups);
  }

  /** What a compile of a store holds: the routes compiled from what was read, the winners of
      the TCP and UDP listeners each in their list, and one group for every Service a TCP or UDP
      route or anything else names, as its own part of the compile reads it. */
  lemma ModelledHolds(inputs: Reader<Input>, pools: Pools, order: Order, cells: Cells, c: CompiledConfig, l: set<NamespacedName>)
    returns (input: Input)
    requires IsOrder(order) && CompilesTo(Modelled(inputs, pools, order), cells, c, l)
    ensures Gives(inputs, cells, input) && l == input.live
    ensures c.routes == Compiler.CompiledRoutes(input.snap)
    ensures c.tcpRoutes == Compile(TCP, input.snap.gateways, input.tcp) && c.udpRoutes == Compile(UDP, input.snap.gateways, input.udp)
    ensures forall g :: g in c.backends <==> exists key :: Named(input, key) && g == GroupFor(pools, cells, key)
  {
    var keys;
    input, keys := ModelledGives(inputs, pools, order, cells, c, l);
    forall g ensures g in c.backends <==> exists key :: Named(input, key) && g == GroupFor(pools, cells, key) {
      MapMember(keys, GroupOf(pools, cells), g);
      forall key ensures key in keys <==> Named(input, key) {
        assert key in multiset(keys) <==> key in multiset(Services(input));
        NamedExactly(input, key);
      }
    }
  }

  /** A backend of a TCP or UDP route, or a Service collected elsewhere. */
  ghost predicate Named(input: Input, key: ServiceKey) {
    || key in input.services
    || exists kr, ref :: (kr in input.tcp || kr in input.udp) && ref in kr.1.backendRefs && key == ServiceKey(ref.namespace, ref.name, ref.port)
  }

  lemma NamedExactly(input: Input, key: ServiceKey)
    ensures key in Services(input) <==> Named(input, key)
  {
  }

  /** Two compiles of one store, however the hash set was ordered in them, give the same lists
      up to order, and the same live Gateways. */
  lemma ModelledOrderBlind(inputs: Reader<Input>, pools: Pools, order: Order)
    requires IsOrder(order)
    ensures OrderBlind(Modelled(inputs, pools, order))
  {
    var program := Modelled(inputs, pools, order);
    forall cells, c, l, c', l' | CompilesTo(program, cells, c, l) && CompilesTo(program, cells, c', l')
      ensures Permuted(c, c') && l == l'
    {
      var input, keys := ModelledGives(inputs, pools, order, cells, c, l);
      var input', keys' := ModelledGives(inputs, pools, order, cells, c', l');
      GivesOne(inputs, cells, input, input');
      MapPermutes(keys, keys', GroupOf(pools, cells));
    }
  }

  /** So at rest, what was sent and what is on record agree with every compile of the store as
      it stands, in any order of the hash set. */
  lemma EveryModelledCompileAgrees(h: Hasher, inputs: Reader<Input>, pools: Pools, order: Order,
                                   cells: Cells, schedule: seq<Action>, s: State, c: CompiledConfig, l: set<NamespacedName>)
    requires IsOrder(order) && Reaches(h, Modelled(inputs, pools, order), cells, schedule, s)
    requires Quiescent(s) && s.touched && !s.last.Panicked?
    requires CompilesTo(Modelled(inputs, pools, order), s.cells, c, l)
    ensures s.sent != [] && s.sent[|s.sent| - 1].fingerprint == Fingerprint(h, c)
    ensures s.slices.Keys == l && forall g :: g in l ==> s.slices[g] == Scope(h, c, g).fingerprint
  {
    ModelledOrderBlind(inputs, pools, order);
    EveryCompileAgrees(h, Modelled(inputs, pools, order), cells, schedule, s, c, l);
  }
}
