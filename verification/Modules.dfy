/** The module registry of kernel/module.c: registering, unregistering, resolving dependencies
    and walking the dependency tree. */
module ModuleRegistry {
  import opened Options

  const MAX_MODULES := 64

  const UNLOADED := 0
  const LOADED := 1
  const ERROR := 2
  const DISABLED := 3

  const SUCCESS := 0
  const NOT_FOUND := -2
  const DUPLICATE := -3
  const DEPENDENCY := -4
  const PERMISSION := -5
  const NO_ROOM := -6
  const INIT_FAILED := -10

  datatype Dependency = Dependency(name: string, min: nat, max: nat)

  datatype Module = Module(name: string, version: nat, id: nat, essential: bool, status: nat, deps: seq<Dependency>)

  /** A registered module and when it was registered. */
  datatype Entry = Entry(body: Module, stamp: nat)

  type Slots = seq<Option<Entry>>

  /** `clock` counts registrations; the kernel keeps no such count. */
  datatype Registry = Registry(slots: Slots, num: int, nextId: nat, clock: nat)

  // ----- Looking up -----

  predicate Holds(slots: Slots, j: nat, name: string)
    requires j < |slots|
  {
    slots[j].Some? && slots[j].value.body.name == name
  }

  /** The first slot from `i` on that holds a module of this name, or the number of slots. */
  function Find(slots: Slots, name: string, i: nat): (r: nat)
    requires i <= |slots|
    ensures i <= r <= |slots|
    ensures r < |slots| ==> Holds(slots, r, name)
    ensures forall j :: i <= j < r ==> !Holds(slots, j, name)
    decreases |slots| - i
  {
    if i == |slots| || Holds(slots, i, name) then i else Find(slots, name, i + 1)
  }

  function Free(slots: Slots, i: nat): (r: nat)
    requires i <= |slots|
    ensures i <= r <= |slots|
    ensures r < |slots| ==> slots[r].None?
    ensures forall j :: i <= j < r ==> slots[j].Some?
    decreases |slots| - i
  {
    if i == |slots| || slots[i].None? then i else Free(slots, i + 1)
  }

  predicate InVersion(d: Dependency, version: nat) {
    (d.min > 0 ==> d.min <= version) && (d.max > 0 ==> version <= d.max)
  }

  predicate Usable(status: nat) {
    status == LOADED || status == DISABLED
  }

  /** Slot `j` holds what dependency `d` asks for. */
  predicate Provides(slots: Slots, j: nat, d: Dependency) {
    j < |slots| && Holds(slots, j, d.name) &&
    InVersion(d, slots[j].value.body.version) && Usable(slots[j].value.body.status)
  }

  /** `module_check_dependencies` looks only at the first module of the name. */
  predicate Satisfied(slots: Slots, deps: seq<Dependency>) {
    forall d :: d in deps ==> Provides(slots, Find(slots, d.name, 0), d)
  }

  // ----- Registering and unregistering -----

  /** The module as it is stored: given an id and a status, the latter spoilt by a failing
      `init`. */
  function Stored(r: Registry, m: Module, init: Option<int>): Module {
    m.(id := if m.id == 0 then r.nextId else m.id,
       status := if init.Some? && init.value != 0 then ERROR else if m.status == UNLOADED then LOADED else m.status)
  }

  /** The registry and the code that `module_register` leaves; `init` is what the `init`
      callback returns, if there is one.  A module whose `init` fails stays registered. */
  function Register(r: Registry, m: Module, init: Option<int>): (Registry, int) {
    if r.num >= MAX_MODULES then (r, NO_ROOM)
    else if Find(r.slots, m.name, 0) < |r.slots| then (r, DUPLICATE)
    else
      var r' := r.(nextId := if m.id == 0 then r.nextId + 1 else r.nextId);
      if !Satisfied(r.slots, m.deps) then (r', DEPENDENCY)
      else if Free(r.slots, 0) == |r.slots| then (r', NO_ROOM)
      else (Place(r', Free(r.slots, 0), Stored(r, m, init)), InitCode(init))
  }

  function InitCode(init: Option<int>): int {
    if init.Some? && init.value != 0 then INIT_FAILED else SUCCESS
  }

  function Place(r: Registry, k: nat, m: Module): Registry
    requires k < |r.slots|
  {
    r.(slots := r.slots[k := Some(Entry(m, r.clock))], num := r.num + 1, clock := r.clock + 1)
  }

  /** The module that a pointer names: one in the registry, or one that is not. */
  datatype Target = InSlot(slot: nat) | Elsewhere(body: Module)

  predicate Essential(r: Registry, m: Target)
    requires m.InSlot? ==> m.slot < |r.slots|
  {
    match m
    case InSlot(k) => r.slots[k].Some? && r.slots[k].value.body.essential
    case Elsewhere(body) => body.essential
  }

  /** `module_unregister`: essential modules are refused before they are looked for. */
  function Unregister(r: Registry, m: Target): (Registry, int)
    requires m.InSlot? ==> m.slot < |r.slots|
  {
    if Essential(r, m) then (r, PERMISSION)
    else if m.Elsewhere? || r.slots[m.slot].None? then (r, NOT_FOUND)
    else (r.(slots := r.slots[m.slot := None], num := r.num - 1), SUCCESS)
  }

  // ----- The invariant -----

  function Occupied(slots: Slots): (n: nat)
    ensures n <= |slots|
  {
    if slots == [] then 0 else Occupied(slots[..|slots| - 1]) + if slots[|slots| - 1].Some? then 1 else 0
  }

  lemma {:induction false} OccupiedUpdate(slots: Slots, k: nat, x: Option<Entry>)
    requires k < |slots|
    ensures Occupied(slots[k := x]) ==
            Occupied(slots) - (if slots[k].Some? then 1 else 0) + if x.Some? then 1 else 0
  {
    var n := |slots| - 1;
    if k == n {
      assert slots[k := x][..n] == slots[..n];
    } else {
      assert slots[k := x][..n] == slots[..n][k := x];
      OccupiedUpdate(slots[..n], k, x);
    }
  }

  lemma {:induction false} AllOccupied(slots: Slots)
    requires forall j :: 0 <= j < |slots| ==> slots[j].Some?
    ensures Occupied(slots) == |slots|
  {
    if slots != [] {
      AllOccupied(slots[..|slots| - 1]);
    }
  }

  predicate DistinctNames(slots: Slots) {
    forall i, j :: 0 <= i < j < |slots| && slots[i].Some? && slots[j].Some? ==>
      slots[i].value.body.name != slots[j].value.body.name
  }

  /** Slot `j` holds what `d` asks for and was registered before `stamp`. */
  predicate EarlierProvides(slots: Slots, j: nat, d: Dependency, stamp: nat) {
    Provides(slots, j, d) && slots[j].value.stamp < stamp
  }

  predicate Resolved(slots: Slots, e: Entry) {
    forall d :: d in e.body.deps ==> EarlierProvides(slots, Find(slots, d.name, 0), d, e.stamp)
  }

  predicate AllResolved(slots: Slots) {
    forall k :: 0 <= k < |slots| && slots[k].Some? ==> Resolved(slots, slots[k].value)
  }

  predicate Inv(r: Registry) {
    && |r.slots| == MAX_MODULES && r.num == Occupied(r.slots)
    && DistinctNames(r.slots) && AllResolved(r.slots)
    && (forall k :: 0 <= k < |r.slots| && r.slots[k].Some? ==> r.slots[k].value.stamp < r.clock)
  }

  /** With distinct names there is one place to find a name. */
  lemma FindUnique(slots: Slots, j: nat)
    requires j < |slots| && slots[j].Some? && DistinctNames(slots)
    ensures Find(slots, slots[j].value.body.name, 0) == j
  {
    assert Holds(slots, j, slots[j].value.body.name);
  }

  /** The branch after the placing loop, which should never happen, never does. */
  lemma RoomWhenCounted(r: Registry)
    requires Inv(r) && r.num < MAX_MODULES
    ensures Free(r.slots, 0) < MAX_MODULES
  {
    if Free(r.slots, 0) == MAX_MODULES {
      AllOccupied(r.slots);
    }
  }

  /** Filling a free slot under a new name leaves every other lookup as it was. */
  lemma FindAfterAdd(slots: Slots, k: nat, e: Entry, name: string)
    requires k < |slots| && slots[k].None? && DistinctNames(slots[k := Some(e)])
    requires Find(slots, name, 0) < |slots|
    ensures Find(slots[k := Some(e)], name, 0) == Find(slots, name, 0)
  {
    var j := Find(slots, name, 0);
    FindUnique(slots[k := Some(e)], j);
  }

  lemma AddResolved(slots: Slots, k: nat, e: Entry)
    requires k < |slots| && slots[k].None? && DistinctNames(slots[k := Some(e)])
    requires AllResolved(slots) && Satisfied(slots, e.body.deps)
    requires forall j :: 0 <= j < |slots| && slots[j].Some? ==> slots[j].value.stamp < e.stamp
    ensures AllResolved(slots[k := Some(e)])
  {
    var after := slots[k := Some(e)];
    forall i | 0 <= i < |after| && after[i].Some?
      ensures Resolved(after, after[i].value)
    {
      forall d | d in after[i].value.body.deps
        ensures EarlierProvides(after, Find(after, d.name, 0), d, after[i].value.stamp)
      {
        assert i != k ==> EarlierProvides(slots, Find(slots, d.name, 0), d, slots[i].value.stamp);
        FindAfterAdd(slots, k, e, d.name);
      }
    }
  }

  lemma PlaceInv(r: Registry, k: nat, m: Module)
    requires Inv(r) && k < MAX_MODULES && r.slots[k].None? && Satisfied(r.slots, m.deps)
    requires Find(r.slots, m.name, 0) == MAX_MODULES
    ensures Inv(Place(r, k, m))
  {
    var e := Entry(m, r.clock);
    OccupiedUpdate(r.slots, k, Some(e));
    NewNameDistinct(r.slots, k, e);
    AddResolved(r.slots, k, e);
  }

  lemma NewNameDistinct(slots: Slots, k: nat, e: Entry)
    requires k < |slots| && DistinctNames(slots) && Find(slots, e.body.name, 0) == |slots|
    ensures DistinctNames(slots[k := Some(e)])
  {
    var after := slots[k := Some(e)];
    forall i, j | 0 <= i < j < |after| && after[i].Some? && after[j].Some?
      ensures after[i].value.body.name != after[j].value.body.name
    {
      assert !Holds(slots, i, e.body.name) && !Holds(slots, j, e.body.name);
    }
  }

  lemma RegisterInv(r: Registry, m: Module, init: Option<int>)
    requires Inv(r)
    ensures Inv(Register(r, m, init).0)
    ensures Register(r, m, init).1 == NO_ROOM <==> r.num == MAX_MODULES
  {
    if r.num < MAX_MODULES {
      RoomWhenCounted(r);
      var k := Free(r.slots, 0);
      if Find(r.slots, m.name, 0) == MAX_MODULES && Satisfied(r.slots, m.deps) {
        PlaceInv(r.(nextId := Register(r, m, init).0.nextId), k, Stored(r, m, init));
      }
    }
  }

  /** No other registered module names the one in slot `k`. */
  predicate Unneeded(slots: Slots, k: nat)
    requires k < |slots| && slots[k].Some?
  {
    forall i, d :: 0 <= i < |slots| && i != k && slots[i].Some? && d in slots[i].value.body.deps ==>
      d.name != slots[k].value.body.name
  }

  lemma FindAfterRemove(slots: Slots, k: nat, name: string)
    requires k < |slots| && slots[k].Some? && DistinctNames(slots) && Find(slots, name, 0) < |slots|
    ensures if name == slots[k].value.body.name then Find(slots[k := None], name, 0) == |slots|
            else Find(slots[k := None], name, 0) == Find(slots, name, 0)
  {
    var j := Find(slots, name, 0);
    if name == slots[k].value.body.name {
      FindUnique(slots, k);
      var after := slots[k := None];
      assert forall i :: 0 <= i < |after| ==> !Holds(after, i, name);
    } else {
      FindUnique(slots[k := None], j);
    }
  }

  /** Unregistering keeps every dependency resolved exactly when nothing else names the module:
      `module_unregister` does not check. */
  lemma UnregisterSafeExactlyWhenUnneeded(slots: Slots, k: nat)
    requires k < |slots| && slots[k].Some? && DistinctNames(slots) && AllResolved(slots)
    ensures AllResolved(slots[k := None]) <==> Unneeded(slots, k)
  {
    var after := slots[k := None];
    forall i, d | 0 <= i < |slots| && i != k && slots[i].Some? && d in slots[i].value.body.deps
      ensures EarlierProvides(after, Find(after, d.name, 0), d, slots[i].value.stamp) <==>
              d.name != slots[k].value.body.name
    {
      assert EarlierProvides(slots, Find(slots, d.name, 0), d, slots[i].value.stamp);
      FindAfterRemove(slots, k, d.name);
    }
    if AllResolved(after) {
      forall i, d | 0 <= i < |slots| && i != k && slots[i].Some? && d in slots[i].value.body.deps
        ensures d.name != slots[k].value.body.name
      {
        assert Resolved(after, after[i].value);
      }
    }
    if Unneeded(slots, k) {
      forall i | 0 <= i < |after| && after[i].Some?
        ensures Resolved(after, after[i].value)
      {
        assert slots[i] == after[i];
      }
    }
  }

  /** The target, if registered, is named by no other module. */
  predicate SafeToRemove(r: Registry, m: Target) {
    m.InSlot? ==> m.slot < |r.slots| && (r.slots[m.slot].Some? ==> Unneeded(r.slots, m.slot))
  }

  lemma UnregisterInv(r: Registry, m: Target)
    requires Inv(r) && SafeToRemove(r, m)
    ensures Inv(Unregister(r, m).0)
  {
    if m.InSlot? && r.slots[m.slot].Some? {
      OccupiedUpdate(r.slots, m.slot, None);
      UnregisterSafeExactlyWhenUnneeded(r.slots, m.slot);
    }
  }

  // ----- Runs -----

  datatype Op = Add(m: Module, init: Option<int>) | Remove(target: Target)

  /** Every unregistered module is one that no other names. */
  predicate Careful(r: Registry, op: Op) {
    op.Remove? ==> SafeToRemove(r, op.target)
  }

  function Apply(r: Registry, op: Op): Registry
    requires op.Remove? && op.target.InSlot? ==> op.target.slot < |r.slots|
  {
    match op
    case Add(m, init) => Register(r, m, init).0
    case Remove(target) => Unregister(r, target).0
  }

  predicate CarefulRun(r: Registry, ops: seq<Op>)
    decreases |ops|
  {
    ops == [] || (Careful(r, ops[0]) && CarefulRun(Apply(r, ops[0]), ops[1..]))
  }

  function Run(r: Registry, ops: seq<Op>): Registry
    requires CarefulRun(r, ops)
    decreases |ops|
  {
    if ops == [] then r else Run(Apply(r, ops[0]), ops[1..])
  }

  function Start(): Registry {
    Registry(seq(MAX_MODULES, i => None), 0, 1, 0)
  }

  lemma {:induction false} NothingOccupied(slots: Slots)
    requires forall j :: 0 <= j < |slots| ==> slots[j].None?
    ensures Occupied(slots) == 0
  {
    if slots != [] {
      NothingOccupied(slots[..|slots| - 1]);
    }
  }

  lemma StartInv()
    ensures Inv(Start())
  {
    NothingOccupied(Start().slots);
  }

  lemma {:induction false} RunInv(r: Registry, ops: seq<Op>)
    requires Inv(r) && CarefulRun(r, ops)
    ensures Inv(Run(r, ops))
    decreases |ops|
  {
    if ops != [] {
      match ops[0] {
        case Add(m, init) => RegisterInv(r, m, init);
        case Remove(target) => UnregisterInv(r, target);
      }
      RunInv(Apply(r, ops[0]), ops[1..]);
    }
  }

  // ----- The dependency graph -----

  /** Slot `j` is where a dependency of the module in slot `i` resolves. */
  predicate DependsOn(slots: Slots, i: nat, j: nat) {
    i < |slots| && j < |slots| && slots[i].Some? && slots[j].Some? &&
    exists d :: d in slots[i].value.body.deps && Find(slots, d.name, 0) == j
  }

  predicate Path(slots: Slots, path: seq<nat>) {
    forall i :: 0 <= i < |path| - 1 ==> DependsOn(slots, path[i], path[i + 1])
  }

  /** Along a path of dependencies the registration times fall, so no path returns to where it
      started. */
  lemma {:induction false} PathsGoBack(slots: Slots, path: seq<nat>)
    requires AllResolved(slots) && Path(slots, path) && |path| > 1
    ensures path[0] < |slots| && path[|path| - 1] < |slots|
    ensures slots[path[0]].Some? && slots[path[|path| - 1]].Some?
    ensures slots[path[|path| - 1]].value.stamp <= slots[path[0]].value.stamp - (|path| - 1)
    ensures path[0] != path[|path| - 1]
  {
    assert DependsOn(slots, path[0], path[1]);
    assert Resolved(slots, slots[path[0]].value);
    if |path| > 2 {
      assert Path(slots, path[1..]) by {
        forall i | 0 <= i < |path[1..]| - 1
          ensures DependsOn(slots, path[1..][i], path[1..][i + 1])
        {
          assert DependsOn(slots, path[i + 1], path[i + 2]);
        }
      }
      PathsGoBack(slots, path[1..]);
    }
  }

  /** In every careful run from start-up, and so in every run that only registers, each
      dependency is met by an earlier module and no chain of dependencies is a cycle. */
  lemma EveryCarefulRunIsAcyclic(ops: seq<Op>, path: seq<nat>)
    requires CarefulRun(Start(), ops)
    ensures Inv(Run(Start(), ops))
    ensures Path(Run(Start(), ops).slots, path) && |path| > 1 ==> path[0] != path[|path| - 1]
  {
    StartInv();
    RunInv(Start(), ops);
    if Path(Run(Start(), ops).slots, path) && |path| > 1 {
      PathsGoBack(Run(Start(), ops).slots, path);
    }
  }

  /** Slots filled from the front, in the order of registration. */
  predicate InOrder(r: Registry) {
    && |r.slots| == MAX_MODULES && r.num == r.clock <= MAX_MODULES
    && (forall k :: 0 <= k < r.num ==> r.slots[k].Some? && r.slots[k].value.stamp == k)
    && (forall k :: r.num <= k < MAX_MODULES ==> r.slots[k].None?)
  }

  predicate OnlyAdds(ops: seq<Op>) {
    forall i :: 0 <= i < |ops| ==> ops[i].Add?
  }

  lemma RegisterInOrder(r: Registry, m: Module, init: Option<int>)
    requires InOrder(r)
    ensures InOrder(Register(r, m, init).0)
  {
    if r.num < MAX_MODULES {
      assert r.slots[r.num].None?;
      assert Free(r.slots, 0) == r.num;
    }
  }

  lemma {:induction false} OnlyAddsInOrder(r: Registry, ops: seq<Op>)
    requires InOrder(r) && OnlyAdds(ops)
    ensures CarefulRun(r, ops) && InOrder(Run(r, ops))
    decreases |ops|
  {
    if ops != [] {
      RegisterInOrder(r, ops[0].m, ops[0].init);
      OnlyAddsInOrder(Apply(r, ops[0]), ops[1..]);
    }
  }

  /** In a run that only registers, every dependency resolves to a lower slot. */
  lemma DependenciesPointDown(ops: seq<Op>, i: nat, j: nat)
    requires OnlyAdds(ops)
    ensures CarefulRun(Start(), ops)
    ensures DependsOn(Run(Start(), ops).slots, i, j) ==> j < i < Run(Start(), ops).num
  {
    OnlyAddsInOrder(Start(), ops);
    StartInv();
    RunInv(Start(), ops);
    var r := Run(Start(), ops);
    if DependsOn(r.slots, i, j) {
      assert Resolved(r.slots, r.slots[i].value);
      assert r.slots[i].value.stamp == i && r.slots[j].value.stamp == j;
    }
  }

  /** A module whose `init` failed never gets a dependent. */
  lemma FailedHasNoDependents(r: Registry, i: nat, j: nat)
    requires Inv(r) && DependsOn(r.slots, i, j)
    ensures r.slots[j].value.body.status != ERROR
  {
    assert Resolved(r.slots, r.slots[i].value);
  }

  /** A module of this name that asks for any version of the named others. */
  function Named(name: string, deps: seq<string>): Module {
    Module(name, 1, 1, false, UNLOADED, seq(|deps|, i requires 0 <= i < |deps| => Dependency(deps[i], 0, 0)))
  }

  /** Registering `a`, then `b` which needs it, then taking `a` away and registering another
      module of that name which needs `b`. */
  function Replaced(a: string, b: string): (r: Registry)
    ensures |r.slots| == MAX_MODULES
  {
    var r1 := Register(Start(), Named(a, []), None).0;
    var r2 := Register(r1, Named(b, [a]), None).0;
    var r3 := Unregister(r2, InSlot(0)).0;
    Register(r3, Named(a, [b]), None).0
  }

  lemma RegisterAt(r: Registry, m: Module, k: nat)
    requires |r.slots| == MAX_MODULES && r.num < MAX_MODULES && m.id != 0 && Satisfied(r.slots, m.deps)
    requires k < MAX_MODULES && r.slots[k].None? && forall j :: 0 <= j < k ==> r.slots[j].Some?
    requires forall j :: 0 <= j < MAX_MODULES ==> !Holds(r.slots, j, m.name)
    ensures Register(r, m, None).0 == Place(r, k, Stored(r, m, None))
  {
    assert Find(r.slots, m.name, 0) == MAX_MODULES;
    assert Free(r.slots, 0) == k;
  }

  lemma SatisfiedBy(slots: Slots, name: string, dep: string, j: nat)
    requires j < |slots| && Holds(slots, j, dep) && slots[j].value.body.status == LOADED
    requires forall i :: 0 <= i < j ==> !Holds(slots, i, dep)
    ensures Find(slots, dep, 0) == j && Satisfied(slots, Named(name, [dep]).deps)
  {
    var deps := Named(name, [dep]).deps;
    assert deps == [Dependency(dep, 0, 0)];
  }

  /** Without that care it fails: the two then depend on each other. */
  lemma CarelessRemovalMakesCycle(a: string, b: string)
    requires a != b
    ensures DependsOn(Replaced(a, b).slots, 0, 1) && DependsOn(Replaced(a, b).slots, 1, 0)
  {
    RegisterAt(Start(), Named(a, []), 0);
    var r1 := Register(Start(), Named(a, []), None).0;
    SatisfiedBy(r1.slots, b, a, 0);
    RegisterAt(r1, Named(b, [a]), 1);
    var r2 := Register(r1, Named(b, [a]), None).0;
    var r3 := Unregister(r2, InSlot(0)).0;
    SatisfiedBy(r3.slots, a, b, 1);
    RegisterAt(r3, Named(a, [b]), 0);
    MutualDependence(Replaced(a, b).slots, a, b);
  }

  lemma MutualDependence(slots: Slots, a: string, b: string)
    requires a != b && |slots| == MAX_MODULES && slots[0].Some? && slots[1].Some?
    requires slots[0].value.body == Named(a, [b]).(status := LOADED)
    requires slots[1].value.body == Named(b, [a]).(status := LOADED)
    ensures DependsOn(slots, 0, 1) && DependsOn(slots, 1, 0)
  {
    SatisfiedBy(slots, b, a, 0);
    SatisfiedBy(slots, a, b, 1);
    var d, e := Named(a, [b]).deps[0], Named(b, [a]).deps[0];
    assert d in slots[0].value.body.deps && Find(slots, d.name, 0) == 1;
    assert e in slots[1].value.body.deps && Find(slots, e.name, 0) == 0;
  }
}

/** Walking the dependency tree. */
module DependencyTree {
  import opened ModuleRegistry

  /** One line of the printed tree. */
  datatype Line = Shown(depth: nat, body: Module) | NotLoaded(depth: nat, name: string)

  /** Every dependency that can be found was registered earlier. */
  predicate Grounded(slots: Slots) {
    forall k :: 0 <= k < |slots| && slots[k].Some? ==> Below(slots, slots[k].value.body.deps, slots[k].value.stamp)
  }

  predicate Before(slots: Slots, j: nat, stamp: nat) {
    j < |slots| && slots[j].Some? && slots[j].value.stamp < stamp
  }

  /** What is needed of the dependencies still to be printed below a module. */
  predicate Below(slots: Slots, deps: seq<Dependency>, stamp: nat) {
    forall d :: d in deps && Find(slots, d.name, 0) < |slots| ==> Before(slots, Find(slots, d.name, 0), stamp)
  }

  lemma ResolvedIsGrounded(slots: Slots)
    requires AllResolved(slots)
    ensures Grounded(slots)
  {
    forall k | 0 <= k < |slots| && slots[k].Some?
      ensures Below(slots, slots[k].value.body.deps, slots[k].value.stamp)
    {
      assert Resolved(slots, slots[k].value);
    }
  }

  ghost function Tree(slots: Slots, k: nat, depth: nat): seq<Line>
    requires k < |slots| && slots[k].Some? && Grounded(slots)
    decreases slots[k].value.stamp, |slots[k].value.body.deps| + 1
  {
    var e := slots[k].value;
    [Shown(depth, e.body)] + Forest(slots, e.body.deps, depth + 1, e.stamp)
  }

  ghost function Forest(slots: Slots, deps: seq<Dependency>, depth: nat, stamp: nat): seq<Line>
    requires Grounded(slots) && Below(slots, deps, stamp)
    decreases stamp, |deps|
  {
    if deps == [] then []
    else
      var j := Find(slots, deps[0].name, 0);
      assert deps[0] in deps;
      (if j < |slots| then Tree(slots, j, depth) else [NotLoaded(depth, deps[0].name)])
      + Forest(slots, deps[1..], depth, stamp)
  }

  // ----- The tree is the set of dependency paths -----

  lemma {:induction false} LineHasPath(slots: Slots, k: nat, depth: nat, line: Line) returns (path: seq<nat>)
    requires k < |slots| && slots[k].Some? && Grounded(slots) && line.Shown? && line in Tree(slots, k, depth)
    ensures path != [] && path[0] == k && Path(slots, path) && line.depth == depth + |path| - 1
    ensures path[|path| - 1] < |slots| && slots[path[|path| - 1]].Some?
    ensures slots[path[|path| - 1]].value.body == line.body
    decreases slots[k].value.stamp, |slots[k].value.body.deps| + 1
  {
    var e := slots[k].value;
    if line == Shown(depth, e.body) {
      path := [k];
    } else {
      var rest := ForestHasPath(slots, e.body.deps, depth + 1, e.stamp, line, k);
      path := [k] + rest;
      PathExtends(slots, k, rest);
    }
  }

  lemma PathExtends(slots: Slots, k: nat, rest: seq<nat>)
    requires rest != [] && Path(slots, rest) && DependsOn(slots, k, rest[0])
    ensures Path(slots, [k] + rest)
  {
    var path := [k] + rest;
    forall i | 0 <= i < |path| - 1
      ensures DependsOn(slots, path[i], path[i + 1])
    {
      if i > 0 {
        assert DependsOn(slots, rest[i - 1], rest[i]);
      }
    }
  }

  lemma ForestSplit(slots: Slots, deps: seq<Dependency>, depth: nat, stamp: nat, line: Line)
    requires Grounded(slots) && Below(slots, deps, stamp) && line.Shown? && line in Forest(slots, deps, depth, stamp)
    ensures deps != [] && Below(slots, deps[1..], stamp)
    ensures var j := Find(slots, deps[0].name, 0);
            line in Forest(slots, deps[1..], depth, stamp) ||
            (j < |slots| && slots[j].Some? && line in Tree(slots, j, depth))
  {
    assert deps[0] in deps && forall d :: d in deps[1..] ==> d in deps;
  }

  lemma DependsBy(slots: Slots, k: nat, d: Dependency, j: nat)
    requires k < |slots| && slots[k].Some? && d in slots[k].value.body.deps && Find(slots, d.name, 0) == j < |slots|
    ensures DependsOn(slots, k, j)
  {
  }

  lemma {:induction false} ForestHasPath(slots: Slots, deps: seq<Dependency>, depth: nat, stamp: nat, line: Line,
                                         k: nat)
    returns (path: seq<nat>)
    requires Grounded(slots) && Below(slots, deps, stamp) && line.Shown? && line in Forest(slots, deps, depth, stamp)
    requires k < |slots| && slots[k].Some? && forall d :: d in deps ==> d in slots[k].value.body.deps
    ensures path != [] && DependsOn(slots, k, path[0]) && Path(slots, path) && line.depth == depth + |path| - 1
    ensures path[|path| - 1] < |slots| && slots[path[|path| - 1]].Some?
    ensures slots[path[|path| - 1]].value.body == line.body
    decreases stamp, |deps|
  {
    var j := Find(slots, deps[0].name, 0);
    assert deps[0] in deps;
    ForestSplit(slots, deps, depth, stamp, line);
    if j < |slots| && line in Tree(slots, j, depth) {
      path := LineHasPath(slots, j, depth, line);
      DependsBy(slots, k, deps[0], j);
    } else {
      path := ForestHasPath(slots, deps[1..], depth, stamp, line, k);
    }
  }

  lemma {:induction false} PathHasLine(slots: Slots, path: seq<nat>, depth: nat)
    requires Grounded(slots) && path != [] && Path(slots, path) && path[0] < |slots| && slots[path[0]].Some?
    ensures path[|path| - 1] < |slots| && slots[path[|path| - 1]].Some?
    ensures Shown(depth + |path| - 1, slots[path[|path| - 1]].value.body) in Tree(slots, path[0], depth)
    decreases |path|
  {
    if |path| > 1 {
      var k, rest := path[0], path[1..];
      assert DependsOn(slots, path[0], path[1]);
      assert Path(slots, rest) by {
        forall i | 0 <= i < |rest| - 1
          ensures DependsOn(slots, rest[i], rest[i + 1])
        {
          assert DependsOn(slots, path[i + 1], path[i + 2]);
        }
      }
      PathHasLine(slots, rest, depth + 1);
      var e := slots[k].value;
      var d :| d in e.body.deps && Find(slots, d.name, 0) == path[1];
      ForestHasTree(slots, e.body.deps, depth + 1, e.stamp, d,
                    Shown(depth + |path| - 1, slots[path[|path| - 1]].value.body));
    }
  }

  lemma {:induction false} ForestHasTree(slots: Slots, deps: seq<Dependency>, depth: nat, stamp: nat,
                                         d: Dependency, line: Line)
    requires Grounded(slots) && Below(slots, deps, stamp) && d in deps && Find(slots, d.name, 0) < |slots|
    requires line in Tree(slots, Find(slots, d.name, 0), depth)
    ensures line in Forest(slots, deps, depth, stamp)
    decreases |deps|
  {
    if deps[0] != d {
      ForestHasTree(slots, deps[1..], depth, stamp, d, line);
    }
  }

  /** The printed tree lists exactly the ends of the dependency paths from its root, each as
      deep as its path is long. */
  lemma TreeIsAllPaths(slots: Slots, k: nat, depth: nat, body: Module)
    requires k < |slots| && slots[k].Some? && Grounded(slots)
    ensures Shown(depth, body) in Tree(slots, k, 0) <==>
            exists path: seq<nat> :: Leads(slots, path, k, depth, body)
  {
    if Shown(depth, body) in Tree(slots, k, 0) {
      var path := LineHasPath(slots, k, 0, Shown(depth, body));
      assert Leads(slots, path, k, depth, body);
    }
    if path: seq<nat> :| Leads(slots, path, k, depth, body) {
      PathHasLine(slots, path, 0);
    }
  }

  predicate Leads(slots: Slots, path: seq<nat>, k: nat, depth: nat, body: Module) {
    |path| == depth + 1 && path[0] == k && Path(slots, path) &&
    path[depth] < |slots| && slots[path[depth]].Some? && slots[path[depth]].value.body == body
  }

  /** With all dependencies resolved nothing is reported missing. */
  lemma {:induction false} NothingMissing(slots: Slots, k: nat, depth: nat)
    requires k < |slots| && slots[k].Some? && AllResolved(slots) && Grounded(slots)
    ensures forall line :: line in Tree(slots, k, depth) ==> line.Shown?
    decreases slots[k].value.stamp, |slots[k].value.body.deps| + 1
  {
    var e := slots[k].value;
    assert Resolved(slots, e);
    NothingMissingBelow(slots, e.body.deps, depth + 1, e.stamp);
  }

  lemma {:induction false} NothingMissingBelow(slots: Slots, deps: seq<Dependency>, depth: nat, stamp: nat)
    requires AllResolved(slots) && Grounded(slots) && Below(slots, deps, stamp)
    requires forall d :: d in deps ==> EarlierProvides(slots, Find(slots, d.name, 0), d, stamp)
    ensures forall line :: line in Forest(slots, deps, depth, stamp) ==> line.Shown?
    decreases stamp, |deps|
  {
    if deps != [] {
      assert deps[0] in deps;
      NothingMissing(slots, Find(slots, deps[0].name, 0), depth);
      NothingMissingBelow(slots, deps[1..], depth, stamp);
    }
  }

  /** No line is deeper than its root is old. */
  lemma DepthBounded(slots: Slots, k: nat, line: Line)
    requires k < |slots| && slots[k].Some? && AllResolved(slots) && Grounded(slots)
    requires line in Tree(slots, k, 0)
    ensures line.depth <= slots[k].value.stamp
  {
    NothingMissing(slots, k, 0);
    var path := LineHasPath(slots, k, 0, line);
    if |path| > 1 {
      PathsGoBack(slots, path);
    }
  }

  // ----- The indent buffer -----

  /** The bytes of the indent buffer, one of which must stay NUL. */
  const INDENT := 64

  /** Every module shown fits its indent of two spaces a level, and the NUL after it. */
  predicate IndentFits(lines: seq<Line>) {
    forall line :: line in lines && line.Shown? ==> 2 * line.depth < INDENT
  }

  ghost predicate PathsAtMost(slots: Slots, k: nat, n: nat) {
    forall path: seq<nat> :: path != [] && path[0] == k && Path(slots, path) ==> |path| <= n
  }

  /** Printed from depth 0, the indents fit exactly when no dependency path from the root has
      more than 32 modules. */
  lemma IndentFitsExactlyWhenPathsShort(slots: Slots, k: nat)
    requires k < |slots| && slots[k].Some? && Grounded(slots)
    ensures IndentFits(Tree(slots, k, 0)) <==> PathsAtMost(slots, k, 32)
  {
    if PathsAtMost(slots, k, 32) {
      forall line | line in Tree(slots, k, 0) && line.Shown?
        ensures 2 * line.depth < INDENT
      {
        var path := LineHasPath(slots, k, 0, line);
      }
    }
    if path: seq<nat> :| path != [] && path[0] == k && Path(slots, path) && |path| > 32 {
      PathHasLine(slots, path, 0);
    }
  }

  /** So they fit for each of the first 32 modules registered. */
  lemma EarlyRootsFit(slots: Slots, k: nat)
    requires k < |slots| && slots[k].Some? && AllResolved(slots) && Grounded(slots) && slots[k].value.stamp < 32
    ensures IndentFits(Tree(slots, k, 0))
  {
    forall line | line in Tree(slots, k, 0)
      ensures 2 * line.depth < INDENT
    {
      DepthBounded(slots, k, line);
    }
  }

  /** And not from the last of more than 32 modules each of which depends on the one before. */
  lemma LongChainDoesNotFit(slots: Slots, n: nat)
    requires n < |slots| && n >= 32 && slots[n].Some? && Grounded(slots)
    requires forall i, j :: 0 <= j < n && i == j + 1 ==> DependsOn(slots, i, j)
    ensures !IndentFits(Tree(slots, n, 0))
  {
    var path := seq(n + 1, i requires 0 <= i <= n => n - i);
    forall i | 0 <= i < |path| - 1
      ensures DependsOn(slots, path[i], path[i + 1])
    {
      assert path[i] == path[i + 1] + 1;
    }
    assert Path(slots, path) && path != [] && path[0] == n && |path| > 32;
    IndentFitsExactlyWhenPathsShort(slots, n);
  }
}

/** The calls themselves. */
module Modules {
  import opened Options
  import opened Sequences
  import opened ModuleRegistry
  import opened DependencyTree

  class ModuleSystem {
    var slots: Slots
    var num: int
    var nextId: nat
    var clock: nat

    ghost function View(): Registry
      reads this
    {
      Registry(slots, num, nextId, clock)
    }

    /** `module_system_init` on a fresh kernel. */
    constructor ()
      ensures View() == Start() && Inv(View())
    {
      slots := seq(MAX_MODULES, i => None);
      num, nextId, clock := 0, 1, 0;
      new;
      StartInv();
    }

    /** The slot of the module with this name; the number of slots if there is none. */
    method FindByName(name: string) returns (k: nat)
      ensures k == Find(slots, name, 0)
    {
      k := 0;
      while k < |slots|
        invariant k <= |slots| && Find(slots, name, 0) == Find(slots, name, k)
      {
        if slots[k].Some? && slots[k].value.body.name == name {
          return;
        }
        k := k + 1;
      }
    }

    method CheckDependencies(m: Module) returns (ok: bool)
      ensures ok <==> Satisfied(slots, m.deps)
    {
      var i := 0;
      while i < |m.deps|
        invariant 0 <= i <= |m.deps|
        invariant forall j :: 0 <= j < i ==> Provides(slots, Find(slots, m.deps[j].name, 0), m.deps[j])
      {
        var met := CheckDependency(m.deps[i]);
        if !met {
          assert m.deps[i] in m.deps;
          return false;
        }
        i := i + 1;
      }
      return true;
    }

    method CheckDependency(d: Dependency) returns (met: bool)
      ensures met <==> Provides(slots, Find(slots, d.name, 0), d)
    {
      var k := FindByName(d.name);
      if k == |slots| {
        return false;
      }
      var m := slots[k].value.body;
      if d.min > 0 && m.version < d.min {
        return false;
      }
      if d.max > 0 && m.version > d.max {
        return false;
      }
      return m.status == LOADED || m.status == DISABLED;
    }

    method Register(m: Module, init: Option<int>) returns (code: int)
      requires Inv(View())
      modifies this
      ensures Inv(View()) && (View(), code) == ModuleRegistry.Register(old(View()), m, init)
    {
      RegisterInv(View(), m, init);
      if num >= MAX_MODULES {
        return NO_ROOM;
      }
      var same := FindByName(m.name);
      if same < |slots| {
        return DUPLICATE;
      }
      code := Admit(m, init);
    }

    method Admit(m: Module, init: Option<int>) returns (code: int)
      requires Inv(View()) && num < MAX_MODULES && Find(slots, m.name, 0) == |slots|
      modifies this
      ensures (View(), code) == ModuleRegistry.Register(old(View()), m, init)
    {
      RegisterInv(View(), m, init);
      var stored := m;
      if stored.id == 0 {
        stored, nextId := stored.(id := nextId), nextId + 1;
      }
      var met := CheckDependencies(m);
      if !met {
        return DEPENDENCY;
      }
      code := Add(stored, init);
    }

    /** The placing loop, then `init`. */
    method Add(m: Module, init: Option<int>) returns (code: int)
      modifies this`slots, this`num, this`clock
      ensures var k := Free(old(slots), 0);
              if k == |old(slots)| then View() == old(View()) && code == NO_ROOM
              else View() == Place(old(View()), k, Stored(old(View()), m, init).(id := m.id)) && code == InitCode(init)
    {
      var i: nat := 0;
      while i < |slots|
        invariant i <= |slots| && Free(slots, 0) == Free(slots, i)
        invariant View() == old(View())
      {
        if slots[i].None? {
          var stored := if m.status == UNLOADED then m.(status := LOADED) else m;
          slots, num, clock := slots[i := Some(Entry(stored, clock))], num + 1, clock + 1;
          if init.Some? && init.value != 0 {
            slots := slots[i := Some(slots[i].value.(body := slots[i].value.body.(status := ERROR)))];
            return INIT_FAILED;
          }
          return SUCCESS;
        }
        i := i + 1;
      }
      return NO_ROOM;
    }

    /** `module_unregister`. */
    method Unregister(m: Target) returns (code: int)
      requires Inv(View()) && (m.InSlot? ==> m.slot < |slots|)
      modifies this`slots, this`num
      ensures (View(), code) == ModuleRegistry.Unregister(old(View()), m)
      ensures old(SafeToRemove(View(), m)) ==> Inv(View())
    {
      if SafeToRemove(View(), m) {
        UnregisterInv(View(), m);
      }
      if (m.InSlot? && slots[m.slot].Some? && slots[m.slot].value.body.essential) ||
         (m.Elsewhere? && m.body.essential) {
        return PERMISSION;
      }
      var i := 0;
      while i < |slots|
        invariant 0 <= i <= |slots| && View() == old(View()) && (m.InSlot? && slots[m.slot].Some? ==> i <= m.slot)
      {
        if m == InSlot(i) && slots[i].Some? {
          slots, num := slots[i := None], num - 1;
          return SUCCESS;
        }
        i := i + 1;
      }
      return NOT_FOUND;
    }

    /** `module_print_dependency_tree`: it ends because every call goes to an earlier module. */
    method PrintTree(k: nat, depth: nat) returns (lines: seq<Line>)
      requires k < |slots| && slots[k].Some? && Grounded(slots)
      ensures lines == Tree(slots, k, depth)
      decreases slots[k].value.stamp
    {
      var e := slots[k].value;
      lines := [Shown(depth, e.body)];
      var deps := e.body.deps;
      while deps != []
        invariant Below(slots, deps, e.stamp)
        invariant lines + Forest(slots, deps, depth + 1, e.stamp) == Tree(slots, k, depth)
        decreases |deps|
      {
        assert deps[0] in deps;
        var j := FindByName(deps[0].name);
        var below;
        if j < |slots| {
          below := PrintTree(j, depth + 1);
        } else {
          below := [NotLoaded(depth + 1, deps[0].name)];
        }
        Regroup(lines, below, Forest(slots, deps[1..], depth + 1, e.stamp));
        lines := lines + below;
        deps := deps[1..];
      }
    }
  }
}
