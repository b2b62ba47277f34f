/** Cycles and long chains in the module registry: when a registration closes a cycle, and a run
    that builds a chain as long as the registry is large. */
module ModuleCycles {
  import opened Options
  import opened ModuleRegistry
  import opened DependencyTree

  // ----- When a registration closes a cycle -----

  predicate Cycle(slots: Slots, path: seq<nat>) {
    |path| > 1 && Path(slots, path) && path[0] == path[|path| - 1]
  }

  ghost predicate Acyclic(slots: Slots) {
    forall path: seq<nat> :: !Cycle(slots, path)
  }

  predicate Names(e: Entry, name: string) {
    exists d :: d in e.body.deps && d.name == name
  }

  /** A path from a dependency of the new module to a module that names it. */
  predicate LeadsBack(slots: Slots, e: Entry, path: seq<nat>) {
    && path != [] && Path(slots, path) && (forall i :: 0 <= i < |path| ==> path[i] < |slots| && slots[path[i]].Some?)
    && Names(e, slots[path[0]].value.body.name) && Find(slots, slots[path[0]].value.body.name, 0) == path[0]
    && Names(slots[path[|path| - 1]].value, e.body.name)
  }

  /** The slot `k` is free and the module to go there has a new name and met dependencies. */
  predicate Admissible(slots: Slots, k: nat, e: Entry) {
    k < |slots| && slots[k].None? && Find(slots, e.body.name, 0) == |slots| && Satisfied(slots, e.body.deps)
  }

  lemma FindAfterNew(slots: Slots, k: nat, e: Entry, name: string)
    requires Admissible(slots, k, e)
    ensures Find(slots[k := Some(e)], name, 0) == if name == e.body.name then k else Find(slots, name, 0)
  {
    var after := slots[k := Some(e)];
    if name == e.body.name {
      assert forall i :: 0 <= i < k ==> Holds(after, i, name) == Holds(slots, i, name) == false;
      FirstHolder(after, name, k);
    } else {
      assert forall i :: 0 <= i < |slots| ==> Holds(after, i, name) == Holds(slots, i, name);
      FirstHolder(after, name, Find(slots, name, 0));
    }
  }

  lemma FirstHolder(slots: Slots, name: string, j: nat)
    requires j <= |slots| && (j < |slots| ==> Holds(slots, j, name))
    requires forall i :: 0 <= i < j ==> !Holds(slots, i, name)
    ensures Find(slots, name, 0) == j
  {
  }

  /** Between other modules nothing changes. */
  lemma SameEdges(slots: Slots, k: nat, e: Entry, i: nat, j: nat)
    requires Admissible(slots, k, e) && i != k && j != k
    ensures DependsOn(slots[k := Some(e)], i, j) <==> DependsOn(slots, i, j)
  {
    var after := slots[k := Some(e)];
    if i < |slots| && slots[i].Some? {
      forall d | d in slots[i].value.body.deps
        ensures j < |slots| ==> (Find(after, d.name, 0) == j <==> Find(slots, d.name, 0) == j)
      {
        FindAfterNew(slots, k, e, d.name);
      }
    }
  }

  lemma EdgeTo(slots: Slots, k: nat, e: Entry, i: nat)
    requires Admissible(slots, k, e) && i < |slots| && slots[i].Some?
    ensures DependsOn(slots[k := Some(e)], i, k) <==> Names(slots[i].value, e.body.name)
  {
    var after := slots[k := Some(e)];
    forall d | d in slots[i].value.body.deps
      ensures Find(after, d.name, 0) == k <==> d.name == e.body.name
    {
      FindAfterNew(slots, k, e, d.name);
    }
  }

  lemma EdgeFrom(slots: Slots, k: nat, e: Entry, j: nat)
    requires Admissible(slots, k, e)
    ensures DependsOn(slots[k := Some(e)], k, j) <==>
            j < |slots| && slots[j].Some? && Names(e, slots[j].value.body.name) &&
            Find(slots, slots[j].value.body.name, 0) == j
  {
    var after := slots[k := Some(e)];
    forall d | d in e.body.deps
      ensures Find(after, d.name, 0) == Find(slots, d.name, 0) < |slots|
    {
      assert Provides(slots, Find(slots, d.name, 0), d);
      FindAfterNew(slots, k, e, d.name);
    }
  }

  /** A way back closes a cycle through the new module. */
  lemma WayBackCloses(slots: Slots, k: nat, e: Entry, path: seq<nat>)
    requires Admissible(slots, k, e) && LeadsBack(slots, e, path)
    ensures Cycle(slots[k := Some(e)], [k] + path + [k])
  {
    var after := slots[k := Some(e)];
    var c := [k] + path + [k];
    forall i | 0 <= i < |c| - 1
      ensures DependsOn(after, c[i], c[i + 1])
    {
      if i == 0 {
        EdgeFrom(slots, k, e, path[0]);
      } else if i == |path| {
        EdgeTo(slots, k, e, path[|path| - 1]);
      } else {
        assert DependsOn(slots, path[i - 1], path[i]);
        SameEdges(slots, k, e, path[i - 1], path[i]);
      }
    }
  }

  /** The first step at which the path is at `k` again. */
  function Return(path: seq<nat>, k: nat, i: nat): (r: nat)
    requires i < |path| && path[|path| - 1] == k
    ensures i <= r < |path| && path[r] == k && forall j :: i <= j < r ==> path[j] != k
    decreases |path| - i
  {
    if path[i] == k then i else Return(path, k, i + 1)
  }

  /** A cycle from the new module runs along a way back. */
  lemma CycleFollowsWayBack(slots: Slots, k: nat, e: Entry, c: seq<nat>)
    requires Admissible(slots, k, e) && Cycle(slots[k := Some(e)], c) && c[0] == k
    ensures LeadsBack(slots, e, c[1..Return(c, k, 1)])
  {
    var after := slots[k := Some(e)];
    var r := Return(c, k, 1);
    var path := c[1..r];
    assert DependsOn(after, c[0], c[1]) && DependsOn(after, c[r - 1], c[r]);
    EdgeFrom(slots, k, e, c[1]);
    assert r > 1;
    forall i | 0 <= i < |path| - 1
      ensures DependsOn(slots, path[i], path[i + 1])
    {
      assert DependsOn(after, c[i + 1], c[i + 2]);
      SameEdges(slots, k, e, path[i], path[i + 1]);
    }
    forall i | 0 <= i < |path|
      ensures path[i] < |slots| && slots[path[i]].Some?
    {
      assert DependsOn(after, c[i + 1], c[i + 2]);
    }
    EdgeTo(slots, k, e, c[r - 1]);
  }

  /** A cycle through `k` can be entered there. */
  lemma Rotated(slots: Slots, c: seq<nat>, i: nat)
    requires Cycle(slots, c) && i < |c| - 1
    ensures Cycle(slots, c[i..] + c[1..i + 1]) && (c[i..] + c[1..i + 1])[0] == c[i]
  {
    var r := c[i..] + c[1..i + 1];
    forall j | 0 <= j < |r| - 1
      ensures DependsOn(slots, r[j], r[j + 1])
    {
      var m := if i + j < |c| - 1 then i + j else i + j - (|c| - 1);
      assert r[j] == c[m] && r[j + 1] == c[m + 1];
    }
  }

  lemma CycleElsewhere(slots: Slots, k: nat, e: Entry, c: seq<nat>)
    requires Admissible(slots, k, e) && Cycle(slots[k := Some(e)], c) && k !in c
    ensures Cycle(slots, c)
  {
    forall i | 0 <= i < |c| - 1
      ensures DependsOn(slots, c[i], c[i + 1])
    {
      assert DependsOn(slots[k := Some(e)], c[i], c[i + 1]);
      SameEdges(slots, k, e, c[i], c[i + 1]);
    }
  }

  /** A registration keeps an acyclic graph acyclic exactly when no module that its dependencies
      lead to names it. */
  lemma RegistrationClosesCycleExactlyWhenNamed(slots: Slots, k: nat, e: Entry)
    requires Admissible(slots, k, e) && Acyclic(slots)
    ensures Acyclic(slots[k := Some(e)]) <==> forall path: seq<nat> :: !LeadsBack(slots, e, path)
  {
    var after := slots[k := Some(e)];
    if path: seq<nat> :| LeadsBack(slots, e, path) {
      WayBackCloses(slots, k, e, path);
    } else if c: seq<nat> :| Cycle(after, c) {
      var path := WayBackOf(slots, k, e, c);
      assert false;
    }
  }

  lemma WayBackOf(slots: Slots, k: nat, e: Entry, c: seq<nat>) returns (path: seq<nat>)
    requires Admissible(slots, k, e) && Acyclic(slots) && Cycle(slots[k := Some(e)], c)
    ensures LeadsBack(slots, e, path)
  {
    if k !in c {
      CycleElsewhere(slots, k, e, c);
      assert false;
    } else {
      var i :| 0 <= i < |c| && c[i] == k;
      var m := if i < |c| - 1 then i else 0;
      Rotated(slots[k := Some(e)], c, m);
      var r := c[m..] + c[1..m + 1];
      CycleFollowsWayBack(slots, k, e, r);
      path := r[1..Return(r, k, 1)];
    }
  }

  /** `module_register` returns an error and stores nothing. */
  predicate Refused(r: Registry, m: Module) {
    r.num >= MAX_MODULES || Find(r.slots, m.name, 0) < |r.slots| ||
    !Satisfied(r.slots, m.deps) || Free(r.slots, 0) == |r.slots|
  }

  lemma SameWaysBack(slots: Slots, e: Entry, e': Entry, path: seq<nat>)
    requires e.body.name == e'.body.name && e.body.deps == e'.body.deps
    ensures LeadsBack(slots, e, path) <==> LeadsBack(slots, e', path)
  {
    assert forall name: string :: Names(e, name) == Names(e', name);
  }

  /** The same of `module_register` itself. */
  lemma RegisterKeepsAcyclicExactlyWhen(r: Registry, m: Module, init: Option<int>)
    requires Acyclic(r.slots)
    ensures Acyclic(Register(r, m, init).0.slots) <==>
            Refused(r, m) || forall path: seq<nat> :: !LeadsBack(r.slots, Entry(m, r.clock), path)
  {
    if !Refused(r, m) {
      var e := Entry(Stored(r, m, init), r.clock);
      RegistrationClosesCycleExactlyWhenNamed(r.slots, Free(r.slots, 0), e);
      forall path: seq<nat>
        ensures LeadsBack(r.slots, e, path) <==> LeadsBack(r.slots, Entry(m, r.clock), path)
      {
        SameWaysBack(r.slots, e, Entry(m, r.clock), path);
      }
    }
  }

  /** Unregistering closes no cycle. */
  lemma UnregisterKeepsAcyclic(r: Registry, m: Target)
    requires (m.InSlot? ==> m.slot < |r.slots|) && DistinctNames(r.slots) && Acyclic(r.slots)
    ensures Acyclic(Unregister(r, m).0.slots)
  {
    var after := Unregister(r, m).0.slots;
    if c: seq<nat> :| Cycle(after, c) {
      forall i | 0 <= i < |c| - 1
        ensures DependsOn(r.slots, c[i], c[i + 1])
      {
        assert DependsOn(after, c[i], c[i + 1]);
        FindUnique(r.slots, c[i + 1]);
      }
      assert Cycle(r.slots, c);
    }
  }

  // ----- The longest chain -----

  function Tag(i: nat): string {
    seq(i, _ => 'm')
  }

  /** Module `i` needs module `i - 1`. */
  function Link(i: nat): Module {
    Named(Tag(i), if i == 0 then [] else [Tag(i - 1)])
  }

  /** Registering modules `k` to `n - 1` of the chain. */
  function Links(k: nat, n: nat): seq<Op>
    requires k <= n
    decreases n - k
  {
    if k == n then [] else [Add(Link(k), None)] + Links(k + 1, n)
  }

  predicate Built(r: Registry, k: nat) {
    InOrder(r) && r.num == k && forall i :: 0 <= i < k ==> r.slots[i].value.body == Link(i).(status := LOADED)
  }

  lemma FindTag(r: Registry, k: nat, i: nat)
    requires Built(r, k)
    ensures Find(r.slots, Tag(i), 0) == if i < k then i else MAX_MODULES
  {
    forall j | 0 <= j < MAX_MODULES
      ensures Holds(r.slots, j, Tag(i)) <==> j == i < k
    {
      if j < k {
        assert r.slots[j].value.body.name == Tag(j) && |Tag(j)| == j && |Tag(i)| == i;
      }
    }
    FirstHolder(r.slots, Tag(i), if i < k then i else MAX_MODULES);
  }

  lemma BuildOne(r: Registry, k: nat)
    requires Built(r, k) && k < MAX_MODULES
    ensures Built(Register(r, Link(k), None).0, k + 1)
  {
    FindTag(r, k, k);
    if k > 0 {
      FindTag(r, k, k - 1);
      SatisfiedBy(r.slots, Tag(k), Tag(k - 1), k - 1);
    }
    RegisterAt(r, Link(k), k);
  }

  lemma {:induction false} BuildAll(r: Registry, k: nat, n: nat)
    requires Built(r, k) && k <= n <= MAX_MODULES
    ensures CarefulRun(r, Links(k, n)) && Built(Run(r, Links(k, n)), n)
    decreases n - k
  {
    if k < n {
      var ops := Links(k, n);
      BuildOne(r, k);
      BuildAll(Apply(r, ops[0]), k + 1, n);
      assert ops[1..] == Links(k + 1, n);
    }
  }

  lemma LinkDepends(r: Registry, k: nat, i: nat)
    requires Built(r, k) && 0 < i < k
    ensures DependsOn(r.slots, i, i - 1)
  {
    FindTag(r, k, i - 1);
    assert Link(i).deps[0] in r.slots[i].value.body.deps;
  }

  /** Registering a chain of `n + 1` modules succeeds, and from 33 modules on the tree of the last
      does not fit its indent buffer. */
  lemma RegisteredChainDoesNotFit(n: nat)
    requires 32 <= n < MAX_MODULES
    ensures CarefulRun(Start(), Links(0, n + 1))
    ensures var r := Run(Start(), Links(0, n + 1));
            && r.num == n + 1 && |r.slots| == MAX_MODULES && r.slots[n].Some? && Grounded(r.slots)
            && !IndentFits(Tree(r.slots, n, 0))
  {
    BuildAll(Start(), 0, n + 1);
    StartInv();
    RunInv(Start(), Links(0, n + 1));
    var r := Run(Start(), Links(0, n + 1));
    ResolvedIsGrounded(r.slots);
    forall i, j | 0 <= j < n && i == j + 1
      ensures DependsOn(r.slots, i, j)
    {
      LinkDepends(r, n + 1, i);
    }
    LongChainDoesNotFit(r.slots, n);
  }
}
