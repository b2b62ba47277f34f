/** The re-entrant mutex of kernel/sync.c under every interleaving.

    Each task runs `mutex_lock`, `mutex_try_lock` and `mutex_unlock` one shared-memory access
    at a time: the owner checks and the re-entrant increment happen without the spinlock, and
    `lock_count++` and `lock_count--` are a read and a later write. */
module Mutex {

  const NOBODY := -1

  datatype Call = Lock | TryLock | Unlock

  /** Where a task stands inside a call; `trying` tells `mutex_try_lock` from `mutex_lock`. */
  datatype Pc =
    | Idle
    | CheckOwner(trying: bool)
    | BumpRead(trying: bool)
    | BumpWrite(trying: bool, seen: int)
    | Acquire(trying: bool)
    | TestOwner(trying: bool)
    | SetOwner(trying: bool)
    | SetCount(trying: bool)
    | Release(trying: bool, won: bool)
    | UnlockCheck
    | UnlockAcquire
    | UnlockRead
    | UnlockWrite(seen: int)
    | UnlockTest
    | UnlockClear
    | UnlockRelease

  /** `depth` counts, per task, the lock and try-lock calls that returned successfully minus
      the unlock calls that were let through. */
  datatype State = State(spin: bool, owner: int, count: int, pc: map<int, Pc>, depth: map<int, int>)

  datatype Event = Begin(task: int, call: Call) | Step(task: int)

  predicate Tasks(s: State) {
    s.pc.Keys == s.depth.Keys && NOBODY !in s.pc
  }

  function Init(ids: set<int>): State {
    State(false, NOBODY, 0, map t | t in ids :: Idle, map t | t in ids :: 0)
  }

  /** What one access leaves: the shared variables, where the task stands, and by how much the
      number of its successful calls changes. */
  datatype Moved = Moved(spin: bool, owner: int, count: int, pc: Pc, gain: int)

  /** One access of task `t`, which sees the shared variables and its own position only. */
  function Access(spin: bool, owner: int, count: int, t: int, pc: Pc): Moved {
    match pc
    case Idle => Moved(spin, owner, count, Idle, 0)
    case CheckOwner(trying) => Moved(spin, owner, count, if owner == t then BumpRead(trying) else Acquire(trying), 0)
    case BumpRead(trying) => Moved(spin, owner, count, BumpWrite(trying, count), 0)
    case BumpWrite(_, seen) => Moved(spin, owner, seen + 1, Idle, 1)
    case Acquire(trying) =>
      if !spin then Moved(true, owner, count, TestOwner(trying), 0)
      else Moved(spin, owner, count, if trying then Idle else pc, 0)
    case TestOwner(trying) =>
      Moved(spin, owner, count, if owner == NOBODY then SetOwner(trying) else Release(trying, false), 0)
    case SetOwner(trying) => Moved(spin, t, count, SetCount(trying), 0)
    case SetCount(trying) => Moved(spin, owner, 1, Release(trying, true), 0)
    case Release(trying, won) =>
      if won then Moved(false, owner, count, Idle, 1)
      else Moved(false, owner, count, if trying then Idle else Acquire(false), 0)
    case UnlockCheck =>
      if owner == t then Moved(spin, owner, count, UnlockAcquire, -1) else Moved(spin, owner, count, Idle, 0)
    case UnlockAcquire => if !spin then Moved(true, owner, count, UnlockRead, 0) else Moved(spin, owner, count, pc, 0)
    case UnlockRead => Moved(spin, owner, count, UnlockWrite(count), 0)
    case UnlockWrite(seen) => Moved(spin, owner, seen - 1, UnlockTest, 0)
    case UnlockTest => Moved(spin, owner, count, if count == 0 then UnlockClear else UnlockRelease, 0)
    case UnlockClear => Moved(spin, NOBODY, count, UnlockRelease, 0)
    case UnlockRelease => Moved(false, owner, count, Idle, 0)
  }

  function Entry(call: Call): Pc {
    match call
    case Lock => CheckOwner(false)
    case TryLock => CheckOwner(true)
    case Unlock => UnlockCheck
  }

  /** One event: a call starts, or a task inside a call makes its next access. */
  function Next(s: State, e: Event): (r: State)
    requires Tasks(s) && e.task in s.pc
    ensures Tasks(r) && r.pc.Keys == s.pc.Keys
  {
    var t := e.task;
    match e
    case Begin(_, call) => if s.pc[t].Idle? then s.(pc := s.pc[t := Entry(call)]) else s
    case Step(_) =>
      var m := Access(s.spin, s.owner, s.count, t, s.pc[t]);
      State(m.spin, m.owner, m.count, s.pc[t := m.pc], s.depth[t := s.depth[t] + m.gain])
  }

  function Run(s: State, es: seq<Event>): State
    requires Tasks(s) && forall i :: 0 <= i < |es| ==> es[i].task in s.pc
    decreases |es|
  {
    if es == [] then s else Run(Next(s, es[0]), es[1..])
  }

  // ----- Invariant -----

  /** Program points between a successful test-and-set and the release. */
  predicate Spins(pc: Pc) {
    pc.TestOwner? || pc.SetOwner? || pc.SetCount? || pc.Release?
    || pc.UnlockRead? || pc.UnlockWrite? || pc.UnlockTest? || pc.UnlockClear? || pc.UnlockRelease?
  }

  /** Program points that only the owner can be at, and what they know about the count. */
  predicate OwnerAt(pc: Pc, count: int, depth: int) {
    match pc
    case Idle => count == depth >= 1
    case CheckOwner(_) => count == depth >= 1
    case UnlockCheck => count == depth >= 1
    case BumpRead(_) => count == depth >= 1
    case BumpWrite(_, seen) => seen == count == depth >= 1
    case SetCount(_) => count == 0 && depth == 0
    case Release(_, won) => won && count == 1 && depth == 0
    case UnlockAcquire => count == depth + 1 >= 1
    case UnlockRead => count == depth + 1 >= 1
    case UnlockWrite(seen) => seen == count == depth + 1 >= 1
    case UnlockTest => count == depth >= 0
    case UnlockClear => count == depth == 0
    case UnlockRelease => count == depth >= 1
    case _ => false
  }

  predicate OthersAt(pc: Pc, owner: int) {
    match pc
    case Idle => true
    case CheckOwner(_) => true
    case UnlockCheck => true
    case Acquire(_) => true
    case TestOwner(_) => true
    case SetOwner(_) => owner == NOBODY
    case Release(_, won) => !won
    case UnlockRelease => true
    case _ => false
  }

  predicate Inv(s: State) {
    && Tasks(s)
    && (forall t :: t in s.pc && Spins(s.pc[t]) ==> s.spin)
    && (forall t, u :: t in s.pc && u in s.pc && Spins(s.pc[t]) && Spins(s.pc[u]) ==> t == u)
    && (s.owner == NOBODY ==> s.count == 0)
    && (s.owner != NOBODY ==> s.owner in s.pc)
    && (forall t :: t in s.pc ==>
          if t == s.owner then OwnerAt(s.pc[t], s.count, s.depth[t])
          else s.depth[t] == 0 && OthersAt(s.pc[t], s.owner))
  }

  lemma InitInv(ids: set<int>)
    requires NOBODY !in ids
    ensures Inv(Init(ids))
  {
  }

  /** What the invariant asks of one task. */
  predicate PlaceOk(owner: int, count: int, t: int, pc: Pc, depth: int) {
    if t == owner then OwnerAt(pc, count, depth) else depth == 0 && OthersAt(pc, owner)
  }

  /** A move of one task that keeps the invariant: it has the spinlock, takes it now or leaves it
      alone, and changes owner and count only as far as no other owner is concerned. */
  predicate MoveOk(spin: bool, owner: int, count: int, t: int, pc: Pc, depth: int, m: Moved) {
    && (Spins(m.pc) ==> m.spin && (Spins(pc) || !spin))
    && (Spins(pc) || (spin ==> m.spin))
    && (m.owner == NOBODY ==> m.count == 0)
    && PlaceOk(m.owner, m.count, t, m.pc, depth + m.gain)
    && (|| (m.owner == owner && (owner in {t, NOBODY} || m.count == count))
        || (owner == NOBODY && m.owner == t && Spins(pc))
        || (owner == t && m.owner == NOBODY))
  }

  lemma AccessMoves(spin: bool, owner: int, count: int, t: int, pc: Pc, depth: int)
    requires t != NOBODY && PlaceOk(owner, count, t, pc, depth) && (owner == NOBODY ==> count == 0)
    requires Spins(pc) ==> spin
    ensures MoveOk(spin, owner, count, t, pc, depth, Access(spin, owner, count, t, pc))
  {
  }

  lemma MoveKeepsInv(s: State, t: int, m: Moved)
    requires Inv(s) && t in s.pc && MoveOk(s.spin, s.owner, s.count, t, s.pc[t], s.depth[t], m)
    ensures Inv(State(m.spin, m.owner, m.count, s.pc[t := m.pc], s.depth[t := s.depth[t] + m.gain]))
  {
    forall u | u in s.pc && u != t
      ensures (Spins(s.pc[u]) ==> m.spin) && PlaceOk(m.owner, m.count, u, s.pc[u], s.depth[u])
    {
      assert PlaceOk(s.owner, s.count, u, s.pc[u], s.depth[u]);
    }
  }

  lemma NextInv(s: State, e: Event)
    requires Inv(s) && e.task in s.pc
    ensures Inv(Next(s, e))
  {
    if e.Step? {
      StepInv(s, e.task);
    } else {
      BeginInv(s, e.task, e.call);
    }
  }

  lemma StepInv(s: State, t: int)
    requires Inv(s) && t in s.pc
    ensures Inv(Next(s, Step(t)))
  {
    assert PlaceOk(s.owner, s.count, t, s.pc[t], s.depth[t]);
    AccessMoves(s.spin, s.owner, s.count, t, s.pc[t], s.depth[t]);
    MoveKeepsInv(s, t, Access(s.spin, s.owner, s.count, t, s.pc[t]));
  }

  lemma BeginInv(s: State, t: int, call: Call)
    requires Inv(s) && t in s.pc
    ensures Inv(Next(s, Begin(t, call)))
  {
    assert PlaceOk(s.owner, s.count, t, s.pc[t], s.depth[t]);
    if s.pc[t].Idle? {
      MoveKeepsInv(s, t, Moved(s.spin, s.owner, s.count, Entry(call), 0));
      assert s.depth[t := s.depth[t] + 0] == s.depth;
    }
  }

  lemma {:induction false} RunInv(s: State, es: seq<Event>)
    requires Inv(s) && forall i :: 0 <= i < |es| ==> es[i].task in s.pc
    ensures Inv(Run(s, es))
    decreases |es|
  {
    if es != [] {
      NextInv(s, es[0]);
      RunInv(Next(s, es[0]), es[1..]);
    }
  }

  /** Safety of every interleaving: at most one task holds the mutex, `owner_task` names it,
      and between its calls `lock_count` is its nesting depth. */
  lemma MutualExclusion(ids: set<int>, es: seq<Event>, t: int, u: int)
    requires NOBODY !in ids && t in ids && u in ids
    requires forall i :: 0 <= i < |es| ==> es[i].task in ids
    ensures var s := Run(Init(ids), es);
            && t in s.pc && u in s.pc && t in s.depth && u in s.depth
            && (s.depth[t] > 0 && s.depth[u] > 0 ==> t == u)
            && (s.depth[t] > 0 ==> s.owner == t)
            && (s.pc[t].Idle? && s.owner == t ==> s.count == s.depth[t] >= 1)
            && (s.pc[t].Idle? && s.owner != t ==> s.depth[t] == 0)
  {
    InitInv(ids);
    RunInv(Init(ids), es);
    RunKeys(Init(ids), es);
  }

  lemma {:induction false} RunKeys(s: State, es: seq<Event>)
    requires Tasks(s) && forall i :: 0 <= i < |es| ==> es[i].task in s.pc
    ensures Tasks(Run(s, es)) && Run(s, es).pc.Keys == s.pc.Keys
    decreases |es|
  {
    if es != [] {
      RunKeys(Next(s, es[0]), es[1..]);
    }
  }

  // ----- Refinement of an atomic re-entrant lock -----

  /** The lock as its callers see it: who holds it, and how often. */
  datatype Atomic = Atomic(holder: int, depth: int)

  predicate Take(a: Atomic, t: int, b: Atomic) {
    a.holder in {NOBODY, t} && b == Atomic(t, a.depth + 1)
  }

  predicate Drop(a: Atomic, t: int, b: Atomic) {
    a.holder == t && a.depth > 0 && b == if a.depth == 1 then Atomic(NOBODY, 0) else Atomic(t, a.depth - 1)
  }

  function Abstract(s: State): Atomic
    requires s.owner != NOBODY ==> s.owner in s.pc
  {
    if s.owner == NOBODY then Atomic(NOBODY, 0) else Atomic(s.owner, Held(s.count, s.pc[s.owner]))
  }

  /** How often an owner that stands at `pc` still holds the mutex, or already does. */
  function Held(count: int, pc: Pc): int {
    if pc.SetCount? || ((pc.UnlockTest? || pc.UnlockClear?) && count == 0) then 1 else count
  }

  /** The one access at which a call takes effect. */
  predicate TakesEffect(pc: Pc) {
    match pc
    case BumpWrite(_, _) => true
    case SetOwner(_) => true
    case UnlockWrite(seen) => seen > 1
    case UnlockClear => true
    case _ => false
  }

  predicate Unlocking(pc: Pc) {
    pc.UnlockWrite? || pc.UnlockClear?
  }

  /** An access of `t` at `pc` does to the abstract lock what its effect says. */
  predicate Matches(a: Atomic, t: int, pc: Pc, b: Atomic) {
    if !TakesEffect(pc) then a == b else if Unlocking(pc) then Drop(a, t, b) else Take(a, t, b)
  }

  /** The lock as it is seen when `t` stands at `pc` and any other owner at `other`. */
  function SeenFrom(owner: int, count: int, t: int, pc: Pc, other: Pc): Atomic {
    if owner == NOBODY then Atomic(NOBODY, 0) else Atomic(owner, Held(count, if owner == t then pc else other))
  }

  lemma AccessRefines(spin: bool, owner: int, count: int, t: int, pc: Pc, depth: int, other: Pc)
    requires t != NOBODY && PlaceOk(owner, count, t, pc, depth) && (owner == NOBODY ==> count == 0)
    ensures var m := Access(spin, owner, count, t, pc);
            Matches(SeenFrom(owner, count, t, pc, other), t, pc, SeenFrom(m.owner, m.count, t, m.pc, other))
  {
  }

  /** Every access either changes nothing its callers can see, or is one atomic acquisition
      or one atomic release by the acting task. */
  lemma RefinesAtomicLock(s: State, e: Event)
    requires Inv(s) && e.task in s.pc
    ensures Inv(Next(s, e))
    ensures var a, b := Abstract(s), Abstract(Next(s, e));
            if e.Begin? then a == b else Matches(a, e.task, s.pc[e.task], b)
  {
    NextInv(s, e);
    if e.Step? {
      StepRefines(s, e.task);
    }
  }

  lemma StepRefines(s: State, t: int)
    requires Inv(s) && t in s.pc && Inv(Next(s, Step(t)))
    ensures Matches(Abstract(s), t, s.pc[t], Abstract(Next(s, Step(t))))
  {
    assert PlaceOk(s.owner, s.count, t, s.pc[t], s.depth[t]);
    var other := if s.owner in s.pc then s.pc[s.owner] else Idle;
    AccessRefines(s.spin, s.owner, s.count, t, s.pc[t], s.depth[t], other);
    AccessMoves(s.spin, s.owner, s.count, t, s.pc[t], s.depth[t]);
  }

  datatype Effect = Took(task: int) | Dropped(task: int)

  /** The acquisition or release that one event performs, if any. */
  function EffectOf(s: State, e: Event): seq<Effect>
    requires e.task in s.pc
  {
    if e.Begin? || !TakesEffect(s.pc[e.task]) then []
    else if Unlocking(s.pc[e.task]) then [Dropped(e.task)] else [Took(e.task)]
  }

  /** The acquisitions and releases of a run, in the order in which they take effect. */
  function Effects(s: State, es: seq<Event>): seq<Effect>
    requires Tasks(s) && forall i :: 0 <= i < |es| ==> es[i].task in s.pc
    decreases |es|
  {
    if es == [] then [] else EffectOf(s, es[0]) + Effects(Next(s, es[0]), es[1..])
  }

  /** `h` is a legal history of an atomic re-entrant lock from `a` to `b`. */
  predicate Legal(a: Atomic, h: seq<Effect>, b: Atomic)
    decreases |h|
  {
    if h == [] then a == b
    else
      var t := h[0].task;
      if h[0].Took? then a.holder in {NOBODY, t} && Legal(Atomic(t, a.depth + 1), h[1..], b)
      else
        && a.holder == t && a.depth > 0
        && Legal(if a.depth == 1 then Atomic(NOBODY, 0) else Atomic(t, a.depth - 1), h[1..], b)
  }

  /** Every interleaving is equivalent to a legal sequential history of an atomic lock. */
  lemma {:induction false} EveryRunLinearises(s: State, es: seq<Event>)
    requires Inv(s) && forall i :: 0 <= i < |es| ==> es[i].task in s.pc
    ensures Inv(Run(s, es))
    ensures Legal(Abstract(s), Effects(s, es), Abstract(Run(s, es)))
    decreases |es|
  {
    if es != [] {
      RefinesAtomicLock(s, es[0]);
      var rest := Effects(Next(s, es[0]), es[1..]);
      EveryRunLinearises(Next(s, es[0]), es[1..]);
      assert [] + rest == rest;
      assert forall x: Effect :: ([x] + rest)[1..] == rest;
    }
  }

  // ----- Effects and calls -----

  function MineOf(s: State, e: Event, t: int): seq<Effect>
    requires e.task in s.pc
  {
    if e.task == t then EffectOf(s, e) else []
  }

  /** The effects of one task's events. */
  function Mine(s: State, es: seq<Event>, t: int): seq<Effect>
    requires Tasks(s) && forall i :: 0 <= i < |es| ==> es[i].task in s.pc
    decreases |es|
  {
    if es == [] then []
    else MineOf(s, es[0], t) + Mine(Next(s, es[0]), es[1..], t)
  }

  /** `t` is inside a call until the run ends. */
  predicate Busy(s: State, es: seq<Event>, t: int)
    requires Tasks(s) && t in s.pc && forall i :: 0 <= i < |es| ==> es[i].task in s.pc
    decreases |es|
  {
    es == [] || (!s.pc[t].Idle? && Busy(Next(s, es[0]), es[1..], t))
  }

  predicate Locking(pc: Pc) {
    pc.CheckOwner? || pc.BumpRead? || pc.BumpWrite? || pc.Acquire? || pc.TestOwner? || pc.SetOwner? || pc.SetCount?
    || pc.Release?
  }

  /** The mutex has been taken but the call has not returned. */
  predicate Taken(pc: Pc) {
    pc.SetCount? || (pc.Release? && pc.won)
  }

  /** An unlock that was let through and has not taken effect. */
  predicate Owed(s: State, t: int)
    requires t in s.pc
  {
    var pc := s.pc[t];
    pc.UnlockAcquire? || pc.UnlockRead? || pc.UnlockWrite? || (pc.UnlockTest? && s.count == 0) || pc.UnlockClear?
  }

  /** Another task's event does not move `t`. */
  lemma OthersStay(s: State, e: Event, t: int)
    requires Tasks(s) && e.task in s.pc && t in s.pc && e.task != t
    ensures Next(s, e).pc[t] == s.pc[t] && Next(s, e).depth[t] == s.depth[t]
  {
  }

  /** One event of a task that is locking. */
  lemma LockStep(s: State, e: Event, t: int)
    requires Tasks(s) && t in s.pc && e.task == t && Locking(s.pc[t])
    ensures var pc, r := s.pc[t], Next(s, e);
            var gain, late := r.depth[t] - s.depth[t], Taken(pc);
            if r.pc[t].Idle? then
              && 0 <= gain <= 1 && (late || !pc.trying ==> gain == 1)
              && EffectOf(s, e) == if gain == 1 && !late then [Took(t)] else []
            else
              && Locking(r.pc[t]) && gain == 0 && r.pc[t].trying == pc.trying && (late ==> Taken(r.pc[t]))
              && EffectOf(s, e) == if Taken(r.pc[t]) && !late then [Took(t)] else []
  {
  }

  /** From a point inside a lock or try_lock to its return. */
  predicate LockReturns(pc: Pc, t: int, gain: int, mine: seq<Effect>)
    requires Locking(pc)
  {
    && 0 <= gain <= 1 && (Taken(pc) || !pc.trying ==> gain == 1)
    && mine == if gain == 1 && !Taken(pc) then [Took(t)] else []
  }

  lemma {:induction false} LockEffects(s: State, es: seq<Event>, t: int)
    requires Tasks(s) && t in s.pc && forall i :: 0 <= i < |es| ==> es[i].task in s.pc
    requires Locking(s.pc[t]) && Busy(s, es, t) && t in Run(s, es).pc && Run(s, es).pc[t].Idle?
    ensures t in Run(s, es).depth && LockReturns(s.pc[t], t, Run(s, es).depth[t] - s.depth[t], Mine(s, es, t))
    decreases |es|
  {
    var e, r := es[0], Next(s, es[0]);
    if e.task != t {
      OthersStay(s, e, t);
      LockEffects(r, es[1..], t);
      assert [] + Mine(r, es[1..], t) == Mine(r, es[1..], t);
    } else {
      LockStep(s, e, t);
      if r.pc[t].Idle? {
        assert es[1..] == [];
        assert EffectOf(s, e) + [] == EffectOf(s, e);
      } else {
        LockEffects(r, es[1..], t);
        assert [] + Mine(r, es[1..], t) == Mine(r, es[1..], t) && [Took(t)] + [] == [Took(t)];
      }
    }
  }

  /** Another task's event does not touch what `t` guards if `t` owns the mutex. */
  lemma OthersLeaveAlone(s: State, e: Event, t: int)
    requires Inv(s) && e.task in s.pc && t in s.pc && e.task != t
    ensures Next(s, e).owner == t <==> s.owner == t
    ensures s.owner == t ==> Next(s, e).count == s.count
  {
    var u := e.task;
    assert PlaceOk(s.owner, s.count, u, s.pc[u], s.depth[u]);
    AccessMoves(s.spin, s.owner, s.count, u, s.pc[u], s.depth[u]);
  }

  /** An unlock that passes the owner check now. */
  predicate Through(s: State, t: int)
    requires t in s.pc
  {
    s.pc[t].UnlockCheck? && s.owner == t
  }

  predicate InUnlock(pc: Pc) {
    !pc.Idle? && !Locking(pc)
  }

  /** The unlock is still to take effect. */
  predicate Outstanding(s: State, t: int)
    requires t in s.pc
  {
    Through(s, t) || Owed(s, t)
  }

  /** How often `t` holds the mutex once its unlock returns. */
  function DepthAfter(s: State, t: int): int
    requires t in s.pc && t in s.depth
  {
    s.depth[t] - if Through(s, t) then 1 else 0
  }

  /** What one event of anybody means for a task that is unlocking. */
  predicate UnlockAdvances(s: State, r: State, t: int, mine: seq<Effect>)
    requires t in s.pc && t in r.pc && t in s.depth && t in r.depth
  {
    && (r.pc[t].Idle? || InUnlock(r.pc[t])) && DepthAfter(r, t) == DepthAfter(s, t)
    && (Outstanding(r, t) ==> Outstanding(s, t))
    && mine == if Outstanding(s, t) && !Outstanding(r, t) then [Dropped(t)] else []
  }

  lemma OwnUnlockStep(s: State, e: Event, t: int)
    requires Inv(s) && t in s.pc && e.task == t && InUnlock(s.pc[t])
    ensures UnlockAdvances(s, Next(s, e), t, EffectOf(s, e))
  {
  }

  lemma UnlockStep(s: State, e: Event, t: int)
    requires Inv(s) && e.task in s.pc && t in s.pc && InUnlock(s.pc[t])
    ensures Inv(Next(s, e)) && UnlockAdvances(s, Next(s, e), t, MineOf(s, e, t))
    ensures Next(s, e).pc[t].Idle? ==> !Outstanding(Next(s, e), t)
  {
    NextInv(s, e);
    if e.task == t {
      OwnUnlockStep(s, e, t);
    } else {
      OthersStay(s, e, t);
      OthersLeaveAlone(s, e, t);
    }
  }

  /** From a point inside an unlock to its return. */
  lemma {:induction false} UnlockEffects(s: State, es: seq<Event>, t: int)
    requires Inv(s) && t in s.pc && forall i :: 0 <= i < |es| ==> es[i].task in s.pc
    requires InUnlock(s.pc[t]) && Busy(s, es, t) && t in Run(s, es).pc && Run(s, es).pc[t].Idle?
    ensures t in Run(s, es).depth && Run(s, es).depth[t] == DepthAfter(s, t)
    ensures Mine(s, es, t) == if Outstanding(s, t) then [Dropped(t)] else []
    decreases |es|
  {
    var r := Next(s, es[0]);
    UnlockStep(s, es[0], t);
    if r.pc[t].Idle? {
      assert es[1..] == [];
    } else {
      UnlockEffects(r, es[1..], t);
    }
    assert Mine(s, es, t) == MineOf(s, es[0], t) + Mine(r, es[1..], t);
  }

  lemma BeginCall(s: State, t: int, call: Call)
    requires Inv(s) && t in s.pc && s.pc[t].Idle?
    ensures var r := Next(s, Begin(t, call));
            Inv(r) && r.pc[t] == Entry(call) && r.depth == s.depth && r.owner == s.owner
  {
    NextInv(s, Begin(t, call));
  }

  /** Between its begin and its return, under any events of others, a lock takes effect exactly
      once, a try_lock exactly once or not at all according to its result, and an unlock exactly
      once if its caller owned the mutex and else not at all. */
  lemma OneEffectPerCall(s: State, t: int, call: Call, es: seq<Event>)
    requires Inv(s) && t in s.pc && s.pc[t].Idle? && forall i :: 0 <= i < |es| ==> es[i].task in s.pc
    requires Busy(Next(s, Begin(t, call)), es, t)
    requires t in Run(Next(s, Begin(t, call)), es).pc && Run(Next(s, Begin(t, call)), es).pc[t].Idle?
    ensures t in Run(Next(s, Begin(t, call)), es).depth
    ensures CallReturns(call, s.owner == t, t, Run(Next(s, Begin(t, call)), es).depth[t] - s.depth[t],
                        Mine(Next(s, Begin(t, call)), es, t))
  {
    BeginCall(s, t, call);
    CallEffects(Next(s, Begin(t, call)), t, call, es);
  }

  lemma CallEffects(s: State, t: int, call: Call, es: seq<Event>)
    requires Inv(s) && t in s.pc && s.pc[t] == Entry(call) && forall i :: 0 <= i < |es| ==> es[i].task in s.pc
    requires Busy(s, es, t) && t in Run(s, es).pc && Run(s, es).pc[t].Idle?
    ensures t in Run(s, es).depth
    ensures CallReturns(call, s.owner == t, t, Run(s, es).depth[t] - s.depth[t], Mine(s, es, t))
  {
    if call.Unlock? {
      UnlockEffects(s, es, t);
    } else {
      LockEffects(s, es, t);
    }
  }

  /** What a call has done when it returns: by how much it changed the number of times its caller
      holds the mutex, and its effects. */
  predicate CallReturns(call: Call, owned: bool, t: int, gain: int, mine: seq<Effect>) {
    match call
    case Lock => gain == 1 && mine == [Took(t)]
    case TryLock => 0 <= gain <= 1 && mine == if gain == 1 then [Took(t)] else []
    case Unlock => if owned then gain == -1 && mine == [Dropped(t)] else gain == 0 && mine == []
  }

  // ----- An unlock by another task -----

  function At(s: State, t: int, pc: Pc): State {
    s.(pc := s.pc[t := pc])
  }

  /** Where `t` stands makes no difference to an event of another task. */
  lemma OthersCommute(s: State, e: Event, t: int, pc: Pc)
    requires Tasks(s) && e.task in s.pc && t in s.pc && e.task != t
    ensures Next(At(s, t, pc), e) == At(Next(s, e), t, pc)
  {
    var u, x := e.task, Next(s, e).pc[e.task];
    assert s.pc[t := pc][u := x] == s.pc[u := x][t := pc];
  }

  lemma OthersDoNotGiveOwnership(s: State, e: Event, t: int)
    requires Tasks(s) && e.task in s.pc && e.task != t && s.owner != t && t != NOBODY
    ensures Next(s, e).owner != t
  {
  }

  lemma {:induction false} OthersRun(s: State, es: seq<Event>, t: int, pc: Pc)
    requires Tasks(s) && t in s.pc && s.owner != t
    requires forall i :: 0 <= i < |es| ==> es[i].task in s.pc && es[i].task != t
    ensures Run(At(s, t, pc), es) == At(Run(s, es), t, pc)
    ensures Tasks(Run(s, es)) && Run(s, es).pc.Keys == s.pc.Keys && Run(s, es).pc[t] == s.pc[t] && Run(s, es).owner != t
    decreases |es|
  {
    if es != [] {
      OthersCommute(s, es[0], t, pc);
      OthersStay(s, es[0], t);
      OthersDoNotGiveOwnership(s, es[0], t);
      OthersRun(Next(s, es[0]), es[1..], t, pc);
    }
  }

  lemma ForeignCheck(s: State, t: int)
    requires Tasks(s) && t in s.pc && s.pc[t].Idle? && s.owner != t
    ensures Next(s, Begin(t, Unlock)) == At(s, t, UnlockCheck)
    ensures Next(At(s, t, UnlockCheck), Step(t)) == s
  {
    assert s.pc[t := UnlockCheck][t := Idle] == s.pc && s.depth[t := s.depth[t] + 0] == s.depth;
  }

  /** An unlock by a task that does not own the mutex leaves no trace: whatever others do between
      its begin and its only access, everything ends as if it had not been called. */
  lemma ForeignUnlockLeavesNoTrace(s: State, es: seq<Event>, t: int)
    requires Tasks(s) && t in s.pc && s.pc[t].Idle? && s.owner != t
    requires forall i :: 0 <= i < |es| ==> es[i].task in s.pc && es[i].task != t
    ensures t in Run(Next(s, Begin(t, Unlock)), es).pc && Tasks(Run(Next(s, Begin(t, Unlock)), es))
    ensures Next(Run(Next(s, Begin(t, Unlock)), es), Step(t)) == Run(s, es)
  {
    ForeignCheck(s, t);
    OthersRun(s, es, t, UnlockCheck);
    ForeignCheck(Run(s, es), t);
  }
}
