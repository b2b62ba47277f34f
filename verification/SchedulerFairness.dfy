/** Bounded waiting: how many scheduling decisions, and how many timer ticks, a queued task
    waits while no more urgent task is queued. */
module SchedulerFairness {
  import opened TaskQueues
  import opened Words
  import opened SchedulerModel
  import opened SchedulerInvariant

  /** `t` is queued at level `p` behind `k` tasks. */
  predicate Waiting(s: State, t: TaskId, p: nat, k: nat) {
    p < LEVELS && k < |s.queues[p]| && s.queues[p][k] == t
  }

  predicate Runs(s: State, t: TaskId) {
    t in s.tasks && s.tasks[t].state.Running?
  }

  /** If `op` leads to a decision, no level above `p` has a task at that moment. */
  predicate NothingMoreUrgent(s: State, op: Op, p: nat)
    requires WellFormed(s)
  {
    PrepareWellFormed(s, op);
    Decides(s, op) ==> forall l :: 0 <= l < p && l < LEVELS ==> AtDecision(Prepare(s, op)).queues[l] == []
  }

  /** Until `t` runs, nobody terminates it and nothing more urgent is queued at a decision. */
  predicate Undisturbed(s: State, ops: seq<Op>, t: TaskId, p: nat)
    requires WellFormed(s)
    decreases |ops|
  {
    ops == [] ||
    (&& !(ops[0].Terminate? && ops[0].id == t)
     && NothingMoreUrgent(s, ops[0], p)
     && (Runs(Apply(s, ops[0]), t) || Undisturbed(Apply(s, ops[0]), ops[1..], t, p)))
  }

  predicate RunsDuring(s: State, ops: seq<Op>, t: TaskId)
    requires WellFormed(s)
    decreases |ops|
  {
    ops != [] && (Runs(Apply(s, ops[0]), t) || RunsDuring(Apply(s, ops[0]), ops[1..], t))
  }

  function Decisions(s: State, ops: seq<Op>): nat
    requires WellFormed(s)
    decreases |ops|
  {
    if ops == [] then 0
    else (if Decides(s, ops[0]) then 1 else 0) + Decisions(Apply(s, ops[0]), ops[1..])
  }

  function Ticks(ops: seq<Op>): nat {
    if ops == [] then 0 else (if ops[0].Tick? then 1 else 0) + Ticks(ops[1..])
  }

  // ----- Positions -----

  lemma {:induction false} RemoveFirstPosition(q: seq<TaskId>, u: TaskId, k: nat) returns (k': nat)
    requires k < |q| && q[k] != u
    ensures k' <= k && k' < |RemoveFirst(q, u)| && RemoveFirst(q, u)[k'] == q[k]
  {
    if q[0] == u {
      k' := k - 1;
    } else if k == 0 {
      k' := 0;
    } else {
      var j := RemoveFirstPosition(q[1..], u, k - 1);
      k' := j + 1;
    }
  }

  lemma {:induction false} RemoveQueuedPosition(qs: seq<seq<TaskId>>, u: TaskId, p: nat, k: nat) returns (k': nat)
    requires p < |qs| && k < |qs[p]| && qs[p][k] != u
    ensures k' <= k && k' < |RemoveQueued(qs, u)[p]| && RemoveQueued(qs, u)[p][k'] == qs[p][k]
  {
    if u in qs[0] {
      if p == 0 {
        k' := RemoveFirstPosition(qs[0], u, k);
      } else {
        k' := k;
      }
    } else if p == 0 {
      k' := k;
    } else {
      k' := RemoveQueuedPosition(qs[1..], u, p - 1, k);
    }
  }

  lemma PreparePosition(s: State, op: Op, t: TaskId, p: nat, k: nat) returns (k': nat)
    requires WellFormed(s) && Waiting(s, t, p, k)
    requires !(op.Terminate? && op.id == t)
    ensures k' <= k && Waiting(Prepare(s, op), t, p, k')
  {
    k' := k;
    if op.Terminate? && Findable(s, op.id) {
      k' := RemoveQueuedPosition(s.queues, op.id, p, k);
    }
  }

  /** A decision either runs `t` or moves it one place forward. */
  lemma ChoosePosition(s: State, t: TaskId, p: nat, k: nat)
    requires WellFormed(s) && Waiting(s, t, p, k)
    requires forall l :: 0 <= l < p ==> s.queues[l] == []
    ensures s.queues[p][0] in s.tasks
    ensures Choose(s) == Dispatch(s.(queues := s.queues[p := s.queues[p][1..]]), s.queues[p][0])
    ensures if k == 0 then Runs(Choose(s), t) else Waiting(Choose(s), t, p, k - 1)
  {
    var u := s.queues[p][0];
    QueuedHas(s.queues, p, 0);
    assert u in s.tasks;
    assert FirstLevel(s.queues) == p;
  }

  lemma StepPosition(s: State, op: Op, t: TaskId, p: nat, k: nat) returns (k': nat)
    requires WellFormed(s) && Waiting(s, t, p, k)
    requires !(op.Terminate? && op.id == t) && NothingMoreUrgent(s, op, p)
    ensures Runs(Apply(s, op), t) || Waiting(Apply(s, op), t, p, k')
    ensures !Runs(Apply(s, op), t) && Decides(s, op) ==> k' + 1 <= k
    ensures !Runs(Apply(s, op), t) ==> k' <= k
  {
    PrepareWellFormed(s, op);
    var r := Prepare(s, op);
    k' := PreparePosition(s, op, t, p, k);
    if Decides(s, op) {
      assert r.preemptive;
      AtDecisionWellFormed(r);
      AtDecisionAppends(r, p);
      ChoosePosition(AtDecision(r), t, p, k');
      k' := if k' == 0 then 0 else k' - 1;
    }
  }

  /** A task with `k` tasks ahead of it runs within `k + 1` decisions. */
  lemma {:induction false} BoundedWaiting(s: State, ops: seq<Op>, t: TaskId, p: nat, k: nat)
    requires WellFormed(s) && Waiting(s, t, p, k)
    requires Undisturbed(s, ops, t, p)
    requires Decisions(s, ops) >= k + 1
    ensures RunsDuring(s, ops, t)
    decreases |ops|
  {
    var k' := StepPosition(s, ops[0], t, p, k);
    if !Runs(Apply(s, ops[0]), t) {
      BoundedWaiting(Apply(s, ops[0]), ops[1..], t, p, k');
    }
  }

  // ----- Ticks -----

  /** Preemption is on, something runs, and every priority is in the documented range. */
  predicate Steady(s: State) {
    && s.preemptive && s.current.Some? && s.quantum < TWO_32
    && (forall u :: u in s.tasks ==> s.tasks[u].priority < LEVELS && s.tasks[u].timeSlice >= 0)
    && (forall l, u :: 0 <= l < LEVELS && u in s.queues[l] ==> u in s.tasks && s.tasks[u].priority == l)
  }

  predicate SteadyOp(op: Op) {
    match op
    case Create(p) => p < LEVELS
    case DisablePreemption => false
    case SetPriority(_, _) => false
    case SetQuantum(_) => false
    case _ => true
  }

  function Max(a: int, b: int): int { if a < b then b else a }

  /** With `rr`, the scheduler is in round-robin mode. */
  predicate InMode(rr: bool, s: State) {
    rr ==> s.algorithm == ROUND_ROBIN
  }

  predicate KeepsMode(rr: bool, op: Op) {
    rr && op.SetAlgorithm? ==> op.algorithm == ROUND_ROBIN
  }

  /** The longest time slice, in ticks, that a task of level `p` is given, in round-robin mode or
      in any; at least one tick. */
  function LevelSlice(rr: bool, quantum: nat, p: nat): nat
    requires p < LEVELS
  {
    Max(1, quantum / MS_PER_TICK + if rr then 0 else SLICE_FACTOR * (LOWEST - p))
  }

  /** Ticks after which a task behind `k` others at level `p` is certain to run. */
  function Budget(rr: bool, s: State, p: nat, k: nat): int
    requires WellFormed(s) && s.current.Some? && p < LEVELS
  {
    Max(1, s.tasks[s.current.value].timeSlice) + k * LevelSlice(rr, s.quantum, p)
  }

  lemma SliceBound(rr: bool, algorithm: int, quantum: nat, p: nat)
    requires quantum < TWO_32 && p < LEVELS && (rr ==> algorithm == ROUND_ROBIN)
    ensures 0 <= TimeSlice(algorithm, quantum, p) <= LevelSlice(rr, quantum, p)
  {
  }

  lemma MakeReadySteady(s: State, t: TaskId)
    requires Steady(s) && t in s.tasks
    ensures Steady(MakeReady(s, t))
  {
  }

  lemma {:induction false} WakeAllSteady(s: State, due: seq<Sleeper>)
    requires Steady(s) && forall e :: e in due ==> e.task in s.tasks
    ensures Steady(WakeAll(s, due))
    decreases |due|
  {
    if due != [] {
      MakeReadySteady(s, due[0].task);
      WakeAllSteady(WakeOne(s, due[0].task), due[1..]);
    }
  }

  lemma AtDecisionSteady(s: State)
    requires WellFormed(s) && Steady(s)
    ensures Steady(AtDecision(s))
  {
    if s.current.Some? {
      MakeReadySteady(s, s.current.value);
    }
    var r := Requeue(s);
    WakeAllSteady(r.(sleepers := NotDue(r.sleepers, r.ticks)), Due(r.sleepers, r.ticks));
  }

  lemma DispatchSteady(s: State, t: TaskId)
    requires Steady(s) && t in s.tasks
    ensures Steady(Dispatch(s, t))
  {
    SliceBound(false, s.algorithm, s.quantum, s.tasks[t].priority);
  }

  lemma ChooseSteady(s: State)
    requires WellFormed(s) && Steady(s)
    ensures Steady(Choose(s))
  {
    var l := FirstLevel(s.queues);
    if l < LEVELS {
      QueuedPop(s.queues, l);
      var qs := s.queues[l := s.queues[l][1..]];
      assert forall m, u :: 0 <= m < LEVELS && u in qs[m] ==> u in s.queues[m];
      DispatchSteady(s.(queues := qs), s.queues[l][0]);
    } else if s.idle.Some? {
      DispatchSteady(s, s.idle.value);
    }
  }

  lemma {:induction false} RemoveFirstMembers(q: seq<TaskId>, u: TaskId)
    ensures forall x :: x in RemoveFirst(q, u) ==> x in q
  {
    if q != [] && q[0] != u {
      RemoveFirstMembers(q[1..], u);
    }
  }

  lemma {:induction false} RemoveQueuedMembers(qs: seq<seq<TaskId>>, u: TaskId)
    ensures forall l, x :: 0 <= l < |qs| && x in RemoveQueued(qs, u)[l] ==> x in qs[l]
  {
    if qs != [] {
      RemoveFirstMembers(qs[0], u);
      RemoveQueuedMembers(qs[1..], u);
      forall l, x | 0 <= l < |qs| && x in RemoveQueued(qs, u)[l]
        ensures x in qs[l]
      {
        if l > 0 && u !in qs[0] {
          assert RemoveQueued(qs, u)[l] == RemoveQueued(qs[1..], u)[l - 1];
        }
      }
    }
  }

  lemma TerminateSteady(s: State, t: TaskId, code: int)
    requires WellFormed(s) && Steady(s)
    ensures Steady(Terminated(s, t, code))
  {
    RemoveQueuedMembers(s.queues, t);
  }

  lemma EnqueueSteady(s: State, t: TaskId)
    requires Steady(s) && t in s.tasks
    ensures Steady(Enqueue(s, t))
  {
    var r := Enqueue(s, t);
    forall l, u | 0 <= l < LEVELS && u in r.queues[l]
      ensures u in r.tasks && r.tasks[u].priority == l
    {
      assert u in s.queues[l] || u == t;
    }
  }

  lemma CreateSteady(s: State, p: nat)
    requires WellFormed(s) && Steady(s) && SteadyOp(Create(p))
    requires forall u :: u in s.tasks ==> u < s.nextId
    ensures Steady(Created(s, p))
  {
    var r := s.(tasks := s.tasks[s.nextId := Task(Ready, p, 0, 0, 0, 0)], nextId := s.nextId + 1);
    forall l, u | 0 <= l < LEVELS && u in r.queues[l]
      ensures u in r.tasks && r.tasks[u].priority == l
    {
      assert u in s.tasks && s.tasks[u].priority == l;
    }
    EnqueueSteady(r, s.nextId);
  }

  lemma TickSteady(s: State)
    requires WellFormed(s) && Steady(s)
    ensures Steady(Ticked(s))
  {
  }

  lemma PrepareSteady(s: State, op: Op)
    requires WellFormed(s) && Steady(s) && SteadyOp(op)
    requires forall u :: u in s.tasks ==> u < s.nextId
    ensures Steady(Prepare(s, op))
  {
    match op
    case Create(p) => CreateSteady(s, p);
    case Tick => TickSteady(s);
    case Unblock(t) => if Findable(s, t) { MakeReadySteady(s, t); }
    case Wake(t) => if Sleeps(s.sleepers, t) { MakeReadySteady(s, t); }
    case Terminate(t, code) => TerminateSteady(s, t, code);
    case _ =>
  }

  lemma ApplySteady(s: State, op: Op)
    requires WellFormed(s) && Steady(s) && SteadyOp(op)
    requires forall u :: u in s.tasks ==> u < s.nextId
    ensures Steady(Apply(s, op))
  {
    PrepareSteady(s, op);
    PrepareWellFormed(s, op);
    if Reschedules(s, op) {
      AtDecisionSteady(Prepare(s, op));
      AtDecisionWellFormed(Prepare(s, op));
      ChooseSteady(AtDecision(Prepare(s, op)));
    }
  }

  lemma ProductMonotone(a: int, b: int, c: nat)
    requires a <= b
    ensures a * c <= b * c
  {
  }

  /** Between decisions a tick takes one off the current slice; nothing else changes it. */
  lemma QuietSpends(s: State, op: Op)
    requires WellFormed(s) && Steady(s) && SteadyOp(op) && !Decides(s, op)
    requires forall u :: u in s.tasks ==> u < s.nextId
    ensures Apply(s, op).quantum == s.quantum && Apply(s, op).current == s.current
    ensures Max(1, Apply(s, op).tasks[s.current.value].timeSlice) + (if op.Tick? then 1 else 0)
         <= Max(1, s.tasks[s.current.value].timeSlice)
  {
    assert Apply(s, op) == Prepare(s, op);
    var c := s.current.value;
    assert c in s.tasks;
    if op.Tick? {
      TickShortens(s);
    } else {
      KeepsSlice(s, op, c);
      SteadyQuantum(false, s, op);
    }
  }

  /** Nothing but a tick or a decision changes the slice of the current task. */
  lemma KeepsSlice(s: State, op: Op, c: TaskId)
    requires WellFormed(s) && s.current.Some? && s.current.value == c < s.nextId && !op.Tick?
    ensures Prepare(s, op).current == s.current
    ensures c in Prepare(s, op).tasks && Prepare(s, op).tasks[c].timeSlice == s.tasks[c].timeSlice
  {
  }

  lemma SteadyQuantum(rr: bool, s: State, op: Op)
    requires WellFormed(s) && SteadyOp(op) && InMode(rr, s) && KeepsMode(rr, op)
    ensures Prepare(s, op).quantum == s.quantum && InMode(rr, Prepare(s, op))
  {
  }

  /** A decision that passes over `t` runs a task of its level. */
  lemma ChooseSpends(rr: bool, s: State, t: TaskId, p: nat, k: nat)
    requires WellFormed(s) && Steady(s) && InMode(rr, s) && Waiting(s, t, p, k)
    requires forall l :: 0 <= l < p ==> s.queues[l] == []
    ensures Choose(s).quantum == s.quantum && Choose(s).current.Some?
    ensures Choose(s).tasks[Choose(s).current.value].timeSlice <= LevelSlice(rr, s.quantum, p)
  {
    ChoosePosition(s, t, p, k);
    assert s.queues[p][0] in s.queues[p];
    SliceBound(rr, s.algorithm, s.quantum, p);
  }

  lemma DecisionSpends(rr: bool, s: State, op: Op, t: TaskId, p: nat, k: nat)
    requires WellFormed(s) && Steady(s) && SteadyOp(op) && InMode(rr, s) && KeepsMode(rr, op) && Decides(s, op)
    requires forall u :: u in s.tasks ==> u < s.nextId
    requires Waiting(s, t, p, k)
    requires !(op.Terminate? && op.id == t) && NothingMoreUrgent(s, op, p)
    ensures Apply(s, op).quantum == s.quantum && Apply(s, op).current.Some?
    ensures Apply(s, op).tasks[Apply(s, op).current.value].timeSlice <= LevelSlice(rr, s.quantum, p)
  {
    PrepareWellFormed(s, op);
    PrepareSteady(s, op);
    var r := Prepare(s, op);
    var k' := PreparePosition(s, op, t, p, k);
    AtDecisionWellFormed(r);
    AtDecisionSteady(r);
    AtDecisionAppends(r, p);
    SteadyQuantum(rr, s, op);
    ChooseSpends(rr, AtDecision(r), t, p, k');
  }

  lemma BudgetAfterDecision(rr: bool, s: State, r: State, p: nat, k: nat, k': nat)
    requires WellFormed(s) && WellFormed(r) && s.current.Some? && r.current.Some? && p < LEVELS
    requires r.quantum == s.quantum && k' + 1 <= k
    requires r.tasks[r.current.value].timeSlice <= LevelSlice(rr, s.quantum, p)
    ensures Budget(rr, r, p, k') + 1 <= Budget(rr, s, p, k)
  {
    ProductMonotone(k' + 1, k, LevelSlice(rr, s.quantum, p));
  }

  lemma BudgetBetweenDecisions(rr: bool, s: State, r: State, p: nat, k: nat, k': nat, spent: nat)
    requires WellFormed(s) && WellFormed(r) && s.current.Some? && r.current.Some? && p < LEVELS
    requires r.quantum == s.quantum && k' <= k
    requires Max(1, r.tasks[r.current.value].timeSlice) + spent <= Max(1, s.tasks[s.current.value].timeSlice)
    ensures Budget(rr, r, p, k') + spent <= Budget(rr, s, p, k)
  {
    ProductMonotone(k', k, LevelSlice(rr, s.quantum, p));
  }

  /** Every tick spends at least one unit of the budget; nothing adds to it. */
  lemma BudgetStep(rr: bool, s: State, op: Op, t: TaskId, p: nat, k: nat) returns (k': nat)
    requires WellFormed(s) && Steady(s) && SteadyOp(op) && InMode(rr, s) && KeepsMode(rr, op)
    requires forall u :: u in s.tasks ==> u < s.nextId
    requires Waiting(s, t, p, k)
    requires !(op.Terminate? && op.id == t) && NothingMoreUrgent(s, op, p)
    ensures Steady(Apply(s, op)) && InMode(rr, Apply(s, op))
    ensures !Runs(Apply(s, op), t) ==>
              && Waiting(Apply(s, op), t, p, k')
              && Budget(rr, Apply(s, op), p, k') + (if op.Tick? then 1 else 0) <= Budget(rr, s, p, k)
  {
    ApplySteady(s, op);
    SteadyQuantum(rr, s, op);
    PrepareWellFormed(s, op);
    k' := StepPosition(s, op, t, p, k);
    if !Runs(Apply(s, op), t) {
      if Decides(s, op) {
        DecisionSpends(rr, s, op, t, p, k);
        BudgetAfterDecision(rr, s, Apply(s, op), p, k, k');
      } else {
        QuietSpends(s, op);
        BudgetBetweenDecisions(rr, s, Apply(s, op), p, k, k', if op.Tick? then 1 else 0);
      }
    }
  }

  predicate SteadyRun(rr: bool, ops: seq<Op>) {
    forall i :: 0 <= i < |ops| ==> SteadyOp(ops[i]) && KeepsMode(rr, ops[i])
  }

  /** A task with `k` tasks ahead of it at level `p` runs before the rest of the current
      slice and `k` slices of its own level have passed; in a run that stays in round-robin
      mode these are shorter. */
  lemma {:induction false} BoundedTicks(rr: bool, s: State, ops: seq<Op>, t: TaskId, p: nat, k: nat)
    requires Inv(s) && Steady(s) && InMode(rr, s) && SteadyRun(rr, ops) && PermittedRun(s, ops)
    requires Waiting(s, t, p, k)
    requires Undisturbed(s, ops, t, p)
    requires Ticks(ops) >= Budget(rr, s, p, k)
    ensures RunsDuring(s, ops, t)
    decreases |ops|
  {
    ProductMonotone(0, k, LevelSlice(rr, s.quantum, p));
    var k' := BudgetStep(rr, s, ops[0], t, p, k);
    if !Runs(Apply(s, ops[0]), t) {
      ApplyInv(s, ops[0]);
      BoundedTicks(rr, Apply(s, ops[0]), ops[1..], t, p, k');
    }
  }

  // ----- Time slices -----

  function TickRun(n: nat): seq<Op> {
    seq(n, _ => Tick)
  }

  lemma TickRunTail(n: nat)
    requires n > 0
    ensures TickRun(n)[0] == Tick && TickRun(n)[1..] == TickRun(n - 1)
  {
  }

  lemma {:induction false} NegativeSliceNeverEnds(s: State, n: nat)
    requires WellFormed(s) && s.preemptive && s.current.Some? && s.tasks[s.current.value].timeSlice < 0
    ensures Decisions(s, TickRun(n)) == 0 && Run(s, TickRun(n)).current == s.current
    decreases n
  {
    if n > 0 {
      TickRunTail(n);
      assert Apply(s, Tick) == s.(ticks := s.ticks + 1);
      NegativeSliceNeverEnds(Apply(s, Tick), n - 1);
    }
  }

  /** A tick decides when it uses up the slice, and otherwise only shortens it. */
  lemma TickShortens(s: State)
    requires WellFormed(s) && s.preemptive && s.current.Some? && s.tasks[s.current.value].timeSlice >= 0
    ensures var c := s.current.value; var slice := s.tasks[c].timeSlice;
            if slice <= 1 then Decides(s, Tick)
            else !Decides(s, Tick) &&
                 Apply(s, Tick) == s.(ticks := s.ticks + 1, tasks := s.tasks[c := s.tasks[c].(timeSlice := slice - 1)])
  {
  }

  lemma {:induction false} SliceEnds(s: State, slice: nat)
    requires WellFormed(s) && s.preemptive && s.current.Some? && s.tasks[s.current.value].timeSlice == slice
    ensures Decisions(s, TickRun(Max(1, slice))) == 1
    decreases slice
  {
    TickShortens(s);
    TickRunTail(Max(1, slice));
    if slice <= 1 {
      assert Decisions(Apply(s, Tick), TickRun(0)) == 0;
    } else {
      SliceEnds(Apply(s, Tick), slice - 1);
    }
  }

  // ----- The bound on ticks is exact -----

  /** The mode that a state is in. */
  predicate RoundRobin(s: State) {
    s.algorithm == ROUND_ROBIN
  }

  lemma ExactSlice(algorithm: int, quantum: nat, p: nat)
    requires quantum < TWO_32 && p < LEVELS
    ensures Max(1, TimeSlice(algorithm, quantum, p)) == LevelSlice(algorithm == ROUND_ROBIN, quantum, p)
  {
  }

  lemma OneMore(k: nat, c: nat)
    requires k > 0
    ensures c + (k - 1) * c == k * c
  {
  }

  /** A decision that finds `t` behind others gives the CPU away for a whole slice. */
  lemma DecisionDelays(s: State, t: TaskId, p: nat, k: nat) returns (k': nat)
    requires Inv(s) && Steady(s) && Waiting(s, t, p, k) && k > 0
    ensures !Runs(Choose(s), t) && Waiting(Choose(s), t, p, k')
    ensures Choose(s).current.Some? && Choose(s).quantum == s.quantum && Choose(s).algorithm == s.algorithm
    ensures Budget(RoundRobin(s), Choose(s), p, k') >= k * LevelSlice(RoundRobin(s), s.quantum, p)
  {
    var l := FirstLevel(s.queues);
    var u := s.queues[l][0];
    QueuedHas(s.queues, l, 0);
    QueuedHas(s.queues, p, k);
    if u == t {
      TwoSlots(s.queues, l, 0, p, k);
    }
    ExactSlice(s.algorithm, s.quantum, l);
    assert u in s.queues[l];
    OneMore(k, LevelSlice(RoundRobin(s), s.quantum, p));
    k' := if l == p then k - 1 else k;
  }

  lemma QuietTickDelays(s: State, t: TaskId, p: nat, k: nat)
    requires Inv(s) && Steady(s) && Waiting(s, t, p, k) && !Decides(s, Tick)
    ensures !Runs(Apply(s, Tick), t) && Waiting(Apply(s, Tick), t, p, k) && Apply(s, Tick).current.Some?
    ensures Apply(s, Tick).algorithm == s.algorithm
    ensures Budget(RoundRobin(s), Apply(s, Tick), p, k) == Budget(RoundRobin(s), s, p, k) - 1
  {
    var c := s.current.value;
    assert c in s.tasks;
    TickShortens(s);
    QueuedHas(s.queues, p, k);
  }

  lemma DecidingTickDelays(s: State, t: TaskId, p: nat, k: nat) returns (k': nat)
    requires Inv(s) && Steady(s) && Waiting(s, t, p, k)
    requires Decides(s, Tick) && k > 0
    ensures !Runs(Apply(s, Tick), t) && Waiting(Apply(s, Tick), t, p, k') && Apply(s, Tick).current.Some?
    ensures Apply(s, Tick).algorithm == s.algorithm
    ensures Budget(RoundRobin(s), Apply(s, Tick), p, k') >= k * LevelSlice(RoundRobin(s), s.quantum, p)
  {
    var r := Ticked(s);
    PrepareInv(s, Tick);
    TickSteady(s);
    AtDecisionInv(r);
    AtDecisionSteady(r);
    AtDecisionAppends(r, p);
    k' := DecisionDelays(AtDecision(r), t, p, k);
  }

  lemma TickDelays(s: State, t: TaskId, p: nat, k: nat) returns (k': nat)
    requires Inv(s) && Steady(s) && Waiting(s, t, p, k)
    requires 1 < Budget(RoundRobin(s), s, p, k)
    ensures !Runs(Apply(s, Tick), t) && Waiting(Apply(s, Tick), t, p, k') && Apply(s, Tick).current.Some?
    ensures Apply(s, Tick).algorithm == s.algorithm
    ensures Budget(RoundRobin(s), Apply(s, Tick), p, k') >= Budget(RoundRobin(s), s, p, k) - 1
  {
    var c := s.current.value;
    assert c in s.tasks;
    TickShortens(s);
    if Decides(s, Tick) {
      k' := DecidingTickDelays(s, t, p, k);
    } else {
      QuietTickDelays(s, t, p, k);
      k' := k;
    }
  }

  /** The budget is exact: before it is used up `t` has not run, when nothing but the timer
      acts. */
  lemma {:induction false} BudgetIsTight(s: State, n: nat, t: TaskId, p: nat, k: nat)
    requires Inv(s) && Steady(s) && Waiting(s, t, p, k)
    requires n < Budget(RoundRobin(s), s, p, k)
    ensures !RunsDuring(s, TickRun(n), t)
    decreases n
  {
    if n > 0 {
      TickRunTail(n);
      var k' := TickDelays(s, t, p, k);
      ApplyInv(s, Tick);
      ApplySteady(s, Tick);
      BudgetIsTight(Apply(s, Tick), n - 1, t, p, k');
    }
  }

  lemma {:induction false} TickRunTicks(n: nat)
    ensures Ticks(TickRun(n)) == n
  {
    if n > 0 {
      TickRunTail(n);
      TickRunTicks(n - 1);
    }
  }

  lemma {:induction false} TickRunPermitted(s: State, n: nat)
    requires WellFormed(s)
    ensures PermittedRun(s, TickRun(n))
    decreases n
  {
    if n > 0 {
      TickRunTail(n);
      TickRunPermitted(Apply(s, Tick), n - 1);
    }
  }

  /** The ticks of `k + 1` slices of level `p`. */
  function OwnSlices(rr: bool, quantum: nat, p: nat, k: nat): nat
    requires p < LEVELS
  {
    (k + 1) * LevelSlice(rr, quantum, p)
  }

  /** So in `k + 1` slices of its own level `t` comes to run only if what is left of the current
      task's slice is no longer than one of them; while nothing more urgent is queued at a
      decision, that is enough. */
  lemma OwnSlicesEnoughExactlyWhenCurrentIsShort(s: State, t: TaskId, p: nat, k: nat)
    requires Inv(s) && Steady(s) && Waiting(s, t, p, k)
    ensures var ops := TickRun(OwnSlices(RoundRobin(s), s.quantum, p, k));
            var short := Max(1, s.tasks[s.current.value].timeSlice) <= LevelSlice(RoundRobin(s), s.quantum, p);
            (RunsDuring(s, ops, t) ==> short) && (Undisturbed(s, ops, t, p) && short ==> RunsDuring(s, ops, t))
  {
    var c := LevelSlice(RoundRobin(s), s.quantum, p);
    var n := OwnSlices(RoundRobin(s), s.quantum, p, k);
    assert n == c + k * c;
    TickRunTicks(n);
    TickRunPermitted(s, n);
    if Max(1, s.tasks[s.current.value].timeSlice) > c {
      BudgetIsTight(s, n, t, p, k);
    } else if Undisturbed(s, TickRun(n), t, p) {
      BoundedTicks(RoundRobin(s), s, TickRun(n), t, p, k);
    }
  }

  /** Ticks alone ever take the CPU from the current task exactly when its slice is not negative. */
  lemma PreemptibleExactlyWhenSliceNonNegative(s: State)
    requires WellFormed(s) && s.preemptive && s.current.Some?
    ensures s.tasks[s.current.value].timeSlice >= 0 <==> exists n: nat :: Decisions(s, TickRun(n)) > 0
  {
    if s.tasks[s.current.value].timeSlice >= 0 {
      SliceEnds(s, s.tasks[s.current.value].timeSlice);
      var n: nat := Max(1, s.tasks[s.current.value].timeSlice);
      assert Decisions(s, TickRun(n)) > 0;
    } else {
      forall n: nat
        ensures Decisions(s, TickRun(n)) == 0
      {
        NegativeSliceNeverEnds(s, n);
      }
    }
  }

  /** By how much twice the excess over the lowest priority outweighs the base quantum decides,
      in 32 bits, whether the slice of a task is negative. */
  predicate Overdrawn(quantum: nat, p: nat) {
    var excess := SLICE_FACTOR * (p - LOWEST) - quantum / MS_PER_TICK;
    0 < excess <= TWO_31 || TWO_32 < excess <= TWO_32 + TWO_31
  }

  lemma NegativeExactlyWhenOverdrawn(algorithm: int, quantum: nat, p: nat)
    requires algorithm != ROUND_ROBIN && quantum < TWO_32 && p < TWO_32
    ensures TimeSlice(algorithm, quantum, p) < 0 <==> Overdrawn(quantum, p)
    ensures quantum == 10 && LEVELS <= p <= 0x4000_001F ==> Overdrawn(quantum, p)
  {
  }

  /** `scheduler_create_task` does not clamp the priority: for every unsigned priority, the new
      task once dispatched has a negative slice, and ticks never take the CPU from it, exactly
      when the priority is overdrawn.  With the default quantum of 10 ms that is so from 32 up to
      2^30 + 31. */
  lemma OutOfRangePriorityNeverPreempted(s: State, p: nat)
    requires WellFormed(s) && s.preemptive && s.algorithm != ROUND_ROBIN && s.quantum < TWO_32 && p < TWO_32
    ensures var t := s.nextId;
            var r := Created(s, p);
            && t in r.tasks && r.tasks[t].priority == p && WellFormed(Dispatch(r, t))
            && (Dispatch(r, t).tasks[t].timeSlice < 0 <==> Overdrawn(s.quantum, p))
            && ((exists n: nat :: Decisions(Dispatch(r, t), TickRun(n)) > 0) <==> !Overdrawn(s.quantum, p))
    ensures s.quantum == 10 && LEVELS <= p <= 0x4000_001F ==> Overdrawn(s.quantum, p)
  {
    CreateWellFormed(s, p);
    NegativeExactlyWhenOverdrawn(s.algorithm, s.quantum, p);
    PreemptibleExactlyWhenSliceNonNegative(Dispatch(Created(s, p), s.nextId));
  }
}
