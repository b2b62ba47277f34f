/** The scheduler of kernel/scheduler.c on values: its state, and for every operation the
    state it leaves behind.  Class `Schedulers.Scheduler` carries the loops and in-place
    updates and is proved against these functions; what the scheduler promises is proved
    about them in the modules that import this one. */
module SchedulerModel {
  import opened TaskQueues
  import opened Options
  import opened Words

  const LEVELS := 32
  const LOWEST := 31
  const MS_PER_TICK := 10
  const SLICE_FACTOR := 2
  const ROUND_ROBIN := 0

  datatype TaskState = Ready | Running | Blocked | Zombie

  datatype Task = Task(state: TaskState, priority: nat, timeSlice: int, lastRun: nat, cpuTime: nat, exitCode: int)

  datatype Sleeper = Sleeper(task: TaskId, wake: nat)

  type Levels = qs: seq<seq<TaskId>> | |qs| == LEVELS witness seq(LEVELS, _ => [])

  datatype State = State(
    queues: Levels,
    sleepers: seq<Sleeper>,
    tasks: map<TaskId, Task>,
    current: Option<TaskId>,
    idle: Option<TaskId>,
    preemptive: bool,
    ticks: nat,
    switches: nat,
    idleTicks: nat,
    nextId: int,
    algorithm: int,
    quantum: nat)

  /** After `scheduler_init`, with `idle` registered or not. */
  function Init(idle: Option<TaskId>): (s: State)
    ensures WellFormed(s)
  {
    NothingQueued(seq(LEVELS, _ => []));
    State(seq(LEVELS, _ => []), [],
          if idle.Some? then map[idle.value := Task(Ready, LOWEST, 0, 0, 0, 0)] else map[],
          None, idle, false, 0, 0, 0, 1, 1, 10)
  }

  // ----- Queues -----

  /** All queued tasks, with multiplicity, over all priority levels. */
  function Queued(qs: seq<seq<TaskId>>): multiset<TaskId> {
    if qs == [] then multiset{} else multiset(qs[0]) + Queued(qs[1..])
  }

  /** The queue a priority selects: an `unsigned` read as `int`, then clamped. */
  function Level(priority: nat): (l: nat)
    ensures l < LEVELS
    ensures priority < LEVELS ==> l == priority
  {
    if priority >= TWO_31 then 0 else if priority >= LEVELS then LOWEST else priority
  }

  function TimeSlice(algorithm: int, quantum: nat, priority: nat): int {
    var base := quantum / MS_PER_TICK;
    if algorithm == ROUND_ROBIN then ToInt32(base)
    else ToInt32(base + (LOWEST - priority) * SLICE_FACTOR)
  }

  function SetState(s: State, t: TaskId, st: TaskState): State
    requires t in s.tasks
  {
    s.(tasks := s.tasks[t := s.tasks[t].(state := st)])
  }

  /** `scheduler_add_task`: append at the task's level, or drop it when that level is full. */
  function Enqueue(s: State, t: TaskId): State
    requires t in s.tasks
  {
    var l := Level(s.tasks[t].priority);
    if |s.queues[l]| < MAX_TASKS then s.(queues := s.queues[l := s.queues[l] + [t]]) else s
  }

  function MakeReady(s: State, t: TaskId): State
    requires t in s.tasks
  {
    Enqueue(SetState(s, t, Ready), t)
  }

  /** `scheduler_remove_task_from_ready_queue`: the first match in the first level that has one. */
  function RemoveQueued(qs: seq<seq<TaskId>>, t: TaskId): (r: seq<seq<TaskId>>)
    ensures |r| == |qs|
  {
    if qs == [] then []
    else if t in qs[0] then [RemoveFirst(qs[0], t)] + qs[1..]
    else [qs[0]] + RemoveQueued(qs[1..], t)
  }

  /** The lowest-numbered level that has a task. */
  function FirstLevel(qs: seq<seq<TaskId>>): (l: nat)
    ensures l <= |qs|
    ensures l < |qs| ==> qs[l] != []
    ensures forall i :: 0 <= i < l ==> qs[i] == []
  {
    if qs == [] || qs[0] != [] then 0 else 1 + FirstLevel(qs[1..])
  }

  // ----- Sleep list -----

  /** Ordered insertion: after every entry that wakes no later. */
  function Insert(list: seq<Sleeper>, e: Sleeper): seq<Sleeper> {
    if list == [] || list[0].wake > e.wake then [e] + list
    else [list[0]] + Insert(list[1..], e)
  }

  function Due(list: seq<Sleeper>, now: nat): (r: seq<Sleeper>)
    ensures forall e :: e in r <==> e in list && e.wake <= now
  {
    if list == [] then []
    else if list[0].wake <= now then [list[0]] + Due(list[1..], now)
    else Due(list[1..], now)
  }

  function NotDue(list: seq<Sleeper>, now: nat): (r: seq<Sleeper>)
    ensures forall e :: e in r <==> e in list && e.wake > now
  {
    if list == [] then []
    else if list[0].wake > now then [list[0]] + NotDue(list[1..], now)
    else NotDue(list[1..], now)
  }

  predicate Sleeps(list: seq<Sleeper>, t: TaskId) {
    exists e :: e in list && e.task == t
  }

  /** The list without the first entry of `t`. */
  function RemoveSleeper(list: seq<Sleeper>, t: TaskId): (r: seq<Sleeper>)
    ensures forall e :: e in r ==> e in list
  {
    if list == [] then []
    else if list[0].task == t then list[1..]
    else [list[0]] + RemoveSleeper(list[1..], t)
  }

  function WakeOne(s: State, t: TaskId): State
    requires t in s.tasks
  {
    if s.tasks[t].state.Blocked? then MakeReady(s, t) else s
  }

  function WakeAll(s: State, due: seq<Sleeper>): (r: State)
    requires forall e :: e in due ==> e.task in s.tasks
    ensures r.tasks.Keys == s.tasks.Keys
    ensures r == s.(queues := r.queues, tasks := r.tasks)
    decreases |due|
  {
    if due == [] then s else WakeAll(WakeOne(s, due[0].task), due[1..])
  }

  // ----- Scheduling decisions -----

  /** Every pointer the scheduler holds points to a task. */
  predicate WellFormed(s: State) {
    && (s.current.Some? ==> s.current.value in s.tasks)
    && (s.idle.Some? ==> s.idle.value in s.tasks)
    && (forall e :: e in s.sleepers ==> e.task in s.tasks)
    && (forall t :: t in Queued(s.queues) ==> t in s.tasks)
  }

  function CheckSleepers(s: State): (r: State)
    requires WellFormed(s)
    ensures r.tasks.Keys == s.tasks.Keys
    ensures r == s.(queues := r.queues, tasks := r.tasks, sleepers := NotDue(s.sleepers, s.ticks))
  {
    WakeAll(s.(sleepers := NotDue(s.sleepers, s.ticks)), Due(s.sleepers, s.ticks))
  }

  /** A running current task goes back to the end of its level. */
  function Requeue(s: State): (r: State)
    requires WellFormed(s)
    ensures WellFormed(r) && r.tasks.Keys == s.tasks.Keys
    ensures r == s.(queues := r.queues, tasks := r.tasks)
  {
    if s.current.Some? && s.tasks[s.current.value].state.Running?
    then
      MakeReadyWellFormed(s, s.current.value);
      MakeReady(s, s.current.value)
    else s
  }

  /** The state in which `scheduler_get_next_task` chooses. */
  function AtDecision(s: State): (r: State)
    requires WellFormed(s)
    ensures r.tasks.Keys == s.tasks.Keys
    ensures r == s.(queues := r.queues, tasks := r.tasks, sleepers := NotDue(s.sleepers, s.ticks))
  {
    CheckSleepers(Requeue(s))
  }

  function Dispatch(s: State, t: TaskId): State
    requires t in s.tasks
  {
    var isIdle := s.idle == Some(t);
    var k := s.tasks[t];
    s.(tasks := s.tasks[t := k.(state := Running,
                                timeSlice := TimeSlice(s.algorithm, s.quantum, k.priority),
                                lastRun := s.ticks,
                                cpuTime := if isIdle then k.cpuTime else k.cpuTime + 1)],
       current := Some(t),
       switches := s.switches + 1,
       idleTicks := if isIdle then s.idleTicks + 1 else s.idleTicks)
  }

  /** Take the head of the first non-empty level, or else fall back to the idle task. */
  function Choose(s: State): (r: State)
    requires WellFormed(s)
    ensures WellFormed(r) && r.tasks.Keys == s.tasks.Keys
    ensures r == s.(queues := r.queues, tasks := r.tasks, current := r.current,
                    switches := r.switches, idleTicks := r.idleTicks)
  {
    var l := FirstLevel(s.queues);
    if l < LEVELS then
      QueuedPop(s.queues, l);
      Dispatch(s.(queues := s.queues[l := s.queues[l][1..]]), s.queues[l][0])
    else if s.idle.Some? then Dispatch(s, s.idle.value)
    else s
  }

  function Schedule(s: State): (r: State)
    requires WellFormed(s)
    ensures WellFormed(r) && r.tasks.Keys == s.tasks.Keys
    ensures r == s.(queues := r.queues, tasks := r.tasks, current := r.current, sleepers := r.sleepers,
                    switches := r.switches, idleTicks := r.idleTicks)
  {
    if !s.preemptive then s
    else
      AtDecisionWellFormed(s);
      Choose(AtDecision(s))
  }

  // ----- Operations -----

  datatype Op =
    | Create(priority: nat)
    | Tick
    | Yield
    | Block
    | Unblock(id: TaskId)
    | Sleep(ms: nat)
    | Wake(id: TaskId)
    | Terminate(id: TaskId, code: int)
    | SetPriority(id: TaskId, priority: nat)
    | EnablePreemption
    | DisablePreemption
    | SetQuantum(ms: nat)
    | SetAlgorithm(algorithm: int)

  /** `scheduler_find_task_by_id`: the current, a queued or a sleeping task. */
  predicate Findable(s: State, t: TaskId) {
    s.current == Some(t) || t in Queued(s.queues) || Sleeps(s.sleepers, t)
  }

  function Created(s: State, p: nat): State {
    Enqueue(s.(tasks := s.tasks[s.nextId := Task(Ready, p, 0, 0, 0, 0)], nextId := s.nextId + 1), s.nextId)
  }

  function Ticked(s: State): State
    requires WellFormed(s)
  {
    var s' := s.(ticks := s.ticks + 1);
    if s.preemptive && s.current.Some? && s.tasks[s.current.value].timeSlice > 0 then
      var k := s.tasks[s.current.value];
      s'.(tasks := s.tasks[s.current.value := k.(timeSlice := k.timeSlice - 1)])
    else s'
  }

  function SelfBlocked(s: State): State
    requires WellFormed(s)
  {
    if s.current.Some? then SetState(s, s.current.value, Blocked) else s
  }

  function Unblocked(s: State, t: TaskId): State
    requires WellFormed(s)
  {
    if Findable(s, t) && s.tasks[t].state.Blocked? then MakeReady(s, t) else s
  }

  function Slept(s: State, ms: nat): State
    requires WellFormed(s)
  {
    if ms == 0 || s.current.None? then s
    else
      var e := Sleeper(s.current.value, s.ticks + ms / MS_PER_TICK);
      SetState(s.(sleepers := Insert(s.sleepers, e)), s.current.value, Blocked)
  }

  function Awakened(s: State, t: TaskId): State
    requires WellFormed(s)
  {
    if Sleeps(s.sleepers, t) then WakeOne(s, t).(sleepers := RemoveSleeper(s.sleepers, t)) else s
  }

  function Terminated(s: State, t: TaskId, code: int): State
    requires WellFormed(s)
  {
    if Findable(s, t) then
      s.(tasks := s.tasks[t := s.tasks[t].(state := Zombie, exitCode := code)],
         queues := RemoveQueued(s.queues, t))
    else s
  }

  function Reprioritised(s: State, t: TaskId, p: nat): State
    requires WellFormed(s)
  {
    if Findable(s, t) then s.(tasks := s.tasks[t := s.tasks[t].(priority := if p >= LEVELS then LOWEST else p)])
    else s
  }

  /** What the operation does before it asks for a scheduling decision. */
  function Prepare(s: State, op: Op): State
    requires WellFormed(s)
  {
    match op
    case Create(p) => Created(s, p)
    case Tick => Ticked(s)
    case Yield => s
    case Block => SelfBlocked(s)
    case Unblock(t) => Unblocked(s, t)
    case Sleep(ms) => Slept(s, ms)
    case Wake(t) => Awakened(s, t)
    case Terminate(t, code) => Terminated(s, t, code)
    case SetPriority(t, p) => Reprioritised(s, t, p)
    case EnablePreemption => s.(preemptive := true)
    case DisablePreemption => s.(preemptive := false)
    case SetQuantum(ms) => s.(quantum := ms)
    case SetAlgorithm(a) => if 0 <= a <= 3 then s.(algorithm := a) else s
  }

  /** Whether the operation ends by calling `scheduler_schedule`. */
  predicate Reschedules(s: State, op: Op)
    requires WellFormed(s)
  {
    match op
    case Tick => s.preemptive && s.current.Some? && 0 <= s.tasks[s.current.value].timeSlice <= 1
    case Yield => s.preemptive
    case Block => s.current.Some?
    case Sleep(ms) => if ms == 0 then s.preemptive else s.current.Some?
    case Terminate(t, _) => s.current == Some(t)
    case _ => false
  }

  /** Whether the operation leads to a scheduling decision. */
  predicate Decides(s: State, op: Op)
    requires WellFormed(s)
  {
    s.preemptive && Reschedules(s, op)
  }

  function Apply(s: State, op: Op): (r: State)
    requires WellFormed(s)
    ensures WellFormed(r)
  {
    PrepareWellFormed(s, op);
    var s' := Prepare(s, op);
    if Reschedules(s, op) then Schedule(s') else s'
  }

  function Run(s: State, ops: seq<Op>): (r: State)
    requires WellFormed(s)
    ensures WellFormed(r)
    decreases |ops|
  {
    if ops == [] then s else Run(Apply(s, ops[0]), ops[1..])
  }

  // ----- Lemmas that the definitions above rest on -----

  /** Replacing one level changes the queued tasks by exactly that level. */
  lemma {:induction false} QueuedUpdate(qs: seq<seq<TaskId>>, l: nat, q: seq<TaskId>)
    requires l < |qs|
    ensures multiset(qs[l]) <= Queued(qs)
    ensures Queued(qs[l := q]) == Queued(qs) - multiset(qs[l]) + multiset(q)
  {
    if l > 0 {
      QueuedUpdate(qs[1..], l - 1, q);
      assert qs[l := q][1..] == qs[1..][l - 1 := q];
    } else {
      assert qs[l := q][1..] == qs[1..];
    }
  }

  lemma QueuedHas(qs: seq<seq<TaskId>>, l: nat, i: nat)
    requires l < |qs| && i < |qs[l]|
    ensures qs[l][i] in Queued(qs)
  {
    QueuedUpdate(qs, l, []);
    assert qs[l][i] in multiset(qs[l]);
  }

  /** Taking the head of a level takes one occurrence of that task. */
  lemma QueuedPop(qs: seq<seq<TaskId>>, l: nat)
    requires l < |qs| && qs[l] != []
    ensures qs[l][0] in Queued(qs)
    ensures Queued(qs[l := qs[l][1..]]) == Queued(qs) - multiset{qs[l][0]}
  {
    QueuedUpdate(qs, l, qs[l][1..]);
    HeadApart(qs[l]);
  }

  lemma HeadApart(q: seq<TaskId>)
    requires q != []
    ensures multiset(q) == multiset{q[0]} + multiset(q[1..])
  {
    assert q == [q[0]] + q[1..];
  }

  lemma {:induction false} NothingQueued(qs: seq<seq<TaskId>>)
    requires forall i :: 0 <= i < |qs| ==> qs[i] == []
    ensures Queued(qs) == multiset{}
  {
    if qs != [] {
      assert qs[0] == [];
      NothingQueued(qs[1..]);
    }
  }

  lemma {:induction false} QueuedWhere(qs: seq<seq<TaskId>>, t: TaskId) returns (l: nat)
    requires t in Queued(qs)
    ensures l < |qs| && t in qs[l]
  {
    if t in multiset(qs[0]) {
      l := 0;
    } else {
      var k := QueuedWhere(qs[1..], t);
      l := k + 1;
    }
  }

  lemma QueuedEnqueue(s: State, t: TaskId)
    requires t in s.tasks
    ensures |s.queues[Level(s.tasks[t].priority)]| < MAX_TASKS ==>
              Queued(Enqueue(s, t).queues) == Queued(s.queues) + multiset{t}
    ensures Queued(Enqueue(s, t).queues) <= Queued(s.queues) + multiset{t}
  {
    var l := Level(s.tasks[t].priority);
    QueuedUpdate(s.queues, l, s.queues[l] + [t]);
  }

  lemma {:induction false} QueuedRemove(qs: seq<seq<TaskId>>, t: TaskId)
    ensures Queued(RemoveQueued(qs, t)) == Queued(qs) - multiset{t}
  {
    if qs == [] {
    } else if t in qs[0] {
      RemoveFirstMultiset(qs[0], t);
      var r := RemoveQueued(qs, t);
      assert r[1..] == qs[1..];
      assert t in multiset(qs[0]);
    } else {
      QueuedRemove(qs[1..], t);
      var r := RemoveQueued(qs, t);
      assert r[1..] == RemoveQueued(qs[1..], t);
      assert t !in multiset(qs[0]);
    }
  }

  lemma {:induction false} RemoveFirstMultiset(q: seq<TaskId>, t: TaskId)
    requires t in q
    ensures multiset(RemoveFirst(q, t)) == multiset(q) - multiset{t}
  {
    assert q == [q[0]] + q[1..];
    if q[0] != t {
      RemoveFirstMultiset(q[1..], t);
    }
  }

  lemma MakeReadyWellFormed(s: State, t: TaskId)
    requires WellFormed(s) && t in s.tasks
    ensures WellFormed(MakeReady(s, t))
  {
    QueuedEnqueue(SetState(s, t, Ready), t);
  }

  lemma {:induction false} WakeAllWellFormed(s: State, due: seq<Sleeper>)
    requires WellFormed(s)
    requires forall e :: e in due ==> e.task in s.tasks
    ensures WellFormed(WakeAll(s, due))
    decreases |due|
  {
    if due != [] {
      MakeReadyWellFormed(s, due[0].task);
      WakeAllWellFormed(WakeOne(s, due[0].task), due[1..]);
    }
  }

  lemma AtDecisionWellFormed(s: State)
    requires WellFormed(s)
    ensures WellFormed(AtDecision(s))
  {
    var r := Requeue(s);
    WakeAllWellFormed(r.(sleepers := NotDue(r.sleepers, r.ticks)), Due(r.sleepers, r.ticks));
  }

  lemma {:induction false} InsertMembers(list: seq<Sleeper>, e: Sleeper)
    ensures forall x :: x in Insert(list, e) <==> x == e || x in list
  {
    if list != [] && list[0].wake <= e.wake {
      InsertMembers(list[1..], e);
    }
  }

  lemma CreateWellFormed(s: State, p: nat)
    requires WellFormed(s)
    ensures WellFormed(Created(s, p))
  {
    QueuedEnqueue(s.(tasks := s.tasks[s.nextId := Task(Ready, p, 0, 0, 0, 0)], nextId := s.nextId + 1), s.nextId);
  }

  lemma SleepWellFormed(s: State, ms: nat)
    requires WellFormed(s)
    ensures WellFormed(Slept(s, ms))
  {
    if s.current.Some? {
      InsertMembers(s.sleepers, Sleeper(s.current.value, s.ticks + ms / MS_PER_TICK));
    }
  }

  lemma TerminateWellFormed(s: State, t: TaskId, code: int)
    requires WellFormed(s)
    ensures WellFormed(Terminated(s, t, code))
  {
    QueuedRemove(s.queues, t);
  }

  lemma UnblockWellFormed(s: State, t: TaskId)
    requires WellFormed(s)
    ensures WellFormed(Unblocked(s, t))
  {
    if Findable(s, t) {
      MakeReadyWellFormed(s, t);
    }
  }

  lemma WakeWellFormed(s: State, t: TaskId)
    requires WellFormed(s)
    ensures WellFormed(Awakened(s, t))
  {
    if Sleeps(s.sleepers, t) {
      MakeReadyWellFormed(s, t);
    }
  }

  lemma PrepareWellFormed(s: State, op: Op)
    requires WellFormed(s)
    ensures WellFormed(Prepare(s, op))
  {
    match op
    case Create(p) => CreateWellFormed(s, p);
    case Unblock(t) => UnblockWellFormed(s, t);
    case Sleep(ms) => SleepWellFormed(s, ms);
    case Wake(t) => WakeWellFormed(s, t);
    case Terminate(t, code) => TerminateWellFormed(s, t, code);
    case _ =>
      RecordsOnly(s, op);
      FrameWellFormed(s, Prepare(s, op));
  }

  /** The other operations change task records and settings only. */
  lemma RecordsOnly(s: State, op: Op)
    requires WellFormed(s)
    requires !op.Create? && !op.Unblock? && !op.Sleep? && !op.Wake? && !op.Terminate?
    ensures var r := Prepare(s, op);
            && r.tasks.Keys == s.tasks.Keys && r.queues == s.queues && r.sleepers == s.sleepers
            && r.current == s.current && r.idle == s.idle
  {
  }

  lemma FrameWellFormed(s: State, r: State)
    requires WellFormed(s) && r.tasks.Keys == s.tasks.Keys
    requires r.queues == s.queues && r.sleepers == s.sleepers && r.current == s.current && r.idle == s.idle
    ensures WellFormed(r)
  {
  }

  /** A sleep of no time is a yield, and one without a current task is nothing. */
  lemma EmptySleep(s: State, ms: nat)
    requires WellFormed(s)
    ensures ms == 0 ==> Apply(s, Sleep(ms)) == Apply(s, Yield)
    ensures ms > 0 && s.current.None? ==> Apply(s, Sleep(ms)) == s
  {
  }

  /** Any other sleep is its entry and a decision. */
  lemma SleepDecides(s: State, ms: nat)
    requires WellFormed(s) && ms > 0 && s.current.Some?
    ensures var e := Sleeper(s.current.value, s.ticks + ms / MS_PER_TICK);
            Slept(s, ms) == SetState(s.(sleepers := Insert(s.sleepers, e)), s.current.value, Blocked)
    ensures WellFormed(Slept(s, ms)) && Apply(s, Sleep(ms)) == Schedule(Slept(s, ms))
  {
    PrepareWellFormed(s, Sleep(ms));
  }

  lemma YieldDecides(s: State)
    requires WellFormed(s)
    ensures Apply(s, Yield) == Schedule(s)
  {
  }

  // ----- What runs do not change -----

  lemma PrepareFrame(s: State, op: Op)
    requires WellFormed(s)
    ensures Prepare(s, op).idle == s.idle
    ensures Prepare(s, op).ticks == s.ticks + if op.Tick? then 1 else 0
  {
  }

  lemma ApplyFrame(s: State, op: Op)
    requires WellFormed(s)
    ensures Apply(s, op).idle == s.idle
    ensures Apply(s, op).ticks == s.ticks + if op.Tick? then 1 else 0
  {
    PrepareFrame(s, op);
    PrepareWellFormed(s, op);
    var p := Prepare(s, op);
    var d := Schedule(p);
    assert d.idle == p.idle && d.ticks == p.ticks;
    assert Apply(s, op) == d || Apply(s, op) == p;
  }

  /** Time does not go back and the idle task stays registered. */
  lemma {:induction false} RunFrame(s: State, ops: seq<Op>)
    requires WellFormed(s)
    ensures Run(s, ops).idle == s.idle && Run(s, ops).ticks >= s.ticks
    decreases |ops|
  {
    if ops != [] {
      ApplyFrame(s, ops[0]);
      RunFrame(Apply(s, ops[0]), ops[1..]);
    }
  }
}
