/** What every run of the scheduler keeps: a task is queued at most once, exactly the queued
    tasks are ready, only the current task runs, no terminated task is queued or dispatched,
    and no ready task is ever dropped. */
module SchedulerInvariant {
  import opened TaskQueues
  import opened Options
  import opened Words
  import opened SchedulerModel

  function Live(s: State): set<TaskId> {
    set t | t in s.tasks && !s.tasks[t].state.Zombie?
  }

  predicate QueuedOnceAndReady(s: State) {
    forall t :: t in Queued(s.queues) ==>
      t in s.tasks && s.tasks[t].state.Ready? && Queued(s.queues)[t] == 1
  }

  predicate OnlyCurrentRuns(s: State) {
    forall t :: t in s.tasks && s.tasks[t].state.Running? ==> s.current == Some(t)
  }

  /** Only the idle task may be ready without being queued, and once it has run not even that:
      see `RunKeepsQueued`. */
  predicate NoneLost(s: State) {
    forall t :: t in s.tasks && s.tasks[t].state.Ready? && s.idle != Some(t) ==> t in Queued(s.queues)
  }

  predicate Sorted(list: seq<Sleeper>) {
    forall i, j :: 0 <= i < j < |list| ==> list[i].wake <= list[j].wake
  }

  predicate Bookkeeping(s: State) {
    && Sorted(s.sleepers)
    && (s.idle.Some? ==> s.idle.value in s.tasks && !s.tasks[s.idle.value].state.Zombie?)
    && (forall t :: t in s.tasks ==> t < s.nextId)
    && s.quantum < TWO_32
    && |Live(s)| <= MAX_TASKS
  }

  predicate Inv(s: State) {
    WellFormed(s) && QueuedOnceAndReady(s) && OnlyCurrentRuns(s) && NoneLost(s) && Bookkeeping(s)
  }

  /** What callers must respect: a task blocks or puts to sleep only itself, while it runs;
      the idle task is not terminated; and at most 256 tasks are alive. */
  predicate Permitted(s: State, op: Op) {
    match op
    case Create(p) => |Live(s)| < MAX_TASKS
    case Block => s.current.Some? ==> s.current.value in s.tasks && s.tasks[s.current.value].state.Running?
    case Sleep(ms) =>
      ms > 0 && s.current.Some? ==> s.current.value in s.tasks && s.tasks[s.current.value].state.Running?
    case Terminate(t, _) => s.idle != Some(t)
    case SetQuantum(ms) => ms < TWO_32
    case _ => true
  }

  // ----- Room in the queues -----

  /** Pigeonhole: the queued tasks are distinct live tasks other than `t`. */
  lemma RoomFor(s: State, t: TaskId, l: nat)
    requires QueuedOnceAndReady(s) && |Live(s)| <= MAX_TASKS
    requires t in Live(s) && t !in Queued(s.queues) && l < LEVELS
    ensures |s.queues[l]| < MAX_TASKS
  {
    QueuedUpdate(s.queues, l, []);
    var others := Live(s) - {t};
    assert forall u :: u in Queued(s.queues) ==> u in others && multiset(others)[u] == 1;
    assert forall u :: multiset(s.queues[l])[u] <= multiset(others)[u];
    SubmultisetSize(multiset(s.queues[l]), multiset(others));
    assert |others| == |Live(s)| - 1;
  }

  lemma SubmultisetSize(a: multiset<TaskId>, b: multiset<TaskId>)
    requires a <= b
    ensures |a| <= |b|
  {
    assert b == a + (b - a);
  }

  lemma MakeReadyAppends(s: State, t: TaskId)
    requires Inv(s) && t in s.tasks && s.tasks[t].state in {Running, Blocked}
    ensures Queued(MakeReady(s, t).queues) == Queued(s.queues) + multiset{t}
    ensures var l := Level(s.tasks[t].priority);
            MakeReady(s, t) == SetState(s, t, Ready).(queues := s.queues[l := s.queues[l] + [t]])
  {
    RoomFor(s, t, Level(s.tasks[t].priority));
    QueuedEnqueue(SetState(s, t, Ready), t);
  }

  lemma MakeReadyInv(s: State, t: TaskId)
    requires Inv(s) && t in s.tasks && s.tasks[t].state in {Running, Blocked}
    ensures Inv(MakeReady(s, t))
  {
    MakeReadyAppends(s, t);
    MakeReadyWellFormed(s, t);
    assert t !in Queued(s.queues);
    AppendedInv(s, t, MakeReady(s, t));
  }

  /** A task that was not queued is queued and ready now. */
  lemma AppendedInv(s: State, t: TaskId, r: State)
    requires Inv(s) && t in s.tasks && !s.tasks[t].state.Zombie? && t !in Queued(s.queues)
    requires r == SetState(s, t, Ready).(queues := r.queues) && WellFormed(r)
    requires Queued(r.queues) == Queued(s.queues) + multiset{t}
    ensures Inv(r)
  {
    assert Live(r) == Live(s);
  }

  lemma {:induction false} WakeAllInv(s: State, due: seq<Sleeper>)
    requires Inv(s)
    requires forall e :: e in due ==> e.task in s.tasks
    ensures Inv(WakeAll(s, due))
    ensures forall t :: t in s.tasks && !s.tasks[t].state.Running? ==> !WakeAll(s, due).tasks[t].state.Running?
    decreases |due|
  {
    if due != [] {
      if s.tasks[due[0].task].state.Blocked? {
        MakeReadyInv(s, due[0].task);
      }
      WakeAllInv(WakeOne(s, due[0].task), due[1..]);
    }
  }

  lemma {:induction false} WakeAllStates(s: State, due: seq<Sleeper>, t: TaskId)
    requires t in s.tasks && forall e :: e in due ==> e.task in s.tasks
    ensures WakeAll(s, due).tasks[t] ==
            if Sleeps(due, t) && s.tasks[t].state.Blocked? then s.tasks[t].(state := Ready) else s.tasks[t]
    decreases |due|
  {
    if due != [] {
      WakeAllStates(WakeOne(s, due[0].task), due[1..], t);
      assert due == [due[0]] + due[1..];
      assert Sleeps(due, t) <==> due[0].task == t || Sleeps(due[1..], t);
    }
  }

  lemma {:induction false} NotDueSorted(list: seq<Sleeper>, now: nat)
    requires Sorted(list)
    ensures Sorted(NotDue(list, now))
  {
    if list != [] {
      NotDueSorted(list[1..], now);
      assert forall e :: e in list[1..] ==> list[0].wake <= e.wake;
    }
  }

  lemma RequeueInv(s: State)
    requires Inv(s)
    ensures Inv(Requeue(s))
    ensures forall t :: t in s.tasks ==> !Requeue(s).tasks[t].state.Running?
  {
    if s.current.Some? && s.tasks[s.current.value].state.Running? {
      MakeReadyInv(s, s.current.value);
    }
  }

  lemma CheckSleepersInv(s: State)
    requires Inv(s)
    ensures Inv(CheckSleepers(s))
    ensures forall t :: t in s.tasks && !s.tasks[t].state.Running? ==> !CheckSleepers(s).tasks[t].state.Running?
  {
    var r := s.(sleepers := NotDue(s.sleepers, s.ticks));
    NotDueSorted(s.sleepers, s.ticks);
    assert Live(r) == Live(s);
    WakeAllInv(r, Due(s.sleepers, s.ticks));
  }

  /** At a decision nothing runs: the current task has been put back. */
  lemma AtDecisionInv(s: State)
    requires Inv(s)
    ensures Inv(AtDecision(s))
    ensures forall t :: t in s.tasks ==> !AtDecision(s).tasks[t].state.Running?
  {
    RequeueInv(s);
    CheckSleepersInv(Requeue(s));
  }

  // ----- Dispatch -----

  lemma DispatchInv(s: State, t: TaskId, qs: Levels)
    requires Inv(s) && t in s.tasks && !s.tasks[t].state.Zombie?
    requires forall u :: u in s.tasks ==> !s.tasks[u].state.Running?
    requires Queued(qs) == Queued(s.queues) - multiset{t}
    ensures Inv(Dispatch(s.(queues := qs), t))
  {
    DispatchedInv(s, t, Dispatch(s.(queues := qs), t));
  }

  /** With nothing else running, a task taken from the queues runs now. */
  lemma DispatchedInv(s: State, t: TaskId, r: State)
    requires Inv(s) && t in s.tasks && !s.tasks[t].state.Zombie?
    requires forall u :: u in s.tasks ==> !s.tasks[u].state.Running?
    requires r == s.(queues := r.queues, tasks := r.tasks, current := r.current,
                     switches := r.switches, idleTicks := r.idleTicks)
    requires Queued(r.queues) == Queued(s.queues) - multiset{t}
    requires t in r.tasks && r.tasks == s.tasks[t := r.tasks[t]] && r.tasks[t].state.Running? && r.current == Some(t)
    ensures Inv(r)
  {
    assert Live(r) == Live(s);
  }

  lemma ChooseQueuedInv(s: State, l: nat)
    requires Inv(s) && l < LEVELS && s.queues[l] != []
    requires forall u :: u in s.tasks ==> !s.tasks[u].state.Running?
    ensures s.queues[l][0] in s.tasks
    ensures Inv(Dispatch(s.(queues := s.queues[l := s.queues[l][1..]]), s.queues[l][0]))
  {
    QueuedPop(s.queues, l);
    DispatchInv(s, s.queues[l][0], s.queues[l := s.queues[l][1..]]);
  }

  lemma ChooseIdleInv(s: State)
    requires Inv(s) && s.idle.Some? && Queued(s.queues) == multiset{}
    requires forall u :: u in s.tasks ==> !s.tasks[u].state.Running?
    ensures Inv(Dispatch(s, s.idle.value))
  {
    DispatchInv(s, s.idle.value, s.queues);
    assert s.(queues := s.queues) == s;
  }

  lemma ChooseInv(s: State)
    requires Inv(s)
    requires forall u :: u in s.tasks ==> !s.tasks[u].state.Running?
    ensures Inv(Choose(s))
  {
    var l := FirstLevel(s.queues);
    if l < LEVELS {
      ChooseQueuedInv(s, l);
    } else {
      NothingQueued(s.queues);
      if s.idle.Some? {
        ChooseIdleInv(s);
      }
    }
  }

  lemma ScheduleInv(s: State)
    requires Inv(s)
    ensures Inv(Schedule(s))
  {
    if s.preemptive {
      AtDecisionInv(s);
      AtDecisionWellFormed(s);
      ChooseInv(AtDecision(s));
    }
  }

  // ----- Operations -----

  lemma AddBlockedInv(s: State, k: Task)
    requires Inv(s) && |Live(s)| < MAX_TASKS && k.state.Blocked?
    ensures Inv(s.(tasks := s.tasks[s.nextId := k], nextId := s.nextId + 1))
  {
    assert Live(s.(tasks := s.tasks[s.nextId := k], nextId := s.nextId + 1)) == Live(s) + {s.nextId};
  }

  /** Creating is adding a blocked task and waking it. */
  lemma CreateInv(s: State, p: nat)
    requires Inv(s) && |Live(s)| < MAX_TASKS
    ensures Inv(Created(s, p))
  {
    var k := Task(Blocked, p, 0, 0, 0, 0);
    var s1 := s.(tasks := s.tasks[s.nextId := k], nextId := s.nextId + 1);
    AddBlockedInv(s, k);
    MakeReadyInv(s1, s.nextId);
    CreatedIsMadeReady(s, p);
  }

  lemma CreatedIsMadeReady(s: State, p: nat)
    ensures Created(s, p) ==
            MakeReady(s.(tasks := s.tasks[s.nextId := Task(Blocked, p, 0, 0, 0, 0)], nextId := s.nextId + 1), s.nextId)
  {
    var k := Task(Blocked, p, 0, 0, 0, 0);
    assert s.tasks[s.nextId := k][s.nextId := k.(state := Ready)] == s.tasks[s.nextId := k.(state := Ready)];
  }

  lemma {:induction false} InsertSorted(list: seq<Sleeper>, e: Sleeper)
    requires Sorted(list)
    ensures Sorted(Insert(list, e))
  {
    if list != [] && list[0].wake <= e.wake {
      InsertSorted(list[1..], e);
      InsertMembers(list[1..], e);
      assert forall x :: x in list[1..] ==> list[0].wake <= x.wake;
      var r := Insert(list[1..], e);
      assert forall x :: x in r ==> list[0].wake <= x.wake;
      assert forall j :: 0 <= j < |r| ==> r[j] in r;
    }
  }

  lemma {:induction false} RemoveSleeperSorted(list: seq<Sleeper>, t: TaskId)
    requires Sorted(list)
    ensures Sorted(RemoveSleeper(list, t))
  {
    if list != [] && list[0].task != t {
      RemoveSleeperSorted(list[1..], t);
      var r := RemoveSleeper(list[1..], t);
      assert forall x :: x in list[1..] ==> list[0].wake <= x.wake;
      assert forall j :: 0 <= j < |r| ==> r[j] in r;
    }
  }

  lemma BlockInv(s: State, list: seq<Sleeper>)
    requires Inv(s) && s.current.Some? && s.tasks[s.current.value].state.Running?
    requires Sorted(list) && forall e :: e in list ==> e.task in s.tasks
    ensures Inv(SetState(s.(sleepers := list), s.current.value, Blocked))
  {
    var r := SetState(s.(sleepers := list), s.current.value, Blocked);
    assert Live(r) == Live(s);
  }

  lemma WakeInv(s: State, t: TaskId)
    requires Inv(s)
    ensures Inv(Awakened(s, t))
  {
    if Sleeps(s.sleepers, t) {
      if s.tasks[t].state.Blocked? {
        MakeReadyInv(s, t);
      }
      RemoveSleeperSorted(s.sleepers, t);
      assert Live(Awakened(s, t)) == Live(WakeOne(s, t));
    }
  }

  lemma TerminateInv(s: State, t: TaskId, code: int)
    requires Inv(s) && s.idle != Some(t)
    ensures Inv(Terminated(s, t, code))
  {
    if Findable(s, t) {
      QueuedRemove(s.queues, t);
      TerminateWellFormed(s, t, code);
      RemovedInv(s, t, Terminated(s, t, code));
    }
  }

  lemma RemovedInv(s: State, t: TaskId, r: State)
    requires Inv(s) && WellFormed(r) && t in s.tasks && s.idle != Some(t)
    requires r == s.(queues := r.queues, tasks := r.tasks) && Queued(r.queues) == Queued(s.queues) - multiset{t}
    requires t in r.tasks && r.tasks[t].state.Zombie? && r.tasks == s.tasks[t := r.tasks[t]]
    ensures Inv(r)
  {
    assert Live(r) == Live(s) - {t};
  }

  lemma SleepInv(s: State, ms: nat)
    requires Inv(s) && Permitted(s, Sleep(ms))
    ensures Inv(Slept(s, ms))
  {
    if ms > 0 && s.current.Some? {
      var e := Sleeper(s.current.value, s.ticks + ms / MS_PER_TICK);
      InsertMembers(s.sleepers, e);
      InsertSorted(s.sleepers, e);
      BlockInv(s, Insert(s.sleepers, e));
    }
  }

  /** Changing no queue, no pointer and no task's state keeps the invariant. */
  lemma FrameInv(s: State, r: State)
    requires Inv(s) && r.quantum < TWO_32
    requires r.queues == s.queues && r.sleepers == s.sleepers && r.nextId == s.nextId
    requires r.current == s.current && r.idle == s.idle && r.tasks.Keys == s.tasks.Keys
    requires forall t :: t in s.tasks ==> t in r.tasks && r.tasks[t].state == s.tasks[t].state
    ensures Inv(r)
  {
    assert forall t :: t in r.tasks ==> t in s.tasks && r.tasks[t].state == s.tasks[t].state;
    assert Live(r) == Live(s);
  }

  lemma BlockCurrentInv(s: State)
    requires Inv(s) && Permitted(s, Block)
    ensures Inv(SelfBlocked(s))
  {
    if s.current.Some? {
      BlockInv(s, s.sleepers);
      assert s.(sleepers := s.sleepers) == s;
    }
  }

  lemma PrepareInv(s: State, op: Op)
    requires Inv(s) && Permitted(s, op)
    ensures Inv(Prepare(s, op))
  {
    match op
    case Create(p) => CreateInv(s, p);
    case Block => BlockCurrentInv(s);
    case Unblock(t) => if Findable(s, t) && s.tasks[t].state.Blocked? { MakeReadyInv(s, t); }
    case Sleep(ms) => SleepInv(s, ms);
    case Wake(t) => WakeInv(s, t);
    case Terminate(t, code) => TerminateInv(s, t, code);
    case _ => FrameInv(s, Prepare(s, op));
  }

  lemma ApplyInv(s: State, op: Op)
    requires Inv(s) && Permitted(s, op)
    ensures Inv(Apply(s, op))
  {
    PrepareInv(s, op);
    PrepareWellFormed(s, op);
    ScheduleInv(Prepare(s, op));
  }

  // ----- Runs -----

  predicate PermittedRun(s: State, ops: seq<Op>)
    requires WellFormed(s)
    decreases |ops|
  {
    ops == [] || (Permitted(s, ops[0]) && PermittedRun(Apply(s, ops[0]), ops[1..]))
  }

  lemma {:induction false} RunInv(s: State, ops: seq<Op>)
    requires Inv(s) && PermittedRun(s, ops)
    ensures Inv(Run(s, ops))
    decreases |ops|
  {
    if ops != [] {
      ApplyInv(s, ops[0]);
      RunInv(Apply(s, ops[0]), ops[1..]);
    }
  }

  lemma InitInv(idle: Option<TaskId>)
    requires idle.Some? ==> idle.value < 1
    ensures Inv(Init(idle))
  {
    NothingQueued(Init(idle).queues);
    assert Live(Init(idle)) == if idle.Some? then {idle.value} else {};
  }

  /** Two slots with the same task mean that it is queued twice. */
  lemma TwoSlots(qs: seq<seq<TaskId>>, l: nat, i: nat, m: nat, j: nat)
    requires l < |qs| && i < |qs[l]| && m < |qs| && j < |qs[m]|
    requires qs[l][i] == qs[m][j] && (l != m || i != j)
    ensures Queued(qs)[qs[l][i]] >= 2
  {
    if l == m {
      QueuedUpdate(qs, l, []);
      TwoPositions(qs[l], if i < j then i else j, if i < j then j else i);
    } else {
      TwoLevels(qs, l, m, qs[l][i]);
    }
  }

  lemma TwoLevels(qs: seq<seq<TaskId>>, l: nat, m: nat, t: TaskId)
    requires l < |qs| && m < |qs| && l != m && t in qs[l] && t in qs[m]
    ensures Queued(qs)[t] >= 2
  {
    QueuedUpdate(qs, l, []);
    QueuedUpdate(qs[l := []], m, []);
    assert multiset(qs[l])[t] >= 1 && multiset(qs[m])[t] >= 1;
  }

  lemma TwoPositions(q: seq<TaskId>, i: nat, j: nat)
    requires i < j < |q| && q[i] == q[j]
    ensures multiset(q)[q[i]] >= 2
  {
    assert q == q[..j] + q[j..];
    assert q[..j][i] in multiset(q[..j]) && q[j..][0] in multiset(q[j..]);
  }

  // ----- Terminated tasks -----

  lemma DecisionKeepsZombie(s: State, t: TaskId)
    requires Inv(s) && t in s.tasks && s.tasks[t].state.Zombie?
    ensures Schedule(s).tasks[t].state.Zombie?
  {
    if s.preemptive {
      AtDecisionInv(s);
      var r := Requeue(s);
      WakeAllStates(r.(sleepers := NotDue(r.sleepers, r.ticks)), Due(r.sleepers, r.ticks), t);
      ChooseKeepsZombie(AtDecision(s), t);
    }
  }

  lemma ChooseKeepsZombie(s: State, t: TaskId)
    requires Inv(s) && t in s.tasks && s.tasks[t].state.Zombie?
    ensures Choose(s).tasks[t].state.Zombie?
  {
    var l := FirstLevel(s.queues);
    if l < LEVELS {
      QueuedHas(s.queues, l, 0);
    }
  }

  lemma PrepareKeepsZombie(s: State, op: Op, t: TaskId)
    requires Inv(s) && Permitted(s, op) && t in s.tasks && s.tasks[t].state.Zombie?
    ensures t in Prepare(s, op).tasks && Prepare(s, op).tasks[t].state.Zombie?
  {
  }

  /** A terminated task is never dispatched, or anything else, again. */
  lemma {:induction false} ZombieForever(s: State, ops: seq<Op>, t: TaskId)
    requires Inv(s) && PermittedRun(s, ops) && t in s.tasks && s.tasks[t].state.Zombie?
    ensures t in Run(s, ops).tasks && Run(s, ops).tasks[t].state.Zombie?
    decreases |ops|
  {
    if ops != [] {
      PrepareKeepsZombie(s, ops[0], t);
      PrepareInv(s, ops[0]);
      PrepareWellFormed(s, ops[0]);
      if Reschedules(s, ops[0]) {
        DecisionKeepsZombie(Prepare(s, ops[0]), t);
      }
      ApplyInv(s, ops[0]);
      ZombieForever(Apply(s, ops[0]), ops[1..], t);
    }
  }

  lemma {:induction false} RunSplit(s: State, ops: seq<Op>, n: nat)
    requires WellFormed(s) && PermittedRun(s, ops) && n <= |ops|
    ensures PermittedRun(s, ops[..n]) && PermittedRun(Run(s, ops[..n]), ops[n..])
    ensures Run(s, ops) == Run(Run(s, ops[..n]), ops[n..])
    decreases n
  {
    if n == 0 {
      assert ops[..0] == [] && ops[0..] == ops;
    } else {
      RunSplit(Apply(s, ops[0]), ops[1..], n - 1);
      assert ops[..n][0] == ops[0] && ops[..n][1..] == ops[1..][..n - 1] && ops[n..] == ops[1..][n - 1..];
    }
  }

  // ----- Ready tasks stay queued -----

  /** Unlike `NoneLost`, this is for any task: an idle task has it once it has been dispatched. */
  predicate QueuedIfReady(s: State, t: TaskId) {
    t in s.tasks && s.tasks[t].state.Ready? ==> t in Queued(s.queues)
  }

  lemma WakeOneKeepsQueued(s: State, u: TaskId, t: TaskId)
    requires Inv(s) && u in s.tasks && QueuedIfReady(s, t)
    ensures QueuedIfReady(WakeOne(s, u), t)
  {
    if s.tasks[u].state.Blocked? {
      MakeReadyAppends(s, u);
    }
  }

  lemma {:induction false} WakeAllKeepsQueued(s: State, due: seq<Sleeper>, t: TaskId)
    requires Inv(s) && QueuedIfReady(s, t)
    requires forall e :: e in due ==> e.task in s.tasks
    ensures QueuedIfReady(WakeAll(s, due), t)
    decreases |due|
  {
    if due != [] {
      if s.tasks[due[0].task].state.Blocked? {
        MakeReadyInv(s, due[0].task);
      }
      WakeOneKeepsQueued(s, due[0].task, t);
      WakeAllKeepsQueued(WakeOne(s, due[0].task), due[1..], t);
    }
  }

  lemma RequeueKeepsQueued(s: State, t: TaskId)
    requires Inv(s) && QueuedIfReady(s, t)
    ensures QueuedIfReady(Requeue(s), t)
  {
    if s.current.Some? && s.tasks[s.current.value].state.Running? {
      MakeReadyAppends(s, s.current.value);
    }
  }

  lemma AtDecisionKeepsQueued(s: State, t: TaskId)
    requires Inv(s) && QueuedIfReady(s, t)
    ensures QueuedIfReady(AtDecision(s), t)
  {
    RequeueInv(s);
    RequeueKeepsQueued(s, t);
    var r := Requeue(s);
    var r' := r.(sleepers := NotDue(r.sleepers, r.ticks));
    NotDueSorted(r.sleepers, r.ticks);
    assert Live(r') == Live(r);
    WakeAllKeepsQueued(r', Due(r.sleepers, r.ticks), t);
  }

  lemma ChooseKeepsQueued(s: State, t: TaskId)
    requires Inv(s) && QueuedIfReady(s, t)
    ensures QueuedIfReady(Choose(s), t)
  {
    var l := FirstLevel(s.queues);
    if l < LEVELS {
      PopKeepsQueued(s, l, t);
    } else if s.idle.Some? {
      var r := Dispatch(s, s.idle.value);
      assert r.queues == s.queues && (s.idle != Some(t) && t in s.tasks ==> r.tasks[t] == s.tasks[t]);
    }
  }

  lemma PopKeepsQueued(s: State, l: nat, t: TaskId)
    requires WellFormed(s) && l < LEVELS && s.queues[l] != [] && QueuedIfReady(s, t)
    ensures s.queues[l][0] in s.tasks
    ensures QueuedIfReady(Dispatch(s.(queues := s.queues[l := s.queues[l][1..]]), s.queues[l][0]), t)
  {
    QueuedPop(s.queues, l);
    var u := s.queues[l][0];
    var r := Dispatch(s.(queues := s.queues[l := s.queues[l][1..]]), u);
    assert Queued(r.queues) == Queued(s.queues) - multiset{u};
    assert u in s.tasks && r.tasks[u].state.Running?;
    if t in r.tasks && t != u {
      assert r.tasks[t] == s.tasks[t];
    }
  }

  lemma ScheduleKeepsQueued(s: State, t: TaskId)
    requires Inv(s) && QueuedIfReady(s, t)
    ensures QueuedIfReady(Schedule(s), t)
  {
    if s.preemptive {
      AtDecisionInv(s);
      AtDecisionKeepsQueued(s, t);
      ChooseKeepsQueued(AtDecision(s), t);
    }
  }

  lemma CreateKeepsQueued(s: State, p: nat, t: TaskId)
    requires Inv(s) && |Live(s)| < MAX_TASKS && QueuedIfReady(s, t)
    ensures QueuedIfReady(Created(s, p), t)
  {
    if t == s.nextId {
      CreateInv(s, p);
    } else {
      QueuedUpdate(s.queues, Level(p), s.queues[Level(p)] + [s.nextId]);
    }
  }

  lemma TerminateKeepsQueued(s: State, u: TaskId, code: int, t: TaskId)
    requires Inv(s) && QueuedIfReady(s, t)
    ensures QueuedIfReady(Terminated(s, u, code), t)
  {
    QueuedRemove(s.queues, u);
  }

  lemma PrepareKeepsQueued(s: State, op: Op, t: TaskId)
    requires Inv(s) && Permitted(s, op) && QueuedIfReady(s, t)
    ensures QueuedIfReady(Prepare(s, op), t)
  {
    match op
    case Create(p) => CreateKeepsQueued(s, p, t);
    case Unblock(u) => if Findable(s, u) && s.tasks[u].state.Blocked? { WakeOneKeepsQueued(s, u, t); }
    case Wake(u) => if Sleeps(s.sleepers, u) { WakeOneKeepsQueued(s, u, t); }
    case Terminate(u, code) => TerminateKeepsQueued(s, u, code, t);
    case _ =>
  }

  lemma {:induction false} RunKeepsQueued(s: State, ops: seq<Op>, t: TaskId)
    requires Inv(s) && PermittedRun(s, ops) && QueuedIfReady(s, t)
    ensures QueuedIfReady(Run(s, ops), t)
    decreases |ops|
  {
    if ops != [] {
      var op := ops[0];
      PrepareKeepsQueued(s, op, t);
      PrepareInv(s, op);
      PrepareWellFormed(s, op);
      ScheduleKeepsQueued(Prepare(s, op), t);
      ApplyInv(s, op);
      RunKeepsQueued(Apply(s, op), ops[1..], t);
    }
  }

  /** Safety of every run from boot: each queue slot holds a different task, queued tasks are
      ready, the running task is the current one and is not queued, no zombie is queued, a task
      that was a zombie after the first `n` operations is one still, so it has not been
      dispatched, and no ready task is missing from the queues but an idle task that was never
      dispatched: one that was running after the first `n` operations is not. */
  lemma EveryRunIsSafe(idle: Option<TaskId>, ops: seq<Op>, n: nat, l: nat, i: nat, m: nat, j: nat, t: TaskId)
    requires idle.Some? ==> idle.value < 1
    requires PermittedRun(Init(idle), ops) && n <= |ops|
    ensures var s := Run(Init(idle), ops);
            var before := Run(Init(idle), ops[..n]);
            && (l < LEVELS && i < |s.queues[l]| ==> s.queues[l][i] in s.tasks && s.tasks[s.queues[l][i]].state.Ready?)
            && (l < LEVELS && i < |s.queues[l]| && m < LEVELS && j < |s.queues[m]| && s.queues[l][i] == s.queues[m][j]
                ==> l == m && i == j)
            && (t in s.tasks && s.tasks[t].state.Running? ==> s.current == Some(t) && t !in Queued(s.queues))
            && (t in s.tasks && s.tasks[t].state.Zombie? ==> t !in Queued(s.queues))
            && (t in before.tasks && before.tasks[t].state.Zombie? ==> t in s.tasks && s.tasks[t].state.Zombie?)
            && (t in s.tasks && s.tasks[t].state.Ready? && (idle != Some(t) || RunningTask(before, t)) ==>
                  Queued(s.queues)[t] == 1)
  {
    InitInv(idle);
    RunInv(Init(idle), ops);
    RunFrame(Init(idle), ops);
    SlotsAreSafe(Run(Init(idle), ops), l, i, m, j);
    RunSplit(Init(idle), ops, n);
    var before := Run(Init(idle), ops[..n]);
    RunInv(Init(idle), ops[..n]);
    if t in before.tasks && before.tasks[t].state.Zombie? {
      ZombieForever(before, ops[n..], t);
    }
    if RunningTask(before, t) {
      RunKeepsQueued(before, ops[n..], t);
    }
  }

  predicate RunningTask(s: State, t: TaskId) {
    t in s.tasks && s.tasks[t].state.Running?
  }

  /** Ready, but nowhere to be found. */
  predicate Aside(s: State, t: TaskId) {
    && t in s.tasks && s.tasks[t].state.Ready? && t !in Queued(s.queues)
    && s.current != Some(t) && !Sleeps(s.sleepers, t)
  }

  lemma WakeOneKeepsAside(s: State, u: TaskId, t: TaskId)
    requires u in s.tasks && u != t && Aside(s, t)
    ensures Aside(WakeOne(s, u), t)
  {
    QueuedEnqueue(SetState(s, u, Ready), u);
  }

  lemma {:induction false} WakeAllKeepsAside(s: State, due: seq<Sleeper>, t: TaskId)
    requires Aside(s, t) && !Sleeps(due, t)
    requires forall e :: e in due ==> e.task in s.tasks
    ensures Aside(WakeAll(s, due), t)
    decreases |due|
  {
    if due != [] {
      assert due[0] in due;
      WakeOneKeepsAside(s, due[0].task, t);
      assert forall e :: e in due[1..] ==> e in due;
      WakeAllKeepsAside(WakeOne(s, due[0].task), due[1..], t);
    }
  }

  lemma AtDecisionKeepsAside(s: State, t: TaskId)
    requires WellFormed(s) && Aside(s, t)
    ensures Aside(AtDecision(s), t)
  {
    var r := Requeue(s);
    if s.current.Some? && s.tasks[s.current.value].state.Running? {
      QueuedEnqueue(SetState(s, s.current.value, Ready), s.current.value);
    }
    assert Aside(r, t);
    WakeAllKeepsAside(r.(sleepers := NotDue(r.sleepers, r.ticks)), Due(r.sleepers, r.ticks), t);
  }

  lemma ChooseKeepsAside(s: State, t: TaskId)
    requires WellFormed(s) && Aside(s, t)
    ensures RunningTask(Choose(s), t) || Aside(Choose(s), t)
  {
    var l := FirstLevel(s.queues);
    if l < LEVELS {
      QueuedPop(s.queues, l);
    }
  }

  lemma ScheduleKeepsAside(s: State, t: TaskId)
    requires WellFormed(s) && Aside(s, t)
    ensures RunningTask(Schedule(s), t) || Aside(Schedule(s), t)
  {
    if s.preemptive {
      AtDecisionWellFormed(s);
      AtDecisionKeepsAside(s, t);
      ChooseKeepsAside(AtDecision(s), t);
    }
  }

  lemma CreateKeepsAside(s: State, p: nat, t: TaskId)
    requires Inv(s) && Aside(s, t)
    ensures Aside(Created(s, p), t)
  {
    QueuedUpdate(s.queues, Level(p), s.queues[Level(p)] + [s.nextId]);
  }

  lemma SleepKeepsAside(s: State, ms: nat, t: TaskId)
    requires WellFormed(s) && Aside(s, t)
    ensures Aside(Slept(s, ms), t)
  {
    if ms > 0 && s.current.Some? {
      InsertMembers(s.sleepers, Sleeper(s.current.value, s.ticks + ms / MS_PER_TICK));
    }
  }

  lemma BlockKeepsAside(s: State, t: TaskId)
    requires WellFormed(s) && Aside(s, t)
    ensures Aside(SelfBlocked(s), t)
  {
  }

  lemma UnblockKeepsAside(s: State, u: TaskId, t: TaskId)
    requires WellFormed(s) && Aside(s, t)
    ensures Aside(Unblocked(s, u), t)
  {
    if Findable(s, u) && s.tasks[u].state.Blocked? {
      WakeOneKeepsAside(s, u, t);
    }
  }

  lemma WakeKeepsAside(s: State, u: TaskId, t: TaskId)
    requires WellFormed(s) && Aside(s, t)
    ensures Aside(Awakened(s, u), t)
  {
    if Sleeps(s.sleepers, u) {
      WakeOneKeepsAside(s, u, t);
    }
  }

  lemma TerminateKeepsAside(s: State, u: TaskId, code: int, t: TaskId)
    requires WellFormed(s) && Aside(s, t)
    ensures Aside(Terminated(s, u, code), t)
  {
    QueuedRemove(s.queues, u);
  }

  lemma FrameKeepsAside(s: State, r: State, t: TaskId)
    requires Aside(s, t) && t in r.tasks && r.tasks[t].state == s.tasks[t].state
    requires r.queues == s.queues && r.sleepers == s.sleepers && r.current == s.current
    ensures Aside(r, t)
  {
  }

  lemma PrepareKeepsAside(s: State, op: Op, t: TaskId)
    requires Inv(s) && Aside(s, t)
    ensures Aside(Prepare(s, op), t)
  {
    match op
    case Create(p) => CreateKeepsAside(s, p, t);
    case Block => BlockKeepsAside(s, t);
    case Unblock(u) => UnblockKeepsAside(s, u, t);
    case Sleep(ms) => SleepKeepsAside(s, ms, t);
    case Wake(u) => WakeKeepsAside(s, u, t);
    case Terminate(u, code) => TerminateKeepsAside(s, u, code, t);
    case _ => FrameKeepsAside(s, Prepare(s, op), t);
  }

  predicate RanDuring(s: State, ops: seq<Op>, t: TaskId)
    requires WellFormed(s)
    decreases |ops|
  {
    RunningTask(s, t) || (ops != [] && RanDuring(Apply(s, ops[0]), ops[1..], t))
  }

  lemma {:induction false} RunKeepsAside(s: State, ops: seq<Op>, t: TaskId)
    requires Inv(s) && PermittedRun(s, ops) && Aside(s, t) && !RanDuring(s, ops, t)
    ensures Aside(Run(s, ops), t)
    decreases |ops|
  {
    if ops != [] {
      var op := ops[0];
      PrepareKeepsAside(s, op, t);
      PrepareWellFormed(s, op);
      ScheduleKeepsAside(Prepare(s, op), t);
      ApplyInv(s, op);
      RunKeepsAside(Apply(s, op), ops[1..], t);
    }
  }

  lemma {:induction false} RanIsQueuedIfReady(s: State, ops: seq<Op>, t: TaskId)
    requires Inv(s) && PermittedRun(s, ops) && RanDuring(s, ops, t)
    ensures QueuedIfReady(Run(s, ops), t)
    decreases |ops|
  {
    if RunningTask(s, t) {
      RunKeepsQueued(s, ops, t);
    } else {
      ApplyInv(s, ops[0]);
      RanIsQueuedIfReady(Apply(s, ops[0]), ops[1..], t);
    }
  }

  /** From boot: the idle task is ready without being queued exactly until it is dispatched for
      the first time. */
  lemma IdleAsideExactlyUntilItRuns(idle: TaskId, ops: seq<Op>)
    requires idle < 1 && PermittedRun(Init(Some(idle)), ops)
    ensures Aside(Run(Init(Some(idle)), ops), idle) <==> !RanDuring(Init(Some(idle)), ops, idle)
  {
    var s := Init(Some(idle));
    InitInv(Some(idle));
    NothingQueued(s.queues);
    if RanDuring(s, ops, idle) {
      RanIsQueuedIfReady(s, ops, idle);
    } else {
      RunKeepsAside(s, ops, idle);
    }
  }

  lemma SlotsAreSafe(s: State, l: nat, i: nat, m: nat, j: nat)
    requires Inv(s)
    ensures l < LEVELS && i < |s.queues[l]| ==> s.queues[l][i] in s.tasks && s.tasks[s.queues[l][i]].state.Ready?
    ensures l < LEVELS && i < |s.queues[l]| && m < LEVELS && j < |s.queues[m]| && s.queues[l][i] == s.queues[m][j] ==>
              l == m && i == j
  {
    if l < LEVELS && i < |s.queues[l]| {
      var u := s.queues[l][i];
      QueuedHas(s.queues, l, i);
      assert u in Queued(s.queues);
      if m < LEVELS && j < |s.queues[m]| && s.queues[l][i] == s.queues[m][j] && (l != m || i != j) {
        TwoSlots(s.queues, l, i, m, j);
      }
    }
  }

  // ----- Where the callers' duties are needed -----

  /** The "queue full" branch loses the new task exactly when it is taken; under the bound on
      live tasks it is not. */
  lemma CreateLosesExactlyWhenFull(s: State, p: nat)
    requires Inv(s)
    ensures NoneLost(Created(s, p)) <==> |s.queues[Level(p)]| < MAX_TASKS
    ensures |Live(s)| < MAX_TASKS ==> NoneLost(Created(s, p))
  {
    var t := s.nextId;
    var s1 := s.(tasks := s.tasks[t := Task(Ready, p, 0, 0, 0, 0)], nextId := t + 1);
    QueuedEnqueue(s1, t);
    assert t !in s.tasks && t !in Queued(s.queues) && s.idle != Some(t);
    if |Live(s)| < MAX_TASKS {
      CreateInv(s, p);
    }
  }

  /** A current task that is queued must not block: it would stay queued while blocked. */
  lemma BlockBreaksExactlyWhenQueued(s: State)
    requires Inv(s) && s.current.Some?
    ensures QueuedOnceAndReady(SelfBlocked(s)) <==> s.current.value !in Queued(s.queues)
  {
  }

  /** No task is queued, none runs, and no overdue sleeper is still blocked. */
  predicate NothingToRun(s: State)
    requires WellFormed(s)
  {
    && (forall l :: 0 <= l < LEVELS ==> s.queues[l] == [])
    && (s.current.Some? ==> !s.tasks[s.current.value].state.Running?)
    && NobodyDue(s, Due(s.sleepers, s.ticks))
  }

  predicate NobodyDue(s: State, due: seq<Sleeper>)
    requires forall e :: e in due ==> e.task in s.tasks
  {
    forall e :: e in due ==> !s.tasks[e.task].state.Blocked?
  }

  /** Waking tasks only appends to the queues. */
  lemma {:induction false} WakeAllAppends(s: State, due: seq<Sleeper>, l: nat)
    requires forall e :: e in due ==> e.task in s.tasks
    requires l < LEVELS
    ensures s.queues[l] <= WakeAll(s, due).queues[l]
    decreases |due|
  {
    if due != [] {
      WakeAllAppends(WakeOne(s, due[0].task), due[1..], l);
    }
  }

  lemma AtDecisionAppends(s: State, l: nat)
    requires WellFormed(s) && l < LEVELS
    ensures s.queues[l] <= AtDecision(s).queues[l]
  {
    var r := Requeue(s);
    WakeAllAppends(r.(sleepers := NotDue(r.sleepers, r.ticks)), Due(r.sleepers, r.ticks), l);
  }

  lemma {:induction false} WakeAllQuiet(s: State, due: seq<Sleeper>)
    requires forall e :: e in due ==> e.task in s.tasks
    requires NobodyDue(s, due)
    ensures WakeAll(s, due) == s
    decreases |due|
  {
    if due != [] {
      WakeAllQuiet(s, due[1..]);
    }
  }

  lemma {:induction false} WakeAllFills(s: State, due: seq<Sleeper>) returns (l: nat)
    requires forall e :: e in due ==> e.task in s.tasks
    requires !NobodyDue(s, due)
    ensures l < LEVELS && WakeAll(s, due).queues[l] != []
    decreases |due|
  {
    var t := due[0].task;
    if s.tasks[t].state.Blocked? {
      l := Level(s.tasks[t].priority);
      WakeAllAppends(WakeOne(s, t), due[1..], l);
    } else {
      l := WakeAllFills(s, due[1..]);
    }
  }

  /** Something to run means some level is not empty at the decision. */
  lemma SomethingAtDecision(s: State) returns (l: nat)
    requires WellFormed(s) && !NothingToRun(s)
    ensures l < LEVELS && AtDecision(s).queues[l] != []
  {
    var r := Requeue(s);
    var r' := r.(sleepers := NotDue(r.sleepers, r.ticks));
    var due := Due(s.sleepers, s.ticks);
    assert AtDecision(s) == WakeAll(r', due);
    if m :| 0 <= m < LEVELS && s.queues[m] != [] {
      l := m;
      AtDecisionAppends(s, l);
    } else if s.current.Some? && s.tasks[s.current.value].state.Running? {
      l := Level(s.tasks[s.current.value].priority);
      WakeAllAppends(r', due, l);
    } else {
      l := WakeAllFills(r', due);
    }
  }

  lemma NothingAtDecision(s: State)
    requires WellFormed(s) && NothingToRun(s)
    ensures AtDecision(s).queues == s.queues
  {
    WakeAllQuiet(s.(sleepers := NotDue(s.sleepers, s.ticks)), Due(s.sleepers, s.ticks));
  }

  /** Waking queues blocked tasks only. */
  lemma {:induction false} WakeAllSkips(s: State, due: seq<Sleeper>, t: TaskId)
    requires t in s.tasks && forall e :: e in due ==> e.task in s.tasks
    requires t !in Queued(s.queues) && !s.tasks[t].state.Blocked?
    ensures t !in Queued(WakeAll(s, due).queues) && WakeAll(s, due).tasks[t] == s.tasks[t]
    decreases |due|
  {
    if due != [] {
      var u := due[0].task;
      if s.tasks[u].state.Blocked? {
        QueuedEnqueue(SetState(s, u, Ready), u);
      }
      WakeAllSkips(WakeOne(s, u), due[1..], t);
    }
  }

  lemma AtDecisionSkipsZombie(s: State, t: TaskId)
    requires WellFormed(s) && t in s.tasks && s.tasks[t].state.Zombie? && t !in Queued(s.queues)
    ensures t !in Queued(AtDecision(s).queues) && AtDecision(s).tasks[t] == s.tasks[t]
  {
    if s.current.Some? && s.tasks[s.current.value].state.Running? {
      QueuedEnqueue(SetState(s, s.current.value, Ready), s.current.value);
    }
    var r := Requeue(s);
    WakeAllSkips(r.(sleepers := NotDue(r.sleepers, r.ticks)), Due(r.sleepers, r.ticks), t);
  }

  /** A terminated idle task is dispatched exactly when there is nothing else to run. */
  lemma TerminatedIdleRunsExactlyWhenNothingElse(s: State)
    requires WellFormed(s) && s.preemptive && s.idle.Some?
    requires s.tasks[s.idle.value].state.Zombie? && s.idle.value !in Queued(s.queues)
    ensures Schedule(s).tasks[s.idle.value].state.Running? <==> NothingToRun(s)
  {
    AtDecisionWellFormed(s);
    if NothingToRun(s) {
      NothingAtDecision(s);
    } else {
      var m := SomethingAtDecision(s);
    }
    AtDecisionSkipsZombie(s, s.idle.value);
    var d := AtDecision(s);
    var l := FirstLevel(d.queues);
    if l < LEVELS {
      QueuedHas(d.queues, l, 0);
      assert d.queues[l] != [] && d.queues[l][0] != s.idle.value;
    }
  }
}
