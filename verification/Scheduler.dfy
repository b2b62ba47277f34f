/** The scheduler of kernel/scheduler.c as it runs: one object whose methods update ring
    queues, the sleep list and task records in place, each proved to do what
    `SchedulerModel` says. */
module Schedulers {
  import opened TaskQueues
  import opened Options
  import opened Sequences
  import M = SchedulerModel

  lemma {:induction false} RemoveQueuedAt(qs: seq<seq<TaskId>>, t: TaskId, p: nat)
    requires p < |qs| && t in qs[p] && forall l :: 0 <= l < p ==> t !in qs[l]
    ensures M.RemoveQueued(qs, t) == qs[p := RemoveFirst(qs[p], t)]
  {
    if p > 0 {
      assert t !in qs[0];
      RemoveQueuedAt(qs[1..], t, p - 1);
    }
  }

  lemma {:induction false} RemoveQueuedAbsent(qs: seq<seq<TaskId>>, t: TaskId)
    requires forall l :: 0 <= l < |qs| ==> t !in qs[l]
    ensures M.RemoveQueued(qs, t) == qs && t !in M.Queued(qs)
  {
    if qs != [] {
      assert t !in qs[0];
      RemoveQueuedAbsent(qs[1..], t);
    }
  }

  function Without(list: seq<M.Sleeper>, i: nat): (r: seq<M.Sleeper>)
    requires i < |list|
    ensures |r| == |list| - 1 && forall e :: e in r ==> e in list
  {
    list[..i] + list[i + 1..]
  }

  /** Where a scan of the sleep list that has reached entry `i` ends. */
  ghost function ScanFrom(v: M.State, i: nat): M.State
    requires i <= |v.sleepers| && forall e :: e in v.sleepers ==> e.task in v.tasks
  {
    M.WakeAll(v.(sleepers := v.sleepers[..i] + M.NotDue(v.sleepers[i..], v.ticks)), M.Due(v.sleepers[i..], v.ticks))
  }

  lemma ScanEnds(v: M.State)
    requires M.WellFormed(v)
    ensures ScanFrom(v, 0) == M.CheckSleepers(v) && ScanFrom(v, |v.sleepers|) == v
  {
    var list := v.sleepers;
    assert list[0..] == list && list[..|list|] == list && list[|list|..] == [];
    assert list[..0] + M.NotDue(list, v.ticks) == M.NotDue(list, v.ticks);
    assert list[..|list|] + M.NotDue([], v.ticks) == list;
  }

  lemma ScanDue(v: M.State, i: nat)
    requires i < |v.sleepers| && forall e :: e in v.sleepers ==> e.task in v.tasks
    requires v.sleepers[i].wake <= v.ticks
    ensures ScanFrom(M.WakeOne(v, v.sleepers[i].task).(sleepers := Without(v.sleepers, i)), i) == ScanFrom(v, i)
  {
    var list := v.sleepers;
    var r := M.WakeOne(v, list[i].task).(sleepers := Without(list, i));
    assert r.sleepers[i..] == list[i..][1..] && r.sleepers[..i] == list[..i];
    assert M.NotDue(list[i..], v.ticks) == M.NotDue(list[i..][1..], v.ticks);
    var kept := list[..i] + M.NotDue(list[i..], v.ticks);
    assert r.(sleepers := kept) == M.WakeOne(v.(sleepers := kept), list[i].task);
  }

  lemma ScanNotDue(v: M.State, i: nat)
    requires i < |v.sleepers| && forall e :: e in v.sleepers ==> e.task in v.tasks
    requires v.sleepers[i].wake > v.ticks
    ensures ScanFrom(v, i + 1) == ScanFrom(v, i)
  {
    var list, rest := v.sleepers, v.sleepers[i..];
    assert rest[0] == list[i] && rest[1..] == list[i + 1..];
    var later := M.NotDue(rest[1..], v.ticks);
    assert list[..i + 1] == list[..i] + [list[i]];
    Regroup(list[..i], [list[i]], later);
  }

  lemma {:induction false} RemoveSleeperAt(list: seq<M.Sleeper>, t: TaskId, i: nat)
    requires i < |list| && list[i].task == t && forall k :: 0 <= k < i ==> list[k].task != t
    ensures M.RemoveSleeper(list, t) == Without(list, i)
  {
    if i > 0 {
      RemoveSleeperAt(list[1..], t, i - 1);
      assert Without(list, i) == [list[0]] + Without(list[1..], i - 1);
    }
  }

  class Scheduler {
    const ready: seq<TaskQueue>
    var sleeping: seq<M.Sleeper>
    var tasks: map<TaskId, M.Task>
    var current: Option<TaskId>
    var idle: Option<TaskId>
    var preemptive: bool
    var ticks: nat
    var switches: nat
    var idleTicks: nat
    var nextId: int
    var algorithm: int
    var quantum: nat

    ghost predicate Valid()
      reads this, ready
    {
      && |ready| == M.LEVELS
      && (forall i :: 0 <= i < M.LEVELS ==> ready[i].Valid())
      && (forall i, j :: 0 <= i < j < M.LEVELS ==> ready[i] != ready[j] && ready[i].slots != ready[j].slots)
    }

    ghost function Queues(): (qs: M.Levels)
      requires Valid()
      reads this, ready, set q | q in ready :: q.slots
      ensures forall i :: 0 <= i < M.LEVELS ==> qs[i] == ready[i].Contents()
    {
      seq(M.LEVELS,
          i requires 0 <= i < M.LEVELS && Valid() reads this, ready, set q | q in ready :: q.slots =>
            ready[i].Contents())
    }

    ghost function View(): M.State
      requires Valid()
      reads this, ready, set q | q in ready :: q.slots
    {
      M.State(Queues(), sleeping, tasks, current, idle, preemptive, ticks, switches, idleTicks, nextId,
              algorithm, quantum)
    }

    constructor (idleTask: Option<TaskId>)
      ensures Valid()
      ensures View() == M.Init(idleTask)
      ensures fresh(ready) && fresh(set q | q in ready :: q.slots)
    {
      sleeping, current, idle := [], None, idleTask;
      tasks := if idleTask.Some? then map[idleTask.value := M.Task(M.Ready, M.LOWEST, 0, 0, 0, 0)] else map[];
      preemptive, ticks, switches, idleTicks, nextId, algorithm, quantum := false, 0, 0, 0, 1, 1, 10;
      var qs: seq<TaskQueue> := [];
      for i := 0 to M.LEVELS
        invariant |qs| == i
        invariant forall k :: 0 <= k < i ==> fresh(qs[k]) && fresh(qs[k].slots)
        invariant forall k :: 0 <= k < i ==> qs[k].Valid() && qs[k].Contents() == []
        invariant forall j, k :: 0 <= j < k < i ==> qs[j] != qs[k] && qs[j].slots != qs[k].slots
      {
        var q := new TaskQueue();
        qs := qs + [q];
      }
      ready := qs;
    }

    // ----- Ready queues -----

    /** `scheduler_add_task`. */
    method AddTask(t: TaskId)
      requires Valid() && t in tasks
      modifies ready, set q | q in ready :: q.slots
      ensures Valid() && View() == M.Enqueue(old(View()), t)
    {
      PushAt(M.Level(tasks[t].priority), t);
    }

    method PushAt(level: nat, t: TaskId)
      requires Valid() && level < M.LEVELS
      modifies ready, set q | q in ready :: q.slots
      ensures Valid() && View() == old(View()).(queues := Queues())
      ensures var q := old(Queues())[level];
              Queues() == old(Queues())[level := if |q| < MAX_TASKS then q + [t] else q]
    {
      assert ready[level] in ready;
      ghost var qs := Queues();
      var ok := ready[level].Push(t);
      ghost var q := ready[level].Contents();
      assert forall i :: 0 <= i < M.LEVELS && i != level ==> ready[i].Contents() == qs[i];
      assert Queues() == qs[level := q];
    }

    /** Changes one task record and nothing else. */
    method SetTask(t: TaskId, k: M.Task)
      requires Valid()
      modifies this`tasks
      ensures Valid() && View() == old(View()).(tasks := old(tasks)[t := k])
    {
      tasks := tasks[t := k];
      assert Queues() == old(Queues());
    }

    method RemoveAtLevel(level: nat, t: TaskId) returns (found: bool)
      requires Valid() && level < M.LEVELS
      modifies ready, set q | q in ready :: q.slots
      ensures Valid() && View() == old(View()).(queues := Queues())
      ensures found <==> t in old(Queues())[level]
      ensures Queues() == old(Queues())[level := RemoveFirst(old(Queues())[level], t)]
    {
      assert ready[level] in ready;
      found := ready[level].Remove(t);
    }

    /** `scheduler_remove_task_from_ready_queue`. */
    method RemoveFromReadyQueue(t: TaskId)
      requires Valid()
      modifies ready, set q | q in ready :: q.slots
      ensures Valid() && View() == old(View()).(queues := M.RemoveQueued(old(View()).queues, t))
    {
      ghost var qs := Queues();
      for level := 0 to M.LEVELS
        invariant Valid() && View() == old(View())
        invariant forall l :: 0 <= l < level ==> t !in qs[l]
      {
        var found := RemoveAtLevel(level, t);
        if found {
          RemoveQueuedAt(qs, t, level);
          return;
        }
        assert Queues() == qs;
      }
      RemoveQueuedAbsent(qs, t);
    }

    /** `scheduler_get_next_task`: the task chosen, taken off its queue. */
    method GetNextTask() returns (next: Option<TaskId>)
      requires Valid()
      modifies ready, set q | q in ready :: q.slots
      ensures Valid()
      ensures var l := M.FirstLevel(old(Queues()));
              if l < M.LEVELS then
                && next == Some(old(Queues())[l][0])
                && View() == old(View()).(queues := old(Queues())[l := old(Queues())[l][1..]])
              else next == idle && View() == old(View())
    {
      ghost var qs := Queues();
      for level := 0 to M.LEVELS
        invariant Valid() && View() == old(View())
        invariant forall l :: 0 <= l < level ==> qs[l] == []
      {
        if ready[level].count > 0 {
          assert M.FirstLevel(qs) == level;
          var t := PopLevel(level);
          return Some(t);
        }
      }
      return idle;
    }

    method PopLevel(level: nat) returns (t: TaskId)
      requires Valid() && level < M.LEVELS && Queues()[level] != []
      modifies ready, set q | q in ready :: q.slots
      ensures Valid() && t == old(Queues())[level][0]
      ensures View() == old(View()).(queues := old(Queues())[level := old(Queues())[level][1..]])
    {
      assert ready[level] in ready;
      t := ready[level].PopFront();
    }

    method MakeReady(t: TaskId)
      requires Valid() && t in tasks
      modifies this`tasks, ready, set q | q in ready :: q.slots
      ensures Valid() && View() == M.MakeReady(old(View()), t)
    {
      SetTask(t, tasks[t].(state := M.Ready));
      AddTask(t);
    }

    /** `scheduler_find_task_by_id`. */
    method FindTask(t: TaskId) returns (found: bool)
      requires Valid()
      ensures found <==> M.Findable(View(), t)
    {
      if current == Some(t) {
        return true;
      }
      for level := 0 to M.LEVELS
        invariant forall l :: 0 <= l < level ==> t !in Queues()[l]
      {
        var i := ready[level].Find(t);
        if i < ready[level].count {
          assert t == Queues()[level][i];
          M.QueuedHas(Queues(), level, i);
          return true;
        }
      }
      RemoveQueuedAbsent(Queues(), t);
      var i := FindSleeper(t);
      return i < |sleeping|;
    }

    // ----- Sleep list -----

    /** The first entry of `t`, or the length of the list. */
    method FindSleeper(t: TaskId) returns (i: nat)
      ensures i <= |sleeping|
      ensures forall k :: 0 <= k < i ==> sleeping[k].task != t
      ensures i < |sleeping| ==> sleeping[i].task == t
      ensures i < |sleeping| <==> M.Sleeps(sleeping, t)
    {
      i := 0;
      while i < |sleeping| && sleeping[i].task != t
        invariant i <= |sleeping| && forall k :: 0 <= k < i ==> sleeping[k].task != t
      {
        i := i + 1;
      }
    }

    /** `scheduler_add_sleeping_task`, told whether there is memory for the entry. */
    method AddSleepingTask(t: TaskId, ms: nat, memory: bool)
      requires Valid() && t in tasks
      modifies this`tasks, this`sleeping
      ensures Valid()
      ensures var was := old(View());
              var e := M.Sleeper(t, was.ticks + ms / M.MS_PER_TICK);
              View() == if memory then M.SetState(was.(sleepers := M.Insert(was.sleepers, e)), t, M.Blocked) else was
    {
      if !memory {
        return;
      }
      InsertSleeper(M.Sleeper(t, ticks + ms / M.MS_PER_TICK));
      SetTask(t, tasks[t].(state := M.Blocked));
    }

    /** The insertion loop. */
    method InsertSleeper(e: M.Sleeper)
      requires Valid()
      modifies this`sleeping
      ensures Valid() && View() == old(View()).(sleepers := M.Insert(old(sleeping), e))
    {
      var i := 0;
      while i < |sleeping| && sleeping[i].wake <= e.wake
        invariant i <= |sleeping| && sleeping == old(sleeping)
        invariant M.Insert(sleeping, e) == sleeping[..i] + M.Insert(sleeping[i..], e)
      {
        assert sleeping[..i + 1] == sleeping[..i] + [sleeping[i]];
        Regroup(sleeping[..i], [sleeping[i]], M.Insert(sleeping[i + 1..], e));
        i := i + 1;
      }
      Regroup(sleeping[..i], [e], sleeping[i..]);
      sleeping := sleeping[..i] + [e] + sleeping[i..];
      assert Queues() == old(Queues());
    }

    /** `scheduler_check_sleeping_tasks`. */
    method CheckSleepingTasks()
      requires Valid() && M.WellFormed(View())
      modifies this`tasks, this`sleeping, ready, set q | q in ready :: q.slots
      ensures Valid() && View() == M.CheckSleepers(old(View()))
    {
      var i := 0;
      ScanEnds(View());
      while i < |sleeping|
        invariant 0 <= i <= |sleeping|
        invariant Valid() && M.WellFormed(View())
        invariant ScanFrom(View(), i) == M.CheckSleepers(old(View()))
        decreases |sleeping| - i
      {
        i := ScanStep(i);
      }
      ScanEnds(View());
    }

    /** One round of the scan: wake and remove entry `i`, or move past it. */
    method ScanStep(i: nat) returns (next: nat)
      requires Valid() && M.WellFormed(View()) && i < |sleeping|
      modifies this`tasks, this`sleeping, ready, set q | q in ready :: q.slots
      ensures Valid() && M.WellFormed(View())
      ensures next <= |sleeping| && |sleeping| - next < |old(sleeping)| - i
      ensures ScanFrom(View(), next) == ScanFrom(old(View()), i)
    {
      if sleeping[i].wake <= ticks {
        ScanDue(View(), i);
        M.MakeReadyWellFormed(View(), sleeping[i].task);
        WakeAt(i);
        next := i;
      } else {
        ScanNotDue(View(), i);
        next := i + 1;
      }
    }

    /** Wakes the task of entry `i` if it is still blocked, and removes the entry. */
    method WakeAt(i: nat)
      requires Valid() && i < |sleeping| && forall e :: e in sleeping ==> e.task in tasks
      modifies this`tasks, this`sleeping, ready, set q | q in ready :: q.slots
      ensures Valid()
      ensures View() == M.WakeOne(old(View()), old(sleeping)[i].task).(sleepers := Without(old(sleeping), i))
    {
      var t := sleeping[i].task;
      if tasks[t].state == M.Blocked {
        MakeReady(t);
      }
      ghost var v := View();
      sleeping := Without(sleeping, i);
      assert Queues() == v.queues;
    }

    // ----- Decisions -----

    /** `scheduler_schedule`. */
    method Schedule()
      requires Valid() && M.WellFormed(View())
      modifies this, ready, set q | q in ready :: q.slots
      ensures Valid() && View() == M.Schedule(old(View()))
    {
      if !preemptive {
        return;
      }
      M.AtDecisionWellFormed(View());
      if current.Some? && tasks[current.value].state == M.Running {
        MakeReady(current.value);
      }
      assert View() == M.Requeue(old(View()));
      CheckSleepingTasks();
      ghost var d := View();
      assert d == M.AtDecision(old(View()));
      var next := GetNextTask();
      if next.None? {
        return;
      }
      ghost var chosen := View();
      if M.FirstLevel(d.queues) < M.LEVELS {
        M.QueuedHas(d.queues, M.FirstLevel(d.queues), 0);
      }
      Dispatch(next.value);
    }

    /** The part of `scheduler_schedule` that makes `t` the running task. */
    method Dispatch(t: TaskId)
      requires Valid() && t in tasks
      modifies this
      ensures Valid() && View() == M.Dispatch(old(View()), t)
    {
      var slice := M.TimeSlice(algorithm, quantum, tasks[t].priority);
      tasks := tasks[t := tasks[t].(state := M.Running)];
      current := Some(t);
      switches := switches + 1;
      tasks := tasks[t := tasks[t].(timeSlice := slice, lastRun := ticks)];
      if idle != Some(t) {
        tasks := tasks[t := tasks[t].(cpuTime := tasks[t].cpuTime + 1)];
      } else {
        idleTicks := idleTicks + 1;
      }
      assert Queues() == old(Queues());
    }

    // ----- Operations -----

    /** `scheduler_create_task`, told whether there is memory for the task and for its stack.
        Without a stack the id is used up. */
    method Create(priority: nat, memory: bool, stack: bool) returns (id: int)
      requires Valid() && M.WellFormed(View())
      modifies this, ready, set q | q in ready :: q.slots
      ensures Valid()
      ensures memory && stack ==> View() == M.Apply(old(View()), M.Create(priority)) && id == old(nextId)
      ensures !(memory && stack) ==> id == -1
      ensures !(memory && stack) ==> View() == old(View()).(nextId := old(nextId) + if memory then 1 else 0)
    {
      if !memory {
        return -1;
      }
      if !stack {
        SkipId();
        return -1;
      }
      id := AddNewTask(priority);
    }

    method SkipId()
      requires Valid()
      modifies this`nextId
      ensures Valid() && View() == old(View()).(nextId := old(nextId) + 1)
    {
      nextId := nextId + 1;
    }

    method AddNewTask(priority: nat) returns (id: TaskId)
      requires Valid() && M.WellFormed(View())
      modifies this, ready, set q | q in ready :: q.slots
      ensures Valid() && View() == M.Apply(old(View()), M.Create(priority)) && id == old(nextId)
    {
      id := NewTask(priority);
      AddTask(id);
    }

    method NewTask(priority: nat) returns (id: TaskId)
      requires Valid()
      modifies this`tasks, this`nextId
      ensures Valid() && id == old(nextId)
      ensures View() == old(View()).(tasks := old(tasks)[id := M.Task(M.Ready, priority, 0, 0, 0, 0)], nextId := id + 1)
    {
      id := nextId;
      nextId := nextId + 1;
      tasks := tasks[id := M.Task(M.Ready, priority, 0, 0, 0, 0)];
      assert Queues() == old(Queues());
    }

    /** `scheduler_tick`. */
    method Tick()
      requires Valid() && M.WellFormed(View())
      modifies this, ready, set q | q in ready :: q.slots
      ensures Valid() && View() == M.Apply(old(View()), M.Tick)
    {
      M.PrepareWellFormed(View(), M.Tick);
      var expired := SpendTick();
      if expired {
        Schedule();
      }
    }

    /** Counts the tick against the current task; `expired` when its slice is used up. */
    method SpendTick() returns (expired: bool)
      requires Valid() && M.WellFormed(View())
      modifies this`ticks, this`tasks
      ensures Valid() && View() == M.Ticked(old(View()))
      ensures expired <==> M.Reschedules(old(View()), M.Tick)
    {
      ticks := ticks + 1;
      assert Queues() == old(Queues());
      if !preemptive || current.None? {
        return false;
      }
      var c := current.value;
      if tasks[c].timeSlice > 0 {
        tasks := tasks[c := tasks[c].(timeSlice := tasks[c].timeSlice - 1)];
      }
      assert Queues() == old(Queues());
      return tasks[c].timeSlice == 0;
    }

    /** `scheduler_yield`. */
    method Yield()
      requires Valid() && M.WellFormed(View())
      modifies this, ready, set q | q in ready :: q.slots
      ensures Valid() && View() == M.Apply(old(View()), M.Yield)
    {
      if preemptive {
        Schedule();
      }
    }

    /** `scheduler_block_current_task`. */
    method BlockCurrent()
      requires Valid() && M.WellFormed(View())
      modifies this, ready, set q | q in ready :: q.slots
      ensures Valid() && View() == M.Apply(old(View()), M.Block)
    {
      if current.None? {
        return;
      }
      M.PrepareWellFormed(View(), M.Block);
      SetTask(current.value, tasks[current.value].(state := M.Blocked));
      assert View() == M.SelfBlocked(old(View()));
      Schedule();
    }

    /** `scheduler_unblock_task`. */
    method Unblock(t: TaskId)
      requires Valid() && M.WellFormed(View())
      modifies this, ready, set q | q in ready :: q.slots
      ensures Valid() && View() == M.Apply(old(View()), M.Unblock(t))
    {
      Release(t);
    }

    method Release(t: TaskId)
      requires Valid() && M.WellFormed(View())
      modifies this`tasks, ready, set q | q in ready :: q.slots
      ensures Valid() && View() == M.Unblocked(old(View()), t)
    {
      var found := FindTask(t);
      if found && tasks[t].state == M.Blocked {
        MakeReady(t);
      }
    }

    /** `scheduler_sleep`.  Without memory for the entry the caller is not blocked, so that the
        call amounts to a yield. */
    method Sleep(ms: nat, memory: bool) returns (code: int)
      requires Valid() && M.WellFormed(View())
      modifies this, ready, set q | q in ready :: q.slots
      ensures Valid()
      ensures View() == M.Apply(old(View()), if memory || old(current).None? then M.Sleep(ms) else M.Yield)
      ensures code == if ms > 0 && old(current).None? then -1 else 0
    {
      M.EmptySleep(View(), ms);
      if ms == 0 {
        Yield();
        return 0;
      }
      if current.None? {
        return -1;
      }
      M.SleepDecides(View(), ms);
      M.YieldDecides(View());
      FallAsleep(ms, memory);
      return 0;
    }

    method FallAsleep(ms: nat, memory: bool)
      requires Valid() && M.WellFormed(View()) && ms > 0 && current.Some?
      modifies this, ready, set q | q in ready :: q.slots
      ensures Valid() && M.WellFormed(M.Slept(old(View()), ms))
      ensures View() == M.Schedule(if memory then M.Slept(old(View()), ms) else old(View()))
    {
      M.SleepDecides(View(), ms);
      AddSleepingTask(current.value, ms, memory);
      Schedule();
    }

    /** `scheduler_wake_task`. */
    method Wake(t: TaskId) returns (code: int)
      requires Valid() && M.WellFormed(View())
      modifies this, ready, set q | q in ready :: q.slots
      ensures Valid() && View() == M.Apply(old(View()), M.Wake(t))
      ensures code == if M.Sleeps(old(sleeping), t) then 0 else -1
    {
      code := WakeSleeper(t);
    }

    method WakeSleeper(t: TaskId) returns (code: int)
      requires Valid() && M.WellFormed(View())
      modifies this`tasks, this`sleeping, ready, set q | q in ready :: q.slots
      ensures Valid() && View() == M.Awakened(old(View()), t)
      ensures code == if M.Sleeps(old(sleeping), t) then 0 else -1
    {
      var i := FindSleeper(t);
      if i == |sleeping| {
        return -1;
      }
      RemoveSleeperAt(sleeping, t, i);
      WakeAt(i);
      return 0;
    }

    /** `scheduler_terminate_task`, with no parent waiting. */
    method Terminate(t: TaskId, exitCode: int) returns (code: int)
      requires Valid() && M.WellFormed(View())
      modifies this, ready, set q | q in ready :: q.slots
      ensures Valid() && View() == M.Apply(old(View()), M.Terminate(t, exitCode))
      ensures code == if old(M.Findable(View(), t)) then 0 else -1
    {
      var found := FindTask(t);
      if !found {
        return -1;
      }
      M.PrepareWellFormed(View(), M.Terminate(t, exitCode));
      Bury(t, exitCode);
      if current == Some(t) {
        Schedule();
      }
      return 0;
    }

    method Bury(t: TaskId, exitCode: int)
      requires Valid() && M.WellFormed(View()) && M.Findable(View(), t)
      modifies this`tasks, ready, set q | q in ready :: q.slots
      ensures Valid() && View() == M.Terminated(old(View()), t, exitCode)
    {
      SetTask(t, tasks[t].(state := M.Zombie, exitCode := exitCode));
      RemoveFromReadyQueue(t);
    }

    /** `scheduler_set_task_priority`. */
    method SetPriority(t: TaskId, priority: nat) returns (code: int)
      requires Valid() && M.WellFormed(View())
      modifies this
      ensures Valid() && View() == M.Apply(old(View()), M.SetPriority(t, priority))
      ensures code == if old(M.Findable(View(), t)) then 0 else -1
    {
      var found := FindTask(t);
      if !found {
        return -1;
      }
      SetTask(t, tasks[t].(priority := if priority >= M.LEVELS then M.LEVELS - 1 else priority));
      return 0;
    }

    method SetPreemption(on: bool)
      requires Valid() && M.WellFormed(View())
      modifies this`preemptive
      ensures Valid()
      ensures View() == M.Apply(old(View()), if on then M.EnablePreemption else M.DisablePreemption)
    {
      preemptive := on;
      assert Queues() == old(Queues());
    }

    method SetQuantum(ms: nat)
      requires Valid() && M.WellFormed(View())
      modifies this`quantum
      ensures Valid() && View() == M.Apply(old(View()), M.SetQuantum(ms))
    {
      quantum := ms;
      assert Queues() == old(Queues());
    }

    method SetAlgorithm(a: int) returns (code: int)
      requires Valid() && M.WellFormed(View())
      modifies this`algorithm
      ensures Valid() && View() == M.Apply(old(View()), M.SetAlgorithm(a))
      ensures code == if 0 <= a <= 3 then 0 else -1
    {
      if a < 0 || a > 3 {
        return -1;
      }
      algorithm := a;
      assert Queues() == old(Queues());
      return 0;
    }
  }
}
