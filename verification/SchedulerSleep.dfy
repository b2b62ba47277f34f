/** The sleep list: its order, what a scan of it wakes, how long a sleeper sleeps, and which
    blocked tasks can be unblocked at all. */
module SchedulerSleep {
  import opened TaskQueues
  import opened Options
  import opened Sequences
  import opened SchedulerModel
  import opened SchedulerInvariant

  // ----- Order of the list -----

  /** A new entry goes after every entry that wakes no later and before all others. */
  lemma {:induction false} InsertPlace(list: seq<Sleeper>, e: Sleeper) returns (i: nat)
    requires Sorted(list)
    ensures i <= |list| && Insert(list, e) == list[..i] + [e] + list[i..]
    ensures forall j :: 0 <= j < i ==> list[j].wake <= e.wake
    ensures forall j :: i <= j < |list| ==> list[j].wake > e.wake
  {
    if list == [] || list[0].wake > e.wake {
      i := 0;
    } else {
      var k := InsertPlace(list[1..], e);
      i := k + 1;
      assert list[..i] == [list[0]] + list[1..][..k];
      assert list[i..] == list[1..][k..];
    }
  }

  lemma {:induction false} NoneDue(list: seq<Sleeper>, now: nat)
    requires forall e :: e in list ==> e.wake > now
    ensures Due(list, now) == [] && NotDue(list, now) == list
  {
    if list != [] {
      assert list[0] in list;
      NoneDue(list[1..], now);
    }
  }

  /** On a sorted list the overdue entries are exactly a prefix. */
  lemma {:induction false} ScanTakesPrefix(list: seq<Sleeper>, now: nat)
    requires Sorted(list)
    ensures list == Due(list, now) + NotDue(list, now)
  {
    if list != [] {
      if list[0].wake > now {
        NoneDue(list, now);
      } else {
        ScanTakesPrefix(list[1..], now);
        Regroup([list[0]], Due(list[1..], now), NotDue(list[1..], now));
        assert list == [list[0]] + list[1..];
      }
    }
  }

  // ----- What a scan wakes -----

  type Tasks = map<TaskId, Task>

  predicate Known(tasks: Tasks, due: seq<Sleeper>) {
    forall e :: e in due ==> e.task in tasks
  }

  /** The task records after one entry has been served. */
  function Roused(tasks: Tasks, t: TaskId): Tasks
    requires t in tasks
  {
    if tasks[t].state.Blocked? then tasks[t := tasks[t].(state := Ready)] else tasks
  }

  /** The tasks that a scan of `due` wakes, in wake order: the blocked ones, each once. */
  function Woken(tasks: Tasks, due: seq<Sleeper>): (w: seq<TaskId>)
    requires Known(tasks, due)
    ensures forall t :: t in w ==> t in tasks
    decreases |due|
  {
    if due == [] then []
    else
      var t := due[0].task;
      (if tasks[t].state.Blocked? then [t] else []) + Woken(Roused(tasks, t), due[1..])
  }

  function AtLevel(tasks: Tasks, ts: seq<TaskId>, l: nat): seq<TaskId>
    requires forall t :: t in ts ==> t in tasks
  {
    if ts == [] then []
    else
      var t := ts[0];
      assert t in ts;
      (if Level(tasks[t].priority) == l then [t] else []) + AtLevel(tasks, ts[1..], l)
  }

  lemma {:induction false} WokenMembers(tasks: Tasks, due: seq<Sleeper>, t: TaskId)
    requires Known(tasks, due)
    ensures t in Woken(tasks, due) <==> t in tasks && tasks[t].state.Blocked? && Sleeps(due, t)
    decreases |due|
  {
    if due != [] {
      WokenMembers(Roused(tasks, due[0].task), due[1..], t);
      assert due == [due[0]] + due[1..];
      assert Sleeps(due, t) <==> due[0].task == t || Sleeps(due[1..], t);
    }
  }

  /** Waking changes no priority. */
  lemma {:induction false} AtLevelFrame(tasks: Tasks, tasks': Tasks, ts: seq<TaskId>, l: nat)
    requires forall t :: t in ts ==> t in tasks && t in tasks' && tasks'[t].priority == tasks[t].priority
    ensures AtLevel(tasks, ts, l) == AtLevel(tasks', ts, l)
  {
    if ts != [] {
      var t := ts[0];
      assert t in ts;
      AtLevelFrame(tasks, tasks', ts[1..], l);
    }
  }

  /** A scan appends exactly the woken tasks, in wake order, each at its own level. */
  lemma {:induction false} WakeAllQueues(s: State, due: seq<Sleeper>, l: nat)
    requires Inv(s) && l < LEVELS && Known(s.tasks, due)
    ensures WakeAll(s, due).queues[l] == s.queues[l] + AtLevel(s.tasks, Woken(s.tasks, due), l)
    decreases |due|
  {
    if due != [] {
      var t, s' := due[0].task, WakeOne(s, due[0].task);
      WakeOneStep(s, t, l);
      WakeAllQueues(s', due[1..], l);
      AtLevelStep(s.tasks, due, l);
      Regroup(s.queues[l], Here(s.tasks, t, l), AtLevel(s'.tasks, Woken(s'.tasks, due[1..]), l));
    } else {
      assert AtLevel(s.tasks, [], l) == [];
    }
  }

  /** What serving the entry of `t` adds at level `l`. */
  function Here(tasks: Tasks, t: TaskId, l: nat): seq<TaskId>
    requires t in tasks
  {
    if tasks[t].state.Blocked? && Level(tasks[t].priority) == l then [t] else []
  }

  lemma AtLevelStep(tasks: Tasks, due: seq<Sleeper>, l: nat)
    requires due != [] && Known(tasks, due)
    ensures var t := due[0].task;
            AtLevel(tasks, Woken(tasks, due), l) ==
            Here(tasks, t, l) + AtLevel(Roused(tasks, t), Woken(Roused(tasks, t), due[1..]), l)
  {
    var t := due[0].task;
    var rest := Woken(Roused(tasks, t), due[1..]);
    AtLevelFrame(tasks, Roused(tasks, t), rest, l);
    if tasks[t].state.Blocked? {
      assert Woken(tasks, due) == [t] + rest;
      AtLevelCons(tasks, t, rest, l);
    } else {
      assert Woken(tasks, due) == [] + rest == rest;
      assert Here(tasks, t, l) == [];
    }
  }

  lemma AtLevelCons(tasks: Tasks, t: TaskId, ts: seq<TaskId>, l: nat)
    requires t in tasks && forall u :: u in ts ==> u in tasks
    ensures AtLevel(tasks, [t] + ts, l) == (if Level(tasks[t].priority) == l then [t] else []) + AtLevel(tasks, ts, l)
  {
    assert ([t] + ts)[1..] == ts;
  }

  lemma WakeOneStep(s: State, t: TaskId, l: nat)
    requires Inv(s) && l < LEVELS && t in s.tasks
    ensures Inv(WakeOne(s, t)) && WakeOne(s, t).tasks == Roused(s.tasks, t)
    ensures WakeOne(s, t).queues[l] == s.queues[l] + Here(s.tasks, t, l)
  {
    if s.tasks[t].state.Blocked? {
      MakeReadyAppends(s, t);
      MakeReadyInv(s, t);
    }
  }

  /** One scan: the overdue prefix leaves the list, its blocked tasks become ready and are
      queued in wake order, and no other task changes. */
  lemma ScanWakesExactlyTheOverdue(s: State, l: nat, t: TaskId)
    requires Inv(s) && l < LEVELS && t in s.tasks
    ensures var due := Due(s.sleepers, s.ticks);
            var r := CheckSleepers(s);
            && s.sleepers == due + r.sleepers
            && (forall e :: e in due ==> e.wake <= s.ticks)
            && (forall e :: e in r.sleepers ==> e.wake > s.ticks)
            && r.queues[l] == s.queues[l] + AtLevel(s.tasks, Woken(s.tasks, due), l)
            && r.tasks[t] == if Sleeps(due, t) && s.tasks[t].state.Blocked?
                             then s.tasks[t].(state := Ready) else s.tasks[t]
  {
    var due := Due(s.sleepers, s.ticks);
    var s' := s.(sleepers := NotDue(s.sleepers, s.ticks));
    ScanTakesPrefix(s.sleepers, s.ticks);
    NotDueSorted(s.sleepers, s.ticks);
    assert Live(s') == Live(s);
    WakeAllQueues(s', due, l);
    WakeAllStates(s', due, t);
  }

  // ----- A decision leaves nothing overdue -----

  lemma AtDecisionBlocked(s: State, t: TaskId)
    requires WellFormed(s) && t in s.tasks && s.tasks[t].state.Blocked?
    ensures AtDecision(s).tasks[t] ==
            if Sleeps(Due(s.sleepers, s.ticks), t) then s.tasks[t].(state := Ready) else s.tasks[t]
  {
    var r := Requeue(s);
    assert r.tasks[t] == s.tasks[t];
    WakeAllStates(r.(sleepers := NotDue(r.sleepers, r.ticks)), Due(r.sleepers, r.ticks), t);
  }

  lemma ChooseStates(s: State, t: TaskId)
    requires WellFormed(s) && t in s.tasks
    ensures Choose(s).tasks[t] == s.tasks[t] || Choose(s).tasks[t].state.Running?
  {
  }

  /** No overdue entry survives a decision. */
  lemma NothingOverdueAfterDecision(s: State)
    requires WellFormed(s) && s.preemptive
    ensures Schedule(s).sleepers == NotDue(s.sleepers, s.ticks)
    ensures forall e :: e in Schedule(s).sleepers ==> e.wake > s.ticks
  {
  }

  /** A decision leaves no task blocked whose time has come. */
  lemma DecisionWakesOverdue(s: State, t: TaskId)
    requires WellFormed(s) && s.preemptive && t in s.tasks && Sleeps(Due(s.sleepers, s.ticks), t)
    ensures !Schedule(s).tasks[t].state.Blocked?
  {
    AtDecisionWellFormed(s);
    if s.tasks[t].state.Blocked? {
      AtDecisionBlocked(s, t);
    } else {
      AtDecisionNotBlocked(s, t);
    }
    ChooseStates(AtDecision(s), t);
  }

  /** A decision blocks nobody. */
  lemma AtDecisionNotBlocked(s: State, t: TaskId)
    requires WellFormed(s) && t in s.tasks && !s.tasks[t].state.Blocked?
    ensures !AtDecision(s).tasks[t].state.Blocked?
  {
    var r := Requeue(s);
    WakeAllStates(r.(sleepers := NotDue(r.sleepers, r.ticks)), Due(r.sleepers, r.ticks), t);
  }

  lemma DecisionBlocksNobody(s: State, t: TaskId)
    requires WellFormed(s) && t in s.tasks && !s.tasks[t].state.Blocked?
    ensures !Schedule(s).tasks[t].state.Blocked?
  {
    if s.preemptive {
      AtDecisionWellFormed(s);
      AtDecisionNotBlocked(s, t);
      ChooseStates(AtDecision(s), t);
    }
  }

  // ----- How long a sleeper sleeps -----

  /** `t` is blocked and none of its entries is due before tick `w`. */
  predicate AsleepUntil(s: State, t: TaskId, w: nat) {
    && t in s.tasks && s.tasks[t].state.Blocked?
    && (forall e :: e in s.sleepers && e.task == t ==> e.wake >= w)
  }

  predicate TargetsTask(op: Op, t: TaskId) {
    (op.Unblock? || op.Wake? || op.Terminate?) && op.id == t
  }

  /** A blocked task with no overdue entry is untouched by a decision. */
  lemma DecisionSkips(s: State, t: TaskId)
    requires Inv(s) && s.preemptive
    requires t in s.tasks && s.tasks[t].state.Blocked? && s.idle != Some(t)
    requires !Sleeps(Due(s.sleepers, s.ticks), t)
    ensures Schedule(s).tasks[t] == s.tasks[t]
    ensures Schedule(s).current == s.current || Schedule(s).current != Some(t)
  {
    AtDecisionInv(s);
    AtDecisionWellFormed(s);
    AtDecisionBlocked(s, t);
    ChooseSkipsBlocked(AtDecision(s), t);
  }

  lemma DecisionKeepsAsleep(s: State, t: TaskId, w: nat)
    requires Inv(s) && AsleepUntil(s, t, w) && s.idle != Some(t) && s.ticks < w
    ensures AsleepUntil(Schedule(s), t, w)
  {
    if s.preemptive {
      DecisionSkips(s, t);
    }
  }

  lemma ChooseSkipsBlocked(s: State, t: TaskId)
    requires Inv(s) && t in s.tasks && s.tasks[t].state.Blocked? && s.idle != Some(t)
    ensures Choose(s).tasks[t] == s.tasks[t]
    ensures Choose(s).current == s.current || Choose(s).current != Some(t)
  {
    var l := FirstLevel(s.queues);
    if l < LEVELS {
      QueuedHas(s.queues, l, 0);
    }
  }

  lemma PrepareKeepsAsleep(s: State, op: Op, t: TaskId, w: nat)
    requires Inv(s) && Permitted(s, op)
    requires AsleepUntil(s, t, w) && !TargetsTask(op, t)
    ensures AsleepUntil(Prepare(s, op), t, w)
  {
    match op
    case Sleep(ms) =>
      if ms > 0 && s.current.Some? {
        InsertMembers(s.sleepers, Sleeper(s.current.value, s.ticks + ms / MS_PER_TICK));
      }
    case _ =>
  }

  /** A blocked task none of whose entries is due before tick `w` stays blocked until then,
      unless someone names it. */
  lemma {:induction false} NoEarlyWake(s: State, ops: seq<Op>, t: TaskId, w: nat)
    requires Inv(s) && PermittedRun(s, ops) && s.idle != Some(t)
    requires AsleepUntil(s, t, w)
    requires forall i :: 0 <= i < |ops| ==> !TargetsTask(ops[i], t)
    requires Run(s, ops).ticks < w
    ensures AsleepUntil(Run(s, ops), t, w)
    decreases |ops|
  {
    if ops != [] {
      var op := ops[0];
      PrepareKeepsAsleep(s, op, t, w);
      PrepareInv(s, op);
      PrepareFrame(s, op);
      ApplyFrame(s, op);
      RunFrame(Apply(s, op), ops[1..]);
      PrepareWellFormed(s, op);
      if Reschedules(s, op) {
        DecisionKeepsAsleep(Prepare(s, op), t, w);
      }
      ApplyInv(s, op);
      NoEarlyWake(Apply(s, op), ops[1..], t, w);
    }
  }

  // ----- From the call -----

  predicate Untargeted(ops: seq<Op>, t: TaskId) {
    forall i :: 0 <= i < |ops| ==> !TargetsTask(ops[i], t)
  }

  /** Every entry that `t` already has wakes at tick `w` or later. */
  predicate NoEarlierEntry(s: State, t: TaskId, w: nat) {
    forall e :: e in s.sleepers && e.task == t ==> e.wake >= w
  }

  function WakeTick(s: State, ms: nat): nat {
    s.ticks + ms / MS_PER_TICK
  }

  /** `c` is the running current task, and not the idle one. */
  predicate MayCall(s: State, c: TaskId) {
    Inv(s) && s.current == Some(c) && s.tasks[c].state.Running? && s.idle != Some(c)
  }

  lemma SleptEntries(s: State, c: TaskId, ms: nat)
    requires MayCall(s, c) && ms > 0
    ensures Inv(Slept(s, ms)) && c in Slept(s, ms).tasks && Slept(s, ms).tasks[c].state.Blocked?
    ensures forall e :: e in Slept(s, ms).sleepers <==> e in s.sleepers || e == Sleeper(c, WakeTick(s, ms))
    ensures NoEarlierEntry(Slept(s, ms), c, WakeTick(s, ms)) <==> NoEarlierEntry(s, c, WakeTick(s, ms))
  {
    SleepInv(s, ms);
    InsertMembers(s.sleepers, Sleeper(c, WakeTick(s, ms)));
  }

  /** `scheduler_sleep` puts its caller to sleep until its tick exactly when at least a tick is
      asked for, or no decision follows, and no earlier entry of the caller is left over. */
  lemma SleepsUntilExactlyWithoutEarlierEntry(s: State, c: TaskId, ms: nat)
    requires MayCall(s, c) && ms > 0
    ensures AsleepUntil(Apply(s, Sleep(ms)), c, WakeTick(s, ms)) <==>
            (ms >= MS_PER_TICK || !s.preemptive) && NoEarlierEntry(s, c, WakeTick(s, ms))
  {
    SleptEntries(s, c, ms);
    SleepDecides(s, ms);
    if s.preemptive {
      AsleepAfterDecision(Slept(s, ms), c, WakeTick(s, ms));
    }
  }

  lemma AsleepAfterDecision(s: State, c: TaskId, w: nat)
    requires Inv(s) && s.preemptive && c in s.tasks && s.tasks[c].state.Blocked? && s.idle != Some(c)
    requires Sleeper(c, w) in s.sleepers
    ensures AsleepUntil(Schedule(s), c, w) <==> w > s.ticks && NoEarlierEntry(s, c, w)
  {
    NothingOverdueAfterDecision(s);
    if Sleeps(Due(s.sleepers, s.ticks), c) {
      DecisionWakesOverdue(s, c);
    } else {
      DecisionSkips(s, c);
    }
  }

  /** Then no run wakes it before that tick unless it is named. */
  lemma SleeperStaysAsleep(s: State, c: TaskId, ms: nat, ops: seq<Op>)
    requires MayCall(s, c) && ms >= MS_PER_TICK && NoEarlierEntry(s, c, WakeTick(s, ms))
    requires PermittedRun(Apply(s, Sleep(ms)), ops) && Untargeted(ops, c)
    requires Run(Apply(s, Sleep(ms)), ops).ticks < WakeTick(s, ms)
    ensures AsleepUntil(Run(Apply(s, Sleep(ms)), ops), c, WakeTick(s, ms))
  {
    SleepsUntilExactlyWithoutEarlierEntry(s, c, ms);
    ApplyInv(s, Sleep(ms));
    ApplyFrame(s, Sleep(ms));
    NoEarlyWake(Apply(s, Sleep(ms)), ops, c, WakeTick(s, ms));
  }

  /** The entry `e` of a blocked task is still in the list. */
  predicate Pending(s: State, e: Sleeper) {
    e.task in s.tasks && (s.tasks[e.task].state.Blocked? ==> e in s.sleepers)
  }

  lemma DecisionKeepsPending(s: State, e: Sleeper)
    requires WellFormed(s) && Pending(s, e)
    ensures Pending(Schedule(s), e)
    ensures s.preemptive && e.wake <= s.ticks ==> !Schedule(s).tasks[e.task].state.Blocked?
  {
    if !s.tasks[e.task].state.Blocked? {
      DecisionBlocksNobody(s, e.task);
    } else if s.preemptive && e.wake <= s.ticks {
      assert e in Due(s.sleepers, s.ticks);
      DecisionWakesOverdue(s, e.task);
    }
  }

  lemma TickKeepsPending(s: State, e: Sleeper)
    requires WellFormed(s) && s.preemptive && Pending(s, e)
    ensures Pending(Apply(s, Tick), e) && Apply(s, Tick).ticks == s.ticks + 1 && Apply(s, Tick).preemptive
  {
    PrepareWellFormed(s, Tick);
    if Reschedules(s, Tick) {
      DecisionKeepsPending(Ticked(s), e);
    }
  }

  /** `n` ticks and a yield. */
  function WaitFor(n: nat): seq<Op>
    decreases n
  {
    if n == 0 then [Yield] else [Tick] + WaitFor(n - 1)
  }

  lemma {:induction false} WaitForWakes(s: State, e: Sleeper, n: nat)
    requires WellFormed(s) && s.preemptive && Pending(s, e) && e.wake <= s.ticks + n
    ensures PermittedRun(s, WaitFor(n)) && Untargeted(WaitFor(n), e.task)
    ensures var r := Run(s, WaitFor(n)); r.ticks == s.ticks + n && e.task in r.tasks && !r.tasks[e.task].state.Blocked?
    decreases n
  {
    if n == 0 {
      DecisionKeepsPending(s, e);
      assert WaitFor(0)[1..] == [];
      assert Run(s, WaitFor(0)) == Apply(s, Yield);
    } else {
      TickKeepsPending(s, e);
      WaitForWakes(Apply(s, Tick), e, n - 1);
      assert WaitFor(n)[0] == Tick && WaitFor(n)[1..] == WaitFor(n - 1);
      assert forall i :: 1 <= i < |WaitFor(n)| ==> WaitFor(n)[i] == WaitFor(n - 1)[i - 1];
    }
  }

  /** A run that wakes `t` before tick `w` although nobody names it. */
  predicate WakesEarly(s: State, ops: seq<Op>, t: TaskId, w: nat)
    requires WellFormed(s) && t in s.tasks
  {
    && PermittedRun(s, ops) && Untargeted(ops, t)
    && Run(s, ops).ticks < w && (t in Run(s, ops).tasks ==> !Run(s, ops).tasks[t].state.Blocked?)
  }

  /** Preemption switched on, then `n` ticks and a yield. */
  function Disturb(n: nat): seq<Op> {
    [EnablePreemption] + WaitFor(n)
  }

  lemma DisturbWakes(s: State, e: Sleeper, n: nat)
    requires WellFormed(s) && Pending(s, e) && e.wake <= s.ticks + n
    ensures PermittedRun(s, Disturb(n)) && Untargeted(Disturb(n), e.task)
    ensures var r := Run(s, Disturb(n)); r.ticks == s.ticks + n && e.task in r.tasks && !r.tasks[e.task].state.Blocked?
  {
    var on := Apply(s, EnablePreemption);
    assert on == s.(preemptive := true);
    WaitForWakes(on, e, n);
    assert Disturb(n)[0] == EnablePreemption && Disturb(n)[1..] == WaitFor(n);
    assert forall i :: 1 <= i < |Disturb(n)| ==> Disturb(n)[i] == WaitFor(n)[i - 1];
  }

  lemma SleepKeepsPending(s: State, c: TaskId, ms: nat, e: Sleeper)
    requires MayCall(s, c) && ms > 0 && e in s.sleepers && e.task == c
    ensures Pending(Apply(s, Sleep(ms)), e) && Apply(s, Sleep(ms)).ticks == s.ticks
  {
    SleptEntries(s, c, ms);
    SleepDecides(s, ms);
    assert Pending(Slept(s, ms), e);
    DecisionKeepsPending(Slept(s, ms), e);
  }

  /** An earlier entry left over by an unblocked sleep does wake it early. */
  lemma EarlierEntryWakes(s: State, c: TaskId, ms: nat, e: Sleeper) returns (ops: seq<Op>)
    requires MayCall(s, c) && ms >= MS_PER_TICK
    requires e in s.sleepers && e.task == c && e.wake < WakeTick(s, ms)
    ensures c in Apply(s, Sleep(ms)).tasks && WakesEarly(Apply(s, Sleep(ms)), ops, c, WakeTick(s, ms))
    ensures Run(Apply(s, Sleep(ms)), ops).ticks == if e.wake > s.ticks then e.wake else s.ticks
  {
    SleepKeepsPending(s, c, ms, e);
    var n := if e.wake > s.ticks then e.wake - s.ticks else 0;
    DisturbWakes(Apply(s, Sleep(ms)), e, n);
    ops := Disturb(n);
  }

  /** Whatever the other calls, a sleeper that nobody names sleeps until its tick exactly when it
      had no earlier entry when it called. */
  lemma NoEarlyWakeExactlyWithoutEarlierEntry(s: State, c: TaskId, ms: nat)
    requires MayCall(s, c) && ms >= MS_PER_TICK
    ensures c in Apply(s, Sleep(ms)).tasks
    ensures (forall ops :: !WakesEarly(Apply(s, Sleep(ms)), ops, c, WakeTick(s, ms))) <==>
            NoEarlierEntry(s, c, WakeTick(s, ms))
  {
    var w := WakeTick(s, ms);
    SleptEntries(s, c, ms);
    assert c in Apply(s, Sleep(ms)).tasks;
    if e :| e in s.sleepers && e.task == c && e.wake < w {
      var ops := EarlierEntryWakes(s, c, ms, e);
    } else {
      forall ops
        ensures !WakesEarly(Apply(s, Sleep(ms)), ops, c, w)
      {
        if WakesEarly(Apply(s, Sleep(ms)), ops, c, w) {
          SleeperStaysAsleep(s, c, ms, ops);
        }
      }
    }
  }

  // ----- Unblocking -----

  /** Unblocking finds a blocked task only while it is still the current one or has a sleep
      entry; a queued task is never blocked. */
  lemma UnblockWorksOnlyWhenFindable(s: State, t: TaskId)
    requires Inv(s) && t in s.tasks && s.tasks[t].state.Blocked?
    ensures Apply(s, Unblock(t)).tasks[t].state.Ready? <==> s.current == Some(t) || Sleeps(s.sleepers, t)
  {
  }

  /** `t` is blocked where `scheduler_find_task_by_id` does not look. */
  predicate Stranded(s: State, t: TaskId) {
    && t in s.tasks && s.tasks[t].state.Blocked?
    && s.current != Some(t) && s.idle != Some(t)
    && !Sleeps(s.sleepers, t)
  }

  lemma PrepareKeepsStranded(s: State, op: Op, t: TaskId)
    requires Inv(s) && Permitted(s, op) && Stranded(s, t)
    ensures Stranded(Prepare(s, op), t)
  {
    assert t !in Queued(s.queues);
    match op
    case Sleep(ms) =>
      if ms > 0 && s.current.Some? {
        InsertMembers(s.sleepers, Sleeper(s.current.value, s.ticks + ms / MS_PER_TICK));
      }
    case _ =>
  }

  lemma DecisionKeepsStranded(s: State, t: TaskId)
    requires Inv(s) && Stranded(s, t)
    ensures Stranded(Schedule(s), t)
  {
    if s.preemptive {
      DecisionSkips(s, t);
    }
  }

  /** A stranded task never runs again, whatever is called: `scheduler_unblock_task`,
      `scheduler_wake_task` and `scheduler_terminate_task` all miss it. */
  lemma {:induction false} StrandedForever(s: State, ops: seq<Op>, t: TaskId)
    requires Inv(s) && PermittedRun(s, ops) && Stranded(s, t)
    ensures Stranded(Run(s, ops), t)
    decreases |ops|
  {
    if ops != [] {
      PrepareKeepsStranded(s, ops[0], t);
      PrepareInv(s, ops[0]);
      PrepareWellFormed(s, ops[0]);
      DecisionKeepsStranded(Prepare(s, ops[0]), t);
      ApplyInv(s, ops[0]);
      StrandedForever(Apply(s, ops[0]), ops[1..], t);
    }
  }

  /** With another idle task registered, blocking strands the caller exactly when it has no
      sleep entry. */
  lemma BlockStrandsExactlyWithoutEntry(s: State)
    requires Inv(s) && s.preemptive && s.current.Some? && s.tasks[s.current.value].state.Running?
    requires s.idle.Some? && s.idle != s.current
    ensures Stranded(Apply(s, Block), s.current.value) <==> !Sleeps(s.sleepers, s.current.value)
  {
    var c, r := s.current.value, SelfBlocked(s);
    PrepareInv(s, Block);
    if Sleeps(Due(s.sleepers, s.ticks), c) {
      DecisionWakesOverdue(r, c);
    } else {
      DecisionSkips(r, c);
      EntryStays(s.sleepers, s.ticks, c);
      SomeoneElseRuns(r, c);
    }
  }

  /** A blocked current task gives way to another when there is an idle task. */
  lemma SomeoneElseRuns(s: State, c: TaskId)
    requires Inv(s) && s.preemptive && s.idle.Some? && s.idle != Some(c)
    requires c in s.tasks && s.tasks[c].state.Blocked? && !Sleeps(Due(s.sleepers, s.ticks), c)
    ensures Schedule(s).current != Some(c)
  {
    AtDecisionInv(s);
    AtDecisionWellFormed(s);
    AtDecisionBlocked(s, c);
    var d := AtDecision(s);
    var l := FirstLevel(d.queues);
    if l < LEVELS {
      QueuedHas(d.queues, l, 0);
    }
  }

  lemma EntryStays(list: seq<Sleeper>, now: nat, t: TaskId)
    requires !Sleeps(Due(list, now), t)
    ensures Sleeps(NotDue(list, now), t) <==> Sleeps(list, t)
  {
    if e :| e in list && e.task == t {
      assert e !in Due(list, now);
      assert e in NotDue(list, now);
    }
  }
}
