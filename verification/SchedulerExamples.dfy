/** Runs from boot on which promises that one might expect of the scheduler fail. */
module SchedulerExamples {
  import opened TaskQueues
  import opened Options
  import opened SchedulerModel
  import opened SchedulerInvariant
  import opened SchedulerFairness
  import opened SchedulerSleep

  // ----- A first task -----

  const START := [Create(0)] + ([EnablePreemption] + ([Yield] + []))

  /** Task 1 waits in the most urgent level, and nothing else does. */
  predicate Ready1(s: State) {
    && s.queues[0] == [1] && (forall l :: 1 <= l < LEVELS ==> s.queues[l] == [])
    && s.tasks == map[0 := Task(Ready, LOWEST, 0, 0, 0, 0), 1 := Task(Ready, 0, 0, 0, 0, 0)]
    && s.sleepers == [] && s.current.None? && s.idle == Some(0) && s.ticks == 0
    && s.nextId == 2 && s.algorithm == 1 && s.quantum == 10
  }

  /** Task 1 has been dispatched, and no task waits. */
  predicate Running1(s: State) {
    && (forall l :: 0 <= l < LEVELS ==> s.queues[l] == [])
    && s.tasks == map[0 := Task(Ready, LOWEST, 0, 0, 0, 0), 1 := Task(Running, 0, 63, 0, 1, 0)]
    && s.sleepers == [] && s.current == Some(1) && s.idle == Some(0) && s.ticks == 0
    && s.nextId == 2 && s.algorithm == 1 && s.quantum == 10 && s.preemptive
  }

  lemma CreateFirst()
    ensures Ready1(Created(Init(Some(0)), 0)) && WellFormed(Created(Init(Some(0)), 0))
    ensures Permitted(Init(Some(0)), Create(0))
  {
    var s := Init(Some(0));
    assert s.queues[Level(0)] == [];
    PrepareWellFormed(s, Create(0));
    assert Live(s) == {0};
  }

  lemma DispatchFirst(s: State)
    requires WellFormed(s) && Ready1(s) && s.preemptive
    ensures Running1(Schedule(s))
  {
    assert AtDecision(s) == s;
    assert Waiting(s, 1, 0, 0);
    ChoosePosition(s, 1, 0, 0);
  }

  lemma StartRuns()
    ensures PermittedRun(Init(Some(0)), START)
    ensures Running1(Run(Init(Some(0)), START)) && Inv(Run(Init(Some(0)), START))
  {
    var s0 := Init(Some(0));
    var s1 := Created(s0, 0);
    CreateFirst();
    var s2 := s1.(preemptive := true);
    DispatchFirst(s2);
    StartSteps(s0, s1, s2);
    InitInv(Some(0));
    RunInv(s0, START);
  }

  lemma Then(s: State, op: Op, ops: seq<Op>)
    requires WellFormed(s) && Permitted(s, op) && PermittedRun(Apply(s, op), ops)
    ensures PermittedRun(s, [op] + ops) && Run(s, [op] + ops) == Run(Apply(s, op), ops)
  {
    assert ([op] + ops)[0] == op && ([op] + ops)[1..] == ops;
  }

  /** The run of `START`, step by step. */
  lemma StartSteps(s0: State, s1: State, s2: State)
    requires WellFormed(s0) && WellFormed(s1) && WellFormed(s2) && Permitted(s0, Create(0))
    requires s1 == Created(s0, 0) && s2 == s1.(preemptive := true)
    ensures PermittedRun(s0, START) && Run(s0, START) == Schedule(s2)
  {
    Then(s2, Yield, []);
    Then(s1, EnablePreemption, [Yield] + []);
    Then(s0, Create(0), [EnablePreemption] + ([Yield] + []));
  }

  // ----- The stale sleep entry -----

  /** A decision that finds nothing due while the current task does not run leaves the level of
      the most urgent tasks empty if it was so. */
  lemma StaysEmpty(s: State)
    requires WellFormed(s) && s.preemptive && s.queues[0] == [] && Due(s.sleepers, s.ticks) == []
    requires s.current.Some? ==> !s.tasks[s.current.value].state.Running?
    ensures Schedule(s).queues[0] == []
  {
    AtDecisionWellFormed(s);
    assert AtDecision(s).queues == s.queues;
  }

  /** A sleep of the only urgent task. */
  lemma FirstSleep(s: State, c: TaskId, ms: nat)
    requires MayCall(s, c) && s.preemptive && s.sleepers == [] && s.queues[0] == [] && s.tasks[c].priority == 0
    requires s.idle.Some? && ms >= MS_PER_TICK
    ensures var r := Apply(s, Sleep(ms));
            && Inv(r) && r.preemptive && r.queues[0] == [] && r.ticks == s.ticks && r.idle == s.idle
            && r.sleepers == [Sleeper(c, WakeTick(s, ms))] && c in r.tasks
            && r.tasks[c].state.Blocked? && r.tasks[c].priority == 0
  {
    var r := Slept(s, ms);
    ApplyInv(s, Sleep(ms));
    SleptEntries(s, c, ms);
    SleepDecides(s, ms);
    OnlyEntry(Sleeper(c, WakeTick(s, ms)), s.ticks);
    DecisionSkips(r, c);
    NothingOverdueAfterDecision(r);
    StaysEmpty(r);
  }

  lemma OnlyEntry(e: Sleeper, now: nat)
    requires e.wake > now
    ensures Insert([], e) == [e] && Due([e], now) == [] && NotDue([e], now) == [e]
  {
  }

  /** Unblocked, it is queued, and its entry stays. */
  lemma ThenUnblocked(s: State, c: TaskId, e: Sleeper)
    requires Inv(s) && s.queues[0] == [] && s.sleepers == [e] && e.task == c
    requires c in s.tasks && s.tasks[c].state.Blocked? && s.tasks[c].priority == 0
    ensures var r := Apply(s, Unblock(c));
            && Inv(r) && r.queues[0] == [c] && r == s.(queues := r.queues, tasks := r.tasks) && c in r.tasks
  {
    ApplyInv(s, Unblock(c));
    assert Sleeps(s.sleepers, c);
    MakeReadyAppends(s, c);
  }

  /** The next decision runs it, with the entry still there. */
  lemma ThenDispatched(s: State, c: TaskId, e: Sleeper)
    requires Inv(s) && s.preemptive && s.queues[0] == [c] && s.sleepers == [e] && e.wake > s.ticks && s.idle != Some(c)
    ensures var r := Apply(s, Yield);
            MayCall(r, c) && r.sleepers == [e] && r.ticks == s.ticks
  {
    ApplyInv(s, Yield);
    OnlyEntry(e, s.ticks);
    NothingOverdueAfterDecision(s);
    HeadIsDispatched(s, c);
  }

  lemma HeadIsDispatched(s: State, c: TaskId)
    requires Inv(s) && s.preemptive && s.queues[0] == [c]
    ensures Schedule(s).current == Some(c) && c in Schedule(s).tasks && Schedule(s).tasks[c].state.Running?
  {
    AtDecisionInv(s);
    AtDecisionWellFormed(s);
    AtDecisionAppends(s, 0);
    ChoosePosition(AtDecision(s), c, 0, 0);
  }

  /** Task 1 sleeps for a tick, is unblocked and dispatched again. */
  const NAP := [Sleep(10)] + ([Unblock(1)] + ([Yield] + []))

  /** The same from boot. */
  const STALE := START + NAP

  lemma FirstApart(ops: seq<Op>, more: seq<Op>)
    requires ops != []
    ensures ops + more == [ops[0]] + (ops[1..] + more)
  {
  }

  lemma {:induction false} RunAppend(s: State, ops: seq<Op>, more: seq<Op>)
    requires WellFormed(s) && PermittedRun(s, ops) && PermittedRun(Run(s, ops), more)
    ensures PermittedRun(s, ops + more) && Run(s, ops + more) == Run(Run(s, ops), more)
    decreases |ops|
  {
    if ops == [] {
      assert ops + more == more;
    } else {
      RunAppend(Apply(s, ops[0]), ops[1..], more);
      Then(s, ops[0], ops[1..] + more);
      FirstApart(ops, more);
    }
  }

  lemma Napped(s0: State)
    requires Inv(s0) && Running1(s0)
    ensures PermittedRun(s0, NAP)
    ensures var s := Run(s0, NAP);
            MayCall(s, 1) && s.ticks == 0 && s.sleepers == [Sleeper(1, 1)]
  {
    var e := Sleeper(1, 1);
    FirstSleep(s0, 1, 10);
    var s1 := Apply(s0, Sleep(10));
    ThenUnblocked(s1, 1, e);
    var s2 := Apply(s1, Unblock(1));
    ThenDispatched(s2, 1, e);
    Three(s0, s1, s2);
  }

  lemma Three(s0: State, s1: State, s2: State)
    requires WellFormed(s0) && WellFormed(s1) && Permitted(s0, Sleep(10))
    requires s1 == Apply(s0, Sleep(10)) && s2 == Apply(s1, Unblock(1))
    ensures PermittedRun(s0, NAP) && Run(s0, NAP) == Apply(s2, Yield)
  {
    Then(s2, Yield, []);
    Then(s1, Unblock(1), [Yield] + []);
    Then(s0, Sleep(10), [Unblock(1)] + ([Yield] + []));
  }

  lemma StaleEntry()
    ensures PermittedRun(Init(Some(0)), STALE)
    ensures var s := Run(Init(Some(0)), STALE);
            MayCall(s, 1) && s.ticks == 0 && s.sleepers == [Sleeper(1, 1)]
  {
    StartRuns();
    var s0 := Run(Init(Some(0)), START);
    Napped(s0);
    RunAppend(Init(Some(0)), START, NAP);
  }

  /** From boot: task 1 sleeps for a tick, is unblocked, runs again and sleeps for a second.
      Although nobody names it after that, the entry of its first sleep wakes it after one tick
      instead of a hundred. */
  lemma WokenByStaleEntry() returns (ops: seq<Op>)
    ensures PermittedRun(Init(Some(0)), STALE + [Sleep(1000)])
    ensures var s := Run(Init(Some(0)), STALE + [Sleep(1000)]);
            && 1 in s.tasks && s.tasks[1].state.Blocked? && Sleeper(1, 100) in s.sleepers
            && WakesEarly(s, ops, 1, 100) && Run(s, ops).ticks == 1
  {
    StaleEntry();
    var s := Run(Init(Some(0)), STALE);
    ThenOnly(s, Sleep(1000));
    RunAppend(Init(Some(0)), STALE, [Sleep(1000)]);
    ops := WokenEarly(s);
  }

  lemma WokenEarly(s: State) returns (ops: seq<Op>)
    requires MayCall(s, 1) && s.ticks == 0 && s.sleepers == [Sleeper(1, 1)]
    ensures var r := Apply(s, Sleep(1000));
            && 1 in r.tasks && r.tasks[1].state.Blocked? && Sleeper(1, 100) in r.sleepers
            && WakesEarly(r, ops, 1, 100) && Run(r, ops).ticks == 1
  {
    SecondSleep(s, 1, 1000);
    assert WakeTick(s, 1000) == 100;
    ops := EarlierEntryWakes(s, 1, 1000, Sleeper(1, 1));
  }

  lemma SecondSleep(s: State, c: TaskId, ms: nat)
    requires MayCall(s, c) && ms >= MS_PER_TICK && forall e :: e in s.sleepers ==> e.wake > s.ticks
    ensures var r := Apply(s, Sleep(ms));
            c in r.tasks && r.tasks[c].state.Blocked? && Sleeper(c, WakeTick(s, ms)) in r.sleepers
  {
    SleptEntries(s, c, ms);
    SleepDecides(s, ms);
    NothingDueNothingWoken(Slept(s, ms), c, Sleeper(c, WakeTick(s, ms)));
  }

  lemma NothingDueNothingWoken(s: State, c: TaskId, e: Sleeper)
    requires Inv(s) && c in s.tasks && s.tasks[c].state.Blocked? && s.idle != Some(c)
    requires e in s.sleepers && forall x :: x in s.sleepers ==> x.wake > s.ticks
    ensures c in Schedule(s).tasks && Schedule(s).tasks[c].state.Blocked? && e in Schedule(s).sleepers
  {
    if s.preemptive {
      DecisionSkips(s, c);
      NothingOverdueAfterDecision(s);
    }
  }

  // ----- The stranded task -----

  /** From boot: task 1 blocks itself, and no call brings it back. */
  lemma BlockedForGood(more: seq<Op>)
    ensures PermittedRun(Init(Some(0)), START + [Block])
    ensures var s := Run(Init(Some(0)), START + [Block]);
            Stranded(s, 1) && (PermittedRun(s, more) ==> Stranded(Run(s, more), 1))
  {
    StartRuns();
    var s := Run(Init(Some(0)), START);
    ThenOnly(s, Block);
    RunAppend(Init(Some(0)), START, [Block]);
    BlockStrandsExactlyWithoutEntry(s);
    ApplyInv(s, Block);
    if PermittedRun(Apply(s, Block), more) {
      StrandedForever(Apply(s, Block), more, 1);
    }
  }

  // ----- The longer slice -----

  lemma FirstSteady(s: State)
    requires Running1(s)
    ensures Steady(s) && |Live(s)| == 2
  {
    assert Live(s) == {0, 1};
  }

  lemma SecondCreated(s: State)
    requires Inv(s) && Running1(s)
    ensures Permitted(s, Create(31)) && Apply(s, Create(31)) == Created(s, 31)
    ensures var r := Created(s, 31);
            && Inv(r) && Steady(r) && r.algorithm == 1 && r.quantum == 10 && r.current == Some(1)
            && r.queues[31] == [2] && 1 in r.tasks && r.tasks[1].timeSlice == 63
  {
    FirstSteady(s);
    CreateInv(s, 31);
    CreateSteady(s, 31);
    assert s.queues[Level(31)] == [];
  }

  /** From boot: task 1 of the most urgent level has 63 ticks left and task 2 is alone at the
      lowest level, where a slice is one tick.  Task 2 does not run within one slice of its own
      level, nor within sixty-two. */
  lemma OwnSlicesNotEnough()
    ensures PermittedRun(Init(Some(0)), START + [Create(31)])
    ensures var s := Run(Init(Some(0)), START + [Create(31)]);
            Waiting(s, 2, 31, 0) && OwnSlices(false, s.quantum, 31, 0) == 1 &&
            !RunsDuring(s, TickRun(1), 2) && !RunsDuring(s, TickRun(62), 2)
  {
    StartRuns();
    var s := Run(Init(Some(0)), START);
    SecondCreated(s);
    SecondWaits(Created(s, 31));
    ThenOnly(s, Create(31));
    RunAppend(Init(Some(0)), START, [Create(31)]);
  }

  lemma ThenOnly(s: State, op: Op)
    requires WellFormed(s) && Permitted(s, op)
    ensures PermittedRun(s, [op]) && Run(s, [op]) == Apply(s, op)
  {
    Then(s, op, []);
    assert [op] + [] == [op];
  }

  lemma SecondWaits(s: State)
    requires Inv(s) && Steady(s) && s.algorithm == 1 && s.quantum == 10 && s.current == Some(1)
    requires s.queues[31] == [2] && s.tasks[1].timeSlice == 63
    ensures Waiting(s, 2, 31, 0) && OwnSlices(false, s.quantum, 31, 0) == 1
    ensures !RunsDuring(s, TickRun(1), 2) && !RunsDuring(s, TickRun(62), 2)
  {
    assert Budget(false, s, 31, 0) == 63;
    BudgetIsTight(s, 1, 2, 31, 0);
    BudgetIsTight(s, 62, 2, 31, 0);
  }
}
