/** When `mutex_try_lock` of kernel/sync.c fails: it reports a mutex held by another task, but also
    a free one whose spinlock is busy. */
module MutexTryLock {
  import opened Mutex

  // ----- Which access refuses -----

  /** The next access of `t` finds the spinlock taken. */
  predicate FindsSpinlock(s: State, t: int) {
    t in s.pc && s.pc[t] == Acquire(true) && s.spin
  }

  /** The next access of `t` finds another owner. */
  predicate FindsOwner(s: State, t: int) {
    t in s.pc && s.pc[t] == TestOwner(true) && s.owner != NOBODY
  }

  /** Somewhere in the run an access of `t` meets `s.spin` or an owner. */
  predicate Refused(s: State, es: seq<Event>, t: int)
    requires Tasks(s) && forall i :: 0 <= i < |es| ==> es[i].task in s.pc
    decreases |es|
  {
    es != [] &&
    ((es[0] == Step(t) && (FindsSpinlock(s, t) || FindsOwner(s, t))) || Refused(Next(s, es[0]), es[1..], t))
  }

  lemma TryStep(s: State, e: Event, t: int)
    requires Tasks(s) && t in s.pc && e.task == t && Locking(s.pc[t]) && s.pc[t].trying
    ensures var pc, r := s.pc[t], Next(s, e);
            var refused := e == Step(t) && (FindsSpinlock(s, t) || FindsOwner(s, t));
            if r.pc[t].Idle? then r.depth[t] == s.depth[t] <==> refused || pc == Release(true, false)
            else
              && Locking(r.pc[t]) && r.pc[t].trying && r.depth[t] == s.depth[t]
              && (r.pc[t] == Release(true, false) <==> refused || pc == Release(true, false))
  {
  }

  lemma {:induction false} RefusedFrom(s: State, es: seq<Event>, t: int)
    requires Tasks(s) && t in s.pc && forall i :: 0 <= i < |es| ==> es[i].task in s.pc
    requires Locking(s.pc[t]) && s.pc[t].trying && Busy(s, es, t)
    requires t in Run(s, es).pc && Run(s, es).pc[t].Idle?
    ensures t in Run(s, es).depth
    ensures Run(s, es).depth[t] == s.depth[t] <==> Refused(s, es, t) || s.pc[t] == Release(true, false)
    decreases |es|
  {
    var e, r := es[0], Next(s, es[0]);
    if e.task != t {
      OthersStay(s, e, t);
      RefusedFrom(r, es[1..], t);
    } else {
      TryStep(s, e, t);
      if r.pc[t].Idle? {
        assert es[1..] == [];
      } else {
        RefusedFrom(r, es[1..], t);
      }
    }
  }

  /** Between its begin and its return, whatever others do, a try_lock fails exactly when it finds
      the spinlock taken or, with the spinlock in hand, another owner. */
  lemma TryLockFailsExactlyWhenRefused(s: State, es: seq<Event>, t: int)
    requires Inv(s) && t in s.pc && s.pc[t].Idle? && forall i :: 0 <= i < |es| ==> es[i].task in s.pc
    requires Busy(Next(s, Begin(t, TryLock)), es, t)
    requires t in Run(Next(s, Begin(t, TryLock)), es).pc && Run(Next(s, Begin(t, TryLock)), es).pc[t].Idle?
    ensures t in Run(Next(s, Begin(t, TryLock)), es).depth
    ensures Run(Next(s, Begin(t, TryLock)), es).depth[t] == s.depth[t] <==> Refused(Next(s, Begin(t, TryLock)), es, t)
  {
    BeginCall(s, t, TryLock);
    RefusedFrom(Next(s, Begin(t, TryLock)), es, t);
  }

  // ----- Who is in the way -----

  /** A taken spinlock is held by a task inside a call. */
  predicate SpinHeld(s: State) {
    s.spin ==> exists t :: t in s.pc && Spins(s.pc[t])
  }

  lemma OwnSpin(spin: bool, owner: int, count: int, t: int, pc: Pc)
    ensures var m := Access(spin, owner, count, t, pc);
            && (m.spin && Spins(pc) ==> Spins(m.pc))
            && (m.spin && !spin ==> Spins(m.pc))
  {
  }

  lemma SpinHeldNext(s: State, e: Event)
    requires Tasks(s) && e.task in s.pc && SpinHeld(s)
    ensures SpinHeld(Next(s, e))
  {
    var t, r := e.task, Next(s, e);
    OwnSpin(s.spin, s.owner, s.count, t, s.pc[t]);
    if r.spin && s.spin {
      var u :| u in s.pc && Spins(s.pc[u]);
      assert u in r.pc && Spins(r.pc[u]);
    } else if r.spin {
      assert t in r.pc && Spins(r.pc[t]);
    }
  }

  lemma {:induction false} SpinHeldRun(s: State, es: seq<Event>)
    requires Tasks(s) && SpinHeld(s) && forall i :: 0 <= i < |es| ==> es[i].task in s.pc
    ensures SpinHeld(Run(s, es))
    decreases |es|
  {
    if es != [] {
      SpinHeldNext(s, es[0]);
      SpinHeldRun(Next(s, es[0]), es[1..]);
    }
  }

  /** In the middle of taking a free mutex, of giving up on one, or of leaving an unlock. */
  predicate Passing(pc: Pc) {
    pc.TestOwner? || pc.SetOwner? || (pc.Release? && !pc.won) || pc.UnlockRelease?
  }

  /** In every run, a try_lock that finds the spinlock of a free mutex taken does so because
      another task is passing through lock, try_lock or unlock. */
  lemma FreeMutexRefusedOnlyInPassing(ids: set<int>, es: seq<Event>, t: int) returns (u: int)
    requires NOBODY !in ids && forall i :: 0 <= i < |es| ==> es[i].task in ids
    requires FindsSpinlock(Run(Init(ids), es), t) && Run(Init(ids), es).owner == NOBODY
    ensures u != t && u in Run(Init(ids), es).pc && Passing(Run(Init(ids), es).pc[u])
  {
    InitInv(ids);
    RunInv(Init(ids), es);
    SpinHeldRun(Init(ids), es);
    var s := Run(Init(ids), es);
    u :| u in s.pc && Spins(s.pc[u]);
    assert OthersAt(s.pc[u], s.owner);
  }

  // ----- A call on its own -----

  /** `n` accesses of `t` with nobody in between; those of an idle task do nothing. */
  function Alone(t: int, n: nat): seq<Event> {
    seq(n, _ => Step(t))
  }

  lemma AloneStep(s: State, t: int, n: nat)
    requires Tasks(s) && t in s.pc && n > 0
    ensures Run(s, Alone(t, n)) == Run(Next(s, Step(t)), Alone(t, n - 1))
  {
    assert Alone(t, n)[0] == Step(t) && Alone(t, n)[1..] == Alone(t, n - 1);
  }

  lemma {:induction false} AloneIdle(s: State, t: int, n: nat)
    requires Tasks(s) && t in s.pc && s.pc[t].Idle?
    ensures Run(s, Alone(t, n)) == s
    decreases n
  {
    if n > 0 {
      AloneStep(s, t, n);
      assert s.pc[t := Idle] == s.pc && s.depth[t := s.depth[t]] == s.depth;
      AloneIdle(s, t, n - 1);
    }
  }

  /** After `n` accesses of `t` its call has returned, and `t` holds the mutex `gain` times more. */
  predicate Ends(s: State, t: int, n: nat, gain: int)
    requires Tasks(s) && t in s.pc
  {
    var r := Run(s, Alone(t, n));
    t in r.pc && r.pc[t].Idle? && t in r.depth && r.depth[t] == s.depth[t] + gain
  }

  lemma EndsLater(s: State, t: int, n: nat, gain: int)
    requires Tasks(s) && t in s.pc && n > 0
    requires Ends(Next(s, Step(t)), t, n - 1, s.depth[t] + gain - Next(s, Step(t)).depth[t])
    ensures Ends(s, t, n, gain)
  {
    AloneStep(s, t, n);
  }

  lemma EndsIdle(s: State, t: int, n: nat)
    requires Tasks(s) && t in s.pc && s.pc[t].Idle?
    ensures Ends(s, t, n, 0)
  {
    AloneIdle(s, t, n);
  }

  lemma FromRelease(s: State, t: int, n: nat)
    requires Tasks(s) && t in s.pc && s.pc[t].Release? && s.pc[t].trying && n >= 1
    ensures Ends(s, t, n, if s.pc[t].won then 1 else 0)
  {
    EndsIdle(Next(s, Step(t)), t, n - 1);
    EndsLater(s, t, n, if s.pc[t].won then 1 else 0);
  }

  lemma FromSetCount(s: State, t: int, n: nat)
    requires Tasks(s) && t in s.pc && s.pc[t] == SetCount(true) && n >= 2
    ensures Ends(s, t, n, 1)
  {
    FromRelease(Next(s, Step(t)), t, n - 1);
    EndsLater(s, t, n, 1);
  }

  lemma FromSetOwner(s: State, t: int, n: nat)
    requires Tasks(s) && t in s.pc && s.pc[t] == SetOwner(true) && n >= 3
    ensures Ends(s, t, n, 1)
  {
    FromSetCount(Next(s, Step(t)), t, n - 1);
    EndsLater(s, t, n, 1);
  }

  lemma FromTestOwner(s: State, t: int, n: nat)
    requires Tasks(s) && t in s.pc && s.pc[t] == TestOwner(true) && n >= 4
    ensures Ends(s, t, n, if s.owner == NOBODY then 1 else 0)
  {
    if s.owner == NOBODY {
      FromSetOwner(Next(s, Step(t)), t, n - 1);
    } else {
      FromRelease(Next(s, Step(t)), t, n - 1);
    }
    EndsLater(s, t, n, if s.owner == NOBODY then 1 else 0);
  }

  lemma FromAcquire(s: State, t: int, n: nat)
    requires Tasks(s) && t in s.pc && s.pc[t] == Acquire(true) && n >= 5
    ensures Ends(s, t, n, if s.owner == NOBODY && !s.spin then 1 else 0)
  {
    if s.spin {
      EndsIdle(Next(s, Step(t)), t, n - 1);
    } else {
      FromTestOwner(Next(s, Step(t)), t, n - 1);
    }
    EndsLater(s, t, n, if s.owner == NOBODY && !s.spin then 1 else 0);
  }

  lemma FromBumpWrite(s: State, t: int, n: nat)
    requires Tasks(s) && t in s.pc && s.pc[t].BumpWrite? && n >= 1
    ensures Ends(s, t, n, 1)
  {
    EndsIdle(Next(s, Step(t)), t, n - 1);
    EndsLater(s, t, n, 1);
  }

  lemma FromBumpRead(s: State, t: int, n: nat)
    requires Tasks(s) && t in s.pc && s.pc[t].BumpRead? && n >= 2
    ensures Ends(s, t, n, 1)
  {
    FromBumpWrite(Next(s, Step(t)), t, n - 1);
    EndsLater(s, t, n, 1);
  }

  lemma FromCheckOwner(s: State, t: int, n: nat)
    requires Tasks(s) && t in s.pc && s.pc[t] == CheckOwner(true) && n >= 6
    ensures Ends(s, t, n, if s.owner == t || (s.owner == NOBODY && !s.spin) then 1 else 0)
  {
    if s.owner == t {
      FromBumpRead(Next(s, Step(t)), t, n - 1);
    } else {
      FromAcquire(Next(s, Step(t)), t, n - 1);
    }
    EndsLater(s, t, n, if s.owner == t || (s.owner == NOBODY && !s.spin) then 1 else 0);
  }

  /** Undisturbed, a try_lock returns after at most six accesses, and succeeds exactly when its
      caller owns the mutex or the mutex is free and so is its spinlock. */
  lemma TryLockAloneSucceedsExactlyWhen(s: State, t: int)
    requires Tasks(s) && t in s.pc && s.pc[t].Idle?
    ensures var r := Run(Next(s, Begin(t, TryLock)), Alone(t, 6));
            && t in r.pc && r.pc[t].Idle? && t in r.depth
            && r.depth[t] == s.depth[t] + if s.owner == t || (s.owner == NOBODY && !s.spin) then 1 else 0
  {
    FromCheckOwner(Next(s, Begin(t, TryLock)), t, 6);
  }

  /** Task 1 has begun to lock a free mutex and holds its spinlock. */
  const LOCKING := [Begin(1, Lock), Step(1), Step(1)]

  /** From the start: a try_lock of task 2 then fails although nobody owns the mutex. */
  lemma FreeMutexRefused()
    ensures var s := Run(Init({1, 2}), LOCKING);
            && s.owner == NOBODY && Tasks(s) && 2 in s.pc
            && 2 in Run(Next(s, Begin(2, TryLock)), Alone(2, 6)).depth
            && Run(Next(s, Begin(2, TryLock)), Alone(2, 6)).depth[2] == 0
  {
    var s0 := Init({1, 2});
    var s1 := Next(s0, Begin(1, Lock));
    var s2 := Next(s1, Step(1));
    var s3 := Next(s2, Step(1));
    assert s3.spin && s3.owner == NOBODY && s3.pc[2].Idle? && s3.depth[2] == 0;
    assert LOCKING[1..] == [Step(1), Step(1)] && LOCKING[1..][1..] == [Step(1)] && LOCKING[1..][1..][1..] == [];
    assert Run(s0, LOCKING) == Run(s1, LOCKING[1..]) == Run(s2, LOCKING[1..][1..]);
    assert Run(s2, LOCKING[1..][1..]) == Run(s3, []) == s3;
    TryLockAloneSucceedsExactlyWhen(s3, 2);
  }
}
