/** The order of the sleep list over whole runs: it is sorted by wake tick, and entries with the
    same tick stay in the order in which their tasks went to sleep. */
module SchedulerOrder {
  import opened TaskQueues
  import opened Sequences
  import opened SchedulerModel
  import opened SchedulerInvariant

  /** The entries for tick `w`, in list order. */
  function AtWake(list: seq<Sleeper>, w: nat): seq<Sleeper> {
    if list == [] then []
    else if list[0].wake == w then [list[0]] + AtWake(list[1..], w)
    else AtWake(list[1..], w)
  }

  /** The entry for tick `w` that an operation adds, if any. */
  function Arrival(s: State, op: Op, w: nat): seq<Sleeper> {
    if op.Sleep? && op.ms > 0 && s.current.Some? && s.ticks + op.ms / MS_PER_TICK == w
    then [Sleeper(s.current.value, w)] else []
  }

  /** The entries for tick `w` that a run adds, in the order of the calls. */
  function ArrivalsAt(s: State, ops: seq<Op>, w: nat): seq<Sleeper>
    requires WellFormed(s)
    decreases |ops|
  {
    if ops == [] then [] else Arrival(s, ops[0], w) + ArrivalsAt(Apply(s, ops[0]), ops[1..], w)
  }

  // ----- Subsequences -----

  /** `a` is `b` with some elements left out. */
  predicate Subsequence<T(==)>(a: seq<T>, b: seq<T>)
    decreases |b|
  {
    a == [] || (b != [] && ((a[0] == b[0] && Subsequence(a[1..], b[1..])) || Subsequence(a, b[1..])))
  }

  lemma {:induction false} SubsequenceSelf<T>(a: seq<T>)
    ensures Subsequence(a, a)
  {
    if a != [] {
      SubsequenceSelf(a[1..]);
    }
  }

  lemma {:induction false} SubsequenceTrans<T>(a: seq<T>, b: seq<T>, c: seq<T>)
    requires Subsequence(a, b) && Subsequence(b, c)
    ensures Subsequence(a, c)
    decreases |c|
  {
    if a != [] {
      if b[0] == c[0] && Subsequence(b[1..], c[1..]) {
        if a[0] == b[0] && Subsequence(a[1..], b[1..]) {
          SubsequenceTrans(a[1..], b[1..], c[1..]);
        } else {
          SubsequenceTrans(a, b[1..], c[1..]);
        }
      } else {
        SubsequenceTrans(a, b, c[1..]);
      }
    }
  }

  lemma {:induction false} SubsequenceAppend<T>(a: seq<T>, b: seq<T>, c: seq<T>)
    requires Subsequence(a, b)
    ensures Subsequence(a + c, b + c)
    decreases |b|
  {
    if b == [] {
      assert a + c == c && b + c == c;
      SubsequenceSelf(c);
    } else {
      assert (b + c)[1..] == b[1..] + c;
      if a != [] && a[0] == b[0] && Subsequence(a[1..], b[1..]) {
        assert (a + c)[1..] == a[1..] + c;
        SubsequenceAppend(a[1..], b[1..], c);
      } else {
        SubsequenceAppend(a, b[1..], c);
      }
    }
  }

  // ----- Insertion, scan and removal, tick by tick -----

  lemma {:induction false} NoneAtWake(list: seq<Sleeper>, w: nat)
    requires forall e :: e in list ==> e.wake != w
    ensures AtWake(list, w) == []
  {
    if list != [] {
      assert list[0] in list;
      NoneAtWake(list[1..], w);
    }
  }

  /** Insertion puts an entry last among those of its tick and leaves the other ticks alone. */
  lemma {:induction false} InsertArrives(list: seq<Sleeper>, e: Sleeper, w: nat)
    requires Sorted(list)
    ensures AtWake(Insert(list, e), w) == AtWake(list, w) + if e.wake == w then [e] else []
  {
    if list == [] || list[0].wake > e.wake {
      assert ([e] + list)[1..] == list;
      if e.wake == w {
        NoneAtWake(list, w);
      }
    } else {
      InsertArrives(list[1..], e, w);
      assert Insert(list, e)[1..] == Insert(list[1..], e);
    }
  }

  /** A scan keeps all entries of a tick or none. */
  lemma {:induction false} ScanKeepsAllOrNone(list: seq<Sleeper>, now: nat, w: nat)
    ensures AtWake(NotDue(list, now), w) == if w > now then AtWake(list, w) else []
  {
    if list != [] {
      ScanKeepsAllOrNone(list[1..], now, w);
      if list[0].wake > now {
        assert NotDue(list, now)[1..] == NotDue(list[1..], now);
      }
    }
  }

  lemma {:induction false} RemovalLeavesOut(list: seq<Sleeper>, t: TaskId, w: nat)
    ensures Subsequence(AtWake(RemoveSleeper(list, t), w), AtWake(list, w))
  {
    if list == [] {
    } else if list[0].task == t {
      SubsequenceSelf(AtWake(list[1..], w));
      if list[0].wake == w {
        assert AtWake(list, w)[1..] == AtWake(list[1..], w);
      }
    } else {
      RemovalLeavesOut(list[1..], t, w);
      assert RemoveSleeper(list, t)[1..] == RemoveSleeper(list[1..], t);
      if list[0].wake == w {
        assert AtWake(list, w)[1..] == AtWake(list[1..], w);
        assert AtWake(RemoveSleeper(list, t), w)[1..] == AtWake(RemoveSleeper(list[1..], t), w);
      }
    }
  }

  // ----- Operations and runs -----

  lemma OtherwiseKept(s: State, op: Op)
    requires WellFormed(s) && !op.Sleep? && !op.Wake?
    ensures Prepare(s, op).sleepers == s.sleepers
  {
  }

  lemma SleepOrder(s: State, ms: nat, w: nat)
    requires Inv(s)
    ensures AtWake(Slept(s, ms).sleepers, w) == AtWake(s.sleepers, w) + Arrival(s, Sleep(ms), w)
  {
    if ms > 0 && s.current.Some? {
      InsertArrives(s.sleepers, Sleeper(s.current.value, s.ticks + ms / MS_PER_TICK), w);
    } else {
      assert AtWake(s.sleepers, w) + [] == AtWake(s.sleepers, w);
    }
  }

  lemma PrepareOrder(s: State, op: Op, w: nat)
    requires Inv(s)
    ensures Subsequence(AtWake(Prepare(s, op).sleepers, w), AtWake(s.sleepers, w) + Arrival(s, op, w))
    ensures !op.Wake? ==> AtWake(Prepare(s, op).sleepers, w) == AtWake(s.sleepers, w) + Arrival(s, op, w)
  {
    var now := AtWake(s.sleepers, w);
    if op.Sleep? {
      SleepOrder(s, op.ms, w);
    } else if op.Wake? {
      assert now + [] == now;
      SubsequenceSelf(now);
      RemovalLeavesOut(s.sleepers, op.id, w);
    } else {
      assert now + [] == now;
      OtherwiseKept(s, op);
    }
    SubsequenceSelf(now + Arrival(s, op, w));
  }

  lemma ApplyOrder(s: State, op: Op, w: nat)
    requires Inv(s)
    ensures Subsequence(AtWake(Apply(s, op).sleepers, w), AtWake(s.sleepers, w) + Arrival(s, op, w))
    ensures !op.Wake? && Apply(s, op).ticks < w ==>
              AtWake(Apply(s, op).sleepers, w) == AtWake(s.sleepers, w) + Arrival(s, op, w)
  {
    PrepareOrder(s, op, w);
    PrepareWellFormed(s, op);
    var p := Prepare(s, op);
    ScanKeepsAllOrNone(p.sleepers, p.ticks, w);
    assert Apply(s, op).sleepers == p.sleepers || Apply(s, op).sleepers == NotDue(p.sleepers, p.ticks);
  }

  /** Over every permitted run the entries for a tick are in arrival order: those there at the
      start and then those added, with some left out. */
  lemma {:induction false} EqualTicksStayInArrivalOrder(s: State, ops: seq<Op>, w: nat)
    requires Inv(s) && PermittedRun(s, ops)
    ensures Sorted(Run(s, ops).sleepers)
    ensures Subsequence(AtWake(Run(s, ops).sleepers, w), AtWake(s.sleepers, w) + ArrivalsAt(s, ops, w))
    decreases |ops|
  {
    if ops == [] {
      assert AtWake(s.sleepers, w) + [] == AtWake(s.sleepers, w);
      SubsequenceSelf(AtWake(s.sleepers, w));
    } else {
      var r := Apply(s, ops[0]);
      ApplyInv(s, ops[0]);
      EqualTicksStayInArrivalOrder(r, ops[1..], w);
      ApplyOrder(s, ops[0], w);
      Chained(AtWake(Run(s, ops).sleepers, w), AtWake(r.sleepers, w), AtWake(s.sleepers, w),
              Arrival(s, ops[0], w), ArrivalsAt(r, ops[1..], w));
    }
  }

  lemma Chained<T>(z: seq<T>, y: seq<T>, x: seq<T>, a: seq<T>, b: seq<T>)
    requires Subsequence(y, x + a) && Subsequence(z, y + b)
    ensures Subsequence(z, x + (a + b))
  {
    SubsequenceAppend(y, x + a, b);
    SubsequenceTrans(z, y + b, x + a + b);
    Regroup(x, a, b);
  }

  /** Without wake-ups by id none of them is left out before its tick. */
  lemma {:induction false} NoEntryLostBeforeItsTick(s: State, ops: seq<Op>, w: nat)
    requires Inv(s) && PermittedRun(s, ops) && Run(s, ops).ticks < w
    requires forall i :: 0 <= i < |ops| ==> !ops[i].Wake?
    ensures AtWake(Run(s, ops).sleepers, w) == AtWake(s.sleepers, w) + ArrivalsAt(s, ops, w)
    decreases |ops|
  {
    if ops == [] {
      assert AtWake(s.sleepers, w) + [] == AtWake(s.sleepers, w);
    } else {
      var r := Apply(s, ops[0]);
      ApplyInv(s, ops[0]);
      RunFrame(r, ops[1..]);
      ApplyOrder(s, ops[0], w);
      NoEntryLostBeforeItsTick(r, ops[1..], w);
      Regroup(AtWake(s.sleepers, w), Arrival(s, ops[0], w), ArrivalsAt(r, ops[1..], w));
    }
  }
}
