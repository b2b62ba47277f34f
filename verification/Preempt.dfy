/** Preemption accounting on the timer tick, after kernel/preempt.c. */
module Preemption {
  import opened Words

  const MAX_32 := TWO_32 - 1

  function Word64(x: nat): nat { x % 0x1_0000_0000_0000_0000 }

  datatype State = State(enabled: bool, ticks: nat, interrupts: nat, disabledTime: nat, longest: nat, current: nat)

  datatype Op = Tick | Enable | Disable | Reset

  function Apply(s: State, op: Op): State {
    match op
    case Enable => s.(enabled := true)
    case Disable => s.(enabled := false)
    case Reset => s.(interrupts := 0, disabledTime := 0, longest := 0, current := 0)
    case Tick =>
      var counted := s.(ticks := Word64(s.ticks + 1), interrupts := Word64(s.interrupts + 1));
      if s.enabled then counted.(current := 0)
      else
        var current := Word32(s.current + 1);
        counted.(current := current, disabledTime := Word64(s.disabledTime + 1),
                 longest := if current > s.longest then current else s.longest)
  }

  // ----- What the statistics mean -----

  /** Whether preemption was on at each tick since the last reset. */
  type History = seq<bool>

  datatype Past = Past(enabled: bool, all: nat, since: History)

  function Remember(p: Past, op: Op): Past {
    match op
    case Tick => p.(all := p.all + 1, since := p.since + [p.enabled])
    case Enable => p.(enabled := true)
    case Disable => p.(enabled := false)
    case Reset => p.(since := [])
  }

  /** The history that a sequence of operations makes. */
  function Recall(p: Past, ops: seq<Op>): Past
    decreases |ops|
  {
    if ops == [] then p else Recall(Remember(p, ops[0]), ops[1..])
  }

  function Run(s: State, ops: seq<Op>): State
    decreases |ops|
  {
    if ops == [] then s else Run(Apply(s, ops[0]), ops[1..])
  }

  /** Preemption was off for the `n` ticks from tick `i` on. */
  predicate OffFor(h: History, i: nat, n: nat) {
    i + n <= |h| && forall k :: i <= k < i + n ==> !h[k]
  }

  function OffTicks(h: History): nat {
    if h == [] then 0 else OffTicks(h[..|h| - 1]) + if h[|h| - 1] then 0 else 1
  }

  /** The unbroken stretch of off ticks at the end. */
  function Trailing(h: History): (n: nat)
    ensures n <= |h| && OffFor(h, |h| - n, n)
    ensures n < |h| ==> h[|h| - n - 1]
  {
    if h == [] || h[|h| - 1] then 0 else Trailing(h[..|h| - 1]) + 1
  }

  function Longest(h: History): nat {
    if h == [] then 0
    else
      var before := Longest(h[..|h| - 1]);
      if Trailing(h) > before then Trailing(h) else before
  }

  lemma {:induction false} TrailingIsLast(h: History, i: nat)
    requires i <= |h| && OffFor(h, i, |h| - i)
    ensures |h| - i <= Trailing(h)
  {
    if i < |h| {
      TrailingIsLast(h[..|h| - 1], i);
    }
  }

  /** `Longest` is the length of the longest unbroken stretch of off ticks anywhere. */
  lemma {:induction false} NoStretchLonger(h: History, i: nat, n: nat)
    requires OffFor(h, i, n)
    ensures n <= Longest(h)
  {
    if h != [] {
      if i + n == |h| {
        TrailingIsLast(h, i);
      } else {
        NoStretchLonger(h[..|h| - 1], i, n);
      }
    }
  }

  lemma {:induction false} SomeStretchIsLongest(h: History) returns (i: nat)
    ensures OffFor(h, i, Longest(h))
  {
    if h == [] {
      i := 0;
    } else if Longest(h) == Trailing(h) {
      i := |h| - Trailing(h);
    } else {
      i := SomeStretchIsLongest(h[..|h| - 1]);
    }
  }

  lemma TrailingWithinLongest(h: History)
    ensures Trailing(h) <= Longest(h)
  {
  }

  // ----- Statistics equal history -----

  function AtMost32(n: nat): nat {
    if n > MAX_32 then MAX_32 else n
  }

  /** The counters are what the history says, to their width: the longest stretch sticks at
      the largest 32-bit value, the others wrap. */
  predicate Tells(s: State, p: Past) {
    && s.enabled == p.enabled && s.ticks == Word64(p.all)
    && s.interrupts == Word64(|p.since|) && s.disabledTime == Word64(OffTicks(p.since))
    && s.current == Word32(Trailing(p.since)) && s.longest == AtMost32(Longest(p.since))
  }

  lemma Word64Next(x: nat)
    ensures Word64(Word64(x) + 1) == Word64(x + 1)
  {
  }

  lemma OnTick(h: History, on: bool)
    ensures OffTicks(h + [on]) == OffTicks(h) + if on then 0 else 1
    ensures Trailing(h + [on]) == if on then 0 else Trailing(h) + 1
    ensures var t := Trailing(h + [on]);
            Longest(h + [on]) == if t > Longest(h) then t else Longest(h)
  {
    var after := h + [on];
    assert after[..|after| - 1] == h;
  }

  /** Counting past the largest value cannot hide a record: the one that wraps was already
      as long as can be told. */
  lemma LongestAfterOff(trailing: nat, longest: nat)
    requires trailing <= longest
    ensures var current := Word32(trailing + 1);
            AtMost32(if trailing + 1 > longest then trailing + 1 else longest) ==
            if current > AtMost32(longest) then current else AtMost32(longest)
  {
    Word32Next(trailing);
    Word32Next(trailing + 1);
  }

  /** The counters that do not depend on the flag. */
  lemma PlainCounters(s: State, p: Past)
    requires Tells(s, p)
    ensures Apply(s, Tick).ticks == Word64(p.all + 1) && Apply(s, Tick).interrupts == Word64(|p.since| + 1)
    ensures Apply(s, Tick).disabledTime == Word64(OffTicks(p.since + [p.enabled]))
  {
    OnTick(p.since, p.enabled);
    Word64Next(p.all);
    Word64Next(|p.since|);
    Word64Next(OffTicks(p.since));
  }

  lemma Stretches(s: State, p: Past)
    requires Tells(s, p)
    ensures Apply(s, Tick).current == Word32(Trailing(p.since + [p.enabled]))
    ensures Apply(s, Tick).longest == AtMost32(Longest(p.since + [p.enabled]))
  {
    var t, l := Trailing(p.since), Longest(p.since);
    OnTick(p.since, p.enabled);
    TrailingWithinLongest(p.since);
    if !p.enabled {
      Word32Next(t);
      LongestAfterOff(t, l);
      assert Apply(s, Tick).current == Word32(Word32(t) + 1) == Word32(t + 1);
    }
  }

  lemma TickTells(s: State, p: Past)
    requires Tells(s, p)
    ensures Tells(Apply(s, Tick), Remember(p, Tick))
  {
    PlainCounters(s, p);
    Stretches(s, p);
  }

  /** Under any mix of ticks, switches and resets. */
  lemma {:induction false} StatisticsTellHistory(s: State, p: Past, ops: seq<Op>)
    requires Tells(s, p)
    ensures Tells(Run(s, ops), Recall(p, ops))
    decreases |ops|
  {
    if ops != [] {
      if ops[0].Tick? {
        TickTells(s, p);
      }
      StatisticsTellHistory(Apply(s, ops[0]), Remember(p, ops[0]), ops[1..]);
    }
  }

  const POWER_UP := State(false, 0, 0, 0, 0, 0)
  const NO_PAST := Past(false, 0, [])

  /** From power-up, the recorded longest stretch is one that happened, and none was longer,
      as long as 32 bits can tell. */
  lemma LongestStretchIsReal(ops: seq<Op>) returns (j: nat)
    ensures OffFor(Recall(NO_PAST, ops).since, j, Run(POWER_UP, ops).longest)
    ensures Run(POWER_UP, ops).longest < MAX_32 ==>
              forall i: nat, n: nat :: OffFor(Recall(NO_PAST, ops).since, i, n) ==> n <= Run(POWER_UP, ops).longest
  {
    StatisticsTellHistory(POWER_UP, NO_PAST, ops);
    var h := Recall(NO_PAST, ops).since;
    j := SomeStretchIsLongest(h);
    forall i: nat, n: nat | OffFor(h, i, n)
      ensures n <= Longest(h)
    {
      NoStretchLonger(h, i, n);
    }
  }

  // ----- The timer -----

  class Timer {
    var enabled: bool
    var ticks: nat
    var interrupts: nat
    var disabledTime: nat
    var longest: nat
    var current: nat

    ghost function View(): State
      reads this
    {
      State(enabled, ticks, interrupts, disabledTime, longest, current)
    }

    constructor ()
      ensures View() == POWER_UP
    {
      enabled, ticks, interrupts, disabledTime, longest, current := false, 0, 0, 0, 0, 0;
    }

    method EnablePreemption()
      modifies this`enabled
      ensures View() == Apply(old(View()), Enable)
    {
      enabled := true;
    }

    method DisablePreemption()
      modifies this`enabled
      ensures View() == Apply(old(View()), Disable)
    {
      enabled := false;
    }

    method ResetStatistics()
      modifies this
      ensures View() == Apply(old(View()), Reset)
    {
      interrupts, disabledTime, longest, current := 0, 0, 0, 0;
    }

    /** The accounting part of `timer_interrupt_handler`. */
    method Interrupt()
      modifies this
      ensures View() == Apply(old(View()), Tick)
    {
      ticks := Word64(ticks + 1);
      interrupts := Word64(interrupts + 1);
      if !enabled {
        current := Word32(current + 1);
        disabledTime := Word64(disabledTime + 1);
        if current > longest {
          longest := current;
        }
      } else {
        current := 0;
      }
    }
  }
}
