/** The counting semaphore of kernel/sync.c under every interleaving, one shared-memory access
    at a time. */
module Semaphore {

  datatype Call = Wait | TryWait | Signal

  datatype Pc =
    | Idle
    | WaitAcquire(trying: bool)
    | WaitTest(trying: bool)
    | WaitRead(trying: bool)
    | WaitWrite(trying: bool, seen: int)
    | WaitRelease(trying: bool, won: bool)
    | SignalAcquire
    | SignalTest
    | SignalRead
    | SignalWrite(seen: int)
    | SignalRelease

  /** `waits` counts waits that returned successfully, `taken` those that lowered the count,
      returned or not, `signals` signal calls begun, `raised` signals that added to the count and
      `lost` those that found it at its maximum. */
  datatype State = State(
    spin: bool, count: int, max: int, pc: map<int, Pc>,
    waits: nat, taken: nat, signals: nat, raised: nat, lost: nat)

  datatype Event = Begin(task: int, call: Call) | Step(task: int)

  function Init(ids: set<int>, initial: int, max: int): State {
    State(false, initial, max, map t | t in ids :: Idle, 0, 0, 0, 0, 0)
  }

  function Goto(s: State, t: int, pc: Pc): State {
    s.(pc := s.pc[t := pc])
  }

  function Next(s: State, e: Event): (r: State)
    requires e.task in s.pc
    ensures r.pc.Keys == s.pc.Keys && r.max == s.max
  {
    var t := e.task;
    match e
    case Begin(_, call) =>
      if !s.pc[t].Idle? then s
      else if call.Signal? then Goto(s.(signals := s.signals + 1), t, SignalAcquire)
      else Goto(s, t, WaitAcquire(call.TryWait?))
    case Step(_) =>
      match s.pc[t]
      case Idle => s
      case WaitAcquire(trying) => if !s.spin then Goto(s.(spin := true), t, WaitTest(trying)) else s
      case WaitTest(trying) => Goto(s, t, if s.count > 0 then WaitRead(trying) else WaitRelease(trying, false))
      case WaitRead(trying) => Goto(s, t, WaitWrite(trying, s.count))
      case WaitWrite(trying, seen) =>
        Goto(s.(count := seen - 1, taken := s.taken + 1), t, WaitRelease(trying, true))
      case WaitRelease(trying, won) =>
        var r := s.(spin := false);
        if won then Goto(r.(waits := r.waits + 1), t, Idle)
        else Goto(r, t, if trying then Idle else WaitAcquire(false))
      case SignalAcquire => if !s.spin then Goto(s.(spin := true), t, SignalTest) else s
      case SignalTest =>
        if s.count < s.max then Goto(s, t, SignalRead) else Goto(s.(lost := s.lost + 1), t, SignalRelease)
      case SignalRead => Goto(s, t, SignalWrite(s.count))
      case SignalWrite(seen) => Goto(s.(count := seen + 1, raised := s.raised + 1), t, SignalRelease)
      case SignalRelease => Goto(s.(spin := false), t, Idle)
  }

  function Run(s: State, es: seq<Event>): (r: State)
    requires forall i :: 0 <= i < |es| ==> es[i].task in s.pc
    ensures r.pc.Keys == s.pc.Keys && r.max == s.max
    decreases |es|
  {
    if es == [] then s else Run(Next(s, es[0]), es[1..])
  }

  predicate Spins(pc: Pc) {
    !pc.Idle? && !pc.WaitAcquire? && !pc.SignalAcquire?
  }

  /** A wait that has decremented but not yet returned. */
  predicate Returning(pc: Pc) {
    pc.WaitRelease? && pc.won
  }

  /** A signal that has begun but is neither counted as raised nor as lost. */
  predicate Undecided(pc: Pc) {
    pc.SignalAcquire? || pc.SignalTest? || pc.SignalRead? || pc.SignalWrite?
  }

  function ReturningWaits(pc: map<int, Pc>): set<int> {
    set t | t in pc && Returning(pc[t])
  }

  function UndecidedSignals(pc: map<int, Pc>): set<int> {
    set t | t in pc && Undecided(pc[t])
  }

  predicate Knows(s: State, pc: Pc) {
    match pc
    case WaitRead(_) => s.count > 0
    case WaitWrite(_, seen) => seen == s.count > 0
    case SignalRead => s.count < s.max
    case SignalWrite(seen) => seen == s.count < s.max
    case _ => true
  }

  /** The spinlock excludes, and what a task has read under it is still true. */
  predicate Exclusive(s: State) {
    && 0 <= s.count <= s.max
    && (forall t :: t in s.pc && Spins(s.pc[t]) ==> s.spin)
    && (forall t, u :: t in s.pc && u in s.pc && Spins(s.pc[t]) && Spins(s.pc[u]) ==> t == u)
    && (forall t :: t in s.pc ==> Knows(s, s.pc[t]))
  }

  predicate Accounts(s: State, initial: int) {
    && s.count + s.taken == initial + s.raised
    && s.taken == s.waits + |ReturningWaits(s.pc)|
    && s.signals == s.raised + s.lost + |UndecidedSignals(s.pc)|
  }

  predicate Inv(s: State, initial: int) {
    Exclusive(s) && Accounts(s, initial)
  }

  lemma InitInv(ids: set<int>, initial: int, max: int)
    requires 0 <= initial <= max
    ensures Inv(Init(ids, initial, max), initial)
  {
    NothingUnderWay(Init(ids, initial, max).pc);
  }

  lemma NothingUnderWay(pc: map<int, Pc>)
    requires forall t :: t in pc ==> pc[t].Idle?
    ensures UndecidedSignals(pc) == {} && ReturningWaits(pc) == {}
  {
    forall t | t in pc
      ensures !Undecided(pc[t]) && !Returning(pc[t])
    {
      assert pc[t].Idle?;
    }
  }

  lemma SizeWithout(s: set<int>, t: int)
    ensures |s| == |s - {t}| + if t in s then 1 else 0
  {
  }

  /** A task may change the shared variables if it has the spinlock or takes it now. */
  predicate MayMove(s: State, t: int, r: State)
    requires t in s.pc && t in r.pc
  {
    && r.pc == s.pc[t := r.pc[t]] && 0 <= r.count <= r.max && Knows(r, r.pc[t])
    && (Spins(r.pc[t]) ==> r.spin && (Spins(s.pc[t]) || !s.spin))
    && (Spins(s.pc[t]) || (r.count == s.count && r.max == s.max && (s.spin ==> r.spin)))
  }

  lemma MoveKeepsExclusive(s: State, t: int, r: State)
    requires Exclusive(s) && t in s.pc && t in r.pc && MayMove(s, t, r)
    ensures Exclusive(r)
  {
    forall u | u in r.pc && u != t
      ensures u in s.pc && r.pc[u] == s.pc[u] && Knows(r, r.pc[u]) && (Spins(r.pc[u]) ==> r.spin)
    {
      assert Knows(s, s.pc[u]);
    }
  }

  lemma NextExclusive(s: State, e: Event)
    requires Exclusive(s) && e.task in s.pc
    ensures Exclusive(Next(s, e))
  {
    var t := e.task;
    assert Knows(s, s.pc[t]);
    NextMoves(s, e);
    MoveKeepsExclusive(s, t, Next(s, e));
  }

  lemma NextMoves(s: State, e: Event)
    requires e.task in s.pc && 0 <= s.count <= s.max && Knows(s, s.pc[e.task])
    requires Spins(s.pc[e.task]) ==> s.spin
    ensures MayMove(s, e.task, Next(s, e))
  {
    var t := e.task;
    assert s.pc == s.pc[t := s.pc[t]];
  }

  /** How one task's move changes the two sets that the accounts mention. */
  lemma MoveCounts(pc: map<int, Pc>, t: int, to: Pc)
    requires t in pc
    ensures |UndecidedSignals(pc[t := to])| ==
            |UndecidedSignals(pc)| - (if Undecided(pc[t]) then 1 else 0) + (if Undecided(to) then 1 else 0)
    ensures |ReturningWaits(pc[t := to])| ==
            |ReturningWaits(pc)| - (if Returning(pc[t]) then 1 else 0) + (if Returning(to) then 1 else 0)
  {
    var u, u' := UndecidedSignals(pc), UndecidedSignals(pc[t := to]);
    var w, w' := ReturningWaits(pc), ReturningWaits(pc[t := to]);
    assert u' - {t} == u - {t} && w' - {t} == w - {t};
    SizeWithout(u, t);
    SizeWithout(u', t);
    SizeWithout(w, t);
    SizeWithout(w', t);
  }

  /** What one event adds to each side of the accounts. */
  lemma NextCounts(s: State, e: Event)
    requires e.task in s.pc && Knows(s, s.pc[e.task])
    ensures var r := Next(s, e);
            var pc, to := s.pc[e.task], r.pc[e.task];
            && r.count + r.taken - r.raised == s.count + s.taken - s.raised
            && r.taken - r.waits - (if Returning(to) then 1 else 0) ==
               s.taken - s.waits - (if Returning(pc) then 1 else 0)
            && r.signals - r.raised - r.lost - (if Undecided(to) then 1 else 0) ==
               s.signals - s.raised - s.lost - (if Undecided(pc) then 1 else 0)
  {
  }

  lemma NextAccounts(s: State, e: Event, initial: int)
    requires Exclusive(s) && Accounts(s, initial) && e.task in s.pc
    ensures Accounts(Next(s, e), initial)
  {
    var t, r := e.task, Next(s, e);
    assert Knows(s, s.pc[t]);
    NextMoves(s, e);
    NextCounts(s, e);
    MoveCounts(s.pc, t, r.pc[t]);
  }

  lemma NextInv(s: State, e: Event, initial: int)
    requires Inv(s, initial) && e.task in s.pc
    ensures Inv(Next(s, e), initial)
  {
    NextExclusive(s, e);
    NextAccounts(s, e, initial);
  }

  lemma {:induction false} RunInv(s: State, es: seq<Event>, initial: int)
    requires Inv(s, initial) && forall i :: 0 <= i < |es| ==> es[i].task in s.pc
    ensures Inv(Run(s, es), initial)
    decreases |es|
  {
    if es != [] {
      NextInv(s, es[0], initial);
      RunInv(Next(s, es[0]), es[1..], initial);
    }
  }

  /** Accounting over every interleaving: the count stays within its bounds; permits are
      neither lost nor invented; and waits never outnumber the permits ever issued.  When no
      call is under way the accounts are exact. */
  lemma PermitsBalance(ids: set<int>, initial: int, max: int, es: seq<Event>)
    requires 0 <= initial <= max
    requires forall i :: 0 <= i < |es| ==> es[i].task in ids
    ensures var s := Run(Init(ids, initial, max), es);
            && 0 <= s.count <= max
            && s.waits <= initial + s.signals
            && ((forall t :: t in s.pc ==> !Returning(s.pc[t])) ==> s.count + s.waits == initial + s.raised)
            && ((forall t :: t in s.pc ==> s.pc[t].Idle?) ==> s.count + s.waits == initial + s.signals - s.lost)
  {
    InitInv(ids, initial, max);
    RunInv(Init(ids, initial, max), es, initial);
    var s := Run(Init(ids, initial, max), es);
    if forall t :: t in s.pc ==> !Returning(s.pc[t]) {
      assert ReturningWaits(s.pc) == {};
    }
    if forall t :: t in s.pc ==> s.pc[t].Idle? {
      NothingUnderWay(s.pc);
    }
  }

  lemma LossAtMaximum(s: State, e: Event)
    requires Exclusive(s) && e.task in s.pc
    ensures Next(s, e).lost > s.lost ==> s.count == s.max
  {
  }

  /** If a run loses a signal, the semaphore is at its maximum at some point of it. */
  lemma {:induction false} LossNeedsFull(s: State, es: seq<Event>) returns (n: nat)
    requires Exclusive(s) && forall i :: 0 <= i < |es| ==> es[i].task in s.pc
    requires Run(s, es).lost > s.lost
    ensures n < |es| && Run(s, es[..n]).count == s.max
    decreases |es|
  {
    var r := Next(s, es[0]);
    NextExclusive(s, es[0]);
    LossAtMaximum(s, es[0]);
    if r.lost > s.lost {
      n := 0;
      assert es[..n] == [];
    } else {
      var m := LossNeedsFull(r, es[1..]);
      n := m + 1;
      assert es[..n][1..] == es[1..][..m];
    }
  }

  /** From the start: a semaphore that was never at its maximum has lost no signal, so then the
      permits balance against all signals. */
  lemma NeverFullNothingLost(ids: set<int>, initial: int, max: int, es: seq<Event>)
    requires 0 <= initial <= max
    requires forall i :: 0 <= i < |es| ==> es[i].task in ids
    requires forall n: nat :: n <= |es| ==> Run(Init(ids, initial, max), es[..n]).count < max
    ensures var s := Run(Init(ids, initial, max), es);
            s.lost == 0 && ((forall t :: t in s.pc ==> s.pc[t].Idle?) ==> s.count + s.waits == initial + s.signals)
  {
    InitInv(ids, initial, max);
    PermitsBalance(ids, initial, max, es);
    if Run(Init(ids, initial, max), es).lost > 0 {
      var n := LossNeedsFull(Init(ids, initial, max), es);
    }
  }
}
