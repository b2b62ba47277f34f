/** The keyboard ring of kernel/keyboard.c.  The interrupt handler is one step; the reader
    takes one step per access to a shared variable, and the handler may run between any two. */
module Keyboard {
  import opened Rings
  import opened Sequences

  const SIZE := 128

  /** Where the reader stands inside `keyboard_read_key`.  `seen` records how many keys were
      pending when it looked at `buffer_head`. */
  datatype Pc =
    | Idle
    | SawHead(head: nat, seen: nat)
    | SawEqual(seen: nat)
    | Available
    | HasIndex(tail: nat)
    | HasKey(key: char)
    | HasTail(key: char, tail: nat)
    | Moved(key: char)

  /** What became of one key press, and how many keys were waiting at the time. */
  datatype Fate = Fate(key: char, stored: bool, waiting: nat)

  /** The shared variables and the reader, with the history of the run: every press, the keys
      returned and, for every read that found no key, how many were pending when it looked. */
  datatype State = State(buf: seq<char>, head: nat, tail: nat, full: bool, pc: Pc,
                         presses: seq<Fate>, returned: seq<char>, misses: seq<nat>)
  {
    function Accepted(): seq<char> { Stored(presses) }
  }

  function Stored(presses: seq<Fate>): seq<char> {
    if presses == [] then []
    else
      var last := presses[|presses| - 1];
      Stored(presses[..|presses| - 1]) + if last.stored then [last.key] else []
  }

  datatype Event = Press(key: char) | Read

  function Next(i: nat): nat
    requires i < SIZE
  {
    Slot(i, 1, SIZE)
  }

  predicate InBounds(s: State) {
    |s.buf| == SIZE && s.head < SIZE && s.tail < SIZE &&
    (s.pc.HasIndex? ==> s.pc.tail < SIZE) && (s.pc.HasTail? ==> s.pc.tail < SIZE)
  }

  /** The handler storing a character. */
  function Handle(s: State, key: char): State
    requires InBounds(s)
  {
    var next := Next(s.head);
    var presses := s.presses + [Fate(key, next != s.tail, Waiting(s))];
    if next != s.tail then
      s.(buf := s.buf[s.head := key], head := next, full := next == s.tail, presses := presses)
    else s.(presses := presses)
  }

  /** One step of the reader. */
  function Advance(s: State): State
    requires InBounds(s)
  {
    match s.pc
    case Idle => s.(pc := SawHead(s.head, Waiting(s)))
    case SawHead(head, seen) => s.(pc := if head != s.tail then Available else SawEqual(seen))
    case SawEqual(seen) => if s.full then s.(pc := Available) else s.(pc := Idle, misses := s.misses + [seen])
    case Available => s.(pc := HasIndex(s.tail))
    case HasIndex(tail) => s.(pc := HasKey(s.buf[tail]))
    case HasKey(key) => s.(pc := HasTail(key, s.tail))
    case HasTail(key, tail) => s.(tail := Next(tail), pc := Moved(key))
    case Moved(key) => s.(full := false, pc := Idle, returned := s.returned + [key])
  }

  function Step(s: State, e: Event): State
    requires InBounds(s)
  {
    match e
    case Press(key) => Handle(s, key)
    case Read => Advance(s)
  }

  /** Keys the reader has taken out of the ring. */
  function Taken(s: State): nat {
    |s.returned| + if s.pc.Moved? then 1 else 0
  }

  /** Keys between the two indices. */
  function Waiting(s: State): nat
    requires InBounds(s)
  {
    if s.tail <= s.head then s.head - s.tail else s.head + SIZE - s.tail
  }

  // ----- The invariant -----

  /** The ring holds exactly the accepted keys that have not been taken, oldest first. */
  predicate HoldsRest(s: State)
    requires InBounds(s)
  {
    Taken(s) <= |s.Accepted()| && Window(s.buf, s.tail, Waiting(s)) == s.Accepted()[Taken(s)..]
  }

  predicate ReaderKnows(s: State)
    requires InBounds(s)
  {
    match s.pc
    case Idle => true
    case SawHead(head, seen) => (head == s.tail <==> seen == 0) && (head != s.tail ==> Waiting(s) > 0)
    case SawEqual(seen) => seen == 0
    case Available => Waiting(s) > 0
    case HasIndex(tail) => Waiting(s) > 0 && tail == s.tail
    case HasKey(key) => Waiting(s) > 0 && key == s.buf[s.tail]
    case HasTail(key, tail) => Waiting(s) > 0 && key == s.buf[s.tail] && tail == s.tail
    case Moved(key) => |s.returned| < |s.Accepted()| && key == s.Accepted()[|s.returned|]
  }

  predicate Inv(s: State) {
    && InBounds(s) && !s.full
    && HoldsRest(s) && ReaderKnows(s)
    && s.returned <= s.Accepted()
    && (forall i :: 0 <= i < |s.misses| ==> s.misses[i] == 0)
    && (forall i :: 0 <= i < |s.presses| ==> (s.presses[i].stored <==> s.presses[i].waiting < SIZE - 1))
  }

  /** A key is accepted exactly when fewer than 127 are waiting. */
  lemma RoomExactlyBelow127(s: State)
    requires InBounds(s)
    ensures Next(s.head) != s.tail <==> Waiting(s) < SIZE - 1
  {
  }

  lemma HandleAccepted(s: State, key: char)
    requires InBounds(s)
    ensures Handle(s, key).Accepted() == s.Accepted() + if Next(s.head) != s.tail then [key] else []
  {
    var presses := Handle(s, key).presses;
    assert presses[..|presses| - 1] == s.presses;
  }

  lemma HandleWaiting(s: State, key: char)
    requires InBounds(s) && Next(s.head) != s.tail
    ensures InBounds(Handle(s, key)) && Waiting(Handle(s, key)) == Waiting(s) + 1 && Waiting(s) < SIZE
    ensures s.head == Slot(s.tail, Waiting(s), SIZE) && Taken(Handle(s, key)) == Taken(s)
  {
  }

  lemma HandleRest(s: State, key: char)
    requires Inv(s)
    ensures HoldsRest(Handle(s, key)) && s.Accepted() <= Handle(s, key).Accepted()
  {
    HandleAccepted(s, key);
    if Next(s.head) != s.tail {
      HandleWaiting(s, key);
      AppendRest(s.buf, s.head, s.tail, Waiting(s), s.Accepted(), Taken(s), key);
    }
  }

  lemma AppendRest(buf: seq<char>, head: nat, tail: nat, count: nat, accepted: seq<char>, taken: nat, key: char)
    requires |buf| == SIZE && tail < SIZE && count < SIZE && head == Slot(tail, count, SIZE) && taken <= |accepted|
    requires Window(buf, tail, count) == accepted[taken..]
    ensures Window(buf[head := key], tail, count + 1) == (accepted + [key])[taken..]
  {
    WindowAppend(buf, tail, count, key);
    assert (accepted + [key])[taken..] == accepted[taken..] + [key];
  }

  lemma HandleInv(s: State, key: char)
    requires Inv(s)
    ensures Inv(Handle(s, key))
  {
    HandleRest(s, key);
    RoomExactlyBelow127(s);
  }

  lemma TakeRest(s: State)
    requires Inv(s) && s.pc.HasTail?
    ensures HoldsRest(Advance(s)) && s.pc.key == s.Accepted()[Taken(s)]
  {
    var w := Window(s.buf, s.tail, Waiting(s));
    assert w[0] == s.buf[s.tail];
    WindowAdvance(s.buf, s.tail, Waiting(s));
    assert s.Accepted()[Taken(s)..][1..] == s.Accepted()[Taken(s) + 1..];
  }

  lemma AdvanceRest(s: State)
    requires Inv(s)
    ensures InBounds(Advance(s)) && HoldsRest(Advance(s))
  {
    if s.pc.HasTail? {
      TakeRest(s);
    }
  }

  lemma AdvanceKnows(s: State)
    requires Inv(s)
    ensures InBounds(Advance(s)) && ReaderKnows(Advance(s))
  {
    if s.pc.HasTail? {
      TakeRest(s);
    }
  }

  lemma AdvanceInv(s: State)
    requires Inv(s)
    ensures Inv(Advance(s))
  {
    AdvanceRest(s);
    AdvanceKnows(s);
  }

  lemma StepInv(s: State, e: Event)
    requires Inv(s)
    ensures Inv(Step(s, e))
  {
    match e
    case Press(key) => HandleInv(s, key);
    case Read => AdvanceInv(s);
  }

  /** While the reader has the index of a slot in hand, the handler never writes that slot. */
  lemma SlotBeingReadIsSafe(s: State, key: char)
    requires Inv(s) && (s.pc.HasIndex? || s.pc.HasTail?)
    ensures Handle(s, key).buf[s.pc.tail] == s.buf[s.pc.tail]
  {
  }

  // ----- Runs -----

  function Start(buf: seq<char>): (s: State)
    requires |buf| == SIZE
    ensures Inv(s)
  {
    State(buf, 0, 0, false, Idle, [], [], [])
  }

  ghost function Run(s: State, events: seq<Event>): (r: State)
    requires Inv(s)
    ensures Inv(r)
    decreases |events|
  {
    if events == [] then s
    else
      StepInv(s, events[0]);
      Run(Step(s, events[0]), events[1..])
  }

  /** Keys the reader has taken but not yet returned. */
  function InHand(s: State): seq<char> {
    if s.pc.Moved? then [s.pc.key] else []
  }

  function KeyOf(e: Event): seq<char> {
    if e.Press? then [e.key] else []
  }

  function Pressed(events: seq<Event>): seq<char> {
    if events == [] then [] else KeyOf(events[0]) + Pressed(events[1..])
  }

  function Keys(presses: seq<Fate>): seq<char> {
    seq(|presses|, i requires 0 <= i < |presses| => presses[i].key)
  }

  lemma StepRecords(s: State, e: Event)
    requires InBounds(s)
    ensures Keys(Step(s, e).presses) == Keys(s.presses) + KeyOf(e)
  {
  }

  lemma {:induction false} EveryPressRecorded(s: State, events: seq<Event>)
    requires Inv(s)
    ensures Keys(Run(s, events).presses) == Keys(s.presses) + Pressed(events)
    decreases |events|
  {
    if events != [] {
      StepInv(s, events[0]);
      StepRecords(s, events[0]);
      EveryPressRecorded(Step(s, events[0]), events[1..]);
      Regroup(Keys(s.presses), KeyOf(events[0]), Pressed(events[1..]));
    }
  }

  /** From start-up, under every interleaving: what the reader returned, the key in its hand and
      the ring make up the accepted keys, in order, none lost and none twice; a press was turned
      away exactly when 127 keys were waiting; a read came back empty-handed only when nothing
      was pending when it looked; and the full flag is never seen set. */
  lemma KeysArriveInOrder(buf: seq<char>, events: seq<Event>)
    requires |buf| == SIZE
    ensures var s := Run(Start(buf), events);
            && s.Accepted() == s.returned + InHand(s) + Window(s.buf, s.tail, Waiting(s))
            && Keys(s.presses) == Pressed(events)
            && (forall i :: 0 <= i < |s.presses| ==> (s.presses[i].stored <==> s.presses[i].waiting < SIZE - 1))
            && (forall i :: 0 <= i < |s.misses| ==> s.misses[i] == 0)
            && !s.full
  {
    var s := Run(Start(buf), events);
    assert s.Accepted() == s.Accepted()[..Taken(s)] + s.Accepted()[Taken(s)..];
    assert s.Accepted()[..Taken(s)] == s.returned + InHand(s);
    EveryPressRecorded(Start(buf), events);
  }
}
