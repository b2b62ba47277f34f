/** Message queues between tasks, after kernel/ipc.c: rings of pointers into a heap that must
    behave like plain bounded mailboxes. */
module IpcModel {
  import opened Options
  import opened Words
  import opened Rings

  const MAX_TASKS := 256
  const CAPACITY := 32
  const MAX_SIZE := 256

  const SUCCESS := 0
  const INVALID := -1
  const NO_MEMORY := -2
  const QUEUE_FULL := -3
  const NO_MESSAGE := -4

  type Ptr = nat
  const NULL: Ptr := 0

  datatype RawMessage = Message(sender: int, kind: int, flags: int, size: int, data: seq<Byte>)

  type Message = m: RawMessage | 0 <= m.size <= MAX_SIZE && |m.data| == MAX_SIZE
    witness Message(0, 0, 0, 0, seq(MAX_SIZE, i => 0))

  datatype Queue = Queue(slots: seq<Ptr>, head: nat, tail: nat, count: nat)

  datatype Mail = Mail(queues: seq<Queue>, heap: map<Ptr, Message>)

  datatype Stats = Stats(sent: nat, received: nat, errors: nat, full: nat)

  datatype State = State(mail: Mail, stats: Stats)

  /** One call, made by task `me`.  `block` is the address `malloc` returns and `stale` what
      that block holds; a missing `data` or `out` is a NULL pointer. */
  datatype Op =
    | Send(me: nat, to: int, kind: int, data: Option<seq<Byte>>, size: int, flags: int,
           block: Ptr, stale: seq<Byte>)
    | Receive(me: nat, out: Option<Message>)
    | Peek(me: nat, out: Option<Message>)
    | Count(me: nat)
    | Flush(me: nat, task: int)
    | ResetStatistics

  /** What the caller sees: the result code and the filled message structure. */
  datatype Reply = Reply(code: int, got: Option<Message>)

  predicate BadSend(to: int, size: int) {
    to < 0 || to >= MAX_TASKS || size < 0 || size > MAX_SIZE
  }

  /** Only the first `size` bytes of the new block are written, and none without data. */
  function Build(me: nat, kind: int, data: Option<seq<Byte>>, size: int, flags: int, stale: seq<Byte>): Message
    requires 0 <= size <= MAX_SIZE && |stale| == MAX_SIZE
    requires data.Some? ==> size <= |data.value|
  {
    var bytes := if data.Some? && size > 0 then data.value[..size] + stale[size..] else stale;
    Message(me, kind, flags, size, bytes)
  }

  /** Copying a message out leaves the rest of the caller's buffer alone. */
  function Deliver(m: Message, out: Message): Message {
    m.(data := m.data[..m.size] + out.data[m.size..])
  }

  /** The task that a flush names: -1 stands for the caller. */
  function Flushed(me: nat, task: int): int {
    if task == -1 then me else task
  }

  // ----- One ring -----

  predicate Ring(q: Queue) {
    |q.slots| == CAPACITY && q.head < CAPACITY && q.count <= CAPACITY && q.tail == Slot(q.head, q.count, CAPACITY)
  }

  predicate Occupied(q: Queue, i: nat)
    requires Ring(q) && i < CAPACITY
  {
    (if q.head <= i then i - q.head else i + CAPACITY - q.head) < q.count
  }

  /** The occupied slots are exactly the ones that hold a pointer. */
  predicate NullOutside(q: Queue)
    requires Ring(q)
  {
    forall i :: 0 <= i < CAPACITY ==> (q.slots[i] != NULL <==> Occupied(q, i))
  }

  function Put(q: Queue, p: Ptr): Queue
    requires Ring(q)
  {
    Queue(q.slots[q.tail := p], q.head, Slot(q.tail, 1, CAPACITY), q.count + 1)
  }

  function Take(q: Queue): Queue
    requires Ring(q) && q.count > 0
  {
    Queue(q.slots[q.head := NULL], Slot(q.head, 1, CAPACITY), q.tail, q.count - 1)
  }

  lemma PutRing(q: Queue, p: Ptr)
    requires Ring(q) && NullOutside(q) && q.count < CAPACITY && p != NULL
    ensures Ring(Put(q, p)) && NullOutside(Put(q, p)) && q.slots[q.tail] == NULL
  {
    assert !Occupied(q, q.tail);
  }

  lemma TakeRing(q: Queue)
    requires Ring(q) && NullOutside(q) && q.count > 0
    ensures Ring(Take(q)) && NullOutside(Take(q)) && q.slots[q.head] != NULL
  {
    assert Occupied(q, q.head);
  }

  // ----- All rings and the heap -----

  predicate Shaped(s: Mail) {
    |s.queues| == MAX_TASKS && forall t :: 0 <= t < MAX_TASKS ==> Ring(s.queues[t]) && NullOutside(s.queues[t])
  }

  function At(s: Mail, t: nat, i: nat): Ptr
    requires Shaped(s) && t < MAX_TASKS && i < CAPACITY
  {
    s.queues[t].slots[i]
  }

  /** No message sits in two slots. */
  predicate Distinct(s: Mail)
    requires Shaped(s)
  {
    forall t, i, u, j ::
      (0 <= t < MAX_TASKS && 0 <= i < CAPACITY && 0 <= u < MAX_TASKS && 0 <= j < CAPACITY &&
       At(s, t, i) == At(s, u, j) && At(s, t, i) != NULL) ==> t == u && i == j
  }

  predicate Stored(s: Mail, p: Ptr)
    requires Shaped(s)
  {
    exists t, i :: 0 <= t < MAX_TASKS && 0 <= i < CAPACITY && At(s, t, i) == p
  }

  /** The allocated messages are exactly those in some slot. */
  ghost predicate Owned(s: Mail)
    requires Shaped(s)
  {
    NULL !in s.heap && forall p: Ptr :: p != NULL ==> (p in s.heap <==> Stored(s, p))
  }

  ghost predicate Inv(s: Mail) {
    Shaped(s) && Distinct(s) && Owned(s)
  }

  lemma HeapHas(s: Mail, t: nat, i: nat)
    requires Inv(s) && t < MAX_TASKS && i < CAPACITY && At(s, t, i) != NULL
    ensures At(s, t, i) in s.heap
  {
    assert Stored(s, At(s, t, i));
  }

  lemma QueueHas(s: Mail, t: nat, k: nat)
    requires Inv(s) && t < MAX_TASKS && k < s.queues[t].count
    ensures At(s, t, Slot(s.queues[t].head, k, CAPACITY)) in s.heap
  {
    var q := s.queues[t];
    assert Occupied(q, Slot(q.head, k, CAPACITY));
    HeapHas(s, t, Slot(q.head, k, CAPACITY));
  }

  /** Message `k` of a queue. */
  ghost function Item(s: Mail, t: nat, k: nat): Message
    requires Inv(s) && t < MAX_TASKS && k < s.queues[t].count
  {
    QueueHas(s, t, k);
    s.heap[At(s, t, Slot(s.queues[t].head, k, CAPACITY))]
  }

  /** A queue read as a sequence of messages, oldest first. */
  ghost function Pending(s: Mail, t: nat): (r: seq<Message>)
    requires Inv(s) && t < MAX_TASKS
    ensures |r| == s.queues[t].count
    ensures forall k :: 0 <= k < |r| ==> r[k] == Item(s, t, k)
  {
    seq(s.queues[t].count, k requires 0 <= k < s.queues[t].count => Item(s, t, k))
  }

  // ----- Adding a message -----

  function Enqueue(s: Mail, t: nat, p: Ptr, m: Message): Mail
    requires Shaped(s) && t < MAX_TASKS
  {
    s.(queues := s.queues[t := Put(s.queues[t], p)], heap := s.heap[p := m])
  }

  lemma EnqueueShaped(s: Mail, t: nat, p: Ptr, m: Message)
    requires Shaped(s) && t < MAX_TASKS && s.queues[t].count < CAPACITY && p != NULL
    ensures Shaped(Enqueue(s, t, p, m)) && At(s, t, s.queues[t].tail) == NULL
    ensures forall u, i :: 0 <= u < MAX_TASKS && 0 <= i < CAPACITY ==>
              At(Enqueue(s, t, p, m), u, i) == if u == t && i == s.queues[t].tail then p else At(s, u, i)
  {
    PutRing(s.queues[t], p);
  }

  lemma EnqueueStored(s: Mail, t: nat, p: Ptr, m: Message, x: Ptr)
    requires Shaped(s) && t < MAX_TASKS && s.queues[t].count < CAPACITY && p != NULL && x != NULL
    ensures Shaped(Enqueue(s, t, p, m)) && (Stored(Enqueue(s, t, p, m), x) <==> x == p || Stored(s, x))
  {
    EnqueueShaped(s, t, p, m);
    var s' := Enqueue(s, t, p, m);
    assert At(s', t, s.queues[t].tail) == p;
    if Stored(s, x) {
      var u, i :| 0 <= u < MAX_TASKS && 0 <= i < CAPACITY && At(s, u, i) == x;
      assert At(s', u, i) == x;
    }
    if Stored(s', x) {
      var u, i :| 0 <= u < MAX_TASKS && 0 <= i < CAPACITY && At(s', u, i) == x;
      assert x == p || At(s, u, i) == x;
    }
  }

  lemma EnqueueInv(s: Mail, t: nat, p: Ptr, m: Message)
    requires Inv(s) && t < MAX_TASKS && s.queues[t].count < CAPACITY && p != NULL && p !in s.heap
    ensures Inv(Enqueue(s, t, p, m))
  {
    EnqueueShaped(s, t, p, m);
    var s' := Enqueue(s, t, p, m);
    assert !Stored(s, p);
    forall x: Ptr | x != NULL
      ensures x in s'.heap <==> Stored(s', x)
    {
      EnqueueStored(s, t, p, m, x);
    }
  }

  lemma EnqueueItem(s: Mail, t: nat, p: Ptr, m: Message, u: nat, k: nat)
    requires Inv(s) && t < MAX_TASKS && s.queues[t].count < CAPACITY && p != NULL && p !in s.heap
    requires Inv(Enqueue(s, t, p, m)) && u < MAX_TASKS && k < s.queues[u].count
    ensures Item(Enqueue(s, t, p, m), u, k) == Item(s, u, k)
  {
    EnqueueShaped(s, t, p, m);
    QueueHas(s, u, k);
  }

  lemma EnqueuePending(s: Mail, t: nat, p: Ptr, m: Message, u: nat)
    requires Inv(s) && t < MAX_TASKS && s.queues[t].count < CAPACITY && p != NULL && p !in s.heap
    requires u < MAX_TASKS
    ensures Inv(Enqueue(s, t, p, m))
    ensures Pending(Enqueue(s, t, p, m), u) == if u == t then Pending(s, t) + [m] else Pending(s, u)
  {
    EnqueueInv(s, t, p, m);
    forall k | 0 <= k < s.queues[u].count
      ensures Item(Enqueue(s, t, p, m), u, k) == Item(s, u, k)
    {
      EnqueueItem(s, t, p, m, u, k);
    }
  }

  // ----- Removing the oldest message -----

  function Drop(s: Mail, t: nat): Mail
    requires Shaped(s) && t < MAX_TASKS && s.queues[t].count > 0
  {
    var q := s.queues[t];
    s.(queues := s.queues[t := Take(q)], heap := s.heap - {q.slots[q.head]})
  }

  lemma DropShaped(s: Mail, t: nat)
    requires Shaped(s) && t < MAX_TASKS && s.queues[t].count > 0
    ensures Shaped(Drop(s, t)) && At(s, t, s.queues[t].head) != NULL
    ensures forall u, i :: 0 <= u < MAX_TASKS && 0 <= i < CAPACITY ==>
              At(Drop(s, t), u, i) == if u == t && i == s.queues[t].head then NULL else At(s, u, i)
  {
    TakeRing(s.queues[t]);
  }

  lemma DropStored(s: Mail, t: nat, x: Ptr)
    requires Inv(s) && t < MAX_TASKS && s.queues[t].count > 0 && x != NULL
    ensures Shaped(Drop(s, t)) && (Stored(Drop(s, t), x) <==> Stored(s, x) && x != At(s, t, s.queues[t].head))
  {
    DropShaped(s, t);
    var s' := Drop(s, t);
    if Stored(s, x) && x != At(s, t, s.queues[t].head) {
      var u, i :| 0 <= u < MAX_TASKS && 0 <= i < CAPACITY && At(s, u, i) == x;
      assert At(s', u, i) == x;
    }
    if Stored(s', x) {
      var u, i :| 0 <= u < MAX_TASKS && 0 <= i < CAPACITY && At(s', u, i) == x;
      assert At(s, u, i) == x;
    }
  }

  lemma DropInv(s: Mail, t: nat)
    requires Inv(s) && t < MAX_TASKS && s.queues[t].count > 0
    ensures Inv(Drop(s, t))
  {
    DropShaped(s, t);
    var s' := Drop(s, t);
    forall x: Ptr | x != NULL
      ensures x in s'.heap <==> Stored(s', x)
    {
      DropStored(s, t, x);
    }
  }

  lemma DropItem(s: Mail, t: nat, u: nat, k: nat)
    requires Inv(s) && t < MAX_TASKS && s.queues[t].count > 0
    requires Inv(Drop(s, t)) && u < MAX_TASKS && k < Drop(s, t).queues[u].count
    ensures Item(Drop(s, t), u, k) == Item(s, u, if u == t then k + 1 else k)
  {
    DropShaped(s, t);
    QueueHas(Drop(s, t), u, k);
  }

  lemma DropPending(s: Mail, t: nat, u: nat)
    requires Inv(s) && t < MAX_TASKS && s.queues[t].count > 0 && u < MAX_TASKS
    ensures Inv(Drop(s, t))
    ensures Pending(Drop(s, t), u) == if u == t then Pending(s, t)[1..] else Pending(s, u)
  {
    DropInv(s, t);
    forall k | 0 <= k < Drop(s, t).queues[u].count
      ensures Item(Drop(s, t), u, k) == Item(s, u, if u == t then k + 1 else k)
    {
      DropItem(s, t, u, k);
    }
  }

  /** Removing the `n` oldest messages one by one. */
  ghost function DropMany(s: Mail, t: nat, n: nat): (r: Mail)
    requires Inv(s) && t < MAX_TASKS && n <= s.queues[t].count
    ensures Inv(r) && r.queues[t].count == s.queues[t].count - n
    ensures r.queues[t].head == Slot(s.queues[t].head, n, CAPACITY)
    decreases n
  {
    if n == 0 then s
    else
      var before := DropMany(s, t, n - 1);
      DropInv(before, t);
      Drop(before, t)
  }

  lemma {:induction false} DropManyPending(s: Mail, t: nat, n: nat, u: nat)
    requires Inv(s) && t < MAX_TASKS && n <= s.queues[t].count && u < MAX_TASKS
    ensures Pending(DropMany(s, t, n), u) == Rest(Pending(s, u), if u == t then n else 0)
    decreases n
  {
    if n > 0 {
      DropManyPending(s, t, n - 1, u);
      DropRest(DropMany(s, t, n - 1), t, u, Pending(s, u), if u == t then n else 0);
    }
  }

  function Rest(p: seq<Message>, n: nat): seq<Message>
    requires n <= |p|
  {
    p[n..]
  }

  lemma DropRest(mid: Mail, t: nat, u: nat, all: seq<Message>, n: nat)
    requires Inv(mid) && t < MAX_TASKS && mid.queues[t].count > 0 && u < MAX_TASKS
    requires n <= |all| && (u == t ==> n > 0) && Pending(mid, u) == Rest(all, if u == t then n - 1 else n)
    ensures Inv(Drop(mid, t)) && Pending(Drop(mid, t), u) == Rest(all, n)
  {
    DropPending(mid, t, u);
  }

  lemma {:induction false} DropManyFrame(s: Mail, t: nat, n: nat)
    requires Inv(s) && t < MAX_TASKS && n <= s.queues[t].count
    ensures var r := DropMany(s, t, n);
            r == s.(queues := s.queues[t := r.queues[t]], heap := r.heap)
    decreases n
  {
    if n > 0 {
      DropManyFrame(s, t, n - 1);
    }
  }

  /** An emptied queue starts again at slot 0. */
  function Restart(s: Mail, t: nat): Mail
    requires t < |s.queues|
  {
    s.(queues := s.queues[t := Queue(s.queues[t].slots, 0, 0, 0)])
  }

  lemma RestartInv(s: Mail, t: nat)
    requires Inv(s) && t < MAX_TASKS && s.queues[t].count == 0
    ensures Inv(Restart(s, t))
    ensures forall u :: 0 <= u < MAX_TASKS ==> Pending(Restart(s, t), u) == Pending(s, u)
  {
    var s' := Restart(s, t);
    assert Shaped(s') by {
      assert forall i :: 0 <= i < CAPACITY ==> !Occupied(s.queues[t], i);
    }
    assert forall u, i :: 0 <= u < MAX_TASKS && 0 <= i < CAPACITY ==> At(s', u, i) == At(s, u, i);
    forall x: Ptr | x != NULL
      ensures x in s'.heap <==> Stored(s', x)
    {
      SameSlotsSameStored(s, s', x);
    }
    forall u, k | 0 <= u < MAX_TASKS && 0 <= k < s.queues[u].count
      ensures Item(s', u, k) == Item(s, u, k)
    {
    }
  }

  lemma SameSlotsSameStored(s: Mail, s': Mail, x: Ptr)
    requires Shaped(s) && Shaped(s')
    requires forall u, i :: 0 <= u < MAX_TASKS && 0 <= i < CAPACITY ==> At(s', u, i) == At(s, u, i)
    ensures Stored(s', x) <==> Stored(s, x)
  {
  }

  // ----- Calls -----

  ghost function Empty(s: Mail, t: nat): (r: Mail)
    requires Inv(s) && t < MAX_TASKS
    ensures Inv(r)
  {
    var drained := DropMany(s, t, s.queues[t].count);
    RestartInv(drained, t);
    Restart(drained, t)
  }

  /** What the kernel asks of a call: data at least `size` long, a block that is not in use. */
  predicate Callable(s: State, op: Op) {
    match op
    case Send(me, to, kind, data, size, flags, block, stale) =>
      (block != NULL ==> block !in s.mail.heap) && |stale| == MAX_SIZE && (data.Some? ==> size <= |data.value|)
    case ResetStatistics => true
    case _ => op.me < MAX_TASKS
  }

  ghost function Apply(s: State, op: Op): (r: State)
    requires Inv(s.mail) && Callable(s, op)
    ensures Inv(r.mail)
  {
    match op
    case Send(me, to, kind, data, size, flags, block, stale) =>
      if BadSend(to, size) then s
      else if block == NULL then s.(stats := s.stats.(errors := Word32(s.stats.errors + 1)))
      else if s.mail.queues[to].count >= CAPACITY then s.(stats := s.stats.(full := Word32(s.stats.full + 1)))
      else
        var m := Build(me, kind, data, size, flags, stale);
        EnqueueInv(s.mail, to, block, m);
        State(Enqueue(s.mail, to, block, m), s.stats.(sent := Word32(s.stats.sent + 1)))
    case Receive(me, out) =>
      if out.None? || s.mail.queues[me].count == 0 then s
      else
        DropInv(s.mail, me);
        State(Drop(s.mail, me), s.stats.(received := Word32(s.stats.received + 1)))
    case Flush(me, task) =>
      var t := Flushed(me, task);
      if t < 0 || t >= MAX_TASKS then s else s.(mail := Empty(s.mail, t))
    case ResetStatistics => s.(stats := Stats(0, 0, 0, 0))
    case _ => s
  }

  ghost function Answer(s: State, op: Op): Reply
    requires Inv(s.mail) && Callable(s, op)
  {
    match op
    case Send(me, to, kind, data, size, flags, block, stale) =>
      Reply(if BadSend(to, size) then INVALID
            else if block == NULL then NO_MEMORY
            else if s.mail.queues[to].count >= CAPACITY then QUEUE_FULL
            else SUCCESS, None)
    case Receive(me, out) => Oldest(s.mail, me, out)
    case Peek(me, out) => Oldest(s.mail, me, out)
    case Count(me) => Reply(s.mail.queues[me].count, None)
    case Flush(me, task) =>
      var t := Flushed(me, task);
      Reply(if t < 0 || t >= MAX_TASKS then INVALID else s.mail.queues[t].count, None)
    case ResetStatistics => Reply(SUCCESS, None)
  }

  /** What a receive or a peek hands over. */
  ghost function Oldest(s: Mail, t: nat, out: Option<Message>): Reply
    requires Inv(s) && t < MAX_TASKS
  {
    if out.None? then Reply(INVALID, None)
    else if s.queues[t].count == 0 then Reply(NO_MESSAGE, None)
    else Reply(SUCCESS, Some(Deliver(Item(s, t, 0), out.value)))
  }
}

/** Bounded mailboxes, and the proof that the rings and the heap behave like them. */
module IpcRefinement {
  import opened Options
  import opened Words
  import opened IpcModel

  /** One queue of messages per task, and how many messages went each way since the statistics
      were last reset; `carried` is how many were waiting then. */
  datatype Boxes = Boxes(boxes: seq<seq<Message>>, sent: nat, received: nat, flushed: nat, carried: nat,
                         errors: nat, full: nat)

  predicate Fit(a: Boxes) {
    |a.boxes| == MAX_TASKS && forall t :: 0 <= t < MAX_TASKS ==> |a.boxes[t]| <= CAPACITY
  }

  predicate Acceptable(op: Op) {
    match op
    case Send(me, to, kind, data, size, flags, block, stale) =>
      |stale| == MAX_SIZE && (data.Some? ==> size <= |data.value|)
    case ResetStatistics => true
    case _ => op.me < MAX_TASKS
  }

  function Step(a: Boxes, op: Op): (r: Boxes)
    requires Fit(a) && Acceptable(op)
    ensures Fit(r)
  {
    match op
    case Send(me, to, kind, data, size, flags, block, stale) =>
      if BadSend(to, size) then a
      else if block == NULL then a.(errors := a.errors + 1)
      else if |a.boxes[to]| == CAPACITY then a.(full := a.full + 1)
      else a.(boxes := a.boxes[to := a.boxes[to] + [Build(me, kind, data, size, flags, stale)]], sent := a.sent + 1)
    case Receive(me, out) =>
      if out.None? || a.boxes[me] == [] then a
      else a.(boxes := a.boxes[me := a.boxes[me][1..]], received := a.received + 1)
    case Flush(me, task) =>
      var t := Flushed(me, task);
      if t < 0 || t >= MAX_TASKS then a
      else a.(boxes := a.boxes[t := []], flushed := a.flushed + |a.boxes[t]|)
    case ResetStatistics => Boxes(a.boxes, 0, 0, 0, Total(a.boxes), 0, 0)
    case _ => a
  }

  function Says(a: Boxes, op: Op): Reply
    requires Fit(a) && Acceptable(op)
  {
    match op
    case Send(me, to, kind, data, size, flags, block, stale) =>
      Reply(if BadSend(to, size) then INVALID
            else if block == NULL then NO_MEMORY
            else if |a.boxes[to]| == CAPACITY then QUEUE_FULL
            else SUCCESS, None)
    case Receive(me, out) => First(a.boxes[me], out)
    case Peek(me, out) => First(a.boxes[me], out)
    case Count(me) => Reply(|a.boxes[me]|, None)
    case Flush(me, task) =>
      var t := Flushed(me, task);
      Reply(if t < 0 || t >= MAX_TASKS then INVALID else |a.boxes[t]|, None)
    case ResetStatistics => Reply(SUCCESS, None)
  }

  function First(box: seq<Message>, out: Option<Message>): Reply {
    if out.None? then Reply(INVALID, None)
    else if box == [] then Reply(NO_MESSAGE, None)
    else Reply(SUCCESS, Some(Deliver(box[0], out.value)))
  }

  function Total(boxes: seq<seq<Message>>): nat {
    if boxes == [] then 0 else Total(boxes[..|boxes| - 1]) + |boxes[|boxes| - 1]|
  }

  // ----- Refinement -----

  ghost predicate Matches(s: State, a: Boxes) {
    && Inv(s.mail) && Fit(a)
    && (forall t :: 0 <= t < MAX_TASKS ==> a.boxes[t] == Pending(s.mail, t))
    && s.stats == Stats(Word32(a.sent), Word32(a.received), Word32(a.errors), Word32(a.full))
  }

  lemma EmptyPending(s: Mail, t: nat, u: nat)
    requires Inv(s) && t < MAX_TASKS && u < MAX_TASKS
    ensures Pending(Empty(s, t), u) == if u == t then [] else Pending(s, u)
  {
    var n := s.queues[t].count;
    DropManyPending(s, t, n, u);
    RestartInv(DropMany(s, t, n), t);
  }

  lemma SendMatches(s: State, a: Boxes, op: Op)
    requires Matches(s, a) && op.Send? && Callable(s, op)
    ensures Matches(Apply(s, op), Step(a, op))
  {
    Word32Next(a.sent);
    Word32Next(a.errors);
    Word32Next(a.full);
    var Send(me, to, kind, data, size, flags, block, stale) := op;
    if !BadSend(to, size) && block != NULL && s.mail.queues[to].count < CAPACITY {
      var m := Build(me, kind, data, size, flags, stale);
      EnqueueInv(s.mail, to, block, m);
      forall u | 0 <= u < MAX_TASKS
        ensures Step(a, op).boxes[u] == Pending(Enqueue(s.mail, to, block, m), u)
      {
        EnqueuePending(s.mail, to, block, m, u);
      }
    }
  }

  lemma ReceiveMatches(s: State, a: Boxes, op: Op)
    requires Matches(s, a) && op.Receive? && Callable(s, op)
    ensures Matches(Apply(s, op), Step(a, op))
  {
    Word32Next(a.received);
    if op.out.Some? && s.mail.queues[op.me].count > 0 {
      DropInv(s.mail, op.me);
      forall u | 0 <= u < MAX_TASKS
        ensures Step(a, op).boxes[u] == Pending(Drop(s.mail, op.me), u)
      {
        DropPending(s.mail, op.me, u);
      }
    }
  }

  lemma FlushMatches(s: State, a: Boxes, op: Op)
    requires Matches(s, a) && op.Flush? && Callable(s, op)
    ensures Matches(Apply(s, op), Step(a, op))
  {
    var t := Flushed(op.me, op.task);
    if 0 <= t < MAX_TASKS {
      forall u | 0 <= u < MAX_TASKS
        ensures Step(a, op).boxes[u] == Pending(Empty(s.mail, t), u)
      {
        EmptyPending(s.mail, t, u);
      }
    }
  }

  /** Every call keeps the correspondence and answers as the mailboxes do. */
  lemma CallRefines(s: State, a: Boxes, op: Op)
    requires Matches(s, a) && Callable(s, op)
    ensures Matches(Apply(s, op), Step(a, op))
    ensures Answer(s, op) == Says(a, op)
  {
    match op
    case Send(_, _, _, _, _, _, _, _) => SendMatches(s, a, op);
    case Receive(_, _) => ReceiveMatches(s, a, op);
    case Flush(_, _) => FlushMatches(s, a, op);
    case _ =>
  }

  // ----- Runs -----

  /** A run in which `malloc` never returns a block that is in use. */
  ghost predicate Legal(s: State, ops: seq<Op>)
    requires Inv(s.mail)
    decreases |ops|
  {
    ops == [] || (Callable(s, ops[0]) && Legal(Apply(s, ops[0]), ops[1..]))
  }

  ghost function Run(s: State, ops: seq<Op>): (r: State)
    requires Inv(s.mail) && Legal(s, ops)
    ensures Inv(r.mail)
    decreases |ops|
  {
    if ops == [] then s else Run(Apply(s, ops[0]), ops[1..])
  }

  ghost function Answers(s: State, ops: seq<Op>): seq<Reply>
    requires Inv(s.mail) && Legal(s, ops)
    decreases |ops|
  {
    if ops == [] then [] else [Answer(s, ops[0])] + Answers(Apply(s, ops[0]), ops[1..])
  }

  function RunBoxes(a: Boxes, ops: seq<Op>): (r: Boxes)
    requires Fit(a) && forall i :: 0 <= i < |ops| ==> Acceptable(ops[i])
    ensures Fit(r)
    decreases |ops|
  {
    if ops == [] then a else RunBoxes(Step(a, ops[0]), ops[1..])
  }

  function SaysAll(a: Boxes, ops: seq<Op>): seq<Reply>
    requires Fit(a) && forall i :: 0 <= i < |ops| ==> Acceptable(ops[i])
    decreases |ops|
  {
    if ops == [] then [] else [Says(a, ops[0])] + SaysAll(Step(a, ops[0]), ops[1..])
  }

  lemma {:induction false} LegalIsAcceptable(s: State, ops: seq<Op>)
    requires Inv(s.mail) && Legal(s, ops)
    ensures forall i :: 0 <= i < |ops| ==> Acceptable(ops[i])
    decreases |ops|
  {
    if ops != [] {
      LegalIsAcceptable(Apply(s, ops[0]), ops[1..]);
      assert forall i :: 1 <= i < |ops| ==> ops[i] == ops[1..][i - 1];
    }
  }

  lemma {:induction false} RunMatches(s: State, a: Boxes, ops: seq<Op>)
    requires Matches(s, a) && Legal(s, ops)
    requires forall i :: 0 <= i < |ops| ==> Acceptable(ops[i])
    ensures Matches(Run(s, ops), RunBoxes(a, ops))
    ensures Answers(s, ops) == SaysAll(a, ops)
    decreases |ops|
  {
    if ops != [] {
      CallRefines(s, a, ops[0]);
      RunMatches(Apply(s, ops[0]), Step(a, ops[0]), ops[1..]);
    }
  }

  function Start(): (s: State)
    ensures Inv(s.mail)
  {
    var mail := Mail(seq(MAX_TASKS, t => Queue(seq(CAPACITY, i => NULL), 0, 0, 0)), map[]);
    NothingStored(mail);
    State(mail, Stats(0, 0, 0, 0))
  }

  lemma NothingStored(m: Mail)
    requires |m.queues| == MAX_TASKS && m.heap == map[]
    requires forall t :: 0 <= t < MAX_TASKS ==> m.queues[t] == Queue(seq(CAPACITY, i => NULL), 0, 0, 0)
    ensures Inv(m)
  {
    assert Shaped(m);
    assert forall t, i :: 0 <= t < MAX_TASKS && 0 <= i < CAPACITY ==> At(m, t, i) == NULL;
  }

  function NoMail(n: nat): (r: seq<seq<Message>>)
    ensures |r| == n && forall t :: 0 <= t < n ==> r[t] == []
  {
    seq(n, t => [])
  }

  function EmptyBoxes(): (a: Boxes)
    ensures Fit(a)
  {
    Boxes(NoMail(MAX_TASKS), 0, 0, 0, 0, 0, 0)
  }

  lemma StartMatches()
    ensures Matches(Start(), EmptyBoxes())
  {
  }

  // ----- Conservation -----

  lemma {:induction false} TotalUpdate(boxes: seq<seq<Message>>, t: nat, box: seq<Message>)
    requires t < |boxes|
    ensures Total(boxes[t := box]) == Total(boxes) - |boxes[t]| + |box|
  {
    var n := |boxes| - 1;
    if t == n {
      assert boxes[t := box][..n] == boxes[..n];
    } else {
      assert boxes[t := box][..n] == boxes[..n][t := box];
      TotalUpdate(boxes[..n], t, box);
    }
  }

  predicate Conserved(a: Boxes) {
    a.sent + a.carried == a.received + a.flushed + Total(a.boxes)
  }

  lemma StepConserves(a: Boxes, op: Op)
    requires Fit(a) && Acceptable(op) && Conserved(a)
    ensures Conserved(Step(a, op))
  {
    match op
    case Send(me, to, kind, data, size, flags, block, stale) =>
      if !BadSend(to, size) && block != NULL && |a.boxes[to]| < CAPACITY {
        TotalUpdate(a.boxes, to, a.boxes[to] + [Build(me, kind, data, size, flags, stale)]);
      }
    case Receive(me, out) =>
      if a.boxes[me] != [] {
        TotalUpdate(a.boxes, me, a.boxes[me][1..]);
      }
    case Flush(me, task) =>
      var t := Flushed(me, task);
      if 0 <= t < MAX_TASKS {
        TotalUpdate(a.boxes, t, []);
      }
    case _ =>
  }

  lemma {:induction false} RunConserves(a: Boxes, ops: seq<Op>)
    requires Fit(a) && Conserved(a) && forall i :: 0 <= i < |ops| ==> Acceptable(ops[i])
    ensures Conserved(RunBoxes(a, ops))
    decreases |ops|
  {
    if ops != [] {
      StepConserves(a, ops[0]);
      RunConserves(Step(a, ops[0]), ops[1..]);
    }
  }

  lemma {:induction false} TotalEmpty(n: nat)
    ensures Total(NoMail(n)) == 0
  {
    if n > 0 {
      assert NoMail(n)[..n - 1] == NoMail(n - 1);
      TotalEmpty(n - 1);
    }
  }

  /** From start-up, every run of calls answers exactly as 256 bounded first-in-first-out
      mailboxes do; the heap holds exactly the messages in the rings, each in one slot; and the
      counters, modulo their 32 bits, account for every message. */
  lemma EveryRunIsMailboxes(ops: seq<Op>)
    requires Legal(Start(), ops)
    ensures forall i :: 0 <= i < |ops| ==> Acceptable(ops[i])
    ensures Answers(Start(), ops) == SaysAll(EmptyBoxes(), ops)
    ensures var s, a := Run(Start(), ops), RunBoxes(EmptyBoxes(), ops);
            Matches(s, a) && a.sent + a.carried == a.received + a.flushed + Total(a.boxes)
  {
    StartMatches();
    MatchedRun(Start(), EmptyBoxes(), ops);
    TotalEmpty(MAX_TASKS);
    RunConserves(EmptyBoxes(), ops);
    ConservedIs(RunBoxes(EmptyBoxes(), ops));
  }

  lemma MatchedRun(s: State, a: Boxes, ops: seq<Op>)
    requires Matches(s, a) && Legal(s, ops)
    ensures forall i :: 0 <= i < |ops| ==> Acceptable(ops[i])
    ensures Answers(s, ops) == SaysAll(a, ops) && Matches(Run(s, ops), RunBoxes(a, ops))
  {
    LegalIsAcceptable(s, ops);
    RunMatches(s, a, ops);
  }

  lemma ConservedIs(a: Boxes)
    requires Conserved(a)
    ensures a.sent + a.carried == a.received + a.flushed + Total(a.boxes)
  {
  }

  // ----- Delivery -----

  /** How many calls of `ops` take a message out of `t`'s box. */
  function ReceivesBy(ops: seq<Op>, t: nat): nat {
    if ops == [] then 0
    else (if ops[0].Receive? && ops[0].me == t && ops[0].out.Some? then 1 else 0) + ReceivesBy(ops[1..], t)
  }

  predicate NeverFlushed(ops: seq<Op>, t: nat) {
    forall i :: 0 <= i < |ops| && ops[i].Flush? ==> Flushed(ops[i].me, ops[i].task) != t
  }

  /** One call moves a message up by one place if it is a receive of its box, and else not. */
  lemma KeepsPlace(a: Boxes, op: Op, t: nat, k: nat)
    requires Fit(a) && Acceptable(op) && t < MAX_TASKS && k < |a.boxes[t]| && NeverFlushed([op], t)
    requires ReceivesBy([op], t) <= k
    ensures var j, box := k - ReceivesBy([op], t), Step(a, op).boxes[t];
            j < |box| && box[j] == a.boxes[t][k]
  {
    assert [op][0] == op && [op][1..] == [];
  }

  lemma {:induction false} KeepsTurn(a: Boxes, ops: seq<Op>, t: nat, k: nat)
    requires Fit(a) && (forall i :: 0 <= i < |ops| ==> Acceptable(ops[i])) && t < MAX_TASKS && k < |a.boxes[t]|
    requires NeverFlushed(ops, t) && ReceivesBy(ops, t) <= k
    ensures var j, box := k - ReceivesBy(ops, t), RunBoxes(a, ops).boxes[t];
            j < |box| && box[j] == a.boxes[t][k]
    decreases |ops|
  {
    if ops != [] {
      assert [ops[0]][1..] == [];
      assert ReceivesBy(ops, t) == ReceivesBy([ops[0]], t) + ReceivesBy(ops[1..], t);
      KeepsPlace(a, ops[0], t, k);
      KeepsTurn(Step(a, ops[0]), ops[1..], t, k - ReceivesBy([ops[0]], t));
    }
  }

  /** The bytes that a message is sent with; without data, what the new block held. */
  function Payload(op: Op): seq<Byte>
    requires op.Send? && Acceptable(op) && !BadSend(op.to, op.size)
  {
    if op.data.Some? then op.data.value[..op.size] else op.stale[..op.size]
  }

  lemma DeliveredPayload(op: Op, out: Message)
    requires op.Send? && Acceptable(op) && !BadSend(op.to, op.size)
    ensures Deliver(Build(op.me, op.kind, op.data, op.size, op.flags, op.stale), out) ==
            Message(op.me, op.kind, op.flags, op.size, Payload(op) + out.data[op.size..])
  {
    var m := Build(op.me, op.kind, op.data, op.size, op.flags, op.stale);
    assert m.data[..op.size] == Payload(op);
  }

  predicate Accepted(a: Boxes, op: Op)
    requires Fit(a)
  {
    op.Send? && Acceptable(op) && !BadSend(op.to, op.size) && op.block != NULL && |a.boxes[op.to]| < CAPACITY
  }

  /** What the receiver of a message sees. */
  function Received(op: Op, out: Message): Reply
    requires op.Send? && Acceptable(op) && !BadSend(op.to, op.size)
  {
    Reply(SUCCESS, Some(Message(op.me, op.kind, op.flags, op.size, Payload(op) + out.data[op.size..])))
  }

  lemma BoxesDeliver(a: Boxes, op: Op, after: seq<Op>, out: Message)
    requires Fit(a) && Accepted(a, op) && forall i :: 0 <= i < |after| ==> Acceptable(after[i])
    requires NeverFlushed(after, op.to) && ReceivesBy(after, op.to) == |a.boxes[op.to]|
    ensures Says(RunBoxes(Step(a, op), after), Receive(op.to, Some(out))) == Received(op, out)
  {
    KeepsTurn(Step(a, op), after, op.to, |a.boxes[op.to]|);
    DeliveredPayload(op, out);
  }

  lemma QueuesDeliver(s: State, a: Boxes, op: Op, after: seq<Op>, out: Message)
    requires Matches(s, a) && op.Send? && Callable(s, op) && Answer(s, op).code == SUCCESS
    requires Legal(Apply(s, op), after) && NeverFlushed(after, op.to)
    requires ReceivesBy(after, op.to) == s.mail.queues[op.to].count
    ensures Acceptable(op) && !BadSend(op.to, op.size)
    ensures Answer(Run(Apply(s, op), after), Receive(op.to, Some(out))) == Received(op, out)
  {
    CallRefines(s, a, op);
    LegalIsAcceptable(Apply(s, op), after);
    RunMatches(Apply(s, op), Step(a, op), after);
    BoxesDeliver(a, op, after, out);
    CallRefines(Run(Apply(s, op), after), RunBoxes(Step(a, op), after), Receive(op.to, Some(out)));
  }

  /** An accepted message is delivered in its turn with the bytes it was sent with, whatever calls
      others make meanwhile: once its receiver has received as often as there were messages
      before it, and unless its queue is flushed, the next receive hands over its header and its
      `size` bytes, and leaves the rest of the caller's buffer. */
  lemma SentArrives(before: seq<Op>, op: Op, after: seq<Op>, out: Message)
    requires Legal(Start(), before) && op.Send? && Callable(Run(Start(), before), op)
    requires Answer(Run(Start(), before), op).code == SUCCESS
    requires Legal(Apply(Run(Start(), before), op), after) && NeverFlushed(after, op.to)
    requires ReceivesBy(after, op.to) == Run(Start(), before).mail.queues[op.to].count
    ensures Acceptable(op) && !BadSend(op.to, op.size)
    ensures Answer(Run(Apply(Run(Start(), before), op), after), Receive(op.to, Some(out))) == Received(op, out)
  {
    EveryRunIsMailboxes(before);
    QueuesDeliver(Run(Start(), before), RunBoxes(EmptyBoxes(), before), op, after, out);
  }
}

/** The calls themselves. */
module Ipc {
  import opened Options
  import opened Words
  import opened Rings
  import opened IpcModel
  import IpcRefinement

  class MessageQueues {
    var queues: seq<Queue>
    var heap: map<Ptr, Message>
    var stats: Stats

    ghost function View(): State
      reads this
    {
      State(Mail(queues, heap), stats)
    }

    ghost predicate Valid()
      reads this
    {
      Inv(Mail(queues, heap))
    }

    /** `ipc_init` on the zeroed queues of a fresh kernel. */
    constructor ()
      ensures Valid() && View() == IpcRefinement.Start()
    {
      queues := seq(MAX_TASKS, t => Queue(seq(CAPACITY, i => NULL), 0, 0, 0));
      heap := map[];
      stats := Stats(0, 0, 0, 0);
      new;
      IpcRefinement.NothingStored(Mail(queues, heap));
    }

    method Send(me: nat, to: int, kind: int, data: Option<seq<Byte>>, size: int, flags: int,
                block: Ptr, stale: seq<Byte>) returns (code: int)
      requires Valid() && Callable(View(), Op.Send(me, to, kind, data, size, flags, block, stale))
      modifies this
      ensures Valid()
      ensures View() == Apply(old(View()), Op.Send(me, to, kind, data, size, flags, block, stale))
      ensures Reply(code, None) == Answer(old(View()), Op.Send(me, to, kind, data, size, flags, block, stale))
    {
      if to < 0 || to >= MAX_TASKS || size < 0 || size > MAX_SIZE {
        return INVALID;
      }
      if block == NULL {
        stats := stats.(errors := Word32(stats.errors + 1));
        return NO_MEMORY;
      }
      var m := Build(me, kind, data, size, flags, stale);
      if queues[to].count >= CAPACITY {
        stats := stats.(full := Word32(stats.full + 1));
        return QUEUE_FULL;
      }
      Post(to, block, m);
      stats := stats.(sent := Word32(stats.sent + 1));
      return SUCCESS;
    }

    method Post(to: nat, block: Ptr, m: Message)
      requires Valid() && to < MAX_TASKS && queues[to].count < CAPACITY && block != NULL && block !in heap
      modifies this`queues, this`heap
      ensures Valid() && Mail(queues, heap) == Enqueue(Mail(old(queues), old(heap)), to, block, m)
    {
      EnqueueInv(Mail(queues, heap), to, block, m);
      heap := heap[block := m];
      var tail := queues[to].tail;
      Write(to, tail, block);
      queues := queues[to := queues[to].(tail := Slot(tail, 1, CAPACITY))];
      queues := queues[to := queues[to].(count := queues[to].count + 1)];
      assert queues == old(queues)[to := Put(old(queues[to]), block)];
    }

    method Write(t: nat, index: nat, p: Ptr)
      requires t < |queues| && index < |queues[t].slots|
      modifies this`queues
      ensures queues == old(queues)[t := old(queues[t]).(slots := old(queues[t].slots)[index := p])]
    {
      queues := queues[t := queues[t].(slots := queues[t].slots[index := p])];
    }

    /** `ipc_receive_message` with the no-wait flag. */
    method Receive(me: nat, out: Option<Message>) returns (r: Reply)
      requires Valid() && me < MAX_TASKS
      modifies this
      ensures Valid()
      ensures View() == Apply(old(View()), Op.Receive(me, out)) && r == Answer(old(View()), Op.Receive(me, out))
    {
      r := Peek(me, out);
      if r.code != SUCCESS {
        return;
      }
      RemoveHead(me);
      stats := stats.(received := Word32(stats.received + 1));
    }

    method RemoveHead(me: nat)
      requires Valid() && me < MAX_TASKS && queues[me].count > 0
      modifies this`queues, this`heap
      ensures Valid() && Mail(queues, heap) == Drop(Mail(old(queues), old(heap)), me)
    {
      DropInv(Mail(queues, heap), me);
      var head := queues[me].head;
      var taken := queues[me].slots[head];
      Write(me, head, NULL);
      queues := queues[me := queues[me].(head := Slot(head, 1, CAPACITY))];
      queues := queues[me := queues[me].(count := queues[me].count - 1)];
      heap := heap - {taken};
      assert queues == old(queues)[me := Take(old(queues[me]))];
    }

    method Peek(me: nat, out: Option<Message>) returns (r: Reply)
      requires Valid() && me < MAX_TASKS
      ensures r == Answer(View(), Op.Peek(me, out))
      ensures r == IpcRefinement.First(Pending(View().mail, me), out)
    {
      if out.None? {
        return Reply(INVALID, None);
      }
      if queues[me].count == 0 {
        return Reply(NO_MESSAGE, None);
      }
      QueueHas(Mail(queues, heap), me, 0);
      var next := queues[me].slots[queues[me].head];
      return Reply(SUCCESS, Some(Deliver(heap[next], out.value)));
    }

    method Flush(me: nat, task: int) returns (code: int)
      requires Valid() && me < MAX_TASKS
      modifies this`queues, this`heap
      ensures Valid()
      ensures View() == Apply(old(View()), Op.Flush(me, task))
      ensures Reply(code, None) == Answer(old(View()), Op.Flush(me, task))
    {
      var t := if task == -1 then me else task;
      if t < 0 || t >= MAX_TASKS {
        return INVALID;
      }
      code := FreeAll(t);
      ghost var drained := DropMany(Mail(old(queues), old(heap)), t, code);
      DropManyFrame(Mail(old(queues), old(heap)), t, code);
      RestartInv(drained, t);
      queues := queues[t := Queue(queues[t].slots, 0, 0, 0)];
      assert queues == drained.queues[t := Queue(drained.queues[t].slots, 0, 0, 0)];
    }

    /** The first `i` messages of queue `t` have been freed, its indices not yet touched. */
    ghost predicate Freed(was: Mail, t: nat, i: nat)
      requires Inv(was) && t < MAX_TASKS && i <= was.queues[t].count
      reads this
    {
      queues == was.queues[t := was.queues[t].(slots := DropMany(was, t, i).queues[t].slots)] &&
      heap == DropMany(was, t, i).heap
    }

    /** The loop of `ipc_flush_messages`, which leaves the indices for its caller to reset. */
    method FreeAll(t: nat) returns (flushed: nat)
      requires Valid() && t < MAX_TASKS
      modifies this`queues, this`heap
      ensures flushed == old(queues[t].count) && Freed(Mail(old(queues), old(heap)), t, flushed)
    {
      flushed := 0;
      ghost var was := Mail(queues, heap);
      assert queues == queues[t := queues[t].(slots := queues[t].slots)];
      var i: nat := 0;
      while i < queues[t].count
        invariant i <= was.queues[t].count && flushed == i
        invariant Freed(was, t, i)
      {
        var freed := FreeOne(t, i, was);
        if freed {
          flushed := flushed + 1;
        }
        i := i + 1;
      }
    }

    method FreeOne(t: nat, i: nat, ghost was: Mail) returns (freed: bool)
      requires Inv(was) && t < MAX_TASKS && i < was.queues[t].count && Freed(was, t, i)
      modifies this`queues, this`heap
      ensures freed && Freed(was, t, i + 1)
    {
      ghost var d := DropMany(was, t, i);
      TakeRing(d.queues[t]);
      assert DropMany(was, t, i + 1) == Drop(d, t);
      var index := Slot(queues[t].head, i, CAPACITY);
      assert index == d.queues[t].head && queues[t].slots == d.queues[t].slots;
      freed := queues[t].slots[index] != NULL;
      if freed {
        heap := heap - {queues[t].slots[index]};
        Write(t, index, NULL);
      }
    }

    method ResetStatistics()
      requires Valid()
      modifies this`stats
      ensures View() == Apply(old(View()), Op.ResetStatistics)
    {
      stats := Stats(0, 0, 0, 0);
    }
  }
}
