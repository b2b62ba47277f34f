/** The enhanced interrupt handler table of kernel/irq.c: four slots per vector, kept in
    priority order by shifting in place.  It acts as an online selection of the four most
    urgent registrations. */
module IrqTable {
  import opened Sequences

  const SLOTS := 4
  const PRIORITIES := 16
  const NULL := 0

  datatype Entry = Entry(handler: nat, priority: nat, context: nat, flags: nat, name: nat)

  datatype Result = Handled | Unhandled | Pass | Error

  const EMPTY := Entry(NULL, 0, 0, 0, 0)

  type Slots = s: seq<Entry> | |s| == SLOTS witness [EMPTY, EMPTY, EMPTY, EMPTY]

  // ----- The table on values -----

  /** The first slot that is empty or holds a less urgent handler. */
  function FirstFit(s: seq<Entry>, priority: nat): (i: nat)
    ensures i <= |s|
    ensures forall k :: 0 <= k < i ==> s[k].handler != NULL && s[k].priority <= priority
    ensures i < |s| ==> s[i].handler == NULL || s[i].priority > priority
  {
    if s == [] || s[0].handler == NULL || s[0].priority > priority then 0
    else 1 + FirstFit(s[1..], priority)
  }

  function Registered(s: Slots, e: Entry): Slots {
    var i := FirstFit(s, e.priority);
    if e.priority >= PRIORITIES || i == SLOTS then s
    else if s[i].handler == NULL then s[i := e]
    else s[..i] + [e] + s[i..SLOTS - 1]
  }

  predicate Accepts(s: Slots, e: Entry) {
    e.priority < PRIORITIES && FirstFit(s, e.priority) < SLOTS
  }

  /** The first slot with this handler; looking for NULL finds an empty slot. */
  function Find(s: seq<Entry>, handler: nat): (i: nat)
    ensures i <= |s|
    ensures forall k :: 0 <= k < i ==> s[k].handler != handler
    ensures i < |s| ==> s[i].handler == handler
  {
    if s == [] || s[0].handler == handler then 0 else 1 + Find(s[1..], handler)
  }

  function Unregistered(s: Slots, handler: nat): Slots {
    var i := Find(s, handler);
    if i == SLOTS then s else s[..i] + s[i + 1..] + [EMPTY]
  }

  /** The registered handlers in slot order. */
  function Entries(s: seq<Entry>): (r: seq<Entry>)
    ensures |r| <= |s|
  {
    if s == [] then []
    else (if s[0].handler != NULL then [s[0]] else []) + Entries(s[1..])
  }

  /** No empty slot precedes a used one. */
  predicate GapFree(s: seq<Entry>) {
    forall i, j :: 0 <= i < j < |s| && s[i].handler == NULL ==> s[j].handler == NULL
  }

  predicate Ordered(l: seq<Entry>) {
    forall i, j :: 0 <= i < j < |l| ==> l[i].priority <= l[j].priority
  }

  // ----- Stable sorting by priority -----

  /** Insertion after every entry that is at least as urgent. */
  function Insert(l: seq<Entry>, e: Entry): (r: seq<Entry>)
    ensures |r| == |l| + 1
  {
    if l == [] || l[0].priority > e.priority then [e] + l else [l[0]] + Insert(l[1..], e)
  }

  /** The whole history in priority order, equal priorities in order of registration. */
  function Sort(h: seq<Entry>): (r: seq<Entry>)
    ensures |r| == |h|
  {
    if h == [] then [] else Insert(Sort(h[..|h| - 1]), h[|h| - 1])
  }

  function AtPriority(l: seq<Entry>, p: nat): seq<Entry> {
    if l == [] then [] else Only(l[0], p) + AtPriority(l[1..], p)
  }

  function Only(e: Entry, p: nat): seq<Entry> {
    if e.priority == p then [e] else []
  }

  /** `l` is the stable sort of `h`: in order, and the same at every priority. */
  ghost predicate StableSortOf(l: seq<Entry>, h: seq<Entry>) {
    Ordered(l) && forall p: nat :: AtPriority(l, p) == AtPriority(h, p)
  }

  lemma {:induction false} InsertMembers(l: seq<Entry>, e: Entry, x: Entry)
    requires x in Insert(l, e)
    ensures x == e || x in l
  {
    if l != [] && l[0].priority <= e.priority && x != l[0] {
      InsertMembers(l[1..], e, x);
    }
  }

  lemma {:induction false} AtPriorityMembers(l: seq<Entry>, p: nat, x: Entry)
    ensures x in AtPriority(l, p) <==> x in l && x.priority == p
  {
    if l != [] {
      AtPriorityMembers(l[1..], p, x);
    }
  }

  lemma {:induction false} InsertOrdered(l: seq<Entry>, e: Entry)
    requires Ordered(l)
    ensures Ordered(Insert(l, e))
  {
    if l != [] && l[0].priority <= e.priority {
      InsertOrdered(l[1..], e);
      var r := Insert(l[1..], e);
      forall j | 0 <= j < |r|
        ensures l[0].priority <= r[j].priority
      {
        InsertMembers(l[1..], e, r[j]);
      }
    }
  }

  lemma {:induction false} AtPriorityAppend(a: seq<Entry>, b: seq<Entry>, p: nat)
    ensures AtPriority(a + b, p) == AtPriority(a, p) + AtPriority(b, p)
  {
    if a == [] {
      assert a + b == b;
    } else {
      AtPriorityAppend(a[1..], b, p);
      assert (a + b)[0] == a[0] && (a + b)[1..] == a[1..] + b;
      Regroup(Only(a[0], p), AtPriority(a[1..], p), AtPriority(b, p));
    }
  }

  lemma {:induction false} AtPriorityOfOthers(l: seq<Entry>, p: nat)
    requires forall x :: x in l ==> x.priority != p
    ensures AtPriority(l, p) == []
  {
    if l != [] {
      AtPriorityOfOthers(l[1..], p);
    }
  }

  lemma AheadStable(l: seq<Entry>, e: Entry, p: nat)
    requires forall x :: x in l ==> x.priority > e.priority
    ensures AtPriority([e] + l, p) == AtPriority(l, p) + AtPriority([e], p)
  {
    AtPriorityAppend([e], l, p);
    if p == e.priority {
      AtPriorityOfOthers(l, p);
    } else {
      AtPriorityOfOthers([e], p);
    }
  }

  lemma {:induction false} InsertStable(l: seq<Entry>, e: Entry, p: nat)
    requires Ordered(l)
    ensures AtPriority(Insert(l, e), p) == AtPriority(l, p) + AtPriority([e], p)
  {
    if l == [] || l[0].priority > e.priority {
      AheadStable(l, e, p);
    } else {
      var first, rest := [l[0]], l[1..];
      InsertStable(rest, e, p);
      AtPriorityAppend(first, Insert(rest, e), p);
      AtPriorityAppend(first, rest, p);
      assert l == first + rest;
      Regroup(AtPriority(first, p), AtPriority(rest, p), AtPriority([e], p));
    }
  }

  lemma SortKeepsPriority(h: seq<Entry>, p: nat)
    requires h != [] && StableSortOf(Sort(h[..|h| - 1]), h[..|h| - 1])
    ensures AtPriority(Sort(h), p) == AtPriority(h, p)
  {
    var front, e := h[..|h| - 1], h[|h| - 1];
    InsertStable(Sort(front), e, p);
    assert h == front + [e];
    AtPriorityAppend(front, [e], p);
  }

  /** `Sort` sorts and is stable. */
  lemma {:induction false} SortIsStable(h: seq<Entry>)
    ensures StableSortOf(Sort(h), h)
  {
    if h != [] {
      var front := h[..|h| - 1];
      SortIsStable(front);
      InsertOrdered(Sort(front), h[|h| - 1]);
      forall p: nat
        ensures AtPriority(Sort(h), p) == AtPriority(h, p)
      {
        SortKeepsPriority(h, p);
      }
    }
  }

  lemma SameHead(a: seq<Entry>, b: seq<Entry>)
    requires Ordered(a) && Ordered(b) && a != []
    requires forall p: nat :: AtPriority(a, p) == AtPriority(b, p)
    ensures b != [] && a[0] == b[0]
  {
    var x := a[0];
    AtPriorityMembers(a, x.priority, x);
    AtPriorityMembers(b, x.priority, x);
    var y := b[0];
    AtPriorityMembers(b, y.priority, y);
    AtPriorityMembers(a, y.priority, y);
    assert x.priority == y.priority;
    assert AtPriority(a, x.priority)[0] == x && AtPriority(b, x.priority)[0] == y;
  }

  lemma SameTail(a: seq<Entry>, b: seq<Entry>, p: nat)
    requires a != [] && b != [] && a[0] == b[0]
    requires AtPriority(a, p) == AtPriority(b, p)
    ensures AtPriority(a[1..], p) == AtPriority(b[1..], p)
  {
    var n := if a[0].priority == p then 1 else 0;
    assert AtPriority(a[1..], p) == AtPriority(a, p)[n..];
    assert AtPriority(b[1..], p) == AtPriority(b, p)[n..];
  }

  /** There is only one stable sort. */
  lemma {:induction false} StableSortUnique(a: seq<Entry>, b: seq<Entry>)
    requires Ordered(a) && Ordered(b)
    requires forall p: nat :: AtPriority(a, p) == AtPriority(b, p)
    ensures a == b
  {
    if a == [] && b == [] {
    } else {
      if a != [] { SameHead(a, b); } else { SameHead(b, a); }
      forall p: nat
        ensures AtPriority(a[1..], p) == AtPriority(b[1..], p)
      {
        SameTail(a, b, p);
      }
      StableSortUnique(a[1..], b[1..]);
      assert a == [a[0]] + a[1..] && b == [b[0]] + b[1..];
    }
  }

  // ----- Online top four -----

  function TakeFour(l: seq<Entry>): seq<Entry> {
    if |l| <= SLOTS then l else l[..SLOTS]
  }

  function RegisterAll(h: seq<Entry>): Slots {
    if h == [] then [EMPTY, EMPTY, EMPTY, EMPTY] else Registered(RegisterAll(h[..|h| - 1]), h[|h| - 1])
  }

  /** `n` used slots come first, and the rest are empty. */
  predicate UsedPrefix(s: seq<Entry>, n: nat) {
    && n <= |s|
    && (forall k :: 0 <= k < n ==> s[k].handler != NULL)
    && (forall k :: n <= k < |s| ==> s[k].handler == NULL)
  }

  lemma {:induction false} EntriesArePrefix(s: seq<Entry>, n: nat)
    requires UsedPrefix(s, n)
    ensures Entries(s) == s[..n] && GapFree(s)
  {
    if s != [] {
      EntriesArePrefix(s[1..], if n == 0 then 0 else n - 1);
      if n > 0 {
        assert s[..n] == [s[0]] + s[1..][..n - 1];
      }
    }
  }

  lemma {:induction false} GapFreePrefix(s: seq<Entry>) returns (n: nat)
    requires GapFree(s)
    ensures UsedPrefix(s, n)
  {
    if s == [] || s[0].handler == NULL {
      n := 0;
    } else {
      var k := GapFreePrefix(s[1..]);
      n := k + 1;
      assert forall j :: 1 <= j < |s| ==> s[j] == s[1..][j - 1];
    }
  }

  lemma {:induction false} InsertAt(l: seq<Entry>, e: Entry, i: nat)
    requires i <= |l| && (forall k :: 0 <= k < i ==> l[k].priority <= e.priority)
    requires i < |l| ==> l[i].priority > e.priority
    ensures Insert(l, e) == l[..i] + [e] + l[i..]
  {
    if i == 0 {
      assert l[..0] + [e] + l[0..] == [e] + l;
    } else {
      var head, front, back := [l[0]], l[1..][..i - 1], l[1..][i - 1..];
      InsertAt(l[1..], e, i - 1);
      assert l[..i] == head + front && l[i..] == back;
      Regroup(head, front + [e], back);
      Regroup(head, front, [e]);
    }
  }

  lemma FitsInPrefix(s: Slots, n: nat, priority: nat)
    requires UsedPrefix(s, n)
    ensures FirstFit(s, priority) <= n
    ensures FirstFit(s, priority) < n ==> s[FirstFit(s, priority)].priority > priority
  {
    if n < SLOTS {
      assert s[n].handler == NULL;
    }
  }

  lemma ShiftSelects(s: Slots, n: nat, i: nat, e: Entry)
    requires UsedPrefix(s, n) && i < n && e.handler != NULL
    ensures var r := s[..i] + [e] + s[i..SLOTS - 1];
            GapFree(r) && Entries(r) == TakeFour(s[..n][..i] + [e] + s[..n][i..])
  {
    var r := s[..i] + [e] + s[i..SLOTS - 1];
    var m := if n < SLOTS then n + 1 else SLOTS;
    EntriesArePrefix(r, m);
    var whole := s[..n][..i] + [e] + s[..n][i..];
    forall k | 0 <= k < m
      ensures whole[k] == r[k]
    {
      if k > i {
        assert whole[k] == s[..n][i..][k - i - 1] == s[k - 1];
        assert r[k] == s[i..SLOTS - 1][k - i - 1] == s[k - 1];
      }
    }
    assert |whole| == n + 1 && whole[..m] == r[..m];
    assert whole[..n + 1] == whole;
  }

  lemma AppendSelects(s: Slots, n: nat, e: Entry)
    requires UsedPrefix(s, n) && n < SLOTS && e.handler != NULL
    ensures GapFree(s[n := e]) && Entries(s[n := e]) == s[..n] + [e]
  {
    EntriesArePrefix(s[n := e], n + 1);
    assert s[n := e][..n + 1] == s[..n] + [e];
  }

  /** Registering a handler keeps the four most urgent of the old entries and the new one. */
  lemma RegisterSelects(s: Slots, e: Entry)
    requires GapFree(s) && e.handler != NULL && e.priority < PRIORITIES
    ensures GapFree(Registered(s, e))
    ensures Entries(Registered(s, e)) == TakeFour(Insert(Entries(s), e))
    ensures Accepts(s, e) ==> Entries(Registered(s, e)) != []
  {
    var n := GapFreePrefix(s);
    var i := FirstFit(s, e.priority);
    EntriesArePrefix(s, n);
    FitsInPrefix(s, n, e.priority);
    InsertAt(s[..n], e, i);
    if i < n {
      ShiftSelects(s, n, i, e);
    } else if i < SLOTS {
      AppendSelects(s, n, e);
      assert s[..n] + [e] + s[..n][n..] == s[..n] + [e];
    } else {
      assert s[..n] == s;
    }
  }

  lemma {:induction false} TakeFourInsert(l: seq<Entry>, e: Entry)
    ensures TakeFour(Insert(TakeFour(l), e)) == TakeFour(Insert(l, e))
  {
    var i := InsertPlace(l, e);
    InsertAt(l, e, i);
    if |l| > SLOTS {
      if i < SLOTS {
        InsertAt(l[..SLOTS], e, i);
      } else {
        InsertAt(l[..SLOTS], e, SLOTS);
      }
    }
  }

  lemma {:induction false} InsertPlace(l: seq<Entry>, e: Entry) returns (i: nat)
    ensures i <= |l| && (forall k :: 0 <= k < i ==> l[k].priority <= e.priority)
    ensures i < |l| ==> l[i].priority > e.priority
  {
    i := 0;
    while i < |l| && l[i].priority <= e.priority
      invariant i <= |l| && forall k :: 0 <= k < i ==> l[k].priority <= e.priority
    {
      i := i + 1;
    }
  }

  /** After any registrations the table holds the first four entries of the stable priority
      sort of the whole history: later ones never displace equally urgent earlier ones. */
  lemma {:induction false} TopFour(h: seq<Entry>)
    requires forall e :: e in h ==> e.handler != NULL && e.priority < PRIORITIES
    ensures GapFree(RegisterAll(h))
    ensures Entries(RegisterAll(h)) == TakeFour(Sort(h))
    ensures StableSortOf(Sort(h), h)
  {
    SortIsStable(h);
    if h == [] {
      EntriesArePrefix(RegisterAll(h), 0);
    } else {
      var front, e := h[..|h| - 1], h[|h| - 1];
      assert e in h;
      TopFour(front);
      RegisterSelects(RegisterAll(front), e);
      TakeFourInsert(Sort(front), e);
    }
  }

  /** Registering NULL opens a gap exactly when one of the first three handlers is less
      urgent, so that the NULL is placed before it. */
  lemma NullOpensGapExactlyWhenUrgent(s: Slots, e: Entry)
    requires GapFree(s) && e.handler == NULL && e.priority < PRIORITIES
    ensures GapFree(Registered(s, e)) <==>
            forall k :: 0 <= k < |Entries(s)| && k < SLOTS - 1 ==> Entries(s)[k].priority <= e.priority
  {
    var n := GapFreePrefix(s);
    var i := FirstFit(s, e.priority);
    var r := Registered(s, e);
    EntriesArePrefix(s, n);
    FitsInPrefix(s, n, e.priority);
    if i < n && i < SLOTS - 1 {
      assert r[i] == e && r[i + 1] == s[i];
      assert Entries(s)[i] == s[i];
    } else if i < n {
      EntriesArePrefix(r, SLOTS - 1);
    } else if i < SLOTS {
      EntriesArePrefix(r, n);
    }
  }

  // ----- Registrations and removals mixed -----

  datatype Op = Register(entry: Entry) | Unregister(handler: nat)

  datatype Table = Table(slots: Slots, enabled: bool)

  function Apply(t: Table, op: Op): Table {
    match op
    case Register(e) => Table(Registered(t.slots, e), t.enabled || Accepts(t.slots, e))
    case Unregister(h) =>
      var s := Unregistered(t.slots, h);
      Table(s, t.enabled && Entries(s) != [])
  }

  /** In order, without gaps, and enabled exactly while some handler is registered. */
  predicate Inv(t: Table) {
    GapFree(t.slots) && Ordered(Entries(t.slots)) && (t.enabled <==> Entries(t.slots) != [])
  }

  function Run(t: Table, ops: seq<Op>): Table
    decreases |ops|
  {
    if ops == [] then t else Run(Apply(t, ops[0]), ops[1..])
  }

  /** Removal takes out the first entry with that handler and keeps the order of the rest. */
  lemma UnregisterRemovesFirst(s: Slots, handler: nat)
    requires GapFree(s)
    ensures GapFree(Unregistered(s, handler))
    ensures var l := Entries(s);
            var i := Find(l, handler);
            Entries(Unregistered(s, handler)) == if i < |l| then l[..i] + l[i + 1..] else l
  {
    var n := GapFreePrefix(s);
    EntriesArePrefix(s, n);
    FindInPrefix(s, n, handler);
    var i := Find(s, handler);
    if i < n {
      RemoveUsed(s, n, i);
    } else if i < SLOTS {
      RemoveUnused(s, n, i);
    }
  }

  lemma RemoveUnused(s: Slots, n: nat, i: nat)
    requires UsedPrefix(s, n) && n <= i < SLOTS
    ensures var r := s[..i] + s[i + 1..] + [EMPTY];
            GapFree(r) && Entries(r) == s[..n]
  {
    var r := s[..i] + s[i + 1..] + [EMPTY];
    EntriesArePrefix(r, n);
    assert r[..n] == s[..n];
  }

  lemma {:induction false} FindInPrefix(s: seq<Entry>, n: nat, handler: nat)
    requires n <= |s|
    ensures if Find(s[..n], handler) < n then Find(s, handler) == Find(s[..n], handler) else Find(s, handler) >= n
  {
    if n > 0 && s[0].handler != handler {
      FindInPrefix(s[1..], n - 1, handler);
      assert s[..n][1..] == s[1..][..n - 1];
    }
  }

  lemma RemoveUsed(s: Slots, n: nat, i: nat)
    requires UsedPrefix(s, n) && i < n
    ensures var r := s[..i] + s[i + 1..] + [EMPTY];
            GapFree(r) && Entries(r) == s[..n][..i] + s[..n][i + 1..]
  {
    var r := s[..i] + s[i + 1..] + [EMPTY];
    EntriesArePrefix(r, n - 1);
    assert r[..n - 1] == s[..n][..i] + s[..n][i + 1..];
  }

  lemma RegisterInv(t: Table, e: Entry)
    requires Inv(t) && e.handler != NULL
    ensures Inv(Apply(t, Register(e)))
  {
    if e.priority < PRIORITIES {
      RegisterSelects(t.slots, e);
      InsertOrdered(Entries(t.slots), e);
    }
  }

  lemma RemoveOrdered(l: seq<Entry>, i: nat)
    requires Ordered(l) && i < |l|
    ensures Ordered(l[..i] + l[i + 1..])
  {
    var r := l[..i] + l[i + 1..];
    assert forall k :: 0 <= k < |r| ==> r[k] == l[if k < i then k else k + 1];
  }

  lemma UnregisterInv(t: Table, handler: nat)
    requires Inv(t)
    ensures Inv(Apply(t, Unregister(handler)))
  {
    UnregisterRemovesFirst(t.slots, handler);
    var l := Entries(t.slots);
    if Find(l, handler) < |l| {
      RemoveOrdered(l, Find(l, handler));
    }
  }

  lemma {:induction false} RunInv(t: Table, ops: seq<Op>)
    requires Inv(t) && forall i :: 0 <= i < |ops| ==> ops[i].Register? ==> ops[i].entry.handler != NULL
    ensures Inv(Run(t, ops))
    decreases |ops|
  {
    if ops != [] {
      match ops[0] {
        case Register(e) => RegisterInv(t, e);
        case Unregister(h) => UnregisterInv(t, h);
      }
      RunInv(Apply(t, ops[0]), ops[1..]);
    }
  }

  lemma {:induction false} UsedSlotCounts(s: seq<Entry>, i: nat)
    requires i < |s| && s[i].handler != NULL
    ensures Entries(s) != []
  {
    if i > 0 {
      UsedSlotCounts(s[1..], i - 1);
    }
  }

  // ----- The table in place -----

  /** The slots of one interrupt vector. */
  class Vector {
    const slots: array<Entry>
    var enabled: bool

    ghost predicate Valid()
      reads this
    {
      slots.Length == SLOTS
    }

    ghost function View(): Table
      requires Valid()
      reads this, slots
    {
      Table(slots[..], enabled)
    }

    constructor ()
      ensures Valid() && View() == Table([EMPTY, EMPTY, EMPTY, EMPTY], false) && fresh(slots)
    {
      slots := new Entry[SLOTS](_ => EMPTY);
      enabled := false;
    }

    /** `register_enhanced_irq_handler`. */
    method Register(e: Entry) returns (code: Result)
      requires Valid()
      modifies this, slots
      ensures Valid() && View() == Apply(old(View()), Op.Register(e))
      ensures code == if Accepts(old(View()).slots, e) then Handled else Error
    {
      if e.priority >= PRIORITIES {
        return Error;
      }
      var slot := FindSlot(e.priority);
      if slot == SLOTS {
        return Error;
      }
      if slots[slot].handler != NULL {
        ShiftDown(slot);
      }
      slots[slot] := e;
      enabled := true;
      return Handled;
    }

    method FindSlot(priority: nat) returns (i: nat)
      requires Valid()
      ensures i == FirstFit(slots[..], priority)
    {
      i := 0;
      assert slots[..][0..] == slots[..];
      while i < SLOTS && slots[i].handler != NULL && slots[i].priority <= priority
        invariant i <= SLOTS
        invariant FirstFit(slots[..], priority) == i + FirstFit(slots[..][i..], priority)
      {
        assert slots[..][i..][1..] == slots[..][i + 1..];
        i := i + 1;
      }
    }

    method ShiftDown(i: nat)
      requires Valid() && i < SLOTS
      modifies slots
      ensures slots[..] == old(slots[..i + 1] + slots[i..SLOTS - 1])
    {
      var j := SLOTS - 1;
      while j > i
        invariant i <= j < SLOTS
        invariant forall k :: 0 <= k <= j ==> slots[k] == old(slots[k])
        invariant forall k :: j < k < SLOTS ==> slots[k] == old(slots[k - 1])
      {
        slots[j] := slots[j - 1];
        j := j - 1;
      }
    }

    /** `unregister_irq_handler`. */
    method Unregister(handler: nat) returns (code: Result)
      requires Valid()
      modifies this, slots
      ensures Valid() && View() == Apply(old(View()), Op.Unregister(handler))
      ensures code == if Find(old(View()).slots, handler) < SLOTS then Handled else Unhandled
    {
      code := Unhandled;
      var i := FindHandler(handler);
      if i < SLOTS {
        code := Handled;
        ShiftUp(i);
        slots[SLOTS - 1] := EMPTY;
      }
      assert slots[..] == Unregistered(old(slots[..]), handler);
      var allGone := AllGone();
      if allGone {
        enabled := false;
      }
    }

    method FindHandler(handler: nat) returns (i: nat)
      requires Valid()
      ensures i == Find(slots[..], handler)
    {
      i := 0;
      assert slots[..][0..] == slots[..];
      while i < SLOTS && slots[i].handler != handler
        invariant i <= SLOTS
        invariant Find(slots[..], handler) == i + Find(slots[..][i..], handler)
      {
        assert slots[..][i..][1..] == slots[..][i + 1..];
        i := i + 1;
      }
    }

    method ShiftUp(i: nat)
      requires Valid() && i < SLOTS
      modifies slots
      ensures slots[..SLOTS - 1] == old(slots[..i] + slots[i + 1..])
    {
      var j := i;
      while j < SLOTS - 1
        invariant i <= j < SLOTS
        invariant forall k :: 0 <= k < i ==> slots[k] == old(slots[k])
        invariant forall k :: i <= k < j ==> slots[k] == old(slots[k + 1])
        invariant forall k :: j <= k < SLOTS ==> slots[k] == old(slots[k])
      {
        slots[j] := slots[j + 1];
        j := j + 1;
      }
    }

    method AllGone() returns (gone: bool)
      requires Valid()
      ensures gone <==> Entries(slots[..]) == []
    {
      gone := true;
      for i := 0 to SLOTS
        invariant gone && forall k :: 0 <= k < i ==> slots[k].handler == NULL
      {
        if slots[i].handler != NULL {
          UsedSlotCounts(slots[..], i);
          return false;
        }
      }
      EntriesArePrefix(slots[..], 0);
    }

    /** `irq_dispatch_enhanced`, with `outcome` what each handler would return: the handlers
        called are a prefix of the table, ending at the first that handles the interrupt. */
    method Dispatch(outcome: Entry -> Result) returns (called: seq<Entry>, handled: bool)
      requires Valid()
      ensures called <= Entries(slots[..])
      ensures handled ==> called != [] && outcome(called[|called| - 1]).Handled?
      ensures forall k :: 0 <= k < |called| - (if handled then 1 else 0) ==> !outcome(called[k]).Handled?
      ensures !handled ==> called == Entries(slots[..])
    {
      called, handled := [], false;
      ghost var s := slots[..];
      assert s[0..] == s;
      for i := 0 to SLOTS
        invariant !handled && called + Entries(s[i..]) == Entries(s)
        invariant forall k :: 0 <= k < |called| ==> !outcome(called[k]).Handled?
      {
        var e := slots[i];
        CallStep(called, s, i);
        if e.handler != NULL {
          called := called + [e];
          if outcome(e).Handled? {
            handled := true;
            return;
          }
        }
      }
    }
  }

  lemma CallStep(called: seq<Entry>, s: seq<Entry>, i: nat)
    requires i < |s|
    ensures called + Entries(s[i..]) ==
            (if s[i].handler != NULL then called + [s[i]] else called) + Entries(s[i + 1..])
  {
    EntriesStep(s, i);
    Regroup(called, [s[i]], Entries(s[i + 1..]));
  }

  lemma EntriesStep(s: seq<Entry>, i: nat)
    requires i < |s|
    ensures Entries(s[i..]) == (if s[i].handler != NULL then [s[i]] else []) + Entries(s[i + 1..])
  {
    assert s[i..][1..] == s[i + 1..];
  }
}
