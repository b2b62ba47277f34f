/** Circular buffers seen as plain sequences.

    The scheduler, the IPC layer and the keyboard driver all keep a fixed array, a start
    index and a number of occupied slots.  `Window` reads such a buffer as a sequence; the
    lemmas say what writing, advancing and shifting do to that sequence. */
module Rings {

  /** The slot reached `i` steps after `head` in a ring of `n` slots. */
  function Slot(head: nat, i: nat, n: nat): (r: nat)
    requires head < n && i <= n
    ensures r < n
    ensures r == if head + i < n then head + i else head + i - n
  {
    ModWrap(head + i, n);
    (head + i) % n
  }

  lemma ModWrap(x: nat, n: nat)
    requires 0 < n && x < 2 * n
    ensures x % n == if x < n then x else x - n
  {
    if n <= x {
      assert x == n * 1 + (x - n);
    }
  }

  function Window<T>(slots: seq<T>, head: nat, count: nat): (w: seq<T>)
    requires head < |slots| && count <= |slots|
    ensures |w| == count
    ensures forall i :: 0 <= i < count ==> w[i] == slots[Slot(head, i, |slots|)]
  {
    seq(count, i requires 0 <= i < count => slots[Slot(head, i, |slots|)])
  }

  lemma WindowAppend<T>(slots: seq<T>, head: nat, count: nat, x: T)
    requires head < |slots| && count < |slots|
    ensures Window(slots[Slot(head, count, |slots|) := x], head, count + 1) == Window(slots, head, count) + [x]
  {
  }

  lemma WindowAdvance<T>(slots: seq<T>, head: nat, count: nat)
    requires head < |slots| && 0 < count <= |slots|
    ensures Window(slots, Slot(head, 1, |slots|), count - 1) == Window(slots, head, count)[1..]
  {
  }

  lemma WindowPrefix<T>(slots: seq<T>, head: nat, shorter: nat, count: nat)
    requires head < |slots| && shorter <= count <= |slots|
    ensures Window(slots, head, shorter) == Window(slots, head, count)[..shorter]
  {
  }

  /** Writing one slot of the window changes that one element. */
  lemma WindowUpdate<T>(slots: seq<T>, head: nat, count: nat, i: nat, x: T)
    requires head < |slots| && i < count <= |slots|
    ensures Window(slots[Slot(head, i, |slots|) := x], head, count) == Window(slots, head, count)[i := x]
  {
  }
}
