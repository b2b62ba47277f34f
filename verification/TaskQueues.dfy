/** `task_queue_t` of kernel/scheduler.c: a ring of 256 task pointers with head, tail and
    count, refined to the plain sequence of the queued tasks. */
module TaskQueues {
  import opened Rings

  /** Stands for a `task_t*`; tasks are identified by their id field. */
  type TaskId = int

  const MAX_TASKS := 256

  /** `q` without the first occurrence of `t`. */
  function RemoveFirst(q: seq<TaskId>, t: TaskId): (r: seq<TaskId>)
    ensures t !in q ==> r == q
    ensures t in q ==> |r| == |q| - 1
  {
    if q == [] then []
    else if q[0] == t then q[1..]
    else [q[0]] + RemoveFirst(q[1..], t)
  }

  lemma {:induction false} RemoveFirstAt(q: seq<TaskId>, t: TaskId, i: nat)
    requires i < |q| && q[i] == t && t !in q[..i]
    ensures RemoveFirst(q, t) == q[..i] + q[i + 1..]
  {
    if i > 0 {
      assert q[0] == q[..i][0];
      assert q[1..][..i - 1] == q[..i][1..];
      RemoveFirstAt(q[1..], t, i - 1);
      assert q[..i] == [q[0]] + q[1..][..i - 1];
      assert q[1..][i..] == q[i + 1..];
    }
  }

  class TaskQueue {
    const slots: array<TaskId>
    var head: nat
    var tail: nat
    var count: nat

    ghost predicate Valid()
      reads this
    {
      && slots.Length == MAX_TASKS
      && head < MAX_TASKS
      && count <= MAX_TASKS
      && tail == Slot(head, count, MAX_TASKS)
    }

    ghost function Contents(): (q: seq<TaskId>)
      requires Valid()
      reads this, slots
      ensures |q| == count
    {
      Window(slots[..], head, count)
    }

    constructor ()
      ensures Valid() && Contents() == []
      ensures fresh(slots)
    {
      slots := new TaskId[MAX_TASKS](_ => 0);
      head, tail, count := 0, 0, 0;
    }

    /** Appends `t`, or reports that the queue is full. */
    method Push(t: TaskId) returns (ok: bool)
      requires Valid()
      modifies this, slots
      ensures Valid()
      ensures ok <==> |old(Contents())| < MAX_TASKS
      ensures Contents() == if ok then old(Contents()) + [t] else old(Contents())
    {
      ok := count < MAX_TASKS;
      if ok {
        WindowAppend(slots[..], head, count, t);
        slots[tail] := t;
        tail := Slot(tail, 1, MAX_TASKS);
        count := count + 1;
      }
    }

    method PopFront() returns (t: TaskId)
      requires Valid() && Contents() != []
      modifies this
      ensures Valid()
      ensures old(Contents()) == [t] + Contents()
    {
      WindowAdvance(slots[..], head, count);
      t := slots[head];
      head := Slot(head, 1, MAX_TASKS);
      count := count - 1;
    }

    /** Searches from the head and closes the gap by shifting the later entries down. */
    method Remove(t: TaskId) returns (found: bool)
      requires Valid()
      modifies this, slots
      ensures Valid()
      ensures found <==> t in old(Contents())
      ensures Contents() == RemoveFirst(old(Contents()), t)
    {
      var i := Find(t);
      found := i < count;
      if found {
        RemoveFirstAt(Contents(), t, i);
        Shift(i);
        tail := Slot(tail, MAX_TASKS - 1, MAX_TASKS);
        count := count - 1;
        WindowPrefix(slots[..], head, count, count + 1);
      }
    }

    /** The position of the first entry equal to `t`, or `count`. */
    method Find(t: TaskId) returns (i: nat)
      requires Valid()
      ensures i <= count && t !in Contents()[..i]
      ensures i < count ==> Contents()[i] == t
      ensures i == count ==> t !in Contents()
    {
      i := 0;
      while i < count
        invariant i <= count && t !in Contents()[..i]
      {
        if slots[Slot(head, i, MAX_TASKS)] == t {
          return;
        }
        assert Contents()[..i + 1] == Contents()[..i] + [Contents()[i]];
        i := i + 1;
      }
    }

    /** Moves every entry after position `i` one slot towards the head. */
    method Shift(i: nat)
      requires Valid() && i < count
      modifies slots
      ensures Valid()
      ensures Contents()[..count - 1] == old(Contents())[..i] + old(Contents())[i + 1..]
    {
      ghost var was := Contents();
      ShiftedFirst(was, i);
      ShiftAll(was, i);
      ShiftedLast(was, i);
    }

    /** The loop. */
    method ShiftAll(ghost was: seq<TaskId>, i: nat)
      requires Valid() && i < count == |was| && Contents() == Shifted(was, i, i)
      modifies slots
      ensures Valid() && Contents() == Shifted(was, i, count - 1)
    {
      var j := i;
      while j < count - 1
        invariant i <= j <= count - 1
        invariant Contents() == Shifted(was, i, j)
      {
        ShiftNext(was, i, j);
        j := j + 1;
      }
    }

    method ShiftNext(ghost was: seq<TaskId>, ghost i: nat, j: nat)
      requires Valid() && i <= j && j + 1 < count == |was| && Contents() == Shifted(was, i, j)
      modifies slots
      ensures Valid() && Contents() == Shifted(was, i, j + 1)
    {
      ShiftOne(j);
      ShiftedNext(was, i, j);
    }

    method ShiftOne(j: nat)
      requires Valid() && j + 1 < count
      modifies slots
      ensures Valid() && Contents() == old(Contents())[j := old(Contents())[j + 1]]
    {
      WindowUpdate(slots[..], head, count, j, slots[Slot(head, j + 1, MAX_TASKS)]);
      slots[Slot(head, j, MAX_TASKS)] := slots[Slot(head, j + 1, MAX_TASKS)];
    }
  }

  /** `was` with entries `i + 1` to `j` moved one place forward. */
  function Shifted(was: seq<TaskId>, i: nat, j: nat): (r: seq<TaskId>)
    requires i <= j < |was|
    ensures |r| == |was|
  {
    was[..i] + was[i + 1..j + 1] + was[j..]
  }

  lemma ShiftedFirst(was: seq<TaskId>, i: nat)
    requires i < |was|
    ensures Shifted(was, i, i) == was
  {
  }

  lemma ShiftedLast(was: seq<TaskId>, i: nat)
    requires i < |was|
    ensures Shifted(was, i, |was| - 1)[..|was| - 1] == was[..i] + was[i + 1..]
  {
  }

  lemma ShiftedNext(was: seq<TaskId>, i: nat, j: nat)
    requires i <= j < |was| - 1
    ensures Shifted(was, i, j)[j := Shifted(was, i, j)[j + 1]] == Shifted(was, i, j + 1)
  {
    assert was[i + 1..j + 2] == was[i + 1..j + 1] + [was[j + 1]];
  }
}
