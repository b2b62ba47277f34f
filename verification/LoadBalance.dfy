/** `scheduler_load_balance`: one call moves at most one task from the busiest to the least
    busy active CPU.  Repeating it conserves the tasks and settles. */
module LoadBalance {
  import opened TaskQueues
  import opened SchedulerModel

  const INT_MAX := 0x7FFF_FFFF

  /** One local queue per CPU, each within the capacity of its ring. */
  predicate Cpus(qs: seq<seq<TaskId>>, active: seq<bool>) {
    |qs| == |active| && forall i :: 0 <= i < |qs| ==> |qs[i]| <= MAX_TASKS
  }

  /** The scan for the largest count over the first `n` CPUs: index and count. */
  function Busiest(qs: seq<seq<TaskId>>, active: seq<bool>, n: nat): (r: (nat, nat))
    requires Cpus(qs, active) && n <= |qs|
    ensures forall j :: 0 <= j < n && active[j] ==> |qs[j]| <= r.1
    ensures r.1 > 0 ==> r.0 < n && active[r.0] && |qs[r.0]| == r.1
  {
    if n == 0 then (0, 0)
    else
      var r := Busiest(qs, active, n - 1);
      if active[n - 1] && |qs[n - 1]| > r.1 then (n - 1, |qs[n - 1]|) else r
  }

  function Idlest(qs: seq<seq<TaskId>>, active: seq<bool>, n: nat): (r: (nat, nat))
    requires Cpus(qs, active) && n <= |qs|
    ensures forall j :: 0 <= j < n && active[j] ==> r.1 <= |qs[j]|
    ensures r.1 < INT_MAX ==> r.0 < n && active[r.0] && |qs[r.0]| == r.1
  {
    if n == 0 then (0, INT_MAX)
    else
      var r := Idlest(qs, active, n - 1);
      if active[n - 1] && |qs[n - 1]| < r.1 then (n - 1, |qs[n - 1]|) else r
  }

  predicate Migrates(qs: seq<seq<TaskId>>, active: seq<bool>)
    requires Cpus(qs, active)
  {
    var hi, lo := Busiest(qs, active, |qs|), Idlest(qs, active, |qs|);
    |qs| > 1 && hi.1 > lo.1 + 2 && hi.0 != lo.0
  }

  function Balance(qs: seq<seq<TaskId>>, active: seq<bool>): (r: seq<seq<TaskId>>)
    requires Cpus(qs, active)
    ensures Cpus(r, active)
  {
    if !Migrates(qs, active) then qs
    else
      Moved(qs, Busiest(qs, active, |qs|).0, Idlest(qs, active, |qs|).0)
  }

  function Iterate(qs: seq<seq<TaskId>>, active: seq<bool>, n: nat): (r: seq<seq<TaskId>>)
    requires Cpus(qs, active)
    ensures Cpus(r, active)
    decreases n
  {
    if n == 0 then qs else Iterate(Balance(qs, active), active, n - 1)
  }

  /** The lengths of any two active CPUs' queues differ by at most 2. */
  predicate Balanced(qs: seq<seq<TaskId>>, active: seq<bool>)
    requires Cpus(qs, active)
  {
    forall i, j :: 0 <= i < |qs| && 0 <= j < |qs| && active[i] && active[j] ==> |qs[i]| <= |qs[j]| + 2
  }

  function Square(n: int): int { n * n }

  function SumOfSquares(qs: seq<seq<TaskId>>): nat {
    if qs == [] then 0 else Square(|qs[0]|) + SumOfSquares(qs[1..])
  }

  lemma {:induction false} SumOfSquaresUpdate(qs: seq<seq<TaskId>>, i: nat, q: seq<TaskId>)
    requires i < |qs|
    ensures SumOfSquares(qs[i := q]) == SumOfSquares(qs) - Square(|qs[i]|) + Square(|q|)
  {
    if i > 0 {
      assert qs[i := q][1..] == qs[1..][i - 1 := q];
      SumOfSquaresUpdate(qs[1..], i - 1, q);
    } else {
      assert qs[i := q][1..] == qs[1..];
    }
  }

  /** When a task migrates, source and target are active, the source is longer by at least
      three, and the target has room: the put-back branch is dead. */
  lemma MigrationEnds(qs: seq<seq<TaskId>>, active: seq<bool>)
    requires Cpus(qs, active) && Migrates(qs, active)
    ensures var hi, lo := Busiest(qs, active, |qs|).0, Idlest(qs, active, |qs|).0;
            && hi < |qs| && lo < |qs| && active[hi] && active[lo]
            && |qs[hi]| >= |qs[lo]| + 3 && |qs[lo]| < MAX_TASKS
  {
  }

  lemma MigrationLowersSquares(a: nat, b: nat)
    requires a >= b + 3
    ensures Square(a - 1) + Square(b + 1) <= Square(a) + Square(b) - 4
  {
    assert Square(a - 1) == a * a - 2 * a + 1;
    assert Square(b + 1) == b * b + 2 * b + 1;
  }

  function Moved(qs: seq<seq<TaskId>>, from: nat, to: nat): seq<seq<TaskId>>
    requires from < |qs| && to < |qs| && qs[from] != []
  {
    qs[from := qs[from][1..]][to := qs[to] + [qs[from][0]]]
  }

  lemma MoveConserves(qs: seq<seq<TaskId>>, from: nat, to: nat)
    requires from < |qs| && to < |qs| && from != to && qs[from] != []
    ensures Queued(Moved(qs, from, to)) == Queued(qs)
  {
    QueuedPop(qs, from);
    QueuedUpdate(qs[from := qs[from][1..]], to, qs[to] + [qs[from][0]]);
  }

  lemma MoveLowersSquares(qs: seq<seq<TaskId>>, from: nat, to: nat)
    requires from < |qs| && to < |qs| && |qs[from]| >= |qs[to]| + 3
    ensures SumOfSquares(Moved(qs, from, to)) <= SumOfSquares(qs) - 4
  {
    SumOfSquaresUpdate(qs, from, qs[from][1..]);
    SumOfSquaresUpdate(qs[from := qs[from][1..]], to, qs[to] + [qs[from][0]]);
    MigrationLowersSquares(|qs[from]|, |qs[to]|);
  }

  /** Balancing loses and duplicates nothing, and every migration lowers the sum of squares. */
  lemma BalanceConserves(qs: seq<seq<TaskId>>, active: seq<bool>)
    requires Cpus(qs, active)
    ensures Queued(Balance(qs, active)) == Queued(qs)
    ensures if Migrates(qs, active) then SumOfSquares(Balance(qs, active)) <= SumOfSquares(qs) - 4
            else Balance(qs, active) == qs
  {
    if Migrates(qs, active) {
      MigrationEnds(qs, active);
      var hi, lo := Busiest(qs, active, |qs|).0, Idlest(qs, active, |qs|).0;
      MoveConserves(qs, hi, lo);
      MoveLowersSquares(qs, hi, lo);
    }
  }

  /** Nothing moves exactly when the active CPUs are balanced. */
  lemma RestExactlyWhenBalanced(qs: seq<seq<TaskId>>, active: seq<bool>)
    requires Cpus(qs, active)
    ensures Balance(qs, active) == qs <==> Balanced(qs, active)
  {
    BalanceConserves(qs, active);
    if Migrates(qs, active) {
      MigrationEnds(qs, active);
    }
  }

  lemma {:induction false} IterateConserves(qs: seq<seq<TaskId>>, active: seq<bool>, n: nat)
    requires Cpus(qs, active)
    ensures Queued(Iterate(qs, active, n)) == Queued(qs)
    decreases n
  {
    if n > 0 {
      var next := Balance(qs, active);
      assert Queued(next) == Queued(qs) by { BalanceConserves(qs, active); }
      assert Queued(Iterate(next, active, n - 1)) == Queued(next) by { IterateConserves(next, active, n - 1); }
    }
  }

  lemma {:induction false} BalancedStays(qs: seq<seq<TaskId>>, active: seq<bool>, n: nat)
    requires Cpus(qs, active) && Balanced(qs, active)
    ensures Iterate(qs, active, n) == qs
    decreases n
  {
    if n > 0 {
      RestExactlyWhenBalanced(qs, active);
      BalancedStays(qs, active, n - 1);
    }
  }

  /** Repeated balancing settles: from any state it is balanced after at most a quarter of
      the sum of squares calls, and stays as it is from then on. */
  lemma {:induction false} BalancingSettles(qs: seq<seq<TaskId>>, active: seq<bool>, n: nat)
    requires Cpus(qs, active) && 4 * n >= SumOfSquares(qs)
    ensures Balanced(Iterate(qs, active, n), active)
    ensures forall m: nat :: m >= n ==> Iterate(qs, active, m) == Iterate(qs, active, n)
    decreases n
  {
    BalanceConserves(qs, active);
    if Migrates(qs, active) {
      BalancingSettles(Balance(qs, active), active, n - 1);
      forall m: nat | m >= n
        ensures Iterate(qs, active, m) == Iterate(qs, active, n)
      {
        assert Iterate(qs, active, m) == Iterate(Balance(qs, active), active, m - 1);
      }
    } else {
      RestExactlyWhenBalanced(qs, active);
      forall m: nat
        ensures Iterate(qs, active, m) == qs
      {
        BalancedStays(qs, active, m);
      }
    }
  }

  lemma BalanceMoves(qs: seq<seq<TaskId>>, active: seq<bool>)
    requires Cpus(qs, active) && |qs| > 1
    ensures var (hi, most), (lo, least) := Busiest(qs, active, |qs|), Idlest(qs, active, |qs|);
            if most > least + 2 && hi != lo then
              hi < |qs| && lo < |qs| && qs[hi] != [] && |qs[lo]| < MAX_TASKS && Balance(qs, active) == Moved(qs, hi, lo)
            else Balance(qs, active) == qs
  {
    if Migrates(qs, active) {
      MigrationEnds(qs, active);
    }
  }

  /** The per-CPU local queues, balanced in place. */
  class CpuQueues {
    const queues: seq<TaskQueue>
    var active: seq<bool>

    ghost predicate Valid()
      reads this, queues
    {
      && |queues| == |active|
      && (forall i :: 0 <= i < |queues| ==> queues[i].Valid())
      && (forall i, j :: 0 <= i < j < |queues| ==> queues[i] != queues[j] && queues[i].slots != queues[j].slots)
    }

    ghost function Contents(): (qs: seq<seq<TaskId>>)
      requires Valid()
      reads this, queues, set q | q in queues :: q.slots
      ensures |qs| == |queues| && forall i :: 0 <= i < |queues| ==> qs[i] == queues[i].Contents()
      ensures Cpus(qs, active)
    {
      seq(|queues|,
          i requires 0 <= i < |queues| && Valid() reads this, queues, set q | q in queues :: q.slots =>
            queues[i].Contents())
    }

    constructor (cpus: seq<TaskQueue>, isActive: seq<bool>)
      requires |cpus| == |isActive|
      requires forall i :: 0 <= i < |cpus| ==> cpus[i].Valid()
      requires forall i, j :: 0 <= i < j < |cpus| ==> cpus[i] != cpus[j] && cpus[i].slots != cpus[j].slots
      ensures Valid() && queues == cpus && active == isActive
    {
      queues, active := cpus, isActive;
    }

    method LoadBalance()
      requires Valid()
      modifies queues, set q | q in queues :: q.slots
      ensures Valid() && Contents() == Balance(old(Contents()), active)
    {
      if |queues| <= 1 {
        return;
      }
      ghost var was := Contents();
      var uneven, maxCpu, minCpu := Compare();
      assert Contents() == was;
      if uneven {
        Move(maxCpu, minCpu);
      }
    }

    /** Which CPUs are furthest apart, and whether they are far enough apart to move a task. */
    method Compare() returns (uneven: bool, maxCpu: nat, minCpu: nat)
      requires Valid() && |queues| > 1
      ensures if uneven then
                && maxCpu < |queues| && minCpu < |queues| && maxCpu != minCpu
                && Contents()[maxCpu] != [] && |Contents()[minCpu]| < MAX_TASKS
                && Balance(Contents(), active) == Moved(Contents(), maxCpu, minCpu)
              else Balance(Contents(), active) == Contents()
    {
      var maxTasks, minTasks;
      maxCpu, maxTasks, minCpu, minTasks := FindExtremes();
      uneven := maxTasks > minTasks + 2 && maxCpu != minCpu;
      BalanceMoves(Contents(), active);
    }

    method FindExtremes() returns (maxCpu: nat, maxTasks: nat, minCpu: nat, minTasks: nat)
      requires Valid()
      ensures (maxCpu, maxTasks) == Busiest(Contents(), active, |queues|)
      ensures (minCpu, minTasks) == Idlest(Contents(), active, |queues|)
    {
      ghost var qs := Contents();
      maxCpu, minCpu, maxTasks, minTasks := 0, 0, 0, INT_MAX;
      for i := 0 to |queues|
        invariant (maxCpu, maxTasks) == Busiest(qs, active, i)
        invariant (minCpu, minTasks) == Idlest(qs, active, i)
      {
        assert |qs[i]| == queues[i].count;
        if active[i] {
          var n := queues[i].count;
          if n > maxTasks {
            maxTasks, maxCpu := n, i;
          }
          if n < minTasks {
            minTasks, minCpu := n, i;
          }
        }
      }
    }

    method Move(from: nat, to: nat)
      requires Valid() && from < |queues| && to < |queues| && from != to
      requires Contents()[from] != [] && |Contents()[to]| < MAX_TASKS
      modifies queues, set q | q in queues :: q.slots
      ensures Valid() && Contents() == Moved(old(Contents()), from, to)
    {
      assert queues[from] in queues && queues[to] in queues;
      var task := queues[from].PopFront();
      var ok := queues[to].Push(task);
      assert ok;
    }
  }
}
