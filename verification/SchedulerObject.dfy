/**
 The scheduler object (task_scheduler.c): tasks in a bag, changed in place, and the best period to tick at.
 */
module SchedulerObject {
  import opened Bags
  import opened Scheduling
  import opened SchedulingTimes

  const DEFAULT_INIT_TASK_COUNT := 16
  const INVALID_TASK_ID := -1

  class TaskScheduler {
    const tasks: ArrayBag<Task>
    var nextTaskId: nat

    ghost predicate Valid()
      reads this, tasks, tasks.data
    {
      tasks.Valid() && UniqueIds(Items()) && forall i :: 0 <= i < |Items()| ==> Items()[i].id < nextTaskId
    }

    ghost function Items(): seq<Task>
      requires tasks.Valid()
      reads this, tasks, tasks.data
    {
      tasks.View().items
    }

    ghost function View(readings: nat): Sched
      requires tasks.Valid()
      reads this, tasks, tasks.data
    {
      Sched(Items(), nextTaskId, readings)
    }

    constructor ()
      ensures Valid() && Items() == [] && nextTaskId == 0 && fresh(tasks) && fresh(tasks.data)
      ensures tasks.data.Length == 16
    {
      tasks := new ArrayBag(DEFAULT_INIT_TASK_COUNT);
      nextTaskId := 0;
    }

    /**
     Adds a task due one period from now and returns its identifier, which was never used before; or returns -1 and
     adds nothing.
     */
    method ScheduleTask(mode: Mode, period: nat, now: nat, hasCallback: bool, created: bool, grows: bool)
      returns (id: int)
      requires Valid()
      modifies this, tasks, tasks.data
      ensures Valid() && (tasks.data == old(tasks.data) || fresh(tasks.data))
      ensures var op := Schedule(mode, period, now, hasCallback, created, CanAdd(old(tasks.View()), grows));
              forall k: nat :: View(k) == ScheduleIn(old(View(k)), op)
      ensures id != -1 <==>
                && old(nextTaskId) != 2147483647 && hasCallback && created
                && (old(tasks.size < tasks.data.Length) || grows)
      ensures id == -1 ==> Items() == old(Items())
      ensures id != -1 ==> id == old(nextTaskId) && Items() == old(Items()) + [Task(id, mode, period, now + period)]
    {
      if nextTaskId == INT32_MAX || !hasCallback || !created {
        return INVALID_TASK_ID;
      }
      var task := Task(nextTaskId, mode, period, now + period);
      nextTaskId := nextTaskId + 1;
      AddKeepsValid(tasks.View(), task, grows);
      var added := tasks.Add(task, grows);
      id := if added then task.id else INVALID_TASK_ID;
    }

    /** Examines the task at position i; `next` is the position to go on with. */
    method Examine(i: nat, env: nat -> Visit, k: nat) returns (next: nat)
      requires tasks.Valid() && i < tasks.size
      modifies tasks, tasks.data
      ensures tasks.Valid() && (tasks.data == old(tasks.data) || fresh(tasks.data))
      ensures next <= |Items()| && |Items()| - next < |old(Items())| - i
      ensures var r, r' := TickFrom(old(Items()), i, env, k), TickFrom(Items(), next, env, k + 1);
              r.tasks == r'.tasks && |r.trace| == 1 + |r'.trace|
    {
      TickFromNext(Items(), i, env, k);
      hide TickFrom;
      hide ValidBag;
      var task, visit := tasks.data[i], env(k);
      if task.next > visit.now {
        assert Items()[i := Items()[i]] == Items();
        next := i + 1;
      } else if !visit.keep {
        RemoveKeepsValid(tasks.View(), i, visit.shrinks);
        tasks.Remove(i, visit.shrinks);
        next := i;
      } else {
        SetTask(i, Reschedule(task, visit));
        next := i + 1;
      }
    }

    method TickLoop(env: nat -> Visit, k: nat) returns (used: nat)
      requires tasks.Valid()
      modifies tasks, tasks.data
      ensures tasks.Valid() && (tasks.data == old(tasks.data) || fresh(tasks.data))
      ensures var r := TickFrom(old(Items()), 0, env, k); Items() == r.tasks && used == |r.trace|
    {
      var i := 0;
      used := 0;
      ghost var items := Items();
      hide *;
      while i < tasks.size
        invariant tasks.Valid() && (tasks.data == old(tasks.data) || fresh(tasks.data))
        invariant items == Items() && 0 <= i <= |items| == tasks.size
        invariant var r, r' := TickFrom(old(Items()), 0, env, k), TickFrom(items, i, env, k + used);
                  r.tasks == r'.tasks && |r.trace| == used + |r'.trace|
        decreases |items| - i
      {
        i := Examine(i, env, k + used);
        used := used + 1;
        items := Items();
        ItemsSize();
      }
      TickFromEnd(items, env, k + used);
    }

    lemma ItemsSize()
      requires tasks.Valid()
      ensures |Items()| == tasks.size
    {
    }

    /** Runs every task that is due; `used` readings are taken. */
    method RunTick(env: nat -> Visit, k: nat) returns (used: nat)
      requires Valid()
      modifies tasks, tasks.data
      ensures Valid() && (tasks.data == old(tasks.data) || fresh(tasks.data))
      ensures View(k + used) == Do(old(View(k)), Tick, env)
    {
      TickIds(Items(), 0, env, k);
      IdsBelow(View(k), TickFrom(Items(), 0, env, k).tasks);
      hide TickFrom;
      used := TickLoop(env, k);
    }

    method SetTask(i: nat, task: Task)
      requires tasks.Valid() && i < tasks.size
      modifies tasks.data
      ensures tasks.Valid() && Items() == old(Items())[i := task]
    {
      tasks.data[i] := task;
    }

    /** Removes the entry of a task: the loop goes on after the removal but meets no other. */
    method RemoveTaskEntry(p: nat, shrinks: bool)
      requires tasks.Valid() && UniqueIds(Items()) && p < tasks.size
      modifies tasks, tasks.data
      ensures tasks.Valid() && (tasks.data == old(tasks.data) || fresh(tasks.data))
              && Items() == SwapOut(old(Items()), p)
    {
      var i, task := 0, tasks.data[p];
      ghost var before := Items();
      SwapOutIds(before, p);
      while i < tasks.size
        invariant tasks.Valid() && 0 <= i <= |before| && (tasks.data == old(tasks.data) || fresh(tasks.data))
        invariant Items() == if i <= p then before else SwapOut(before, p)
        decreases |before| - i
      {
        if tasks.data[i] == task {
          assert Items()[i] == task;
          RemoveKeepsValid(tasks.View(), i, shrinks);
          tasks.Remove(i, shrinks);
        }
        i := i + 1;
      }
    }

    method RemoveTask(id: int, shrinks: bool) returns (removed: bool)
      requires Valid()
      modifies tasks, tasks.data
      ensures Valid() && (tasks.data == old(tasks.data) || fresh(tasks.data))
      ensures Items() == RemoveFrom(old(Items()), id)
      ensures removed == (Position(old(Items()), id) < |old(Items())|)
      ensures removed <==> exists i :: 0 <= i < |old(Items())| && old(Items())[i].id == id
      ensures !removed ==> Items() == old(Items())
      ensures removed ==> |Items()| == |old(Items())| - 1
      ensures forall t :: t in Items() <==> t in old(Items()) && t.id != id
    {
      RemovedTasks(Items(), id);
      hide RemoveFrom;
      hide SwapOut;
      hide UniqueIds;
      RemovedIs(Items(), id);
      if id < 0 {
        return false;
      }
      var i := 0;
      while i < tasks.size
        invariant 0 <= i <= tasks.size
        invariant forall j :: 0 <= j < i ==> Items()[j].id != id
      {
        if tasks.data[i].id == id {
          assert Items()[i].id == id;
          SwapOutIds(Items(), i);
          IdsBelow(View(0), SwapOut(Items(), i));
          RemoveTaskEntry(i, shrinks);
          return true;
        }
        i := i + 1;
      }
      removed := false;
    }
  }

  lemma RemovedIs(tasks: seq<Task>, id: int)
    ensures var p := Position(tasks, id);
            && (p < |tasks| ==> RemoveFrom(tasks, id) == SwapOut(tasks, p) && |SwapOut(tasks, p)| == |tasks| - 1)
            && (p == |tasks| ==> RemoveFrom(tasks, id) == tasks)
  {
  }

  lemma RemovedTasks(tasks: seq<Task>, id: int)
    requires UniqueIds(tasks)
    ensures forall t :: t in RemoveFrom(tasks, id) <==> t in tasks && t.id != id
  {
    var p := Position(tasks, id);
    if p < |tasks| {
      SwapOutItems(tasks, p);
      hide SwapOut;
      forall t | t in tasks && t.id != id
        ensures t in SwapOut(tasks, p)
      {
        assert t in multiset(SwapOut(tasks, p));
      }
      forall t | t in SwapOut(tasks, p)
        ensures t in tasks && t.id != id
      {
        assert t in multiset(tasks);
        var i :| 0 <= i < |tasks| - 1 && SwapOut(tasks, p)[i] == t;
        assert t == if i == p then tasks[|tasks| - 1] else tasks[i];
      }
    }
  }

  // The best period to tick at.

  function Times(d: nat, q: nat): nat {
    d * q
  }

  ghost predicate Divides(d: nat, n: nat) {
    exists q: nat :: n == Times(d, q)
  }

  lemma DividesDifference(d: nat, a: nat, b: nat, k: nat, r: nat)
    requires Divides(d, a) && Divides(d, b) && d > 0 && a == b * k + r
    ensures Divides(d, r)
  {
    var x: nat :| a == Times(d, x);
    var y: nat :| b == Times(d, y);
    Distribute(d, x, y, k);
    PositiveFactor(d, x - y * k);
    assert r == Times(d, x - y * k);
  }

  lemma Distribute(d: int, x: int, y: int, k: int)
    ensures d * x - d * y * k == d * (x - y * k)
  {
    assert d * (y * k) == d * y * k;
  }

  lemma PositiveFactor(d: int, z: int)
    requires d > 0 && d * z >= 0
    ensures z >= 0
  {
    assert z < 0 ==> d * z < 0;
  }

  lemma DividesSum(d: nat, b: nat, k: nat, r: nat)
    requires Divides(d, b) && Divides(d, r)
    ensures Divides(d, b * k + r)
  {
    var y: nat :| b == Times(d, y);
    var z: nat :| r == Times(d, z);
    assert b * k + r == d * y * k + d * z == d * (y * k + z);
    assert b * k + r == Times(d, y * k + z);
  }

  ghost predicate CommonDivisor(d: nat, a: nat, b: nat) {
    d > 0 && Divides(d, a) && Divides(d, b)
  }

  /** The common divisors of a and b are those of b and a % b. */
  lemma EuclidStep(d: nat, a: nat, b: nat)
    requires b > 0
    ensures CommonDivisor(d, a, b) <==> CommonDivisor(d, b, a % b)
  {
    var k, r := a / b, a % b;
    assert a == b * k + r;
    if CommonDivisor(d, a, b) {
      DividesDifference(d, a, b, k, r);
    }
    if CommonDivisor(d, b, r) {
      DividesSum(d, b, k, r);
    }
  }

  lemma DividesItself(a: nat)
    ensures Divides(a, a) && Divides(a, 0)
  {
    assert a == Times(a, 1) && 0 == Times(a, 0);
  }

  /** Euclid's algorithm: a common divisor that every common divisor divides. */
  method GreatestCommonDivisor(a0: nat, b0: nat) returns (a: nat)
    ensures a == 0 <==> a0 == b0 == 0
    ensures a > 0 ==> CommonDivisor(a, a0, b0) && forall d: nat :: CommonDivisor(d, a0, b0) ==> Divides(d, a)
  {
    a := a0;
    var b: nat := b0;
    while b != 0
      invariant a == b == 0 <==> a0 == b0 == 0
      invariant forall d: nat :: CommonDivisor(d, a0, b0) <==> CommonDivisor(d, a, b)
      decreases b
    {
      forall d: nat ensures CommonDivisor(d, a, b) <==> CommonDivisor(d, b, a % b) { EuclidStep(d, a, b); }
      a, b := b, a % b;
    }
    DividesItself(a);
    assert a > 0 ==> CommonDivisor(a, a, 0);
    forall d: nat | CommonDivisor(d, a0, b0) ensures Divides(d, a) { assert CommonDivisor(d, a, b); }
  }

  /** d divides every period other than zero. */
  ghost predicate DividesPeriods(d: nat, tasks: seq<Task>) {
    d > 0 && forall i :: 0 <= i < |tasks| && tasks[i].period > 0 ==> Divides(d, tasks[i].period)
  }

  lemma DividesPeriodsSnoc(d: nat, tasks: seq<Task>, t: Task)
    ensures DividesPeriods(d, tasks + [t]) <==> DividesPeriods(d, tasks) && (t.period > 0 ==> Divides(d, t.period))
  {
    if DividesPeriods(d, tasks + [t]) {
      assert (tasks + [t])[|tasks|] == t;
      assert forall i :: 0 <= i < |tasks| ==> (tasks + [t])[i] == tasks[i];
    }
  }

  /** The best tick period divides all periods and is divided by every number that does; zero if none is set. */
  ghost predicate Best(p: nat, tasks: seq<Task>) {
    if p == 0 then forall i :: 0 <= i < |tasks| ==> tasks[i].period == 0
    else DividesPeriods(p, tasks) && forall d: nat :: DividesPeriods(d, tasks) ==> Divides(d, p)
  }

  lemma DividesTrans(a: nat, b: nat, c: nat)
    requires Divides(a, b) && Divides(b, c)
    ensures Divides(a, c)
  {
    var x: nat :| b == Times(a, x);
    var y: nat :| c == Times(b, y);
    assert c == a * x * y == a * (x * y);
    assert c == Times(a, x * y);
  }

  lemma BestFirst(tasks: seq<Task>, t: Task)
    requires Best(0, tasks) && t.period > 0
    ensures Best(t.period, tasks + [t])
  {
    DividesItself(t.period);
    DividesPeriodsSnoc(t.period, tasks, t);
    forall d: nat | DividesPeriods(d, tasks + [t]) ensures Divides(d, t.period) { DividesPeriodsSnoc(d, tasks, t); }
  }

  lemma BestNext(p: nat, tasks: seq<Task>, t: Task, g: nat)
    requires p > 0 && Best(p, tasks) && t.period > 0
    requires CommonDivisor(g, p, t.period) && forall d: nat :: CommonDivisor(d, p, t.period) ==> Divides(d, g)
    ensures Best(g, tasks + [t])
  {
    forall i | 0 <= i < |tasks| && tasks[i].period > 0 ensures Divides(g, tasks[i].period) {
      DividesTrans(g, p, tasks[i].period);
    }
    DividesPeriodsSnoc(g, tasks, t);
    forall d: nat | DividesPeriods(d, tasks + [t])
      ensures Divides(d, g)
    {
      DividesPeriodsSnoc(d, tasks, t);
      assert CommonDivisor(d, p, t.period);
    }
  }

  lemma BestSame(p: nat, tasks: seq<Task>, t: Task)
    requires Best(p, tasks) && t.period == 0
    ensures Best(p, tasks + [t])
  {
    forall d: nat
      ensures DividesPeriods(d, tasks + [t]) <==> DividesPeriods(d, tasks)
    {
      DividesPeriodsSnoc(d, tasks, t);
    }
  }

  /** ht_task_scheduler_get_optimal_tick_period. */
  method OptimalTickPeriod(tasks: seq<Task>) returns (period: nat)
    ensures Best(period, tasks)
  {
    period := 0;
    for i := 0 to |tasks|
      invariant Best(period, tasks[..i])
    {
      var t := tasks[i];
      assert tasks[..i + 1] == tasks[..i] + [t];
      if t.period == 0 {
        BestSame(period, tasks[..i], t);
      } else if period == 0 {
        BestFirst(tasks[..i], t);
        period := t.period;
      } else {
        var g := GreatestCommonDivisor(period, t.period);
        BestNext(period, tasks[..i], t, g);
        period := g;
      }
    }
    assert tasks[..|tasks|] == tasks;
  }

  lemma TickFromEnd(tasks: seq<Task>, env: nat -> Visit, k: nat)
    ensures TickFrom(tasks, |tasks|, env, k) == Ticked(tasks, [])
  {
  }
}
