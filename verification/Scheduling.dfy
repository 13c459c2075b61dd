/**
 The task scheduler (task_scheduler.c).  Clock readings and callback results come from an environment: the
 k-th examination of a task sees `env(k)`.
 */
module Scheduling {
  import opened Bytes
  import opened Bags

  datatype Mode = IgnoreDelays | RestartTimer

  datatype Task = Task(id: nat, mode: Mode, period: nat, next: nat)

  /**
   One look at a task: the time, what its callback returns if it runs, the time after, and whether memory can
   shrink.
   */
  datatype Visit = Visit(now: nat, keep: bool, after: nat, shrinks: bool)

  datatype Examined = Examined(task: Task, visit: Visit)

  predicate Due(e: Examined) {
    e.task.next <= e.visit.now
  }

  function Reschedule(t: Task, v: Visit): Task {
    t.(next := (if t.mode.IgnoreDelays? then t.next else v.after) + t.period)
  }

  /** The task after an examination, unless its callback asked for its removal. */
  function Result(e: Examined): Option<Task> {
    if !Due(e) then Some(e.task) else if e.visit.keep then Some(Reschedule(e.task, e.visit)) else None
  }

  datatype Ticked = Ticked(tasks: seq<Task>, trace: seq<Examined>)

  function With(e: Examined, r: Ticked): Ticked {
    r.(trace := [e] + r.trace)
  }

  /** A tick from position i on; a removed task is replaced by the last one, which is examined next. */
  function TickFrom(tasks: seq<Task>, i: nat, env: nat -> Visit, k: nat): Ticked
    requires i <= |tasks|
    decreases |tasks| - i
  {
    if i == |tasks| then Ticked(tasks, [])
    else
      var e := Examined(tasks[i], env(k));
      if !Due(e) then With(e, TickFrom(tasks, i + 1, env, k + 1))
      else if e.visit.keep then With(e, TickFrom(tasks[i := Reschedule(e.task, e.visit)], i + 1, env, k + 1))
      else With(e, TickFrom(SwapOut(tasks, i), i, env, k + 1))
  }

  function Tasks(trace: seq<Examined>): (ts: seq<Task>)
    ensures |ts| == |trace| && forall j :: 0 <= j < |trace| ==> ts[j] == trace[j].task
  {
    seq(|trace|, j requires 0 <= j < |trace| => trace[j].task)
  }

  /** The tasks left over from a sequence of examinations. */
  function Kept(trace: seq<Examined>): seq<Task> {
    if trace == [] then []
    else (if Result(trace[0]).Some? then [Result(trace[0]).value] else []) + Kept(trace[1..])
  }

  lemma SwapOutTail(tasks: seq<Task>, i: nat)
    requires i < |tasks|
    ensures SwapOut(tasks, i)[..i] == tasks[..i]
    ensures multiset(SwapOut(tasks, i)[i..]) == multiset(tasks[i + 1..])
  {
    var last := |tasks| - 1;
    var rest := SwapOut(tasks, i);
    if i < last {
      assert rest[i..] == [tasks[last]] + tasks[i + 1..last];
      assert tasks[i + 1..] == tasks[i + 1..last] + [tasks[last]];
    } else {
      assert rest[i..] == [] && tasks[i + 1..] == [];
    }
  }

  /** Every task from position i on is examined exactly once. */
  predicate AllExamined(tasks: seq<Task>, i: nat, trace: seq<Examined>)
    requires i <= |tasks|
  {
    multiset(Tasks(trace)) == multiset(tasks[i..])
  }

  /** What remains is what was before position i and what the examinations left. */
  predicate AllKept(tasks: seq<Task>, i: nat, r: Ticked)
    requires i <= |tasks|
  {
    multiset(r.tasks) == multiset(tasks[..i]) + multiset(Kept(r.trace))
  }

  /** The examinations see successive readings. */
  predicate InOrder(env: nat -> Visit, k: nat, trace: seq<Examined>) {
    forall j :: 0 <= j < |trace| ==> trace[j].visit == env(k + j)
  }

  lemma WithExamined(tasks: seq<Task>, i: nat, rest: seq<Task>, j: nat, e: Examined, r: Ticked)
    requires i < |tasks| && e.task == tasks[i] && j <= |rest| && multiset(rest[j..]) == multiset(tasks[i + 1..])
    requires AllExamined(rest, j, r.trace)
    ensures AllExamined(tasks, i, With(e, r).trace)
  {
    assert Tasks(With(e, r).trace) == [e.task] + Tasks(r.trace);
    assert tasks[i..] == [tasks[i]] + tasks[i + 1..];
  }

  lemma WithOrder(e: Examined, r: Ticked, env: nat -> Visit, k: nat)
    requires e.visit == env(k) && InOrder(env, k + 1, r.trace)
    ensures InOrder(env, k, With(e, r).trace)
  {
    forall j | 0 <= j < |With(e, r).trace|
      ensures With(e, r).trace[j].visit == env(k + j)
    {
      assert j > 0 ==> r.trace[j - 1].visit == env(k + 1 + (j - 1));
    }
  }

  lemma WithKept(tasks: seq<Task>, tasks': seq<Task>, i: nat, e: Examined, r: Ticked)
    requires i < |tasks| && Result(e).Some? && tasks' == tasks[i := Result(e).value] && AllKept(tasks', i + 1, r)
    ensures AllKept(tasks, i, With(e, r))
  {
    assert With(e, r).trace[1..] == r.trace;
    assert tasks'[..i + 1] == tasks[..i] + [Result(e).value];
  }

  lemma WithRemoved(tasks: seq<Task>, i: nat, e: Examined, r: Ticked)
    requires i < |tasks| && Result(e).None? && AllKept(SwapOut(tasks, i), i, r)
    ensures AllKept(tasks, i, With(e, r))
  {
    SwapOutTail(tasks, i);
    assert With(e, r).trace[1..] == r.trace;
    assert [] + Kept(r.trace) == Kept(r.trace);
  }

  lemma TickFromNext(tasks: seq<Task>, i: nat, env: nat -> Visit, k: nat)
    requires i < |tasks|
    ensures var e := Examined(tasks[i], env(k));
            var r := if Result(e).Some? then TickFrom(tasks[i := Result(e).value], i + 1, env, k + 1)
                     else TickFrom(SwapOut(tasks, i), i, env, k + 1);
            TickFrom(tasks, i, env, k) == With(e, r)
  {
    assert tasks[i := tasks[i]] == tasks;
  }

  /**
   A tick examines every task present at its start exactly once and keeps exactly those that were not due
   or whose callback wanted to go on, up to order; the k-th examination sees the k-th reading.
   */
  lemma {:induction false} TickVisitsOnce(tasks: seq<Task>, i: nat, env: nat -> Visit, k: nat)
    requires i <= |tasks|
    ensures var r := TickFrom(tasks, i, env, k);
            AllExamined(tasks, i, r.trace) && AllKept(tasks, i, r) && InOrder(env, k, r.trace)
    decreases |tasks| - i
  {
    if i == |tasks| {
      assert tasks[..i] == tasks && tasks[i..] == [];
    } else {
      var e := Examined(tasks[i], env(k));
      TickFromNext(tasks, i, env, k);
      SwapOutTail(tasks, i);
      hide TickFrom;
      hide AllExamined;
      hide AllKept;
      hide InOrder;
      hide With;
      if Result(e).Some? {
        var tasks' := tasks[i := Result(e).value];
        var r := TickFrom(tasks', i + 1, env, k + 1);
        TickVisitsOnce(tasks', i + 1, env, k + 1);
        assert tasks'[i + 1..] == tasks[i + 1..];
        WithExamined(tasks, i, tasks', i + 1, e, r);
        WithKept(tasks, tasks', i, e, r);
        WithOrder(e, r, env, k);
      } else {
        var r := TickFrom(SwapOut(tasks, i), i, env, k + 1);
        TickVisitsOnce(SwapOut(tasks, i), i, env, k + 1);
        WithExamined(tasks, i, SwapOut(tasks, i), i, e, r);
        WithRemoved(tasks, i, e, r);
        WithOrder(e, r, env, k);
      }
    }
  }

  /** Of the m tasks from position i on, none that is due has a callback that ends it. */
  predicate NoneEnds(tasks: seq<Task>, i: nat, env: nat -> Visit, k: nat, m: nat)
    requires i + m <= |tasks|
  {
    forall q :: i <= q < i + m ==> GoesOn(tasks[q], env(k + q - i))
  }

  /** The task is not due, or its callback wants to go on. */
  predicate GoesOn(t: Task, v: Visit) {
    t.next > v.now || v.keep
  }

  lemma NoneEndsNext(tasks: seq<Task>, i: nat, env: nat -> Visit, k: nat, m: nat, t: Task)
    requires 0 < m && i + m <= |tasks| && NoneEnds(tasks, i, env, k, m)
    ensures Result(Examined(tasks[i], env(k))).Some? && NoneEnds(tasks[i := t], i + 1, env, k + 1, m - 1)
  {
    assert GoesOn(tasks[i], env(k + i - i));
    var tasks' := tasks[i := t];
    forall q | i + 1 <= q < i + m ensures GoesOn(tasks'[q], env(k + 1 + q - (i + 1))) {
      assert k + 1 + q - (i + 1) == k + q - i;
    }
  }

  /** As long as no callback ends its task, the tasks are examined in the order they are stored in. */
  lemma {:induction false} TickOrder(tasks: seq<Task>, i: nat, env: nat -> Visit, k: nat, m: nat)
    requires i + m < |tasks| && NoneEnds(tasks, i, env, k, m)
    ensures m < |TickFrom(tasks, i, env, k).trace|
    ensures TickFrom(tasks, i, env, k).trace[m] == Examined(tasks[i + m], env(k + m))
    decreases m
  {
    TickFromNext(tasks, i, env, k);
    hide TickFrom;
    hide NoneEnds;
    hide Result;
    if m > 0 {
      var t := Result(Examined(tasks[i], env(k)));
      NoneEndsNext(tasks, i, env, k, m, if t.Some? then t.value else tasks[i]);
      TickOrder(tasks[i := t.value], i + 1, env, k + 1, m - 1);
      assert k + 1 + (m - 1) == k + m && i + 1 + (m - 1) == i + m;
    }
  }

  /** A task whose callback ends it is replaced by the last one, which is examined next. */
  lemma TickAfterRemoval(tasks: seq<Task>, i: nat, env: nat -> Visit, k: nat)
    requires i + 1 < |tasks| && tasks[i].next <= env(k).now && !env(k).keep
    ensures |TickFrom(tasks, i, env, k).trace| > 1
    ensures TickFrom(tasks, i, env, k).trace[1] == Examined(tasks[|tasks| - 1], env(k + 1))
  {
    TickFromNext(tasks, i, env, k);
    TickFromNext(SwapOut(tasks, i), i, env, k + 1);
    hide TickFrom;
  }

  // One task through a tick.

  predicate UniqueIds(tasks: seq<Task>) {
    forall i, j :: 0 <= i < j < |tasks| ==> tasks[i].id != tasks[j].id
  }

  predicate HasId(tasks: seq<Task>, id: nat) {
    exists i :: 0 <= i < |tasks| && tasks[i].id == id
  }

  lemma SwapOutIds(tasks: seq<Task>, i: nat)
    requires UniqueIds(tasks) && i < |tasks|
    ensures UniqueIds(SwapOut(tasks, i)) && !HasId(SwapOut(tasks, i), tasks[i].id)
    ensures forall id :: HasId(SwapOut(tasks, i), id) ==> HasId(tasks, id)
  {
  }

  lemma SameIds(tasks: seq<Task>, i: nat, t: Task)
    requires UniqueIds(tasks) && i < |tasks| && t.id == tasks[i].id
    ensures UniqueIds(tasks[i := t])
    ensures forall id :: HasId(tasks[i := t], id) ==> HasId(tasks, id)
  {
    forall id | HasId(tasks[i := t], id)
      ensures HasId(tasks, id)
    {
      var j :| 0 <= j < |tasks| && tasks[i := t][j].id == id;
      assert tasks[j].id == id;
    }
  }

  /** A tick adds no identifiers and keeps them unique. */
  lemma {:induction false} TickIds(tasks: seq<Task>, i: nat, env: nat -> Visit, k: nat)
    requires UniqueIds(tasks) && i <= |tasks|
    ensures UniqueIds(TickFrom(tasks, i, env, k).tasks)
    ensures forall id :: HasId(TickFrom(tasks, i, env, k).tasks, id) ==> HasId(tasks, id)
    decreases |tasks| - i
  {
    if i < |tasks| {
      var e := Examined(tasks[i], env(k));
      TickFromNext(tasks, i, env, k);
      hide TickFrom;
      hide SwapOut;
      hide UniqueIds;
      hide HasId;
      if Result(e).Some? {
        SameIds(tasks, i, Result(e).value);
        TickIds(tasks[i := Result(e).value], i + 1, env, k + 1);
      } else {
        SwapOutIds(tasks, i);
        TickIds(SwapOut(tasks, i), i, env, k + 1);
      }
    }
  }

  /** What has been examined already stays. */
  lemma {:induction false} TickLeavesEarlier(tasks: seq<Task>, i: nat, env: nat -> Visit, k: nat, p: nat)
    requires p < i <= |tasks|
    ensures tasks[p] in TickFrom(tasks, i, env, k).tasks
    decreases |tasks| - i
  {
    if i < |tasks| {
      var e := Examined(tasks[i], env(k));
      TickFromNext(tasks, i, env, k);
      hide TickFrom;
      if Result(e).Some? {
        TickLeavesEarlier(tasks[i := Result(e).value], i + 1, env, k + 1, p);
      } else {
        TickLeavesEarlier(SwapOut(tasks, i), i, env, k + 1, p);
      }
    }
  }

  /** Among the tasks, the one that came from t is what its examination made of it. */
  predicate Follows(tasks: seq<Task>, t: Task, e: Examined) {
    && e.task == t
    && (Result(e).Some? ==> Result(e).value in tasks)
    && (Result(e).None? ==> !HasId(tasks, t.id))
  }

  lemma TickTracksFirst(tasks: seq<Task>, i: nat, env: nat -> Visit, k: nat)
    requires UniqueIds(tasks) && i < |tasks|
    ensures Follows(TickFrom(tasks, i, env, k).tasks, tasks[i], Examined(tasks[i], env(k)))
  {
    var e := Examined(tasks[i], env(k));
    TickFromNext(tasks, i, env, k);
    hide TickFrom;
    if Result(e).Some? {
      TickLeavesEarlier(tasks[i := Result(e).value], i + 1, env, k + 1, i);
    } else {
      SwapOutIds(tasks, i);
      TickIds(SwapOut(tasks, i), i, env, k + 1);
    }
  }

  /** The only examination of a task with this identifier is the j-th. */
  predicate OnlyAt(trace: seq<Examined>, id: nat, j: nat) {
    j < |trace| && forall m :: 0 <= m < |trace| ==> (trace[m].task.id == id <==> m == j)
  }

  predicate NoneFrom(tasks: seq<Task>, i: nat, id: nat) {
    forall q :: i <= q < |tasks| ==> tasks[q].id != id
  }

  /** A tick examines only tasks that are there. */
  lemma {:induction false} TickSkips(tasks: seq<Task>, i: nat, env: nat -> Visit, k: nat, id: nat)
    requires i <= |tasks| && NoneFrom(tasks, i, id)
    ensures forall j :: 0 <= j < |TickFrom(tasks, i, env, k).trace| ==>
              TickFrom(tasks, i, env, k).trace[j].task.id != id
    decreases |tasks| - i
  {
    if i < |tasks| {
      var e := Examined(tasks[i], env(k));
      TickFromNext(tasks, i, env, k);
      hide TickFrom;
      if Result(e).Some? {
        TickSkips(tasks[i := Result(e).value], i + 1, env, k + 1, id);
      } else {
        TickSkips(SwapOut(tasks, i), i, env, k + 1, id);
      }
    }
  }

  /**
   The one examination of t in a tick is the j-th, it sees reading k + j, and t is afterwards what that made of
   it.
   */
  predicate TrackedAt(r: Ticked, t: Task, env: nat -> Visit, k: nat, j: nat) {
    OnlyAt(r.trace, t.id, j) && r.trace[j] == Examined(t, env(k + j)) && Follows(r.tasks, t, r.trace[j])
  }

  lemma WithTracked(e: Examined, r: Ticked, t: Task, env: nat -> Visit, k: nat, j: nat)
    requires e.task.id != t.id && TrackedAt(r, t, env, k + 1, j)
    ensures TrackedAt(With(e, r), t, env, k, j + 1)
  {
    hide Follows;
    assert k + 1 + j == k + (j + 1);
    assert With(e, r).trace[j + 1] == r.trace[j];
  }

  lemma TickStartsWith(tasks: seq<Task>, i: nat, env: nat -> Visit, k: nat)
    requires UniqueIds(tasks) && i < |tasks|
    ensures TrackedAt(TickFrom(tasks, i, env, k), tasks[i], env, k, 0)
  {
    var e := Examined(tasks[i], env(k));
    TickFromNext(tasks, i, env, k);
    TickTracksFirst(tasks, i, env, k);
    hide TickFrom;
    hide Follows;
    if Result(e).Some? {
      TickSkips(tasks[i := Result(e).value], i + 1, env, k + 1, tasks[i].id);
    } else {
      SwapOutIds(tasks, i);
      assert forall q :: i <= q < |tasks| - 1 ==> HasId(SwapOut(tasks, i), SwapOut(tasks, i)[q].id);
      TickSkips(SwapOut(tasks, i), i, env, k + 1, tasks[i].id);
    }
  }

  lemma SwapOutAt(tasks: seq<Task>, i: nat, p: nat) returns (q: nat)
    requires i < p < |tasks|
    ensures i <= q < |SwapOut(tasks, i)| && SwapOut(tasks, i)[q] == tasks[p]
  {
    q := if p == |tasks| - 1 then i else p;
  }

  lemma DifferentIds(tasks: seq<Task>, i: nat, p: nat)
    requires UniqueIds(tasks) && i < p < |tasks|
    ensures tasks[i].id != tasks[p].id
  {
  }

  lemma ResultKeepsId(e: Examined)
    ensures Result(e).Some? ==> Result(e).value.id == e.task.id
  {
  }

  /** In a tick each task is examined exactly once and is afterwards what that made of it. */
  lemma {:induction false} TickTracks(tasks: seq<Task>, i: nat, env: nat -> Visit, k: nat, p: nat) returns (j: nat)
    requires UniqueIds(tasks) && i <= p < |tasks|
    ensures TrackedAt(TickFrom(tasks, i, env, k), tasks[p], env, k, j)
    decreases |tasks| - i
  {
    hide *;
    var e := Examined(tasks[i], env(k));
    TickFromNext(tasks, i, env, k);
    ResultKeepsId(e);
    if p == i {
      TickStartsWith(tasks, i, env, k);
      j := 0;
    } else {
      DifferentIds(tasks, i, p);
      if Result(e).Some? {
        var tasks' := tasks[i := Result(e).value];
        SameIds(tasks, i, Result(e).value);
        j := TickTracks(tasks', i + 1, env, k + 1, p);
        WithTracked(e, TickFrom(tasks', i + 1, env, k + 1), tasks[p], env, k, j);
      } else {
        SwapOutIds(tasks, i);
        var q := SwapOutAt(tasks, i, p);
        SwapOutShrinks(tasks, i);
        j := TickTracks(SwapOut(tasks, i), i, env, k + 1, q);
        WithTracked(e, TickFrom(SwapOut(tasks, i), i, env, k + 1), tasks[p], env, k, j);
      }
      j := j + 1;
    }
  }

  lemma SwapOutShrinks(tasks: seq<Task>, i: nat)
    requires i < |tasks|
    ensures |SwapOut(tasks, i)| == |tasks| - 1
  {
  }
}
