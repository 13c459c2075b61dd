/**
 When tasks run (task_scheduler.c): one task through the examinations made of it, and the scheduler through
 whole sequences of scheduling, removing and ticking.
 */
module SchedulingTimes {
  import opened Bytes
  import opened Bags
  import opened Scheduling

  // One task.

  /** The task is never removed by its own callback during these examinations. */
  predicate Survives(t: Task, visits: seq<Visit>)
    decreases |visits|, 0
  {
    visits == []
    || (Survives(t, visits[..|visits| - 1])
        && Result(Examined(Evolve(t, visits[..|visits| - 1]), visits[|visits| - 1])).Some?)
  }

  function Evolve(t: Task, visits: seq<Visit>): Task
    requires Survives(t, visits)
    decreases |visits|, 1
  {
    if visits == [] then t
    else Result(Examined(Evolve(t, visits[..|visits| - 1]), visits[|visits| - 1])).value
  }

  /** Nothing but the last of these examinations may have ended the task. */
  predicate Lives(t: Task, visits: seq<Visit>) {
    visits == [] || Survives(t, visits[..|visits| - 1])
  }

  /** The examinations at which the task ran, the one that ended it included. */
  function Runs(t: Task, visits: seq<Visit>): seq<Visit>
    requires Lives(t, visits)
  {
    if visits == [] then []
    else
      var before, v := visits[..|visits| - 1], visits[|visits| - 1];
      Runs(t, before) + (if Due(Examined(Evolve(t, before), v)) then [v] else [])
  }

  lemma {:induction false} EvolveKeeps(t: Task, visits: seq<Visit>)
    requires Survives(t, visits)
    ensures var t' := Evolve(t, visits); t'.id == t.id && t'.mode == t.mode && t'.period == t.period
  {
    if visits != [] {
      EvolveKeeps(t, visits[..|visits| - 1]);
    }
  }

  /** The last of a task's examinations. */
  lemma LastVisit(t: Task, visits: seq<Visit>)
    requires Lives(t, visits) && visits != []
    ensures var before, v := visits[..|visits| - 1], visits[|visits| - 1];
            && Survives(t, before) && Lives(t, before)
            && var e := Examined(Evolve(t, before), v);
               && Runs(t, visits) == (if Due(e) then Runs(t, before) + [v] else Runs(t, before))
               && (Survives(t, visits) <==> Result(e).Some?)
               && (Survives(t, visits) ==> Evolve(t, visits) == Result(e).value)
  {
    var before := visits[..|visits| - 1];
    assert Survives(t, before);
    assert before != [] ==> Survives(t, before[..|before| - 1]);
    assert Runs(t, before) + [] == Runs(t, before);
  }

  predicate NoEarlierThan(runs: seq<Visit>, t0: nat, period: nat) {
    forall n :: 0 <= n < |runs| ==> runs[n].now >= t0 + (n + 1) * period
  }

  /** A task that ignores delays stays on its schedule: run n is not before t0 + n * period. */
  lemma {:induction false} IgnoreDelaysSchedule(t: Task, t0: nat, visits: seq<Visit>)
    requires t.mode.IgnoreDelays? && t.next == t0 + t.period && Lives(t, visits)
    ensures Survives(t, visits) ==> Evolve(t, visits).next == t0 + (|Runs(t, visits)| + 1) * t.period
    ensures NoEarlierThan(Runs(t, visits), t0, t.period)
  {
    if visits != [] {
      var before := visits[..|visits| - 1];
      IgnoreDelaysSchedule(t, t0, before);
      EvolveKeeps(t, before);
      var n := |Runs(t, before)|;
      assert (n + 2) * t.period == (n + 1) * t.period + t.period;
    }
  }

  /** The examinations made at time T or later. */
  function LateVisits(visits: seq<Visit>, time: nat): nat {
    if visits == [] then 0
    else LateVisits(visits[..|visits| - 1], time) + (if visits[|visits| - 1].now >= time then 1 else 0)
  }

  function Minimum(a: nat, b: nat): nat {
    if a < b then a else b
  }

  /** How often a task of this period, scheduled at t0, should have run by a time. */
  function RunsBy(t0: nat, period: nat, time: nat): nat
    requires period > 0 && time >= t0
  {
    (time - t0) / period
  }

  lemma NotDueMeansCaughtUp(t0: nat, period: nat, time: nat, runs: nat, now: nat)
    requires period > 0 && time >= t0 && now >= time && t0 + (runs + 1) * period > now
    ensures RunsBy(t0, period, time) <= runs
  {
    var q := (time - t0) / period;
    assert q * period <= time - t0;
    assert q > runs ==> q * period >= (runs + 1) * period;
  }

  /** It also catches up: examined often enough at time T or later, it has run as often as its schedule asks by T. */
  lemma {:induction false} IgnoreDelaysCatchesUp(t: Task, t0: nat, visits: seq<Visit>, time: nat)
    requires t.mode.IgnoreDelays? && t.next == t0 + t.period && Lives(t, visits) && t.period > 0 && time >= t0
    ensures |Runs(t, visits)| >= Minimum(LateVisits(visits, time), RunsBy(t0, t.period, time))
  {
    if visits != [] {
      var before, v := visits[..|visits| - 1], visits[|visits| - 1];
      IgnoreDelaysCatchesUp(t, t0, before, time);
      IgnoreDelaysSchedule(t, t0, before);
      if v.now >= time && !Due(Examined(Evolve(t, before), v)) {
        NotDueMeansCaughtUp(t0, t.period, time, |Runs(t, before)|, v.now);
      }
    }
  }

  predicate SpacedBy(runs: seq<Visit>, t0: nat, period: nat) {
    && (runs != [] ==> runs[0].now >= t0 + period)
    && forall n :: 0 < n < |runs| ==> runs[n].now >= runs[n - 1].after + period
  }

  /** A task that restarts its timer leaves a whole period between the end of a run and the start of the next. */
  lemma {:induction false} RestartTimerSpacing(t: Task, t0: nat, visits: seq<Visit>)
    requires t.mode.RestartTimer? && t.next == t0 + t.period && Lives(t, visits)
    ensures SpacedBy(Runs(t, visits), t0, t.period)
    ensures var runs := Runs(t, visits);
            Survives(t, visits) ==>
              Evolve(t, visits).next == (if runs == [] then t0 else runs[|runs| - 1].after) + t.period
  {
    if visits != [] {
      var before := visits[..|visits| - 1];
      LastVisit(t, visits);
      RestartTimerSpacing(t, t0, before);
      EvolveKeeps(t, before);
      hide Survives;
      hide Evolve;
      hide Runs;
      hide Lives;
    }
  }

  /** A task is ended by exactly those of its runs whose callback says so. */
  lemma {:induction false} SurvivesWhenKept(t: Task, visits: seq<Visit>)
    requires Lives(t, visits)
    ensures Survives(t, visits) <==> forall n :: 0 <= n < |Runs(t, visits)| ==> Runs(t, visits)[n].keep
  {
    if visits != [] {
      var before := visits[..|visits| - 1];
      LastVisit(t, visits);
      SurvivesWhenKept(t, before);
      hide Survives;
      hide Evolve;
      hide Runs;
      hide Lives;
      var runs, runs', v := Runs(t, before), Runs(t, visits), visits[|visits| - 1];
      if runs' != runs {
        assert runs' == runs + [v] && runs'[|runs|] == v;
        assert forall n :: 0 <= n < |runs| ==> runs'[n] == runs[n];
        assert Survives(t, visits) <==> v.keep;
      }
    }
  }

  /** When the next run of a task is due, given those it has made. */
  function NextDue(mode: Mode, period: nat, t0: nat, runs: seq<Visit>): nat {
    match mode
    case IgnoreDelays => t0 + (|runs| + 1) * period
    case RestartTimer => (if runs == [] then t0 else runs[|runs| - 1].after) + period
  }

  /** An examination runs the task if and only if it is not before the time its earlier runs leave it due at. */
  lemma RunsWhenDue(t: Task, t0: nat, visits: seq<Visit>, v: Visit)
    requires t.next == t0 + t.period && Survives(t, visits)
    ensures Lives(t, visits) && Lives(t, visits + [v])
    ensures var runs := Runs(t, visits);
            Runs(t, visits + [v]) == if v.now >= NextDue(t.mode, t.period, t0, runs) then runs + [v] else runs
  {
    var all := visits + [v];
    assert all[..|all| - 1] == visits;
    assert visits != [] ==> Survives(t, visits[..|visits| - 1]);
    LastVisit(t, all);
    EvolveKeeps(t, visits);
    if t.mode.IgnoreDelays? {
      IgnoreDelaysSchedule(t, t0, visits);
    } else {
      RestartTimerSpacing(t, t0, visits);
    }
    hide Survives;
    hide Evolve;
    hide Runs;
    hide Lives;
  }

  // The scheduler.

  const INT32_MAX := 0x7FFF_FFFF

  /** The scheduler, and how many readings have been taken. */
  datatype Sched = Sched(tasks: seq<Task>, nextId: nat, readings: nat)

  datatype Op =
    | Schedule(mode: Mode, period: nat, now: nat, hasCallback: bool, created: bool, added: bool)
    | Remove(id: int)
    | Tick

  function ScheduleIn(s: Sched, op: Op): Sched
    requires op.Schedule?
  {
    if s.nextId == INT32_MAX || !op.hasCallback || !op.created then s
    else
      var t := Task(s.nextId, op.mode, op.period, op.now + op.period);
      s.(tasks := if op.added then s.tasks + [t] else s.tasks, nextId := s.nextId + 1)
  }

  /** The position of the task with an identifier, or the number of tasks. */
  function Position(tasks: seq<Task>, id: int): (i: nat)
    ensures i <= |tasks| && (i < |tasks| ==> tasks[i].id == id)
    ensures forall j :: 0 <= j < i ==> tasks[j].id != id
  {
    if tasks == [] then 0 else if tasks[0].id == id then 0 else 1 + Position(tasks[1..], id)
  }

  function RemoveFrom(tasks: seq<Task>, id: int): seq<Task> {
    var i := Position(tasks, id);
    if i < |tasks| then SwapOut(tasks, i) else tasks
  }

  function Do(s: Sched, op: Op, env: nat -> Visit): Sched {
    match op
    case Schedule(_, _, _, _, _, _) => ScheduleIn(s, op)
    case Remove(id) => s.(tasks := RemoveFrom(s.tasks, id))
    case Tick =>
      var r := TickFrom(s.tasks, 0, env, s.readings);
      s.(tasks := r.tasks, readings := s.readings + |r.trace|)
  }

  predicate ValidSched(s: Sched) {
    UniqueIds(s.tasks) && forall i :: 0 <= i < |s.tasks| ==> s.tasks[i].id < s.nextId
  }

  /** Every operation keeps identifiers unique, and brings back none that is gone. */
  lemma DoKeepsIds(s: Sched, op: Op, env: nat -> Visit)
    requires ValidSched(s)
    ensures ValidSched(Do(s, op, env)) && Do(s, op, env).nextId >= s.nextId
    ensures forall id: nat :: id < s.nextId && HasId(Do(s, op, env).tasks, id) ==> HasId(s.tasks, id)
  {
    match op {
      case Schedule(_, _, _, _, _, _) =>
        forall id: nat | id < s.nextId && HasId(Do(s, op, env).tasks, id) ensures HasId(s.tasks, id) {
          var i :| 0 <= i < |Do(s, op, env).tasks| && Do(s, op, env).tasks[i].id == id;
          assert i < |s.tasks|;
        }
      case Remove(id) =>
        if Position(s.tasks, id) < |s.tasks| {
          SwapOutIds(s.tasks, Position(s.tasks, id));
          IdsBelow(s, SwapOut(s.tasks, Position(s.tasks, id)));
        }
      case Tick =>
        TickIds(s.tasks, 0, env, s.readings);
        IdsBelow(s, TickFrom(s.tasks, 0, env, s.readings).tasks);
    }
  }

  lemma IdsBelow(s: Sched, tasks: seq<Task>)
    requires ValidSched(s) && forall id :: HasId(tasks, id) ==> HasId(s.tasks, id)
    ensures forall i :: 0 <= i < |tasks| ==> tasks[i].id < s.nextId
  {
    forall i | 0 <= i < |tasks| ensures tasks[i].id < s.nextId { assert HasId(tasks, tasks[i].id); }
  }

  function RunOps(s: Sched, ops: seq<Op>, env: nat -> Visit): Sched {
    if ops == [] then s else Do(RunOps(s, ops[..|ops| - 1], env), ops[|ops| - 1], env)
  }

  function Ticks(ops: seq<Op>): nat {
    if ops == [] then 0 else Ticks(ops[..|ops| - 1]) + (if ops[|ops| - 1].Tick? then 1 else 0)
  }

  // The examinations of one task in a run.

  /** The visits of a tick's trace that went to the task with an identifier. */
  function VisitsOf(trace: seq<Examined>, id: nat): seq<Visit> {
    if trace == [] then []
    else
      var n := |trace| - 1;
      VisitsOf(trace[..n], id) + (if trace[n].task.id == id then [trace[n].visit] else [])
  }

  function VisitsIn(s: Sched, op: Op, env: nat -> Visit, id: nat): seq<Visit> {
    if op.Tick? then VisitsOf(TickFrom(s.tasks, 0, env, s.readings).trace, id) else []
  }

  /** The visits of a whole run that went to the task with an identifier: each tick contributes its own. */
  function RunVisits(s: Sched, ops: seq<Op>, env: nat -> Visit, id: nat): seq<Visit> {
    if ops == [] then []
    else
      var before := ops[..|ops| - 1];
      var mid := RunOps(s, before, env);
      RunVisits(s, before, env, id) + VisitsIn(mid, ops[|ops| - 1], env, id)
  }

  lemma {:induction false} VisitsOfNone(trace: seq<Examined>, id: nat)
    requires forall j :: 0 <= j < |trace| ==> trace[j].task.id != id
    ensures VisitsOf(trace, id) == []
  {
    if trace != [] {
      VisitsOfNone(trace[..|trace| - 1], id);
    }
  }

  lemma {:induction false} VisitsOfOne(trace: seq<Examined>, id: nat, j: nat)
    requires OnlyAt(trace, id, j)
    ensures VisitsOf(trace, id) == [trace[j].visit]
  {
    var n := |trace| - 1;
    if j == n {
      VisitsOfNone(trace[..n], id);
    } else {
      VisitsOfOne(trace[..n], id, j);
    }
  }

  /**
   What a run has made of t: it is present exactly while its callback has not ended it and it was not removed;
   while present it has been examined in every tick and is what its visits made of it.
   */
  ghost predicate Tracks(tasks: seq<Task>, t: Task, visits: seq<Visit>, ticks: nat, removed: bool) {
    && Lives(t, visits) && |visits| <= ticks
    && (HasId(tasks, t.id) <==> Survives(t, visits) && !removed)
    && forall i :: 0 <= i < |tasks| && tasks[i].id == t.id ==>
                     |visits| == ticks && Survives(t, visits) && tasks[i] == Evolve(t, visits)
  }

  lemma OneWithId(tasks: seq<Task>, t: Task)
    requires UniqueIds(tasks) && t in tasks
    ensures HasId(tasks, t.id)
    ensures forall i :: 0 <= i < |tasks| && tasks[i].id == t.id ==> tasks[i] == t
  {
    var i :| 0 <= i < |tasks| && tasks[i] == t;
  }

  lemma NoneWithId(tasks: seq<Task>, id: nat)
    requires !HasId(tasks, id)
    ensures forall i :: 0 <= i < |tasks| ==> tasks[i].id != id
  {
  }

  lemma EvolveSnoc(t: Task, visits: seq<Visit>, v: Visit)
    requires Survives(t, visits)
    ensures var e := Examined(Evolve(t, visits), v);
            && Lives(t, visits + [v]) && (Survives(t, visits + [v]) <==> Result(e).Some?)
            && (Result(e).Some? ==> Evolve(t, visits + [v]) == Result(e).value)
  {
    assert (visits + [v])[..|visits|] == visits;
  }

  /** If t has become t', what a tick makes of t' is what it makes of t. */
  lemma TracksFollowed(tasks: seq<Task>, t: Task, visits: seq<Visit>, v: Visit, ticks: nat)
    requires UniqueIds(tasks) && Survives(t, visits) && Evolve(t, visits).id == t.id && |visits| == ticks
    requires Follows(tasks, Evolve(t, visits), Examined(Evolve(t, visits), v))
    ensures Tracks(tasks, t, visits + [v], ticks + 1, false)
  {
    var e := Examined(Evolve(t, visits), v);
    EvolveSnoc(t, visits, v);
    hide Survives;
    hide Evolve;
    hide Lives;
    if Result(e).Some? {
      OneWithId(tasks, Result(e).value);
    } else {
      NoneWithId(tasks, t.id);
    }
  }

  lemma TracksTick(s: Sched, env: nat -> Visit, t: Task, visits: seq<Visit>, ticks: nat, removed: bool)
    requires ValidSched(s) && Tracks(s.tasks, t, visits, ticks, removed)
    ensures var own := VisitsOf(TickFrom(s.tasks, 0, env, s.readings).trace, t.id);
            Tracks(Do(s, Tick, env).tasks, t, visits + own, ticks + 1, removed)
  {
    var r := TickFrom(s.tasks, 0, env, s.readings);
    TickIds(s.tasks, 0, env, s.readings);
    hide TickFrom;
    hide Survives;
    hide Evolve;
    hide Lives;
    hide VisitsOf;
    if HasId(s.tasks, t.id) {
      var p :| 0 <= p < |s.tasks| && s.tasks[p].id == t.id;
      var j := TickTracks(s.tasks, 0, env, s.readings, p);
      VisitsOfOne(r.trace, t.id, j);
      TracksFollowed(r.tasks, t, visits, r.trace[j].visit, ticks);
    } else {
      TickSkips(s.tasks, 0, env, s.readings, t.id);
      VisitsOfNone(r.trace, t.id);
      assert visits + [] == visits;
      TracksGone(r.tasks, t, visits, ticks, removed);
    }
  }

  lemma TracksGone(tasks: seq<Task>, t: Task, visits: seq<Visit>, ticks: nat, removed: bool)
    requires Lives(t, visits) && |visits| <= ticks && !HasId(tasks, t.id) && !(Survives(t, visits) && !removed)
    ensures Tracks(tasks, t, visits, ticks + 1, removed)
  {
    hide Survives;
    hide Lives;
    NoneWithId(tasks, t.id);
  }

  lemma RemoveIds(tasks: seq<Task>, id: int, other: nat)
    requires UniqueIds(tasks)
    ensures HasId(RemoveFrom(tasks, id), other) <==> HasId(tasks, other) && id != other
    ensures forall i :: 0 <= i < |RemoveFrom(tasks, id)| ==> RemoveFrom(tasks, id)[i] in tasks
  {
    var p := Position(tasks, id);
    if HasId(tasks, other) && id != other {
      var q :| 0 <= q < |tasks| && tasks[q].id == other;
      if p < |tasks| {
        var q' := if q == |tasks| - 1 then p else q;
        assert SwapOut(tasks, p)[q'].id == other;
      }
    }
    if p < |tasks| {
      SwapOutIds(tasks, p);
    }
  }

  lemma TracksOther(s: Sched, op: Op, env: nat -> Visit, t: Task, visits: seq<Visit>, ticks: nat, removed: bool)
    requires ValidSched(s) && t.id < s.nextId && Tracks(s.tasks, t, visits, ticks, removed) && !op.Tick?
    ensures Tracks(Do(s, op, env).tasks, t, visits, ticks, removed || op == Remove(t.id))
  {
    var s' := Do(s, op, env);
    hide Survives;
    hide Evolve;
    hide Lives;
    if op.Remove? {
      RemoveIds(s.tasks, op.id, t.id);
      hide RemoveFrom;
      forall i | 0 <= i < |s'.tasks| && s'.tasks[i].id == t.id
        ensures s'.tasks[i] in s.tasks
      {
      }
    } else {
      assert s.tasks <= s'.tasks;
      forall i | 0 <= i < |s'.tasks| && s'.tasks[i].id == t.id
        ensures i < |s.tasks|
      {
      }
      if HasId(s.tasks, t.id) {
        var i :| 0 <= i < |s.tasks| && s.tasks[i].id == t.id;
        assert s'.tasks[i].id == t.id;
      }
    }
  }

  /**
   Over any sequence of scheduling, removing and ticking, whatever happens to other tasks: a task is examined
   once in every tick until its callback ends it or it is removed, and is what its own examinations made of it.
   */
  lemma {:induction false} RunTracks(s: Sched, ops: seq<Op>, env: nat -> Visit, t: Task)
    requires ValidSched(s) && t in s.tasks
    ensures var s' := RunOps(s, ops, env);
            && ValidSched(s') && s'.nextId >= s.nextId
            && Tracks(s'.tasks, t, RunVisits(s, ops, env, t.id), Ticks(ops), Remove(t.id) in ops)
  {
    if ops == [] {
      OneWithId(s.tasks, t);
    } else {
      var n := |ops| - 1;
      var before, op := ops[..n], ops[n];
      RunTracks(s, before, env, t);
      var mid := RunOps(s, before, env);
      assert t.id < s.nextId;
      DoKeepsIds(mid, op, env);
      hide ValidSched;
      hide Tracks;
      assert ops == before + [op];
      assert Remove(t.id) in ops <==> Remove(t.id) in before || op == Remove(t.id);
      var visits := RunVisits(s, before, env, t.id);
      if op.Tick? {
        TracksTick(mid, env, t, visits, Ticks(before), Remove(t.id) in before);
      } else {
        assert visits + [] == visits;
        TracksOther(mid, op, env, t, visits, Ticks(before), Remove(t.id) in before);
      }
    }
  }

  /** What whole runs promise a task scheduled at t0, up to and including the run that ends it. */
  lemma TaskTimes(s: Sched, ops: seq<Op>, env: nat -> Visit, t: Task, t0: nat)
    requires ValidSched(s) && t in s.tasks && t.next == t0 + t.period
    ensures var visits, tasks := RunVisits(s, ops, env, t.id), RunOps(s, ops, env).tasks;
            && Lives(t, visits) && |visits| <= Ticks(ops)
            && (HasId(tasks, t.id) <==> Survives(t, visits) && Remove(t.id) !in ops)
            && (Survives(t, visits) <==> forall n :: 0 <= n < |Runs(t, visits)| ==> Runs(t, visits)[n].keep)
            && (HasId(tasks, t.id) ==> |visits| == Ticks(ops) && Evolve(t, visits) in tasks)
            && (t.mode.IgnoreDelays? ==> NoEarlierThan(Runs(t, visits), t0, t.period))
            && (t.mode.RestartTimer? ==> SpacedBy(Runs(t, visits), t0, t.period))
  {
    hide *;
    var visits := RunVisits(s, ops, env, t.id);
    RunTracks(s, ops, env, t);
    TracksParts(RunOps(s, ops, env).tasks, t, visits, Ticks(ops), Remove(t.id) in ops);
    SurvivesWhenKept(t, visits);
    if t.mode.IgnoreDelays? {
      IgnoreDelaysSchedule(t, t0, visits);
    } else {
      RestartTimerSpacing(t, t0, visits);
    }
  }

  lemma TracksParts(tasks: seq<Task>, t: Task, visits: seq<Visit>, ticks: nat, removed: bool)
    requires Tracks(tasks, t, visits, ticks, removed)
    ensures Lives(t, visits) && |visits| <= ticks
    ensures HasId(tasks, t.id) <==> Survives(t, visits) && !removed
    ensures HasId(tasks, t.id) ==> |visits| == ticks && Evolve(t, visits) in tasks
  {
    hide Survives;
    hide Evolve;
    hide Lives;
  }

  // Ticks made once the clock shows a time.

  /** A clock that does not go back. */
  ghost predicate Monotone(env: nat -> Visit) {
    forall i: nat, j: nat :: i <= j ==> env(i).now <= env(j).now
  }

  /** The last operation of a run. */
  lemma LastOp(s: Sched, ops: seq<Op>, env: nat -> Visit, id: nat)
    requires ops != []
    ensures var before, op := ops[..|ops| - 1], ops[|ops| - 1];
            var mid := RunOps(s, before, env);
            && RunOps(s, ops, env) == Do(mid, op, env) && Ticks(ops) == Ticks(before) + (if op.Tick? then 1 else 0)
            && RunVisits(s, ops, env, id) == RunVisits(s, before, env, id) + VisitsIn(mid, op, env, id)
  {
    hide Do;
    hide VisitsOf;
  }

  lemma {:induction false} RunAppend(s: Sched, a: seq<Op>, b: seq<Op>, env: nat -> Visit, id: nat)
    ensures RunOps(s, a + b, env) == RunOps(RunOps(s, a, env), b, env) && Ticks(a + b) == Ticks(a) + Ticks(b)
    ensures RunVisits(s, a + b, env, id) == RunVisits(s, a, env, id) + RunVisits(RunOps(s, a, env), b, env, id)
  {
    if b == [] {
      assert a + b == a;
      assert RunVisits(s, a, env, id) + [] == RunVisits(s, a, env, id);
    } else {
      hide *;
      var n := |b| - 1;
      var whole, mid := a + b, RunOps(s, a, env);
      assert whole[..|whole| - 1] == a + b[..n] && whole[|whole| - 1] == b[n];
      RunAppend(s, a, b[..n], env, id);
      LastOp(s, whole, env, id);
      LastOp(mid, b, env, id);
      ConcatAssoc(RunVisits(s, a, env, id), RunVisits(mid, b[..n], env, id),
                  VisitsIn(RunOps(mid, b[..n], env), b[n], env, id));
    }
  }

  predicate AllLate(visits: seq<Visit>, time: nat) {
    forall i :: 0 <= i < |visits| ==> visits[i].now >= time
  }

  lemma {:induction false} LateTrace(trace: seq<Examined>, id: nat, time: nat)
    requires forall j :: 0 <= j < |trace| ==> trace[j].visit.now >= time
    ensures AllLate(VisitsOf(trace, id), time)
  {
    if trace != [] {
      LateTrace(trace[..|trace| - 1], id, time);
    }
  }

  lemma LateOp(s: Sched, op: Op, env: nat -> Visit, id: nat, time: nat)
    requires Monotone(env) && env(s.readings).now >= time
    ensures Do(s, op, env).readings >= s.readings && AllLate(VisitsIn(s, op, env, id), time)
  {
    TickVisitsOnce(s.tasks, 0, env, s.readings);
    var trace := TickFrom(s.tasks, 0, env, s.readings).trace;
    hide TickFrom;
    forall j | 0 <= j < |trace|
      ensures trace[j].visit.now >= time
    {
      assert trace[j].visit == env(s.readings + j);
      assert env(s.readings).now <= env(s.readings + j).now;
    }
    LateTrace(trace, id, time);
  }

  lemma {:induction false} LateRun(s: Sched, ops: seq<Op>, env: nat -> Visit, id: nat, time: nat)
    requires Monotone(env) && env(s.readings).now >= time
    ensures RunOps(s, ops, env).readings >= s.readings && AllLate(RunVisits(s, ops, env, id), time)
  {
    if ops != [] {
      var before, op := ops[..|ops| - 1], ops[|ops| - 1];
      LateRun(s, before, env, id, time);
      LastOp(s, ops, env, id);
      var mid := RunOps(s, before, env);
      assert env(s.readings).now <= env(mid.readings).now;
      LateOp(mid, op, env, id, time);
      hide RunOps;
      hide RunVisits;
      hide VisitsIn;
      hide Do;
    }
  }

  lemma {:induction false} LateCount(a: seq<Visit>, b: seq<Visit>, time: nat)
    requires AllLate(b, time)
    ensures LateVisits(a + b, time) >= |b|
  {
    if b != [] {
      var n := |b| - 1;
      assert (a + b)[..|a + b| - 1] == a + b[..n];
      LateCount(a, b[..n], time);
    }
  }

  /** A task that is still there has been there all along. */
  lemma {:induction false} StillThere(s: Sched, ops: seq<Op>, env: nat -> Visit, id: nat)
    requires ValidSched(s) && id < s.nextId && HasId(RunOps(s, ops, env).tasks, id)
    ensures HasId(s.tasks, id)
  {
    if ops != [] {
      var before := ops[..|ops| - 1];
      RunKeepsIds(s, before, env);
      DoKeepsIds(RunOps(s, before, env), ops[|ops| - 1], env);
      StillThere(s, before, env, id);
    }
  }

  lemma {:induction false} RunKeepsIds(s: Sched, ops: seq<Op>, env: nat -> Visit)
    requires ValidSched(s)
    ensures ValidSched(RunOps(s, ops, env)) && RunOps(s, ops, env).nextId >= s.nextId
  {
    if ops != [] {
      RunKeepsIds(s, ops[..|ops| - 1], env);
      DoKeepsIds(RunOps(s, ops[..|ops| - 1], env), ops[|ops| - 1], env);
    }
  }

  /**
   After any operations a and then any operations b that begin once the clock shows T: a task that ignores
   delays and is still there has run at least min(ticks of b, (T - t0) / period) times.
   */
  lemma TaskCatchesUp(s: Sched, a: seq<Op>, b: seq<Op>, env: nat -> Visit, t: Task, t0: nat, time: nat)
    requires ValidSched(s) && t in s.tasks && t.next == t0 + t.period && t.mode.IgnoreDelays? && t.period > 0
    requires Monotone(env) && env(RunOps(s, a, env).readings).now >= time >= t0
    requires HasId(RunOps(s, a + b, env).tasks, t.id)
    ensures Lives(t, RunVisits(s, a + b, env, t.id))
    ensures |Runs(t, RunVisits(s, a + b, env, t.id))| >= Minimum(Ticks(b), RunsBy(t0, t.period, time))
  {
    hide *;
    var mid := RunOps(s, a, env);
    var first, second := RunVisits(s, a, env, t.id), RunVisits(mid, b, env, t.id);
    VisitsOfTwo(s, a, b, env, t);
    LateRun(mid, b, env, t.id, time);
    LateCount(first, second, time);
    IgnoreDelaysCatchesUp(t, t0, first + second, time);
    LeastOf(Ticks(b), LateVisits(first + second, time), RunsBy(t0, t.period, time));
  }

  /** A task still there after a and b was examined in every tick of b. */
  lemma VisitsOfTwo(s: Sched, a: seq<Op>, b: seq<Op>, env: nat -> Visit, t: Task)
    requires ValidSched(s) && t in s.tasks && HasId(RunOps(s, a + b, env).tasks, t.id)
    ensures var first, second := RunVisits(s, a, env, t.id), RunVisits(RunOps(s, a, env), b, env, t.id);
            RunVisits(s, a + b, env, t.id) == first + second && Lives(t, first + second) && |second| == Ticks(b)
  {
    hide *;
    var mid := RunOps(s, a, env);
    IdBelow(s, t);
    RunTracks(s, a, env, t);
    RunTracks(s, a + b, env, t);
    RunAppend(s, a, b, env, t.id);
    StillThere(mid, b, env, t.id);
    TracksParts(mid.tasks, t, RunVisits(s, a, env, t.id), Ticks(a), Remove(t.id) in a);
    TracksParts(RunOps(s, a + b, env).tasks, t, RunVisits(s, a + b, env, t.id), Ticks(a + b), Remove(t.id) in a + b);
  }

  lemma IdBelow(s: Sched, t: Task)
    requires ValidSched(s) && t in s.tasks
    ensures t.id < s.nextId
  {
  }

  lemma LeastOf(a: nat, b: nat, c: nat)
    requires a <= b
    ensures Minimum(a, c) <= Minimum(b, c)
  {
  }
}
