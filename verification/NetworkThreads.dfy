/**
 Threads, each with a timeline of its own, sharing one network listener, to which clients connect at any time
 (timeline.c, timeline_listener.c, listeners/tcp_listener.c).  A notification and a connection are one step each.
 */
module NetworkThreads {
  import opened Bytes
  import opened ListenerBuffers
  import opened Timelines
  import opened FileDump
  import opened TcpListeners
  import I = Interleaving

  /** The threads, the listener, and the history of what the listener was asked to do and by which threads. */
  datatype State = State(threads: seq<I.Thread>, tcp: Tcp, ops: seq<TcpOp>, owners: seq<nat>)

  datatype Step =
    | PushEvent(t: nat, e: Ev)
    | FlushTimeline(t: nat)
    | Notify(t: nat)
    | ClientJoins(blocks: seq<seq<byte>>)

  ghost predicate Sound(s: State) {
    && |s.tcp.pending| <= s.tcp.max
    && forall t :: 0 <= t < |s.threads| ==> I.SoundThread(s.tcp.max, s.threads[t])
  }

  predicate Idle(s: State, t: nat) {
    t < |s.threads| && s.threads[t].outbox == []
  }

  predicate Enabled(s: State, step: Step) {
    match step
    case PushEvent(t, e) => Idle(s, t) && ValidEvs([e]) && Suits(s.tcp.max, s.threads[t].line.serialize, [e])
    case FlushTimeline(t) => Idle(s, t)
    case Notify(t) => t < |s.threads| && s.threads[t].outbox != []
    case ClientJoins(_) => true
  }

  ghost function Apply(s: State, step: Step): State
    requires Sound(s) && Enabled(s, step)
  {
    match step
    case PushEvent(t, e) =>
      s.(threads := s.threads[t := I.StartOf(s.threads[t], PushLine(s.threads[t].line, e), [e])])
    case FlushTimeline(t) =>
      s.(threads := s.threads[t := I.StartOf(s.threads[t], FlushLine(s.threads[t].line), [])])
    case Notify(t) =>
      var th := s.threads[t];
      I.TakesGroup(s.tcp.max, th);
      State(s.threads[t := th.(outbox := th.outbox[1..])], PushTcp(s.tcp, NoteOf(th.line.serialize, th.outbox[0])),
            s.ops + [TcpOp.Push(th.line.serialize, th.outbox[0])], s.owners + [t])
    case ClientJoins(blocks) => s.(tcp := Connect(s.tcp, blocks), ops := s.ops + [TcpOp.ClientConnected(blocks)])
  }

  // What a step does.

  /** A thread that has made its notifications can flush, and can push what the listener can take. */
  lemma WhenEnabled(s: State, t: nat, e: Ev)
    requires t < |s.threads|
    ensures Enabled(s, FlushTimeline(t)) <==> s.threads[t].outbox == []
    ensures Enabled(s, Notify(t)) <==> s.threads[t].outbox != []
    ensures Enabled(s, PushEvent(t, e)) <==>
              && s.threads[t].outbox == [] && e.bytes != [] && e.structSize > 0
              && (s.threads[t].line.serialize || |e.bytes| <= s.tcp.max)
  {
    assert [e][0] == e;
  }

  /** Thread t pushes, or hands over what its timeline holds: nothing else changes. */
  lemma ThreadEffect(s: State, t: nat, e: Ev)
    requires Sound(s) && t < |s.threads|
    ensures Enabled(s, PushEvent(t, e)) ==>
              var s' := Apply(s, PushEvent(t, e));
              && I.OthersKept(s.threads, s'.threads, t) && I.Handles(s.threads[t], s'.threads[t], [e])
              && s'.tcp == s.tcp && s'.ops == s.ops && s'.owners == s.owners
    ensures Enabled(s, FlushTimeline(t)) ==>
              var s' := Apply(s, FlushTimeline(t));
              && I.OthersKept(s.threads, s'.threads, t) && I.Handles(s.threads[t], s'.threads[t], [])
              && s'.tcp == s.tcp && s'.ops == s.ops && s'.owners == s.owners
  {
    assert I.SoundThread(s.tcp.max, s.threads[t]);
    I.FlushHandles(s.tcp.max, s.threads[t]);
    if Enabled(s, PushEvent(t, e)) {
      I.PushHandles(s.tcp.max, s.threads[t], e);
    }
    hide I.Handles;
    hide I.StartOf;
    hide PushLine;
    hide FlushLine;
    hide I.SoundThread;
  }

  // The log of a history.

  /** The events of some groups, each with the thread its group came from. */
  function LogOf(owners: seq<nat>, groups: seq<seq<Ev>>): seq<I.Entry>
    requires |owners| == |groups|
  {
    if groups == [] then []
    else
      var n := |groups| - 1;
      LogOf(owners[..n], groups[..n]) + I.Tag(owners[n], groups[n])
  }

  lemma LogSnoc(owners: seq<nat>, groups: seq<seq<Ev>>, t: nat, group: seq<Ev>)
    requires |owners| == |groups|
    ensures LogOf(owners + [t], groups + [group]) == LogOf(owners, groups) + I.Tag(t, group)
  {
    assert (owners + [t])[..|owners|] == owners && (groups + [group])[..|groups|] == groups;
  }

  lemma {:induction false} LogAppend(a: seq<nat>, x: seq<seq<Ev>>, b: seq<nat>, y: seq<seq<Ev>>)
    requires |a| == |x| && |b| == |y|
    ensures LogOf(a + b, x + y) == LogOf(a, x) + LogOf(b, y)
    decreases |y|
  {
    if y == [] {
      assert a + b == a && x + y == x && LogOf(a, x) + [] == LogOf(a, x);
    } else {
      var n := |y| - 1;
      hide *;
      LogAppend(a, x, b[..n], y[..n]);
      LogSnoc(a + b[..n], x + y[..n], b[n], y[n]);
      LogSnoc(b[..n], y[..n], b[n], y[n]);
      assert b == b[..n] + [b[n]] && y == y[..n] + [y[n]];
      ConcatAssoc(a, b[..n], [b[n]]);
      ConcatAssoc(x, y[..n], [y[n]]);
      ConcatAssoc(LogOf(a, x), LogOf(b[..n], y[..n]), I.Tag(b[n], y[n]));
    }
  }

  lemma {:induction false} LogEvents(owners: seq<nat>, groups: seq<seq<Ev>>)
    requires |owners| == |groups|
    ensures I.Events(LogOf(owners, groups)) == Concat(groups)
    decreases |groups|
  {
    if groups != [] {
      var n := |groups| - 1;
      LogEvents(owners[..n], groups[..n]);
      assert groups == groups[..n] + [groups[n]];
      ConcatSnoc(groups[..n], groups[n]);
      assert I.Events(LogOf(owners, groups)) == I.Events(LogOf(owners[..n], groups[..n])) + groups[n];
    }
  }

  predicate Owned(owners: seq<nat>, n: nat) {
    forall i :: 0 <= i < |owners| ==> owners[i] < n
  }

  lemma {:induction false} LogLogged(owners: seq<nat>, groups: seq<seq<Ev>>, n: nat)
    requires |owners| == |groups| && Owned(owners, n)
    ensures I.Logged(LogOf(owners, groups), n)
    decreases |groups|
  {
    if groups != [] {
      var m := |groups| - 1;
      LogLogged(owners[..m], groups[..m], n);
      I.LoggedTag(LogOf(owners[..m], groups[..m]), owners[m], groups[m], n);
    }
  }

  lemma {:induction false} OfAppend(a: seq<I.Entry>, b: seq<I.Entry>, t: nat)
    ensures I.Of(a + b, t) == I.Of(a, t) + I.Of(b, t)
  {
    if b == [] {
      assert a + b == a && I.Of(a, t) + [] == I.Of(a, t);
    } else {
      var n := |b| - 1;
      assert (a + b)[..|a + b| - 1] == a + b[..n];
      OfAppend(a, b[..n], t);
      ConcatAssoc(I.Of(a, t), I.Of(b[..n], t), if b[n].thread == t then [b[n].ev] else []);
    }
  }

  // What every step keeps.

  /** The log of everything the listener has been notified of. */
  ghost function Log(s: State): seq<I.Entry>
    requires |s.owners| == |Groups(s.ops)|
  {
    LogOf(s.owners, Groups(s.ops))
  }

  /** The history is that of the listener, and everything a thread pushed is in the log, on its way, or held. */
  ghost predicate Inv(s: State) {
    && Historical(s)
    && forall t :: 0 <= t < |s.threads| ==>
                     I.SoundThread(s.tcp.max, s.threads[t]) && I.Traced(s.threads[t], I.Of(Log(s), t), false)
  }

  ghost predicate Historical(s: State) {
    && AllAcceptable(s.tcp.max, s.ops) && s.tcp == TcpRun(s.tcp.max, s.ops)
    && |s.owners| == |Groups(s.ops)| && Owned(s.owners, |s.threads|)
  }

  lemma GroupsSnoc(ops: seq<TcpOp>, op: TcpOp)
    ensures Groups(ops + [op]) == if op.Push? then Groups(ops) + [op.evs] else Groups(ops)
  {
    assert (ops + [op])[..|ops|] == ops;
    assert Groups(ops) + [] == Groups(ops);
  }

  lemma RunSnoc(max: nat, ops: seq<TcpOp>, op: TcpOp)
    requires AllAcceptable(max, ops) && Acceptable(max, op)
    ensures AllAcceptable(max, ops + [op])
    ensures var t := TcpRun(max, ops);
            TcpRun(max, ops + [op])
            == if op.Push? then PushTcp(t, NoteOf(op.serialize, op.evs)) else Connect(t, op.blocks)
  {
    assert (ops + [op])[..|ops|] == ops;
    hide PushTcp;
    hide NoteOf;
    hide Accepts;
  }

  lemma NotifyApplied(s: State, t: nat)
    requires Sound(s) && Enabled(s, Notify(t))
    ensures t < |s.threads| && s.threads[t].outbox != []
    ensures var th := s.threads[t];
            var op := TcpOp.Push(th.line.serialize, th.outbox[0]);
            && I.SoundThread(s.tcp.max, th) && Acceptable(s.tcp.max, op) && |s.tcp.pending| <= s.tcp.max
            && Accepts(s.tcp.max, NoteOf(th.line.serialize, th.outbox[0]))
            && Apply(s, Notify(t)) == State(s.threads[t := th.(outbox := th.outbox[1..])],
                                            PushTcp(s.tcp, NoteOf(th.line.serialize, th.outbox[0])),
                                            s.ops + [op], s.owners + [t])
  {
    I.TakesGroup(s.tcp.max, s.threads[t]);
    hide I.SoundThread;
    hide PushTcp;
    hide NoteOf;
    hide Accepts;
  }

  lemma InvParts(s: State)
    ensures Inv(s) <==>
              && Historical(s)
              && forall t :: 0 <= t < |s.threads| ==>
                               I.SoundThread(s.tcp.max, s.threads[t]) && I.Traced(s.threads[t], I.Of(Log(s), t), false)
    ensures Historical(s) ==> |s.owners| == |Groups(s.ops)| && Owned(s.owners, |s.threads|)
    ensures Historical(s) ==> AllAcceptable(s.tcp.max, s.ops) && s.tcp == TcpRun(s.tcp.max, s.ops)
    ensures Inv(s) ==> Sound(s)
  {
    hide I.SoundThread;
    hide I.Traced;
    hide TcpRun;
    hide Groups;
    hide AllAcceptable;
  }

  lemma NotifyHistorical(s: State, t: nat)
    requires Inv(s) && Enabled(s, Notify(t))
    ensures Sound(s) && t < |s.threads| && s.threads[t].outbox != []
    ensures var s' := Apply(s, Notify(t));
            && |s.owners| == |Groups(s.ops)| && Historical(s') && s'.tcp.max == s.tcp.max
            && Log(s') == Log(s) + I.Tag(t, s.threads[t].outbox[0])
  {
    hide *;
    InvParts(s);
    NotifyApplied(s, t);
    var th := s.threads[t];
    var op := TcpOp.Push(th.line.serialize, th.outbox[0]);
    GroupsSnoc(s.ops, op);
    RunSnoc(s.tcp.max, s.ops, op);
    LogSnoc(s.owners, Groups(s.ops), t, th.outbox[0]);
    OwnedSnoc(s.owners, t, |s.threads|);
    HistoricalFrom(Apply(s, Notify(t)), s.tcp.max);
    LogIs(s);
    LogIs(Apply(s, Notify(t)));
  }

  lemma LogIs(s: State)
    requires |s.owners| == |Groups(s.ops)|
    ensures Log(s) == LogOf(s.owners, Groups(s.ops))
  {
  }

  lemma OwnedSnoc(owners: seq<nat>, t: nat, n: nat)
    requires Owned(owners, n) && t < n
    ensures Owned(owners + [t], n)
  {
  }

  lemma HistoricalFrom(s: State, max: nat)
    requires AllAcceptable(max, s.ops) && s.tcp == TcpRun(max, s.ops)
    requires |s.owners| == |Groups(s.ops)| && Owned(s.owners, |s.threads|)
    ensures Historical(s) && s.tcp.max == max
  {
  }

  lemma NotifyKeeps(s: State, t: nat)
    requires Inv(s) && Enabled(s, Notify(t))
    ensures Sound(s) && Inv(Apply(s, Notify(t)))
  {
    hide *;
    InvParts(s);
    NotifyApplied(s, t);
    NotifyHistorical(s, t);
    var th, s' := s.threads[t], Apply(s, Notify(t));
    I.NotifyTraced(s.tcp.max, th, I.Of(Log(s), t), false);
    InvParts(s');
    forall u | 0 <= u < |s'.threads|
      ensures I.SoundThread(s'.tcp.max, s'.threads[u]) && I.Traced(s'.threads[u], I.Of(Log(s'), u), false)
    {
      I.OfTag(Log(s), t, th.outbox[0], u);
      assert u != t ==> I.Of(Log(s), u) + [] == I.Of(Log(s), u);
    }
  }

  /** A change to one thread that leaves the listener alone. */
  lemma ThreadKeeps(s: State, t: nat, th: I.Thread)
    requires Inv(s) && t < |s.threads| && I.SoundThread(s.tcp.max, th)
    requires |s.owners| == |Groups(s.ops)| && I.Traced(th, I.Of(Log(s), t), false)
    ensures Inv(s.(threads := s.threads[t := th]))
  {
    hide I.SoundThread;
    hide I.Traced;
    hide TcpRun;
    hide AllAcceptable;
    hide Groups;
  }

  lemma JoinKeeps(s: State, blocks: seq<seq<byte>>)
    requires Inv(s) && Sound(s)
    ensures Inv(Apply(s, ClientJoins(blocks)))
  {
    var op := TcpOp.ClientConnected(blocks);
    RunSnoc(s.tcp.max, s.ops, op);
    GroupsSnoc(s.ops, op);
    hide I.SoundThread;
    hide I.Traced;
    hide TcpRun;
    hide Groups;
    hide AllAcceptable;
  }

  lemma StepKeepsInv(s: State, step: Step)
    requires Inv(s) && Enabled(s, step)
    ensures Sound(s) && Inv(Apply(s, step))
  {
    InvParts(s);
    hide I.SoundThread;
    hide I.Traced;
    hide Inv;
    hide Historical;
    hide Log;
    match step {
      case PushEvent(t, e) =>
        I.PushTraced(s.tcp.max, s.threads[t], e, I.Of(Log(s), t), false);
        ThreadKeeps(s, t, I.StartOf(s.threads[t], PushLine(s.threads[t].line, e), [e]));
      case FlushTimeline(t) =>
        I.FlushTraced(s.tcp.max, s.threads[t], I.Of(Log(s), t), false);
        ThreadKeeps(s, t, I.StartOf(s.threads[t], FlushLine(s.threads[t].line), []));
      case Notify(t) => NotifyKeeps(s, t);
      case ClientJoins(blocks) => JoinKeeps(s, blocks);
    }
  }

  // Whole runs.

  /** New timelines and a listener without clients. */
  ghost predicate Fresh(s: State) {
    && s.tcp == Tcp(s.tcp.max, [], [], false, true) && s.ops == [] && s.owners == []
    && forall t :: 0 <= t < |s.threads| ==>
                     s.threads[t] == I.Thread(Line(s.threads[t].line.serialize, s.threads[t].line.capacity, []), [], [])
  }

  ghost predicate Next(s: State, step: Step, s': State) {
    Enabled(s, step) && (Sound(s) ==> s' == Apply(s, step))
  }

  ghost predicate IsRun(states: seq<State>, steps: seq<Step>) {
    && |states| == |steps| + 1
    && forall i :: 0 <= i < |steps| ==> Next(states[i], steps[i], states[i + 1])
  }

  /** What a thread pushes in the steps of a run. */
  function Pushes(steps: seq<Step>, t: nat): seq<Ev> {
    if steps == [] then []
    else
      var last := steps[|steps| - 1];
      Pushes(steps[..|steps| - 1], t) + (if last.PushEvent? && last.t == t then [last.e] else [])
  }

  ghost predicate Accounts(s: State, steps: seq<Step>, n: nat) {
    |s.threads| == n && forall t :: 0 <= t < n ==> s.threads[t].pushed == Pushes(steps, t)
  }

  lemma FreshInv(s: State)
    requires Fresh(s)
    ensures Inv(s) && Accounts(s, [], |s.threads|)
  {
  }

  lemma AccountsStep(s: State, steps: seq<Step>, n: nat, step: Step)
    requires Sound(s) && Enabled(s, step) && Accounts(s, steps, n)
    ensures Accounts(Apply(s, step), steps + [step], n)
  {
    assert (steps + [step])[..|steps|] == steps;
    var s' := Apply(s, step);
    hide Sound;
    forall t | 0 <= t < n
      ensures s'.threads[t].pushed == Pushes(steps + [step], t)
    {
      assert Pushes(steps, t) + [] == Pushes(steps, t);
    }
  }

  /** The invariant in every state of every run; each thread has pushed what its steps so far pushed. */
  lemma {:induction false} RunKeepsInv(states: seq<State>, steps: seq<Step>, i: nat)
    requires IsRun(states, steps) && Fresh(states[0]) && i <= |steps|
    ensures Inv(states[i]) && Accounts(states[i], steps[..i], |states[0].threads|)
  {
    if i == 0 {
      FreshInv(states[0]);
      assert steps[..0] == [];
    } else {
      RunKeepsInv(states, steps, i - 1);
      assert Next(states[i - 1], steps[i - 1], states[i - 1 + 1]);
      StepKeepsInv(states[i - 1], steps[i - 1]);
      hide *;
      NextIs(states[i - 1], steps[i - 1], states[i]);
      AccountsStep(states[i - 1], steps[..i - 1], |states[0].threads|, steps[i - 1]);
      assert steps[..i] == steps[..i - 1] + [steps[i - 1]];
    }
  }

  lemma NextIs(s: State, step: Step, s': State)
    requires Next(s, step, s') && Sound(s)
    ensures Enabled(s, step) && s' == Apply(s, step)
  {
    hide Apply;
  }

  /** The history only grows. */
  ghost predicate Extends(s: State, s': State) {
    s.ops <= s'.ops && s.owners <= s'.owners && |s.threads| == |s'.threads| && s.tcp.max == s'.tcp.max
  }

  lemma StepExtends(s: State, step: Step)
    requires Sound(s) && Enabled(s, step)
    ensures Extends(s, Apply(s, step))
  {
  }

  lemma {:induction false} RunExtends(states: seq<State>, steps: seq<Step>, i: nat, j: nat)
    requires IsRun(states, steps) && Fresh(states[0]) && i <= j <= |steps|
    ensures Extends(states[i], states[j])
    decreases j
  {
    if i < j {
      RunExtends(states, steps, i, j - 1);
      RunKeepsInv(states, steps, j - 1);
      assert Next(states[j - 1], steps[j - 1], states[j - 1 + 1]);
      StepKeepsInv(states[j - 1], steps[j - 1]);
      hide *;
      NextIs(states[j - 1], steps[j - 1], states[j]);
      StepExtends(states[j - 1], steps[j - 1]);
      ExtendsOn(states[i], states[j - 1], states[j]);
    }
  }

  lemma ExtendsOn(a: State, b: State, c: State)
    requires Extends(a, b) && Extends(b, c)
    ensures Extends(a, c)
  {
  }

  // What a client gets.

  /** The events of a thread among the groups from the lo-th to the hi-th. */
  ghost function Received(s: State, lo: nat, hi: nat, t: nat): seq<Ev>
    requires lo <= hi <= |Groups(s.ops)| == |s.owners|
  {
    I.Of(LogOf(s.owners[lo..hi], Groups(s.ops)[lo..hi]), t)
  }

  /** What a thread has handed over or still holds and the listener has not been notified of. */
  function OnItsWay(th: I.Thread): seq<Ev> {
    Concat(th.outbox) + th.line.held
  }

  lemma ReceivedSplit(s: State, lo: nat, mid: nat, hi: nat, t: nat)
    requires lo <= mid <= hi <= |Groups(s.ops)| == |s.owners|
    ensures Received(s, lo, hi, t) == Received(s, lo, mid, t) + Received(s, mid, hi, t)
  {
    var owners, groups := s.owners, Groups(s.ops);
    assert owners[lo..hi] == owners[lo..mid] + owners[mid..hi] && groups[lo..hi] == groups[lo..mid] + groups[mid..hi];
    LogAppend(owners[lo..mid], groups[lo..mid], owners[mid..hi], groups[mid..hi]);
    OfAppend(LogOf(owners[lo..mid], groups[lo..mid]), LogOf(owners[mid..hi], groups[mid..hi]), t);
    hide Groups;
    hide LogOf;
  }

  /**
   Everything a thread pushed: the groups before two points, between them and behind them, then what is on its
   way.
   */
  lemma PushedSplit(s: State, lo: nat, hi: nat, t: nat)
    requires Inv(s) && lo <= hi <= |Groups(s.ops)| && t < |s.threads|
    ensures |Groups(s.ops)| == |s.owners|
    ensures s.threads[t].pushed
         == Received(s, 0, lo, t)
            + (Received(s, lo, hi, t) + (Received(s, hi, |s.owners|, t) + OnItsWay(s.threads[t])))
  {
    var n := |s.owners|;
    InvParts(s);
    assert I.Traced(s.threads[t], I.Of(Log(s), t), false);
    assert s.owners[0..n] == s.owners && Groups(s.ops)[0..n] == Groups(s.ops);
    assert I.Of(Log(s), t) == Received(s, 0, n, t);
    assert s.threads[t].pushed == Received(s, 0, n, t) + OnItsWay(s.threads[t]);
    hide *;
    ReceivedSplit(s, 0, lo, n, t);
    ReceivedSplit(s, lo, hi, n, t);
    FourParts(Received(s, 0, lo, t), Received(s, lo, hi, t), Received(s, hi, n, t), OnItsWay(s.threads[t]));
  }

  lemma FourParts(a: seq<Ev>, b: seq<Ev>, c: seq<Ev>, d: seq<Ev>)
    ensures (a + (b + c)) + d == a + (b + (c + d))
  {
  }

  lemma {:induction false} GroupsAppend(a: seq<TcpOp>, b: seq<TcpOp>)
    ensures Groups(a + b) == Groups(a) + Groups(b)
  {
    if b == [] {
      assert a + b == a && Groups(a) + [] == Groups(a);
    } else {
      var n := |b| - 1;
      assert (a + b)[..|a + b| - 1] == a + b[..n];
      GroupsAppend(a, b[..n]);
      ConcatAssoc(Groups(a), Groups(b[..n]), if b[n].Push? then [b[n].evs] else []);
    }
  }

  /** A longer history has the same groups and owners at its start. */
  lemma ReceivedStays(s: State, s': State, hi: nat, t: nat)
    requires Inv(s) && Inv(s') && Extends(s, s') && hi <= |Groups(s.ops)|
    ensures |Groups(s.ops)| == |s.owners| <= |Groups(s'.ops)| == |s'.owners|
    ensures Received(s', 0, hi, t) == Received(s, 0, hi, t)
  {
    assert s'.ops == s.ops + s'.ops[|s.ops|..];
    GroupsAppend(s.ops, s'.ops[|s.ops|..]);
    assert Groups(s'.ops)[0..hi] == Groups(s.ops)[0..hi] && s'.owners[0..hi] == s.owners[0..hi];
  }

  lemma {:induction false} JoinsGrow(max: nat, a: seq<TcpOp>, b: seq<TcpOp>)
    requires a <= b
    ensures Joins(max, a) <= Joins(max, b)
    decreases |b|
  {
    if a != b {
      JoinsGrow(max, a, b[..|b| - 1]);
    } else {
      assert Joins(max, a) <= Joins(max, b);
    }
  }

  /** The bytes of the client that joined at step i, in a later state. */
  lemma JoinedBytes(s: State, blocks: seq<seq<byte>>, s': State)
    requires Inv(s) && Inv(s') && Extends(s.(ops := s.ops + [TcpOp.ClientConnected(blocks)]), s')
    ensures var c, at, sent := |s.tcp.clients|, Sent(s.tcp.max, s.ops), Sent(s'.tcp.max, s'.ops);
            && c < |s'.tcp.clients| && at <= sent
            && s'.tcp.clients[c] == Concat(blocks) + BytesOf(Concat(Groups(s'.ops)[at..sent]))
  {
    var max, ops := s.tcp.max, s.ops + [TcpOp.ClientConnected(blocks)];
    var c := |s.tcp.clients|;
    InvParts(s);
    InvParts(s');
    assert s'.tcp.max == max;
    hide Inv;
    hide Historical;
    TcpStaysOnBoundary(max, s.ops);
    BoundaryCounts(s.tcp, Groups(s.ops), Sent(max, s.ops), Joins(max, s.ops));
    JoinsSnoc(max, s.ops, blocks);
    JoinsGrow(max, ops, s'.ops);
    hide *;
    assert Joins(max, s'.ops)[c] == Joined(Concat(blocks), Sent(max, s.ops));
    ClientBytes(max, s'.ops, c);
  }

  lemma BoundaryCounts(t: Tcp, groups: seq<seq<Ev>>, sent: nat, joined: seq<Joined>)
    requires OnBoundary(t, groups, sent, joined)
    ensures |t.clients| == |joined|
  {
  }

  lemma JoinsSnoc(max: nat, ops: seq<TcpOp>, blocks: seq<seq<byte>>)
    ensures Joins(max, ops + [TcpOp.ClientConnected(blocks)])
            == Joins(max, ops) + [Joined(Concat(blocks), Sent(max, ops))]
  {
    assert (ops + [TcpOp.ClientConnected(blocks)])[..|ops|] == ops;
  }

  /** A run in which a client joins at step i, and a later state of it. */
  ghost predicate Joining(states: seq<State>, steps: seq<Step>, i: nat, j: nat) {
    IsRun(states, steps) && Fresh(states[0]) && i < j <= |steps| && steps[i].ClientJoins?
  }

  /** The log of what the client that joined at step i has been sent by step j. */
  ghost function ClientLog(states: seq<State>, i: nat, j: nat): seq<I.Entry>
    requires i < |states| && j < |states| && |states[j].owners| == |Groups(states[j].ops)|
    requires Sent(states[i].tcp.max, states[i].ops) <= Sent(states[j].tcp.max, states[j].ops)
  {
    var at, sent := Sent(states[i].tcp.max, states[i].ops), Sent(states[j].tcp.max, states[j].ops);
    LogOf(states[j].owners[at..sent], Groups(states[j].ops)[at..sent])
  }

  /**
   In every run, for every client: its bytes are the metadata it was sent when it joined and a merge of events of
   the threads.  What a thread has pushed is, in this order: events sent before the client joined, all of which
   it had pushed by then; what the client has been sent; what the listener holds; and what is on its way.  So the
   client misses nothing pushed since it joined, and gets nothing twice or out of order.
   */
  lemma ClientGetsMerge(states: seq<State>, steps: seq<Step>, i: nat, j: nat)
    requires Joining(states, steps, i, j)
    ensures i < j <= |steps| && steps[i].ClientJoins? && |states| == |steps| + 1
    ensures |states[j].owners| == |Groups(states[j].ops)|
    ensures Sent(states[i].tcp.max, states[i].ops) <= Sent(states[j].tcp.max, states[j].ops)
    ensures var s, log, c := states[j], ClientLog(states, i, j), |states[i].tcp.clients|;
            && c < |s.tcp.clients| && s.tcp.clients[c] == Concat(steps[i].blocks) + BytesOf(I.Events(log))
            && I.Logged(log, |states[0].threads|) && |s.threads| == |states[0].threads|
    ensures forall t :: 0 <= t < |states[0].threads| ==> Shares(states, steps, i, j, t)
  {
    hide *;
    RunStates(states, steps, i, j);
    var s, s' := states[i], states[j];
    var at, sent := Sent(s.tcp.max, s.ops), Sent(s'.tcp.max, s'.ops);
    InvParts(s');
    JoinedBytes(s, steps[i].blocks, s');
    ClientLogIs(states, i, j);
    LogEvents(s'.owners[at..sent], Groups(s'.ops)[at..sent]);
    OwnedSlice(s'.owners, at, sent, |s'.threads|);
    LogLogged(s'.owners[at..sent], Groups(s'.ops)[at..sent], |s'.threads|);
    forall t | 0 <= t < |states[0].threads|
      ensures Shares(states, steps, i, j, t)
    {
      ThreadShares(states, steps, i, j, t);
    }
  }

  /** The bytes written, by step j, to the client that joined at step i. */
  ghost function SentTo(states: seq<State>, steps: seq<Step>, i: nat, j: nat): seq<byte>
    requires Joining(states, steps, i, j)
  {
    ClientGetsMerge(states, steps, i, j);
    states[j].tcp.clients[|states[i].tcp.clients|]
  }

  lemma SentToIs(states: seq<State>, steps: seq<Step>, i: nat, j: nat)
    requires Joining(states, steps, i, j)
    ensures i < j < |states| && |states[i].tcp.clients| < |states[j].tcp.clients|
    ensures SentTo(states, steps, i, j) == states[j].tcp.clients[|states[i].tcp.clients|]
  {
    ClientGetsMerge(states, steps, i, j);
    hide Joining;
  }

  /** How the pushes of thread t are divided between the time before the client joined, the client, and the rest. */
  ghost predicate Shares(states: seq<State>, steps: seq<Step>, i: nat, j: nat, t: nat)
    requires i < j <= |steps| && |states| == |steps| + 1
    requires |states[j].owners| == |Groups(states[j].ops)| && t < |states[j].threads|
    requires Sent(states[i].tcp.max, states[i].ops) <= Sent(states[j].tcp.max, states[j].ops)
  {
    var s, n := states[j], |states[j].owners|;
    var at, sent := Sent(states[i].tcp.max, states[i].ops), Sent(s.tcp.max, s.ops);
    && Received(s, 0, at, t) <= Pushes(steps[..i], t)
    && Pushes(steps[..j], t)
       == Received(s, 0, at, t)
          + (I.Of(ClientLog(states, i, j), t) + (Received(s, sent, n, t) + OnItsWay(s.threads[t])))
  }

  lemma RunStates(states: seq<State>, steps: seq<Step>, i: nat, j: nat)
    requires Joining(states, steps, i, j)
    ensures i < j <= |steps| && steps[i].ClientJoins? && |states| == |steps| + 1
    ensures Inv(states[i]) && Inv(states[j])
    ensures Extends(states[i], states[j])
    ensures Extends(states[i].(ops := states[i].ops + [TcpOp.ClientConnected(steps[i].blocks)]), states[j])
    ensures |states[i].threads| == |states[j].threads| == |states[0].threads|
    ensures forall t :: 0 <= t < |states[0].threads| ==>
                          states[i].threads[t].pushed == Pushes(steps[..i], t)
                          && states[j].threads[t].pushed == Pushes(steps[..j], t)
  {
    RunKeepsInv(states, steps, i);
    RunKeepsInv(states, steps, j);
    RunExtends(states, steps, i, j);
    RunExtends(states, steps, i + 1, j);
    assert Next(states[i], steps[i], states[i + 1]);
    StepKeepsInv(states[i], steps[i]);
    hide Inv;
    hide Fresh;
    hide IsRun;
    hide Sound;
  }

  lemma OwnedSlice(owners: seq<nat>, lo: nat, hi: nat, n: nat)
    requires Owned(owners, n) && lo <= hi <= |owners|
    ensures Owned(owners[lo..hi], n)
  {
  }

  lemma ClientLogIs(states: seq<State>, i: nat, j: nat)
    requires i < |states| && j < |states| && |states[j].owners| == |Groups(states[j].ops)|
    requires Sent(states[i].tcp.max, states[i].ops) <= Sent(states[j].tcp.max, states[j].ops)
    ensures var s, at := states[j], Sent(states[i].tcp.max, states[i].ops);
            var sent := Sent(s.tcp.max, s.ops);
            && ClientLog(states, i, j) == LogOf(s.owners[at..sent], Groups(s.ops)[at..sent])
            && forall t :: I.Of(ClientLog(states, i, j), t) == Received(s, at, sent, t)
  {
    hide LogOf;
    hide Groups;
  }

  lemma ThreadShares(states: seq<State>, steps: seq<Step>, i: nat, j: nat, t: nat)
    requires Joining(states, steps, i, j)
    requires t < |states[0].threads| == |states[j].threads| && |states| == |steps| + 1
    requires |states[j].owners| == |Groups(states[j].ops)|
    requires Sent(states[i].tcp.max, states[i].ops) <= Sent(states[j].tcp.max, states[j].ops)
    ensures Shares(states, steps, i, j, t)
  {
    hide *;
    RunStates(states, steps, i, j);
    var s, s' := states[i], states[j];
    var at, sent := Sent(s.tcp.max, s.ops), Sent(s'.tcp.max, s'.ops);
    PushedSplit(s, at, at, t);
    PushedSplit(s', at, sent, t);
    ReceivedStays(s, s', at, t);
    ClientLogIs(states, i, j);
    SharesFrom(states, steps, i, j, t);
  }

  lemma SharesFrom(states: seq<State>, steps: seq<Step>, i: nat, j: nat, t: nat)
    requires i < j <= |steps| && |states| == |steps| + 1
    requires |states[j].owners| == |Groups(states[j].ops)| && t < |states[j].threads|
    requires Sent(states[i].tcp.max, states[i].ops) <= Sent(states[j].tcp.max, states[j].ops)
    requires var s, n, at := states[j], |states[j].owners|, Sent(states[i].tcp.max, states[i].ops);
             var sent := Sent(s.tcp.max, s.ops);
             && Received(s, 0, at, t) <= Pushes(steps[..i], t)
             && Pushes(steps[..j], t)
                == Received(s, 0, at, t)
                   + (I.Of(ClientLog(states, i, j), t) + (Received(s, sent, n, t) + OnItsWay(s.threads[t])))
    ensures Shares(states, steps, i, j, t)
  {
    hide Received;
    hide ClientLog;
    hide Sent;
    hide Groups;
    hide Pushes;
    hide OnItsWay;
  }
}
