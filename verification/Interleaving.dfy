/**
 Threads, each with a timeline of its own, sharing one file listener (timeline.c, timeline_listener.c,
 listeners/file_dump_listener.c).  A push or a flush first changes the thread's timeline and then calls
 the listener once per group of events; steps of other threads may come between those calls.
 */
module Interleaving {
  import opened Bytes
  import opened ListenerBuffers
  import opened Timelines
  import opened FileDump

  /** A thread: its timeline, the notifications it still has to make, and every event it has pushed. */
  datatype Thread = Thread(line: Line, outbox: seq<seq<Ev>>, pushed: seq<Ev>)

  /** An event the listener took, and the thread it came from. */
  datatype Entry = Entry(thread: nat, ev: Ev)

  datatype State = State(threads: seq<Thread>, sink: Sink, log: seq<Entry>)

  datatype Step =
    | PushEvent(t: nat, e: Ev)
    | FlushTimeline(t: nat)
    | Notify(t: nat)
    | FlushListener
    | StopListener

  /** The events one thread contributed to a log. */
  function Of(log: seq<Entry>, t: nat): seq<Ev> {
    if log == [] then []
    else Of(log[..|log| - 1], t) + (if log[|log| - 1].thread == t then [log[|log| - 1].ev] else [])
  }

  function Events(log: seq<Entry>): (evs: seq<Ev>)
    ensures |evs| == |log| && forall i :: 0 <= i < |log| ==> evs[i] == log[i].ev
  {
    seq(|log|, i requires 0 <= i < |log| => log[i].ev)
  }

  function Tag(t: nat, evs: seq<Ev>): (log: seq<Entry>)
    ensures |log| == |evs| && forall i :: 0 <= i < |evs| ==> log[i] == Entry(t, evs[i])
  {
    seq(|evs|, i requires 0 <= i < |evs| => Entry(t, evs[i]))
  }

  lemma OfSnoc(log: seq<Entry>, x: Entry, t: nat)
    ensures Of(log + [x], t) == Of(log, t) + (if x.thread == t then [x.ev] else [])
  {
    assert (log + [x])[..|log|] == log;
  }

  lemma TagSnoc(log: seq<Entry>, t: nat, evs: seq<Ev>, n: nat)
    requires |evs| == n + 1
    ensures log + Tag(t, evs) == (log + Tag(t, evs[..n])) + [Entry(t, evs[n])]
  {
  }

  lemma {:induction false} OfTag(log: seq<Entry>, t: nat, evs: seq<Ev>, u: nat)
    ensures Of(log + Tag(t, evs), u) == Of(log, u) + (if u == t then evs else [])
    decreases |evs|
  {
    hide Of;
    if evs == [] {
      assert log + Tag(t, evs) == log;
    } else {
      var n := |evs| - 1;
      OfTag(log, t, evs[..n], u);
      TagSnoc(log, t, evs, n);
      OfSnoc(log + Tag(t, evs[..n]), Entry(t, evs[n]), u);
      assert evs[..n] + [evs[n]] == evs;
      ConcatAssoc(Of(log, u), evs[..n], [evs[n]]);
    }
  }

  predicate SoundThread(max: nat, th: Thread) {
    && ValidLine(th.line) && ValidGroups(th.outbox)
    && Suits(max, th.line.serialize, th.line.held) && SuitGroups(max, th.line.serialize, th.outbox)
  }

  ghost predicate Sound(s: State) {
    ValidSink(s.sink) && forall t :: 0 <= t < |s.threads| ==> SoundThread(s.sink.max, s.threads[t])
  }

  predicate Idle(s: State, t: nat) {
    t < |s.threads| && s.threads[t].outbox == []
  }

  /** A thread starts an operation only when its last one is over; events suit the listener. */
  predicate Enabled(s: State, step: Step) {
    match step
    case PushEvent(t, e) => Idle(s, t) && ValidEvs([e]) && Suits(s.sink.max, s.threads[t].line.serialize, [e])
    case FlushTimeline(t) => Idle(s, t)
    case Notify(t) => t < |s.threads| && s.threads[t].outbox != []
    case FlushListener => true
    case StopListener => true
  }

  function StartOf(th: Thread, h: Handed, more: seq<Ev>): Thread {
    Thread(h.line, h.groups, th.pushed + more)
  }

  /** The listener can take the next group of a sound thread. */
  lemma TakesGroup(max: nat, th: Thread)
    requires SoundThread(max, th) && th.outbox != []
    ensures Accepts(max, NoteOf(th.line.serialize, th.outbox[0]))
  {
    assert Suits(max, th.line.serialize, th.outbox[0]) && th.outbox[0][0].bytes != [];
  }

  ghost function Apply(s: State, step: Step): State
    requires Sound(s) && Enabled(s, step)
  {
    match step
    case PushEvent(t, e) =>
      s.(threads := s.threads[t := StartOf(s.threads[t], PushLine(s.threads[t].line, e), [e])])
    case FlushTimeline(t) =>
      s.(threads := s.threads[t := StartOf(s.threads[t], FlushLine(s.threads[t].line), [])])
    case Notify(t) =>
      var th := s.threads[t];
      TakesGroup(s.sink.max, th);
      State(s.threads[t := th.(outbox := th.outbox[1..])],
            Receive(s.sink, NoteOf(th.line.serialize, th.outbox[0])),
            if s.sink.stopped then s.log else s.log + Tag(t, th.outbox[0]))
    case FlushListener => s.(sink := FlushSink(s.sink))
    case StopListener => s.(sink := StopSink(s.sink))
  }

  // What a step does.

  /** All threads but t are as before. */
  predicate OthersKept(a: seq<Thread>, b: seq<Thread>, t: nat) {
    |a| == |b| && forall u :: 0 <= u < |a| && u != t ==> b[u] == a[u]
  }

  /** What becomes of the events of thread t, when it pushes or flushes. */
  predicate Handles(th: Thread, th': Thread, more: seq<Ev>) {
    && Concat(th'.outbox) + th'.line.held == th.line.held + more && th'.pushed == th.pushed + more
    && (more == [] ==> th'.line.held == [])
  }

  lemma PushHandles(max: nat, th: Thread, e: Ev)
    requires SoundThread(max, th) && ValidEvs([e])
    ensures Handles(th, StartOf(th, PushLine(th.line, e), [e]), [e])
  {
    PushKeepsEvents(th.line, e);
    hide PushLine;
    hide Concat;
  }

  lemma FlushHandles(max: nat, th: Thread)
    requires SoundThread(max, th)
    ensures Handles(th, StartOf(th, FlushLine(th.line), []), [])
  {
    FlushKeepsEvents(th.line);
    assert th.line.held + [] == th.line.held && th.pushed + [] == th.pushed;
    hide FlushLine;
    hide Concat;
  }

  /** A thread that has made its notifications can flush, and can push what the listener can take. */
  lemma WhenEnabled(s: State, t: nat, e: Ev)
    requires t < |s.threads|
    ensures Enabled(s, FlushTimeline(t)) <==> s.threads[t].outbox == []
    ensures Enabled(s, Notify(t)) <==> s.threads[t].outbox != []
    ensures Enabled(s, PushEvent(t, e)) <==>
              && s.threads[t].outbox == [] && e.bytes != [] && e.structSize > 0
              && (s.threads[t].line.serialize || |e.bytes| <= s.sink.max)
  {
    assert [e][0] == e;
  }

  /** Thread t pushes, or hands over what its timeline holds: nothing else changes. */
  lemma ThreadEffect(s: State, t: nat, e: Ev)
    requires Sound(s) && t < |s.threads|
    ensures Enabled(s, PushEvent(t, e)) ==>
              var s' := Apply(s, PushEvent(t, e));
              && OthersKept(s.threads, s'.threads, t) && Handles(s.threads[t], s'.threads[t], [e])
              && s'.sink == s.sink && s'.log == s.log
    ensures Enabled(s, FlushTimeline(t)) ==>
              var s' := Apply(s, FlushTimeline(t));
              && OthersKept(s.threads, s'.threads, t) && Handles(s.threads[t], s'.threads[t], [])
              && s'.sink == s.sink && s'.log == s.log
  {
    assert SoundThread(s.sink.max, s.threads[t]);
    FlushHandles(s.sink.max, s.threads[t]);
    if Enabled(s, PushEvent(t, e)) {
      PushHandles(s.sink.max, s.threads[t], e);
    }
    hide Handles;
    hide StartOf;
    hide PushLine;
    hide FlushLine;
    hide SoundThread;
  }

  /** A notification takes one group to the listener; a listener that has stopped drops it. */
  lemma NotifyEffect(s: State, t: nat)
    requires Sound(s) && t < |s.threads| && s.threads[t].outbox != []
    ensures Enabled(s, Notify(t))
    ensures var th, s' := s.threads[t], Apply(s, Notify(t));
            && OthersKept(s.threads, s'.threads, t) && s'.threads[t] == th.(outbox := th.outbox[1..])
            && (s.sink.stopped ==> s'.sink == s.sink && s'.log == s.log)
            && (!s.sink.stopped ==>
                  && s'.log == s.log + Tag(t, th.outbox[0])
                  && s'.sink.file + s'.sink.pending == (s.sink.file + s.sink.pending) + BytesOf(th.outbox[0]))
  {
    var th := s.threads[t];
    TakesGroup(s.sink.max, th);
    if !s.sink.stopped {
      ReceiveKeepsBytes(s.sink, NoteOf(th.line.serialize, th.outbox[0]));
    }
    hide Receive;
  }

  /** The listener's own steps write what is pending, and a stopped listener stays as it is. */
  lemma ListenerEffect(s: State)
    requires Sound(s)
    ensures var f, g := Apply(s, FlushListener), Apply(s, StopListener);
            && f.threads == s.threads == g.threads && f.log == s.log == g.log
            && f.sink.file == s.sink.file + s.sink.pending == g.sink.file && f.sink.pending == [] == g.sink.pending
            && f.sink.stopped == s.sink.stopped && g.sink.stopped
  {
    FlushSinkKeepsBytes(s.sink);
  }

  // What every step keeps.

  /** While the listener runs, everything a thread pushed is in the log, on its way, or still held. */
  predicate Traced(th: Thread, received: seq<Ev>, stopped: bool) {
    if stopped then received <= th.pushed
    else received + (Concat(th.outbox) + th.line.held) == th.pushed
  }

  /** Every entry of the log belongs to one of n threads. */
  predicate Logged(log: seq<Entry>, n: nat) {
    forall i :: 0 <= i < |log| ==> log[i].thread < n
  }

  ghost predicate Inv(preamble: seq<byte>, s: State) {
    && Sound(s) && Logged(s.log, |s.threads|)
    && s.sink.file + s.sink.pending == preamble + BytesOf(Events(s.log))
    && forall t :: 0 <= t < |s.threads| ==> Traced(s.threads[t], Of(s.log, t), s.sink.stopped)
  }

  lemma TracedAfterStop(th: Thread, received: seq<Ev>)
    requires Traced(th, received, false)
    ensures Traced(th, received, true)
  {
  }

  lemma PushTraced(max: nat, th: Thread, e: Ev, received: seq<Ev>, stopped: bool)
    requires SoundThread(max, th) && th.outbox == [] && ValidEvs([e]) && Suits(max, th.line.serialize, [e])
    requires Traced(th, received, stopped)
    ensures var th' := StartOf(th, PushLine(th.line, e), [e]);
            SoundThread(max, th') && Traced(th', received, stopped)
  {
    var h := PushLine(th.line, e);
    PushKeepsEvents(th.line, e);
    PushSuits(max, th.line, e);
    hide PushLine;
    hide ValidLine;
    assert Concat(th.outbox) + th.line.held == th.line.held;
    ConcatAssoc(received, th.line.held, [e]);
  }

  lemma FlushTraced(max: nat, th: Thread, received: seq<Ev>, stopped: bool)
    requires SoundThread(max, th) && th.outbox == [] && Traced(th, received, stopped)
    ensures var th' := StartOf(th, FlushLine(th.line), []);
            SoundThread(max, th') && Traced(th', received, stopped)
  {
    FlushKeepsEvents(th.line);
    assert Concat(th.outbox) + th.line.held == th.line.held;
    assert th.line.held + [] == th.line.held && th.pushed + [] == th.pushed;
  }

  lemma NotifyTraced(max: nat, th: Thread, received: seq<Ev>, stopped: bool)
    requires SoundThread(max, th) && th.outbox != [] && Traced(th, received, stopped)
    ensures var th' := th.(outbox := th.outbox[1..]);
            SoundThread(max, th') && Traced(th', if stopped then received else received + th.outbox[0], stopped)
  {
    var group, rest := th.outbox[0], Concat(th.outbox[1..]) + th.line.held;
    ConcatAssoc(group, Concat(th.outbox[1..]), th.line.held);
    ConcatAssoc(received, group, rest);
  }

  lemma LogBytes(log: seq<Entry>, t: nat, evs: seq<Ev>)
    ensures BytesOf(Events(log + Tag(t, evs))) == BytesOf(Events(log)) + BytesOf(evs)
  {
    assert Events(log + Tag(t, evs)) == Events(log) + evs;
    BytesAppend(Events(log), evs);
  }

  /** A change to one thread that leaves the listener alone. */
  lemma ThreadStep(preamble: seq<byte>, s: State, t: nat, th: Thread)
    requires Inv(preamble, s) && t < |s.threads|
    requires SoundThread(s.sink.max, th) && Traced(th, Of(s.log, t), s.sink.stopped)
    ensures Inv(preamble, s.(threads := s.threads[t := th]))
  {
  }

  lemma InvParts(preamble: seq<byte>, s: State)
    ensures Inv(preamble, s) <==>
              && ValidSink(s.sink) && Logged(s.log, |s.threads|)
              && s.sink.file + s.sink.pending == preamble + BytesOf(Events(s.log))
              && forall t :: 0 <= t < |s.threads| ==>
                               SoundThread(s.sink.max, s.threads[t])
                               && Traced(s.threads[t], Of(s.log, t), s.sink.stopped)
  {
    hide SoundThread;
    hide Traced;
    hide ValidSink;
    hide Logged;
    hide BytesOf;
  }

  lemma NotifyApplied(s: State, t: nat)
    requires Sound(s) && Enabled(s, Notify(t))
    ensures t < |s.threads| && s.threads[t].outbox != []
    ensures var th := s.threads[t];
            var note := NoteOf(th.line.serialize, th.outbox[0]);
            && ValidSink(s.sink) && SoundThread(s.sink.max, th)
            && Accepts(s.sink.max, note)
            && Apply(s, Notify(t)) == State(s.threads[t := th.(outbox := th.outbox[1..])], Receive(s.sink, note),
                                            if s.sink.stopped then s.log else s.log + Tag(t, th.outbox[0]))
  {
    TakesGroup(s.sink.max, s.threads[t]);
    hide SoundThread;
    hide Receive;
    hide NoteOf;
    hide Accepts;
    hide Tag;
  }

  lemma LoggedTag(log: seq<Entry>, t: nat, evs: seq<Ev>, n: nat)
    requires Logged(log, n) && t < n
    ensures Logged(log + Tag(t, evs), n)
  {
  }

  /** A running listener takes a group. */
  lemma NotifyReceived(preamble: seq<byte>, sink: Sink, log: seq<Entry>, t: nat, serialize: bool, group: seq<Ev>)
    requires ValidSink(sink) && !sink.stopped && Accepts(sink.max, NoteOf(serialize, group))
    requires sink.file + sink.pending == preamble + BytesOf(Events(log))
    ensures var sink' := Receive(sink, NoteOf(serialize, group));
            && ValidSink(sink') && !sink'.stopped && sink'.max == sink.max
            && sink'.file + sink'.pending == preamble + BytesOf(Events(log + Tag(t, group)))
  {
    ReceiveKeepsBytes(sink, NoteOf(serialize, group));
    LogBytes(log, t, group);
    ConcatAssoc(preamble, BytesOf(Events(log)), BytesOf(group));
    hide BytesOf;
    hide Events;
    hide Tag;
    hide Accepts;
  }

  lemma StoppedIgnores(sink: Sink, note: Note)
    requires ValidSink(sink) && sink.stopped && Accepts(sink.max, note)
    ensures Receive(sink, note) == sink
  {
  }

  lemma NotifyStep(preamble: seq<byte>, s: State, t: nat)
    requires Inv(preamble, s) && Enabled(s, Notify(t))
    ensures Sound(s) && Inv(preamble, Apply(s, Notify(t)))
  {
    assert Sound(s);
    hide *;
    NotifyApplied(s, t);
    InvParts(preamble, s);
    InvParts(preamble, Apply(s, Notify(t)));
    var th, s' := s.threads[t], Apply(s, Notify(t));
    NotifyTraced(s.sink.max, th, Of(s.log, t), s.sink.stopped);
    if s.sink.stopped {
      StoppedIgnores(s.sink, NoteOf(th.line.serialize, th.outbox[0]));
    } else {
      NotifyReceived(preamble, s.sink, s.log, t, th.line.serialize, th.outbox[0]);
      LoggedTag(s.log, t, th.outbox[0], |s.threads|);
      forall u | 0 <= u < |s.threads|
        ensures SoundThread(s.sink.max, s'.threads[u]) && Traced(s'.threads[u], Of(s'.log, u), false)
      {
        OfTag(s.log, t, th.outbox[0], u);
        assert u != t ==> Of(s.log, u) + [] == Of(s.log, u);
      }
    }
  }

  lemma ListenerStep(preamble: seq<byte>, s: State, step: Step)
    requires Inv(preamble, s) && (step.FlushListener? || step.StopListener?)
    ensures Inv(preamble, Apply(s, step))
  {
    FlushSinkKeepsBytes(s.sink);
    var s' := Apply(s, step);
    assert s'.sink.file + s'.sink.pending == s'.sink.file;
    hide SoundThread;
    forall t | 0 <= t < |s.threads|
      ensures Traced(s'.threads[t], Of(s'.log, t), s'.sink.stopped)
    {
      assert Traced(s.threads[t], Of(s.log, t), s.sink.stopped);
      if !s.sink.stopped {
        TracedAfterStop(s.threads[t], Of(s.log, t));
      }
    }
  }

  /** Every step keeps the invariant. */
  lemma StepKeepsInv(preamble: seq<byte>, s: State, step: Step)
    requires Inv(preamble, s) && Enabled(s, step)
    ensures Inv(preamble, Apply(s, step))
  {
    match step {
      case PushEvent(t, e) =>
        PushTraced(s.sink.max, s.threads[t], e, Of(s.log, t), s.sink.stopped);
        ThreadStep(preamble, s, t, StartOf(s.threads[t], PushLine(s.threads[t].line, e), [e]));
      case FlushTimeline(t) =>
        FlushTraced(s.sink.max, s.threads[t], Of(s.log, t), s.sink.stopped);
        ThreadStep(preamble, s, t, StartOf(s.threads[t], FlushLine(s.threads[t].line), []));
      case Notify(t) => NotifyStep(preamble, s, t);
      case FlushListener => ListenerStep(preamble, s, step);
      case StopListener => ListenerStep(preamble, s, step);
    }
  }

  // Whole runs.

  /** New timelines, and a listener that holds the preamble written when it was created. */
  ghost predicate Fresh(preamble: seq<byte>, s: State) {
    && ValidSink(s.sink) && !s.sink.stopped && s.sink.file + s.sink.pending == preamble && s.log == []
    && forall t :: 0 <= t < |s.threads| ==>
                     s.threads[t] == Thread(Line(s.threads[t].line.serialize, s.threads[t].line.capacity, []), [], [])
  }

  ghost predicate Next(s: State, step: Step, s': State) {
    Enabled(s, step) && (Sound(s) ==> s' == Apply(s, step))
  }

  /** The states of a run follow each other by enabled steps. */
  ghost predicate IsRun(states: seq<State>, steps: seq<Step>) {
    && |states| == |steps| + 1
    && forall i :: 0 <= i < |steps| ==> Next(states[i], steps[i], states[i + 1])
  }

  lemma FreshInv(preamble: seq<byte>, s: State)
    requires Fresh(preamble, s)
    ensures Inv(preamble, s)
  {
    assert preamble + BytesOf(Events([])) == preamble;
  }

  /** What a thread pushes in the steps of a run. */
  function Pushes(steps: seq<Step>, t: nat): seq<Ev> {
    if steps == [] then []
    else
      var last := steps[|steps| - 1];
      Pushes(steps[..|steps| - 1], t) + (if last.PushEvent? && last.t == t then [last.e] else [])
  }

  /** The threads are still those of the start, and each has pushed what the steps say. */
  ghost predicate Accounts(s: State, steps: seq<Step>, n: nat) {
    |s.threads| == n && forall t :: 0 <= t < n ==> s.threads[t].pushed == Pushes(steps, t)
  }

  lemma AccountsStep(s: State, steps: seq<Step>, n: nat, step: Step)
    requires Sound(s) && Enabled(s, step) && Accounts(s, steps, n)
    ensures Accounts(Apply(s, step), steps + [step], n)
  {
    assert (steps + [step])[..|steps|] == steps;
    var s' := Apply(s, step);
    hide Sound;
    forall t | 0 <= t < n
      ensures s'.threads[t].pushed == Pushes(steps + [step], t)
    {
      assert Pushes(steps, t) + [] == Pushes(steps, t);
    }
  }

  /**
   For any number of threads and any interleaving of their pushes, flushes and notifications, the bytes
   written and pending are whole events of those threads, in an order that keeps each thread's own.
   */
  lemma {:induction false} InterleavingSafety(preamble: seq<byte>, states: seq<State>, steps: seq<Step>, i: nat)
    requires IsRun(states, steps) && Fresh(preamble, states[0]) && i < |states|
    ensures Inv(preamble, states[i]) && Accounts(states[i], steps[..i], |states[0].threads|)
  {
    if i == 0 {
      FreshInv(preamble, states[0]);
    } else {
      InterleavingSafety(preamble, states, steps, i - 1);
      assert Next(states[i - 1], steps[i - 1], states[i - 1 + 1]);
      hide *;
      NextKeeps(preamble, states[i - 1], steps[..i - 1], |states[0].threads|, steps[i - 1], states[i]);
      assert steps[..i] == steps[..i - 1] + [steps[i - 1]];
    }
  }

  lemma NextKeeps(preamble: seq<byte>, s: State, steps: seq<Step>, n: nat, step: Step, s': State)
    requires Inv(preamble, s) && Accounts(s, steps, n) && Next(s, step, s')
    ensures Inv(preamble, s') && Accounts(s', steps + [step], n)
  {
    StepKeepsInv(preamble, s, step);
    AccountsStep(s, steps, n, step);
  }

  /** Every thread has destroyed its timeline, so nothing is held or on its way. */
  predicate Drained(s: State) {
    forall t :: 0 <= t < |s.threads| ==> s.threads[t].outbox == [] && s.threads[t].line.held == []
  }

  /** The log is a merge of what n threads pushed: it holds their events in their orders, and nothing else. */
  ghost predicate IsMerge(log: seq<Entry>, n: nat, steps: seq<Step>) {
    Logged(log, n) && forall t :: 0 <= t < n ==> Of(log, t) == Pushes(steps, t)
  }

  /** A run in which every timeline has been destroyed and the listener not stopped yet. */
  ghost predicate Complete(preamble: seq<byte>, states: seq<State>, steps: seq<Step>) {
    && IsRun(states, steps) && Fresh(preamble, states[0])
    && Drained(states[|steps|]) && !states[|steps|].sink.stopped
  }

  /** The file once the listener is stopped. */
  ghost function FileOf(preamble: seq<byte>, states: seq<State>, steps: seq<Step>): seq<byte>
    requires Complete(preamble, states, steps)
  {
    InterleavingSafety(preamble, states, steps, |steps|);
    Apply(states[|steps|], StopListener).sink.file
  }

  /**
   In every run: once all timelines are gone, stopping the listener leaves a file that is the preamble and a
   merge of exactly what the threads pushed.
   */
  lemma CompleteRun(preamble: seq<byte>, states: seq<State>, steps: seq<Step>)
    requires Complete(preamble, states, steps)
    ensures |states| == |steps| + 1
    ensures var log := states[|steps|].log;
            && IsMerge(log, |states[0].threads|, steps)
            && FileOf(preamble, states, steps) == preamble + BytesOf(Events(log))
  {
    var s := states[|steps|];
    InterleavingSafety(preamble, states, steps, |steps|);
    assert steps[..|steps|] == steps;
    hide IsRun;
    FlushSinkKeepsBytes(s.sink);
    forall t | 0 <= t < |s.threads|
      ensures Of(s.log, t) == Pushes(steps, t)
    {
      assert Traced(s.threads[t], Of(s.log, t), false);
      assert Concat(s.threads[t].outbox) + s.threads[t].line.held == [];
      assert Of(s.log, t) + [] == Of(s.log, t);
    }
  }
}
