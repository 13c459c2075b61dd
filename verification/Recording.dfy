/**
 A whole recording: a file listener is created, a timeline is used and destroyed, the listener stops
 (timeline.c, listener_buffer.c, listeners/file_dump_listener.c).
 */
module Recording {
  import opened Bytes
  import opened ListenerBuffers
  import opened Timelines
  import opened FileDump

  /** What a program does with its timeline and listener. */
  datatype Op = PushEvent(e: Ev) | FlushTimeline | FlushListener

  function PushedBy(ops: seq<Op>): seq<Ev> {
    if ops == [] then []
    else PushedBy(ops[..|ops| - 1]) + (if ops[|ops| - 1].PushEvent? then [ops[|ops| - 1].e] else [])
  }

  predicate Suitable(maxSize: nat, serialize: bool, op: Op) {
    op.PushEvent? ==> ValidEvs([op.e]) && Suits(maxSize, serialize, [op.e])
  }

  lemma AcceptsGroup(serialize: bool, maxSize: nat, groups: seq<seq<Ev>>, i: nat)
    requires ValidGroups(groups) && SuitGroups(maxSize, serialize, groups) && i < |groups|
    ensures Accepts(maxSize, NoteOf(serialize, groups[i]))
            && NoteBytes(NoteOf(serialize, groups[i])) == BytesOf(groups[i])
  {
    assert groups[i] != [] && ValidEvs(groups[i]);
    assert groups[i][0].bytes != [];
  }

  /** Everything a listener has received. */
  function Received(s: Sink): seq<byte> {
    s.file + s.pending
  }

  lemma GroupSnoc(groups: seq<seq<Ev>>, i: nat)
    requires i < |groups|
    ensures Concat(groups[..i + 1]) == Concat(groups[..i]) + groups[i]
    ensures BytesOf(Concat(groups[..i + 1])) == BytesOf(Concat(groups[..i])) + BytesOf(groups[i])
  {
    assert groups[..i + 1] == groups[..i] + [groups[i]];
    ConcatSnoc(groups[..i], groups[i]);
    BytesAppend(Concat(groups[..i]), groups[i]);
  }

  /** Calls the listener once per notification. */
  method Deliver(l: FileDumpListener, serialize: bool, notes: seq<Note>, ghost groups: seq<seq<Ev>>)
    requires l.Valid() && !l.stopped && notes == NotesOf(serialize, groups)
    requires ValidGroups(groups) && SuitGroups(l.buffer.maxSize, serialize, groups)
    modifies l, l.buffer, l.buffer.data
    ensures l.Valid() && !l.stopped && Received(l.View()) == old(Received(l.View())) + BytesOf(Concat(groups))
  {
    for i := 0 to |notes|
      invariant l.Valid() && !l.stopped
      invariant Received(l.View()) == old(Received(l.View())) + BytesOf(Concat(groups[..i]))
    {
      AcceptsGroup(serialize, l.buffer.maxSize, groups, i);
      GroupSnoc(groups, i);
      ConcatAssoc(old(Received(l.View())), BytesOf(Concat(groups[..i])), BytesOf(groups[i]));
      ReceiveKeepsBytes(l.View(), notes[i]);
      l.Callback(notes[i]);
    }
    assert groups[..|groups|] == groups;
  }

  /** The metadata blocks written when the listener is created. */
  method Preamble(l: FileDumpListener, blocks: seq<seq<byte>>)
    requires l.Valid() && !l.stopped
    modifies l, l.buffer, l.buffer.data
    ensures l.Valid() && !l.stopped && Received(l.View()) == old(Received(l.View())) + Concat(blocks)
  {
    for i := 0 to |blocks|
      invariant l.Valid() && !l.stopped
      invariant Received(l.View()) == old(Received(l.View())) + Concat(blocks[..i])
    {
      assert blocks[..i + 1] == blocks[..i] + [blocks[i]];
      ConcatSnoc(blocks[..i], blocks[i]);
      ConcatAssoc(old(Received(l.View())), Concat(blocks[..i]), blocks[i]);
      ReceiveKeepsBytes(l.View(), Serialized(blocks[i]));
      l.Callback(Serialized(blocks[i]));
    }
    assert blocks[..|blocks|] == blocks;
  }

  /** The timeline holds the tail of what was pushed, the listener has the rest. */
  ghost predicate Split(line: Line, maxSize: nat, received: seq<byte>, preamble: seq<byte>, done: seq<Ev>,
                        pushed: seq<Ev>) {
    && received == preamble + BytesOf(done) && done + line.held == pushed
    && ValidLine(line) && Suits(maxSize, line.serialize, line.held)
  }

  /** Handing over groups moves events from the timeline to the listener. */
  lemma SplitStep(line: Line, maxSize: nat, received: seq<byte>, preamble: seq<byte>, done: seq<Ev>, pushed: seq<Ev>,
                  h: Handed, more: seq<Ev>, received': seq<byte>)
    requires Split(line, maxSize, received, preamble, done, pushed)
    requires ValidLine(h.line) && Suits(maxSize, h.line.serialize, h.line.held)
    requires Concat(h.groups) + h.line.held == line.held + more
    requires received' == received + BytesOf(Concat(h.groups))
    ensures Split(h.line, maxSize, received', preamble, done + Concat(h.groups), pushed + more)
  {
    BytesAppend(done, Concat(h.groups));
    ConcatAssoc(preamble, BytesOf(done), BytesOf(Concat(h.groups)));
    ConcatAssoc(done, Concat(h.groups), h.line.held);
    ConcatAssoc(done, line.held, more);
  }

  /** The state of a recording between two operations. */
  ghost predicate Recorded(t: Timeline, l: FileDumpListener, preamble: seq<byte>, done: seq<Ev>, pushed: seq<Ev>)
    reads t, t.buffer, l, l.buffer, l.buffer.data
  {
    && t.Valid() && l.Valid() && !l.stopped && t.buffer != l.buffer.data
    && Split(t.View(), l.buffer.maxSize, Received(l.View()), preamble, done, pushed)
  }

  method Push(t: Timeline, l: FileDumpListener, e: Ev, ghost preamble: seq<byte>, ghost done: seq<Ev>,
              ghost pushed: seq<Ev>)
    returns (ghost done': seq<Ev>)
    requires Recorded(t, l, preamble, done, pushed)
    requires ValidEvs([e]) && Suits(l.buffer.maxSize, t.serialize, [e])
    modifies t, t.buffer, l, l.buffer, l.buffer.data
    ensures Recorded(t, l, preamble, done', pushed + [e])
  {
    ghost var line, received := t.View(), Received(l.View());
    ghost var h := PushLine(line, e);
    PushKeepsEvents(line, e);
    PushSuits(l.buffer.maxSize, line, e);
    assert h.line.serialize == line.serialize;
    hide PushLine;
    hide ValidLine;
    hide SuitGroups;
    hide ValidGroups;
    var notes := t.Push(e);
    Deliver(l, t.serialize, notes, h.groups);
    SplitStep(line, l.buffer.maxSize, received, preamble, done, pushed, h, [e], Received(l.View()));
    done' := done + Concat(h.groups);
  }

  method Flush(t: Timeline, l: FileDumpListener, ghost preamble: seq<byte>, ghost done: seq<Ev>, ghost pushed: seq<Ev>)
    returns (ghost done': seq<Ev>)
    requires Recorded(t, l, preamble, done, pushed)
    modifies t, t.buffer, l, l.buffer, l.buffer.data
    ensures Recorded(t, l, preamble, done', pushed) && done' == pushed
  {
    ghost var line, received := t.View(), Received(l.View());
    ghost var h := FlushLine(line);
    FlushKeepsEvents(line);
    assert SuitGroups(l.buffer.maxSize, line.serialize, h.groups) && h.line.serialize == line.serialize;
    assert Concat(h.groups) + h.line.held == line.held + [] && pushed + [] == pushed;
    hide FlushLine;
    hide ValidLine;
    hide SuitGroups;
    hide ValidGroups;
    var notes := t.Flush();
    Deliver(l, t.serialize, notes, h.groups);
    SplitStep(line, l.buffer.maxSize, received, preamble, done, pushed, h, [], Received(l.View()));
    done' := done + Concat(h.groups);
    assert done' + [] == done';
  }

  method FlushFile(t: Timeline, l: FileDumpListener, ghost preamble: seq<byte>, ghost done: seq<Ev>,
                   ghost pushed: seq<Ev>)
    requires Recorded(t, l, preamble, done, pushed)
    modifies l, l.buffer
    ensures Recorded(t, l, preamble, done, pushed)
  {
    FlushSinkKeepsBytes(l.View());
    l.FlushBuffer();
    assert l.file + [] == l.file;
  }

  method Start(serialize: bool, capacity: nat, maxSize: nat, preamble: seq<seq<byte>>)
    returns (t: Timeline, l: FileDumpListener)
    ensures Recorded(t, l, Concat(preamble), [], []) && t.serialize == serialize && l.buffer.maxSize == maxSize
    ensures fresh({t, t.buffer, l, l.buffer, l.buffer.data})
  {
    l := new FileDumpListener(maxSize);
    Preamble(l, preamble);
    t := new Timeline(serialize, capacity);
    assert [] + Concat(preamble) == Concat(preamble) + BytesOf([]) == Concat(preamble);
  }

  method Finish(t: Timeline, l: FileDumpListener, ghost preamble: seq<byte>, ghost done: seq<Ev>, ghost pushed: seq<Ev>)
    returns (file: seq<byte>)
    requires Recorded(t, l, preamble, done, pushed)
    modifies t, t.buffer, l, l.buffer, l.buffer.data
    ensures file == preamble + BytesOf(pushed)
  {
    ghost var done' := Flush(t, l, preamble, done, pushed);
    FlushSinkKeepsBytes(l.View());
    l.Stop();
    file := l.file;
  }

  lemma PushedBySnoc(ops: seq<Op>, i: nat)
    requires i < |ops|
    ensures PushedBy(ops[..i + 1]) == PushedBy(ops[..i]) + (if ops[i].PushEvent? then [ops[i].e] else [])
  {
    assert ops[..i + 1][..i] == ops[..i];
  }

  /**
   For any capacity of the timeline, any size of the listener's buffer and either way of serialising, the
   file is the preamble followed by every event pushed, in order, whatever flushes come between.
   */
  method Record(serialize: bool, capacity: nat, maxSize: nat, preamble: seq<seq<byte>>, ops: seq<Op>)
    returns (file: seq<byte>)
    requires forall i :: 0 <= i < |ops| ==> Suitable(maxSize, serialize, ops[i])
    ensures file == Concat(preamble) + BytesOf(PushedBy(ops))
  {
    var t, l := Start(serialize, capacity, maxSize, preamble);
    ghost var done := [];
    assert PushedBy(ops[..0]) == [];
    hide Recorded;
    hide PushedBy;
    for i := 0 to |ops|
      invariant Recorded(t, l, Concat(preamble), done, PushedBy(ops[..i]))
      invariant fresh({t, t.buffer, l, l.buffer, l.buffer.data})
    {
      PushedBySnoc(ops, i);
      ghost var pushed := PushedBy(ops[..i]);
      assert Suitable(maxSize, serialize, ops[i]);
      match ops[i] {
        case PushEvent(e) => done := Push(t, l, e, Concat(preamble), done, pushed);
        case FlushTimeline => done := Flush(t, l, Concat(preamble), done, pushed);
        case FlushListener => FlushFile(t, l, Concat(preamble), done, pushed);
      }
    }
    assert ops[..|ops|] == ops;
    file := Finish(t, l, Concat(preamble), done, PushedBy(ops));
  }
}
