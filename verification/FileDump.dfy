/**
 The file listener (listeners/file_dump_listener.c): an append-only file behind a listener buffer, until
 it is stopped.  Each operation runs under the listener's mutex and is one step here.
 */
module FileDump {
  import opened Bytes
  import opened ListenerBuffers
  import opened Timelines

  datatype Sink = Sink(max: nat, file: seq<byte>, pending: seq<byte>, stopped: bool)

  predicate ValidSink(s: Sink) {
    |s.pending| <= s.max && (s.stopped ==> s.pending == [])
  }

  function NoteBytes(note: Note): seq<byte> {
    match note
    case Serialized(bs) => bs
    case Structs(evs) => BytesOf(evs)
  }

  /** Structures can be taken only by a listener with a buffer that every one of them fits. */
  predicate Accepts(max: nat, note: Note) {
    note.Structs? ==> max > 0 && Fits(max, note.events)
  }

  function Receive(s: Sink, note: Note): Sink
    requires ValidSink(s) && Accepts(s.max, note)
  {
    if s.stopped then s
    else if s.max == 0 then s.(file := s.file + NoteBytes(note))
    else
      var f := match note
        case Serialized(bs) => Fill(s.max, s.pending, bs)
        case Structs(evs) => Spill(s.max, s.pending, evs);
      s.(file := s.file + Concat(f.blocks), pending := f.pending)
  }

  function FlushSink(s: Sink): Sink {
    if s.stopped then s else s.(file := s.file + s.pending, pending := [])
  }

  function StopSink(s: Sink): Sink {
    FlushSink(s).(stopped := true)
  }

  /** A running listener appends exactly the bytes of the notification, the file grows, the buffer never overflows. */
  lemma ReceiveKeepsBytes(s: Sink, note: Note)
    requires ValidSink(s) && Accepts(s.max, note) && !s.stopped
    ensures var s' := Receive(s, note);
            && ValidSink(s') && s'.max == s.max && !s'.stopped && s.file <= s'.file
            && s'.file + s'.pending == (s.file + s.pending) + NoteBytes(note)
  {
    if s.max == 0 {
      assert s.pending == [];
      assert s.file + s.pending == s.file && (s.file + NoteBytes(note)) + [] == s.file + NoteBytes(note);
    } else {
      match note {
        case Serialized(bs) => FillKeepsBytes(s.max, s.pending, bs);
        case Structs(evs) => SpillKeepsBytes(s.max, s.pending, evs);
      }
      hide Fill;
      hide Spill;
      ConcatAssoc(s.file, s.pending, NoteBytes(note));
      var s' := Receive(s, note);
      var flushed := s'.file[|s.file|..];
      ConcatAssoc(s.file, flushed, s'.pending);
    }
  }

  /**
   What a running listener writes: everything at once without a buffer; whole buffers of serialised bytes, so that
   less than one is left; structures only when they do not all fit behind what is pending.
   */
  lemma ReceiveWrites(s: Sink, note: Note)
    requires ValidSink(s) && Accepts(s.max, note) && !s.stopped
    ensures var s' := Receive(s, note);
            && (s.max == 0 ==> s'.file == s.file + NoteBytes(note) && s'.pending == [])
            && (s.max > 0 && note.Serialized? ==>
                  && (note.bytes == [] ==> s' == s)
                  && (note.bytes != [] ==> |s'.pending| < s.max)
                  && exists blocks :: s'.file == s.file + Concat(blocks)
                                      && forall i :: 0 <= i < |blocks| ==> |blocks[i]| == s.max)
            && (note.Structs? ==>
                  (s'.file == s.file <==> |s.pending| + |BytesOf(note.events)| <= s.max))
  {
    if s.max == 0 {
    } else if note.Serialized? {
      FillKeepsBytes(s.max, s.pending, note.bytes);
      FillEnd(s.max, s.pending);
      hide Fill;
      assert s.file + Concat([]) == s.file;
    } else {
      var f := Spill(s.max, s.pending, note.events);
      SpillKeepsBytes(s.max, s.pending, note.events);
      SpillWrites(s.max, s.pending, note.events);
      hide Spill;
      assert |Concat(f.blocks)| + |f.pending| == |Concat(f.blocks) + f.pending|;
      assert |Receive(s, note).file| == |s.file| + |Concat(f.blocks)|;
      assert Concat(f.blocks) == [] ==> s.file + Concat(f.blocks) == s.file;
    }
  }

  lemma FlushSinkKeepsBytes(s: Sink)
    requires ValidSink(s)
    ensures ValidSink(FlushSink(s)) && FlushSink(s).pending == [] && FlushSink(s).file == s.file + s.pending
  {
    assert s.stopped ==> s.file + s.pending == s.file;
  }

  class FileDumpListener {
    const buffer: ListenerBuffer
    var file: seq<byte>
    var stopped: bool

    ghost predicate Valid()
      reads this, buffer, buffer.data
    {
      && buffer.Valid() && ValidSink(View())
    }

    ghost function View(): Sink
      requires buffer.Valid()
      reads this, buffer, buffer.data
    {
      Sink(buffer.maxSize, file, buffer.Pending(), stopped)
    }

    /** A listener on a new file; the metadata is not pushed yet. */
    constructor (maxSize: nat)
      ensures Valid() && View() == Sink(maxSize, [], [], false) && fresh(buffer) && fresh(buffer.data)
    {
      buffer := new ListenerBuffer(maxSize);
      file := [];
      stopped := false;
    }

    /** Appends flushed blocks to the file, in order. */
    method Write(blocks: seq<seq<byte>>)
      modifies `file
      ensures file == old(file) + Concat(blocks)
    {
      for i := 0 to |blocks|
        invariant file == old(file) + Concat(blocks[..i])
      {
        assert blocks[..i + 1] == blocks[..i] + [blocks[i]];
        ConcatSnoc(blocks[..i], blocks[i]);
        file := file + blocks[i];
      }
      assert blocks[..|blocks|] == blocks;
    }

    method Callback(note: Note)
      requires Valid() && Accepts(buffer.maxSize, note)
      modifies this, buffer, buffer.data
      ensures Valid() && View() == Receive(old(View()), note)
      ensures old(stopped) ==> View() == old(View())
    {
      if stopped {
        return;
      }
      ReceiveKeepsBytes(View(), note);
      var blocks: seq<seq<byte>>;
      match note {
        case Serialized(bs) => blocks := buffer.ProcessSerialized(bs);
        case Structs(evs) => blocks := buffer.ProcessUnserialized(evs);
      }
      assert note.Serialized? && buffer.maxSize == 0 ==> Concat(blocks) == NoteBytes(note) by {
        ConcatSnoc([], NoteBytes(note));
        assert [] + [NoteBytes(note)] == [NoteBytes(note)] && [] + NoteBytes(note) == NoteBytes(note);
      }
      Write(blocks);
    }

    method FlushBuffer()
      requires Valid()
      modifies this, buffer
      ensures Valid() && View() == FlushSink(old(View()))
      ensures file == old(file + buffer.Pending()) && buffer.Pending() == [] && stopped == old(stopped)
    {
      FlushSinkKeepsBytes(View());
      if !stopped {
        var block := buffer.Flush();
        file := file + block;
      }
    }

    method Stop()
      requires Valid()
      modifies this, buffer
      ensures Valid() && View() == StopSink(old(View()))
      ensures stopped && file == old(file + buffer.Pending()) && buffer.Pending() == []
    {
      FlushBuffer();
      stopped := true;
    }
  }
}
