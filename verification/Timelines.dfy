/**
 A timeline's own buffer (timeline.c).  Events are kept serialised or as copies of their structures and
 are handed to the listeners in groups; an event larger than the buffer is handed over alone.
 */
module Timelines {
  import opened Bytes
  import opened ListenerBuffers

  /** What a listener callback receives: serialised bytes, or structures to serialise itself. */
  datatype Note = Serialized(bytes: seq<byte>) | Structs(events: seq<Ev>)

  function NoteOf(serialize: bool, evs: seq<Ev>): Note {
    if serialize then Serialized(BytesOf(evs)) else Structs(evs)
  }

  function NotesOf(serialize: bool, groups: seq<seq<Ev>>): (notes: seq<Note>)
    ensures |notes| == |groups| && forall i :: 0 <= i < |groups| ==> notes[i] == NoteOf(serialize, groups[i])
  {
    seq(|groups|, i requires 0 <= i < |groups| => NoteOf(serialize, groups[i]))
  }

  lemma NotesSnoc(serialize: bool, groups: seq<seq<Ev>>, evs: seq<Ev>)
    ensures NotesOf(serialize, groups + [evs]) == NotesOf(serialize, groups) + [NoteOf(serialize, evs)]
  {
  }

  lemma NotesOfNone(serialize: bool)
    ensures NotesOf(serialize, []) == []
  {
  }

  lemma NoteOfOne(serialize: bool, e: Ev)
    ensures NoteOf(serialize, [e]) == if serialize then Serialized(e.bytes) else Structs([e])
  {
    BytesSnoc([], e);
    assert [] + [e] == [e] && [] + e.bytes == e.bytes;
  }

  /** A timeline and the events in its buffer. */
  datatype Line = Line(serialize: bool, capacity: nat, held: seq<Ev>)

  function Width(serialize: bool, e: Ev): nat {
    if serialize then |e.bytes| else e.structSize
  }

  function Usage(serialize: bool, evs: seq<Ev>): nat {
    if evs == [] then 0 else Usage(serialize, evs[..|evs| - 1]) + Width(serialize, evs[|evs| - 1])
  }

  lemma UsageSnoc(serialize: bool, evs: seq<Ev>, e: Ev)
    ensures Usage(serialize, evs + [e]) == Usage(serialize, evs) + Width(serialize, e)
  {
    assert (evs + [e])[..|evs|] == evs;
  }

  lemma {:induction false} UsageIsLength(evs: seq<Ev>)
    ensures Usage(true, evs) == |BytesOf(evs)|
  {
    if evs != [] {
      var n := |evs| - 1;
      UsageIsLength(evs[..n]);
      BytesSnoc(evs[..n], evs[n]);
      assert evs[..n] + [evs[n]] == evs;
    }
  }

  lemma NoUsage(serialize: bool, evs: seq<Ev>)
    requires ValidEvs(evs)
    ensures Usage(serialize, evs) == 0 <==> evs == []
  {
  }

  /** The timeline after an operation, and the groups of events it handed to the listeners. */
  datatype Handed = Handed(line: Line, groups: seq<seq<Ev>>)

  function FlushLine(l: Line): Handed {
    if Usage(l.serialize, l.held) == 0 then Handed(l, []) else Handed(l.(held := []), [l.held])
  }

  function PushLine(l: Line, e: Ev): Handed {
    var w := Width(l.serialize, e);
    var h := if l.capacity < Usage(l.serialize, l.held) + w then FlushLine(l) else Handed(l, []);
    if l.capacity < w then Handed(h.line, h.groups + [[e]])
    else Handed(h.line.(held := h.line.held + [e]), h.groups)
  }

  predicate ValidLine(l: Line) {
    ValidEvs(l.held) && Usage(l.serialize, l.held) <= l.capacity
  }

  predicate ValidGroups(groups: seq<seq<Ev>>) {
    forall i :: 0 <= i < |groups| ==> ValidEvs(groups[i]) && groups[i] != []
  }

  lemma FlushKeepsEvents(l: Line)
    requires ValidLine(l)
    ensures var h := FlushLine(l);
            ValidLine(h.line) && h.line.held == [] && ValidGroups(h.groups) && Concat(h.groups) == l.held
  {
    NoUsage(l.serialize, l.held);
    if l.held != [] {
      assert Concat([l.held]) == l.held + Concat([l.held][1..]) == l.held;
    }
  }

  /** A push hands over what was held and keeps the new event, or hands that over too: none is lost or reordered. */
  lemma PushKeepsEvents(l: Line, e: Ev)
    requires ValidLine(l) && ValidEvs([e])
    ensures var h := PushLine(l, e);
            ValidLine(h.line) && ValidGroups(h.groups) && Concat(h.groups) + h.line.held == l.held + [e]
  {
    FlushKeepsEvents(l);
    var w := Width(l.serialize, e);
    var h := if l.capacity < Usage(l.serialize, l.held) + w then FlushLine(l) else Handed(l, []);
    assert Concat(h.groups) + h.line.held == l.held;
    assert l.capacity < w ==> h.line.held == [];
    assert Usage(l.serialize, h.line.held) + w <= l.capacity || l.capacity < w;
    assert h.line.serialize == l.serialize && h.line.capacity == l.capacity;
    assert PushLine(l, e)
        == if l.capacity < w then Handed(h.line, h.groups + [[e]])
           else Handed(h.line.(held := h.line.held + [e]), h.groups);
    assert ValidLine(h.line) && ValidGroups(h.groups);
    hide *;
    if l.capacity < w {
      AloneKept(h, e);
    } else {
      HeldKept(h, e);
    }
  }

  lemma AloneKept(h: Handed, e: Ev)
    requires ValidGroups(h.groups) && ValidEvs([e]) && h.line.held == []
    ensures ValidGroups(h.groups + [[e]])
    ensures Concat(h.groups + [[e]]) + h.line.held == (Concat(h.groups) + h.line.held) + [e]
  {
    ConcatSnoc(h.groups, [e]);
    hide Concat;
    hide ValidEvs;
  }

  lemma HeldKept(h: Handed, e: Ev)
    requires ValidLine(h.line) && ValidEvs([e])
    requires Usage(h.line.serialize, h.line.held) + Width(h.line.serialize, e) <= h.line.capacity
    ensures ValidLine(h.line.(held := h.line.held + [e]))
    ensures Concat(h.groups) + (h.line.held + [e]) == (Concat(h.groups) + h.line.held) + [e]
  {
    hide *;
    ConcatAssoc(Concat(h.groups), h.line.held, [e]);
    HeldValid(h.line, e);
  }

  lemma HeldValid(l: Line, e: Ev)
    requires ValidLine(l) && ValidEvs([e]) && Usage(l.serialize, l.held) + Width(l.serialize, e) <= l.capacity
    ensures ValidLine(l.(held := l.held + [e]))
  {
    assert [e][0] == e;
    UsageSnoc(l.serialize, l.held, e);
    hide Usage;
    hide Width;
  }

  // When a timeline notifies.

  /** The summed sizes of the structures. */
  function StructBytes(evs: seq<Ev>): nat {
    if evs == [] then 0 else evs[0].structSize + StructBytes(evs[1..])
  }

  lemma {:induction false} StructBytesSnoc(evs: seq<Ev>, e: Ev)
    ensures StructBytes(evs + [e]) == StructBytes(evs) + e.structSize
  {
    if evs == [] {
      assert evs + [e] == [e] && [e][1..] == [];
    } else {
      assert (evs + [e])[1..] == evs[1..] + [e];
      StructBytesSnoc(evs[1..], e);
    }
  }

  lemma {:induction false} UsageIsStructs(evs: seq<Ev>)
    ensures Usage(false, evs) == StructBytes(evs)
  {
    if evs != [] {
      var n := |evs| - 1;
      UsageIsStructs(evs[..n]);
      StructBytesSnoc(evs[..n], evs[n]);
      assert evs[..n] + [evs[n]] == evs;
    }
  }

  /** Bytes of the buffer that some events take. */
  function Taken(serialize: bool, evs: seq<Ev>): nat {
    if serialize then |BytesOf(evs)| else StructBytes(evs)
  }

  lemma TakenIsUsage(serialize: bool, evs: seq<Ev>)
    ensures Taken(serialize, evs) == Usage(serialize, evs)
  {
    UsageIsLength(evs);
    UsageIsStructs(evs);
  }

  lemma TakenByOne(serialize: bool, e: Ev)
    ensures Taken(serialize, [e]) == Width(serialize, e)
    ensures Taken(serialize, [e]) == if serialize then |e.bytes| else e.structSize
  {
    TakenIsUsage(serialize, [e]);
    assert [e][..0] == [];
  }

  /**
   A push notifies if and only if the event does not fit behind those held; otherwise it is held behind them.  An
   event is handed over at once, alone, if and only if it does not fit an empty buffer.
   */
  lemma PushNotifiesWhen(l: Line, e: Ev)
    requires ValidLine(l) && ValidEvs([e])
    ensures var h, room := PushLine(l, e), l.capacity - Taken(l.serialize, l.held);
            var w := if l.serialize then |e.bytes| else e.structSize;
            && (h.groups != [] <==> w > room)
            && (w <= room ==> h.line.held == l.held + [e])
            && (w > room && w <= l.capacity ==> h.groups == [l.held] && h.line.held == [e])
            && (w > l.capacity ==> h.groups == (if l.held == [] then [[e]] else [l.held, [e]]) && h.line.held == [])
            && h.line.capacity == l.capacity && h.line.serialize == l.serialize
  {
    TakenIsUsage(l.serialize, l.held);
    NoUsage(l.serialize, l.held);
    assert [] + [[e]] == [[e]] && [l.held] + [[e]] == [l.held, [e]];
    assert [] + [e] == [e];
    hide Taken;
    hide BytesOf;
  }

  lemma PushOutcome(l: Line, e: Ev)
    requires ValidLine(l) && ValidEvs([e])
    ensures var h, room := PushLine(l, e), l.capacity - Taken(l.serialize, l.held);
            var w := if l.serialize then |e.bytes| else e.structSize;
            && h.line.held == (if w <= room then l.held + [e] else if w <= l.capacity then [e] else [])
            && |h.groups| == (if w > room && l.held != [] then 1 else 0) + (if w > l.capacity then 1 else 0)
  {
    PushNotifiesWhen(l, e);
    TakenIsUsage(l.serialize, l.held);
    hide PushLine;
  }

  /** A flush notifies with everything held, in one group, if anything is. */
  lemma FlushNotifiesWhen(l: Line)
    requires ValidLine(l)
    ensures FlushLine(l) == Handed(l.(held := []), if l.held == [] then [] else [l.held])
  {
    NoUsage(l.serialize, l.held);
  }

  /** A new timeline after a series of pushes. */
  function PushAll(serialize: bool, capacity: nat, evs: seq<Ev>): Handed {
    if evs == [] then Handed(Line(serialize, capacity, []), [])
    else
      var h := PushAll(serialize, capacity, evs[..|evs| - 1]);
      var p := PushLine(h.line, evs[|evs| - 1]);
      Handed(p.line, h.groups + p.groups)
  }

  /** A group that could not have taken the event behind it as well. */
  predicate Full(serialize: bool, capacity: nat, evs: seq<Ev>, next: Ev) {
    Taken(serialize, evs) + Taken(serialize, [next]) > capacity
  }

  /** Every group of several events fits the buffer, and every group but the last was full. */
  ghost predicate Packed(serialize: bool, capacity: nat, groups: seq<seq<Ev>>) {
    && ValidGroups(groups)
    && (forall i :: 0 <= i < |groups| && |groups[i]| > 1 ==> Taken(serialize, groups[i]) <= capacity)
    && (forall i, j :: 0 <= i < j < |groups| && j == i + 1 ==> Full(serialize, capacity, groups[i], groups[j][0]))
  }

  lemma PackedSnoc(serialize: bool, capacity: nat, groups: seq<seq<Ev>>, evs: seq<Ev>)
    requires Packed(serialize, capacity, groups) && ValidEvs(evs) && evs != []
    requires groups != [] ==> Full(serialize, capacity, groups[|groups| - 1], evs[0])
    requires |evs| > 1 ==> Taken(serialize, evs) <= capacity
    ensures Packed(serialize, capacity, groups + [evs])
  {
    hide Full;
    hide Taken;
    hide ValidEvs;
  }

  /** Whatever comes next, the last group handed over was full. */
  ghost predicate LastFull(serialize: bool, capacity: nat, groups: seq<seq<Ev>>, held: seq<Ev>) {
    groups != [] ==>
      var last := groups[|groups| - 1];
      if held == [] then Taken(serialize, last) > capacity else Full(serialize, capacity, last, held[0])
  }

  lemma HeldNext(serialize: bool, capacity: nat, groups: seq<seq<Ev>>, held: seq<Ev>, e: Ev)
    requires LastFull(serialize, capacity, groups, held)
    ensures LastFull(serialize, capacity, groups, held + [e])
    ensures groups != [] && held != [] ==> Full(serialize, capacity, groups[|groups| - 1], held[0])
    ensures groups != [] && held == [] ==> Full(serialize, capacity, groups[|groups| - 1], e)
  {
    hide Taken;
  }

  lemma FlushedNext(serialize: bool, capacity: nat, groups: seq<seq<Ev>>, held: seq<Ev>, e: Ev)
    requires Packed(serialize, capacity, groups) && LastFull(serialize, capacity, groups, held)
    requires held != [] && ValidEvs(held) && Taken(serialize, held) <= capacity
    requires Full(serialize, capacity, held, e)
    ensures Packed(serialize, capacity, groups + [held]) && LastFull(serialize, capacity, groups + [held], [e])
  {
    HeldNext(serialize, capacity, groups, held, e);
    PackedSnoc(serialize, capacity, groups, held);
    hide Packed;
    hide Taken;
    hide ValidEvs;
  }

  /** `e` is larger than the buffer. */
  lemma AloneNext(serialize: bool, capacity: nat, groups: seq<seq<Ev>>, e: Ev)
    requires Packed(serialize, capacity, groups) && LastFull(serialize, capacity, groups, [e])
    requires ValidEvs([e]) && Taken(serialize, [e]) > capacity
    ensures Packed(serialize, capacity, groups + [[e]]) && LastFull(serialize, capacity, groups + [[e]], [])
  {
    PackedSnoc(serialize, capacity, groups, [e]);
    hide Packed;
    hide Taken;
    hide ValidEvs;
  }

  lemma PackedNext(l: Line, groups: seq<seq<Ev>>, e: Ev)
    requires ValidLine(l) && ValidEvs([e])
    requires Packed(l.serialize, l.capacity, groups) && LastFull(l.serialize, l.capacity, groups, l.held)
    ensures var p := PushLine(l, e);
            && Packed(l.serialize, l.capacity, groups + p.groups)
            && LastFull(l.serialize, l.capacity, groups + p.groups, p.line.held)
  {
    var p, room := PushLine(l, e), l.capacity - Taken(l.serialize, l.held);
    PushNotifiesWhen(l, e);
    TakenByOne(l.serialize, e);
    TakenIsUsage(l.serialize, l.held);
    assert Full(l.serialize, l.capacity, l.held, e) <==> Taken(l.serialize, [e]) > room;
    assert l.held == [] ==> room == l.capacity;
    HeldNext(l.serialize, l.capacity, groups, l.held, e);
    assert ValidEvs(l.held) && Taken(l.serialize, l.held) <= l.capacity;
    hide *;
    if Taken(l.serialize, [e]) <= room {
      assert groups + p.groups == groups;
    } else if l.held == [] {
      assert [] + [e] == [e];
      AloneNext(l.serialize, l.capacity, groups, e);
    } else {
      FlushedNext(l.serialize, l.capacity, groups, l.held, e);
      if Taken(l.serialize, [e]) > l.capacity {
        AloneNext(l.serialize, l.capacity, groups + [l.held], e);
        assert groups + [l.held, [e]] == (groups + [l.held]) + [[e]];
      }
    }
  }

  lemma ValidParts(evs: seq<Ev>)
    requires ValidEvs(evs) && evs != []
    ensures ValidEvs(evs[..|evs| - 1]) && ValidEvs([evs[|evs| - 1]])
  {
  }

  lemma PushNone(serialize: bool, capacity: nat)
    ensures var h := PushAll(serialize, capacity, []);
            && Concat(h.groups) + h.line.held == []
            && Packed(serialize, capacity, h.groups) && LastFull(serialize, capacity, h.groups, h.line.held)
            && ValidLine(h.line) && h.line.serialize == serialize && h.line.capacity == capacity
  {
  }

  lemma PushAllNext(serialize: bool, capacity: nat, evs: seq<Ev>)
    requires evs != []
    ensures var h := PushAll(serialize, capacity, evs[..|evs| - 1]);
            var p := PushLine(h.line, evs[|evs| - 1]);
            PushAll(serialize, capacity, evs) == Handed(p.line, h.groups + p.groups)
  {
    hide PushLine;
  }

  lemma PushKeepsSettings(l: Line, e: Ev)
    ensures var p := PushLine(l, e); p.line.serialize == l.serialize && p.line.capacity == l.capacity
  {
  }

  lemma PushKeepsAll(h: Handed, e: Ev)
    requires ValidLine(h.line) && ValidEvs([e])
    ensures var p := PushLine(h.line, e);
            ValidLine(p.line) && Concat(h.groups + p.groups) + p.line.held == (Concat(h.groups) + h.line.held) + [e]
  {
    var p := PushLine(h.line, e);
    hide *;
    PushKeepsEvents(h.line, e);
    ConcatAppend(h.groups, p.groups);
    ConcatAssoc(Concat(h.groups), Concat(p.groups), p.line.held);
    ConcatAssoc(Concat(h.groups), h.line.held, [e]);
  }

  /** A run of pushes: the groups and what is held are the events pushed, in order, and no group was cut short. */
  lemma {:induction false} GroupsPacked(serialize: bool, capacity: nat, evs: seq<Ev>)
    requires ValidEvs(evs)
    ensures var h := PushAll(serialize, capacity, evs);
            && Concat(h.groups) + h.line.held == evs
            && Packed(serialize, capacity, h.groups) && LastFull(serialize, capacity, h.groups, h.line.held)
            && ValidLine(h.line) && h.line.serialize == serialize && h.line.capacity == capacity
  {
    hide *;
    if evs == [] {
      PushNone(serialize, capacity);
    } else {
      var n := |evs| - 1;
      var e := evs[n];
      ValidParts(evs);
      PushAllNext(serialize, capacity, evs);
      var h := PushAll(serialize, capacity, evs[..n]);
      GroupsPacked(serialize, capacity, evs[..n]);
      PackedNext(h.line, h.groups, e);
      PushKeepsAll(h, e);
      PushKeepsSettings(h.line, e);
      assert evs == evs[..n] + [e];
    }
  }

  datatype LineOp = PushOp(event: Ev) | FlushOp

  function DoOp(l: Line, op: LineOp): Handed {
    match op
    case PushOp(e) => PushLine(l, e)
    case FlushOp => FlushLine(l)
  }

  /** A new timeline after pushes and flushes in any order. */
  function RunLine(serialize: bool, capacity: nat, ops: seq<LineOp>): Handed {
    if ops == [] then Handed(Line(serialize, capacity, []), [])
    else
      var h := RunLine(serialize, capacity, ops[..|ops| - 1]);
      var p := DoOp(h.line, ops[|ops| - 1]);
      Handed(p.line, h.groups + p.groups)
  }

  predicate ValidOps(ops: seq<LineOp>) {
    forall i :: 0 <= i < |ops| && ops[i].PushOp? ==> ValidEvs([ops[i].event])
  }

  /** A group of several events fits the buffer. */
  ghost predicate GroupsFit(serialize: bool, capacity: nat, groups: seq<seq<Ev>>) {
    forall i :: 0 <= i < |groups| && |groups[i]| > 1 ==> Taken(serialize, groups[i]) <= capacity
  }

  lemma DoFits(l: Line, op: LineOp)
    requires ValidLine(l) && ValidOps([op])
    ensures var p := DoOp(l, op);
            && ValidLine(p.line) && p.line.serialize == l.serialize && p.line.capacity == l.capacity
            && GroupsFit(l.serialize, l.capacity, p.groups)
  {
    TakenIsUsage(l.serialize, l.held);
    assert Taken(l.serialize, l.held) <= l.capacity;
    DoIs(l, op);
    hide *;
    if op.FlushOp? {
      FlushKeepsEvents(l);
      FlushNotifiesWhen(l);
      FewFit(l.serialize, l.capacity, l.held, DoOp(l, op).groups);
    } else {
      PushKeepsEvents(l, op.event);
      PushNotifiesWhen(l, op.event);
      PushKeepsSettings(l, op.event);
      FewFit(l.serialize, l.capacity, l.held, DoOp(l, op).groups);
    }
  }

  lemma DoIs(l: Line, op: LineOp)
    requires ValidOps([op])
    ensures op.FlushOp? ==> DoOp(l, op) == FlushLine(l)
    ensures op.PushOp? ==> DoOp(l, op) == PushLine(l, op.event) && ValidEvs([op.event])
  {
    assert [op][0] == op;
  }

  lemma FewFit(serialize: bool, capacity: nat, held: seq<Ev>, groups: seq<seq<Ev>>)
    requires Taken(serialize, held) <= capacity
    requires forall i :: 0 <= i < |groups| ==> groups[i] == held || |groups[i]| == 1
    ensures GroupsFit(serialize, capacity, groups)
  {
    hide Taken;
  }

  /** Over every run of pushes and flushes, a group of several events fits the buffer. */
  lemma {:induction false} RunFits(serialize: bool, capacity: nat, ops: seq<LineOp>)
    requires ValidOps(ops)
    ensures var h := RunLine(serialize, capacity, ops);
            && ValidLine(h.line) && h.line.serialize == serialize && h.line.capacity == capacity
            && GroupsFit(serialize, capacity, h.groups)
  {
    hide Taken;
    hide DoOp;
    if ops != [] {
      var n := |ops| - 1;
      RunFits(serialize, capacity, ops[..n]);
      var h := RunLine(serialize, capacity, ops[..n]);
      DoFits(h.line, ops[n]);
    }
  }

  /** A listener that serialises late needs events that fit its buffer of `max` bytes. */
  predicate Suits(max: nat, serialize: bool, evs: seq<Ev>) {
    !serialize ==> Fits(max, evs)
  }

  predicate SuitGroups(max: nat, serialize: bool, groups: seq<seq<Ev>>) {
    forall i :: 0 <= i < |groups| ==> Suits(max, serialize, groups[i])
  }

  lemma PushSuits(max: nat, l: Line, e: Ev)
    requires Suits(max, l.serialize, l.held) && Suits(max, l.serialize, [e])
    ensures var h := PushLine(l, e);
            Suits(max, l.serialize, h.line.held) && SuitGroups(max, l.serialize, h.groups)
  {
    assert [e][0] == e;
  }

  class Timeline {
    const serialize: bool
    const capacity: nat
    const buffer: array<byte>
    var structs: seq<Ev>
    var usage: nat
    ghost var held: seq<Ev>

    ghost function View(): Line
      reads this
    {
      Line(serialize, capacity, held)
    }

    ghost predicate Valid()
      reads this, buffer
    {
      && buffer.Length == capacity
      && ValidLine(View()) && usage == Usage(serialize, held)
      && (if serialize then buffer[..usage] == BytesOf(held) else structs == held)
    }

    constructor (serialize: bool, capacity: nat)
      ensures Valid() && View() == Line(serialize, capacity, []) && fresh(buffer)
    {
      this.serialize := serialize;
      this.capacity := capacity;
      buffer := new byte[capacity];
      structs := [];
      usage := 0;
      held := [];
    }

    /** The notifications of a flush: nothing when the buffer is empty. */
    method Flush() returns (notes: seq<Note>)
      requires Valid()
      modifies this
      ensures Valid() && View() == FlushLine(old(View())).line
      ensures notes == NotesOf(serialize, FlushLine(old(View())).groups)
      ensures held == []
      ensures notes == if old(held) == [] then []
                       else [if serialize then Serialized(BytesOf(old(held))) else Structs(old(held))]
    {
      FlushNotifiesWhen(View());
      notes := [];
      FlushKeepsEvents(View());
      if usage > 0 {
        notes := [if serialize then Serialized(buffer[..usage]) else Structs(structs)];
        usage := 0;
        structs := [];
        held := [];
      }
    }

    /** Writes an event's bytes behind those in use. */
    method Serialize(bs: seq<byte>)
      requires usage + |bs| <= buffer.Length
      modifies buffer
      ensures buffer[..usage + |bs|] == old(buffer[..usage]) + bs
    {
      forall k | 0 <= k < |bs| {
        buffer[usage + k] := bs[k];
      }
    }

    /** Keeps an event that fits. */
    method Append(e: Ev)
      requires Valid() && ValidEvs([e]) && usage + Width(serialize, e) <= capacity
      modifies this, buffer
      ensures Valid() && View() == old(View()).(held := old(held) + [e])
    {
      UsageSnoc(serialize, held, e);
      assert e == [e][0];
      hide BytesOf;
      hide Usage;
      if serialize {
        UsageIsLength(held);
        BytesSnoc(held, e);
        Serialize(e.bytes);
        usage := usage + |e.bytes|;
      } else {
        structs := structs + [e];
        usage := usage + e.structSize;
      }
      held := held + [e];
    }

    /** ht_timeline_push_event. */
    method Push(e: Ev) returns (notes: seq<Note>)
      requires Valid() && ValidEvs([e])
      modifies this, buffer
      ensures Valid() && View() == PushLine(old(View()), e).line
      ensures notes == NotesOf(serialize, PushLine(old(View()), e).groups)
      ensures var room := capacity - Taken(serialize, old(held));
              var w := if serialize then |e.bytes| else e.structSize;
              && held == (if w <= room then old(held) + [e] else if w <= capacity then [e] else [])
              && |notes| == (if w > room && old(held) != [] then 1 else 0) + (if w > capacity then 1 else 0)
    {
      PushOutcome(View(), e);
      PushKeepsEvents(View(), e);
      NoteOfOne(serialize, e);
      hide BytesOf;
      hide Taken;
      hide Usage;
      hide NotesOf;
      notes := [];
      NotesOfNone(serialize);
      if capacity < usage + Width(serialize, e) {
        notes := Flush();
      }
      if capacity < Width(serialize, e) {
        NotesSnoc(serialize,
                  (if capacity < old(usage) + Width(serialize, e) then FlushLine(old(View())).groups else []), [e]);
        notes := notes + [if serialize then Serialized(e.bytes) else Structs([e])];
      } else {
        Append(e);
      }
    }
  }
}
