/**
 Scoped intervals (feature_callstack.c): starting pushes an event on the stack, stopping completes the
 event on top in place, hands it to the timeline and pops it.
 */
module Callstack {
  import opened Bytes
  import opened StackObject

  /** An HT_CallstackBaseEvent: the class, the header, the two fields, and whatever a derived class adds. */
  datatype CallEvent = CallEvent(klass: nat, timestamp: nat, id: nat, duration: nat, thread: nat, rest: seq<byte>)

  /** Every member fits its type. */
  predicate Sized(e: CallEvent) {
    && e.klass < Capacity(8) && e.timestamp < Capacity(8) && e.id < Capacity(8)
    && e.duration < Capacity(8) && e.thread < Capacity(4)
  }

  const DURATION_OFFSET := 24
  const THREAD_OFFSET := 32

  /** The structure in the memory of a machine of the given byte order. */
  function Image(order: Endianness, e: CallEvent): (bs: seq<byte>)
    ensures |bs| == THREAD_OFFSET + 4 + |e.rest|
  {
    Store(order, e.klass, 8) + Store(order, e.timestamp, 8) + Store(order, e.id, 8) + Store(order, e.duration, 8)
    + Store(order, e.thread, 4) + e.rest
  }

  function FromImage(order: Endianness, bs: seq<byte>): CallEvent
    requires |bs| >= THREAD_OFFSET + 4
  {
    CallEvent(Load(order, bs[..8]), Load(order, bs[8..16]), Load(order, bs[16..24]), Load(order, bs[24..32]),
              Load(order, bs[32..36]), bs[36..])
  }

  lemma ImageParts(order: Endianness, e: CallEvent)
    ensures var bs := Image(order, e);
            && bs[..8] == Store(order, e.klass, 8) && bs[8..16] == Store(order, e.timestamp, 8)
            && bs[16..24] == Store(order, e.id, 8) && bs[24..32] == Store(order, e.duration, 8)
            && bs[32..36] == Store(order, e.thread, 4) && bs[36..] == e.rest
  {
    hide Store;
  }

  lemma ImageRoundTrip(order: Endianness, e: CallEvent)
    requires Sized(e)
    ensures FromImage(order, Image(order, e)) == e
  {
    ImageParts(order, e);
    LoadStore(order, e.klass, 8);
    LoadStore(order, e.timestamp, 8);
    LoadStore(order, e.id, 8);
    LoadStore(order, e.duration, 8);
    LoadStore(order, e.thread, 4);
    hide Store;
    hide Load;
    hide Image;
    hide Capacity;
  }

  lemma ImagePatched(order: Endianness, e: CallEvent, duration: nat, thread: nat)
    ensures Patch(Image(order, e), DURATION_OFFSET, Store(order, duration, 8)) == Image(order, e.(duration := duration))
    ensures Patch(Image(order, e), THREAD_OFFSET, Store(order, thread, 4)) == Image(order, e.(thread := thread))
  {
    hide Store;
  }

  /** A start, which the stack may have no memory to store, and a stop. */
  datatype Op = Start(e: CallEvent, now: nat, id: nat, stored: bool) | Stop(now: nat, thread: nat)

  /** The values of an operation fit their types. */
  predicate SizedOp(op: Op) {
    op.now < Capacity(8)
    && if op.Start? then Sized(op.e) && op.id < Capacity(8) else op.thread < Capacity(4)
  }

  /** The event as it is pushed: the timeline stamps it. */
  function Opened(op: Op): CallEvent
    requires op.Start?
  {
    op.e.(timestamp := op.now, id := op.id)
  }

  function Closed(e: CallEvent, op: Op): CallEvent
    requires op.Stop? && e.timestamp <= op.now
  {
    e.(duration := op.now - e.timestamp, thread := op.thread)
  }

  // Calls, and what the stack makes of them.

  /** What a program does, and whether each change of the stack's memory it may cause would succeed. */
  datatype Call =
    | Enter(e: CallEvent, now: nat, id: nat, grows: bool, bagGrows: bool)
    | Leave(now: nat, thread: nat, bagShrinks: bool, shrinks: bool)

  function ImageSize(e: CallEvent): nat {
    THREAD_OFFSET + 4 + |e.rest|
  }

  function OpOf(m: Memory, c: Call): Op {
    match c
    case Enter(e, now, id, grows, bagGrows) => Start(e, now, id, CanPush(m, ImageSize(e), grows, bagGrows))
    case Leave(now, thread, _, _) => Stop(now, thread)
  }

  /** The stack's memory after a call; leaving with an empty stack is undefined, and stands for no change here. */
  function NextMemory(m: Memory, c: Call): Memory
    requires ValidMemory(m)
  {
    match c
    case Enter(e, _, _, grows, bagGrows) => PushMemory(m, ImageSize(e), grows, bagGrows)
    case Leave(_, _, bagShrinks, shrinks) => if m.bag.items == [] then m else PopMemory(m, bagShrinks, shrinks)
  }

  function MemoryAfter(calls: seq<Call>): (m: Memory)
    ensures ValidMemory(m)
  {
    if calls == [] then NewMemory(1024, 32)
    else
      var m, c := MemoryAfter(calls[..|calls| - 1]), calls[|calls| - 1];
      NextKeepsMemory(m, c);
      NextMemory(m, c)
  }

  lemma NextKeepsMemory(m: Memory, c: Call)
    requires ValidMemory(m)
    ensures ValidMemory(NextMemory(m, c))
  {
    match c {
      case Enter(e, _, _, grows, bagGrows) => PushKeepsMemory(m, ImageSize(e), grows, bagGrows);
      case Leave(_, _, bagShrinks, shrinks) =>
        if m.bag.items != [] {
          PopKeepsMemory(m, bagShrinks, shrinks);
        }
    }
    hide PushMemory;
    hide PopMemory;
  }

  /** The calls as starts and stops: a start is stored if the memory at that moment allows it. */
  function OpsOf(calls: seq<Call>): (ops: seq<Op>)
    ensures |ops| == |calls|
    ensures forall i :: 0 <= i < |calls| ==> ops[i] == OpOf(MemoryAfter(calls[..i]), calls[i])
  {
    seq(|calls|, i requires 0 <= i < |calls| => OpOf(MemoryAfter(calls[..i]), calls[i]))
  }

  // Matching starts and stops.

  function Change(op: Op): int {
    if op.Stop? then -1 else if op.stored then 1 else 0
  }

  function Net(ops: seq<Op>): int {
    if ops == [] then 0 else Net(ops[..|ops| - 1]) + Change(ops[|ops| - 1])
  }

  /** No stop finds the stack empty. */
  predicate NeverEmpty(ops: seq<Op>) {
    ops == [] || (NeverEmpty(ops[..|ops| - 1]) && Net(ops) >= 0)
  }

  predicate Clocked(ops: seq<Op>) {
    forall i, j :: 0 <= i < j < |ops| ==> ops[i].now <= ops[j].now
  }

  /** A start and the stop that completed it. */
  datatype Pair = Pair(start: nat, stop: nat)

  datatype Frame = Frame(open: seq<nat>, emitted: seq<Pair>)

  function NextFrame(f: Frame, op: Op, n: nat): Frame
    requires op.Stop? ==> f.open != []
  {
    if op.Start? then if op.stored then f.(open := f.open + [n]) else f
    else
      var top := |f.open| - 1;
      Frame(f.open[..top], f.emitted + [Pair(f.open[top], n)])
  }

  /** The starts still open and the pairs completed, in order. */
  function Trace(ops: seq<Op>): (f: Frame)
    requires NeverEmpty(ops)
    ensures |f.open| == Net(ops)
  {
    if ops == [] then Frame([], [])
    else
      NextFrame(Trace(ops[..|ops| - 1]), ops[|ops| - 1], |ops| - 1)
  }

  /** A segment that ends h levels up and never falls below its start. */
  predicate Rises(seg: seq<Op>, h: int) {
    NeverEmpty(seg) && Net(seg) == h
  }

  /** A start and a stop match when everything opened between them is closed between them. */
  predicate Matched(ops: seq<Op>, p: Pair) {
    IsPair(ops, p) && Rises(ops[p.start + 1..p.stop], 0)
  }

  predicate IsPair(ops: seq<Op>, p: Pair) {
    p.start < p.stop < |ops| && ops[p.start].Start? && ops[p.start].stored && ops[p.stop].Stop?
  }

  lemma RisesSnoc(seg: seq<Op>, op: Op, h: int)
    requires Rises(seg, h) && (op.Stop? ==> h > 0)
    ensures Rises(seg + [op], h + Change(op))
  {
    assert (seg + [op])[..|seg|] == seg;
  }

  /** Every open start is a stored start, and has only complete pairs and further open starts after it. */
  predicate OpenAt(ops: seq<Op>, open: seq<nat>, d: nat)
    requires d < |open|
  {
    open[d] < |ops| && ops[open[d]].Start? && ops[open[d]].stored && Rises(ops[open[d] + 1..], |open| - 1 - d)
  }

  lemma OpenSnoc(ops: seq<Op>, open: seq<nat>, d: nat, op: Op, open': seq<nat>)
    requires d < |open| && OpenAt(ops, open, d) && d < |open'| && open'[d] == open[d]
    requires |open'| == |open| + Change(op)
    ensures OpenAt(ops + [op], open', d)
  {
    var i := open[d];
    assert (ops + [op])[i + 1..] == ops[i + 1..] + [op];
    RisesSnoc(ops[i + 1..], op, |open| - 1 - d);
  }

  lemma OpenNew(ops: seq<Op>, open: seq<nat>, op: Op)
    requires op.Start? && op.stored
    ensures OpenAt(ops + [op], open + [|ops|], |open|)
  {
    assert (ops + [op])[|ops| + 1..] == [];
  }

  lemma MatchedTop(ops: seq<Op>, open: seq<nat>, op: Op)
    requires open != [] && OpenAt(ops, open, |open| - 1) && op.Stop?
    ensures Matched(ops + [op], Pair(open[|open| - 1], |ops|))
  {
    var i := open[|open| - 1];
    assert (ops + [op])[i + 1..|ops|] == ops[i + 1..];
  }

  lemma MatchedSnoc(ops: seq<Op>, p: Pair, op: Op)
    requires Matched(ops, p)
    ensures Matched(ops + [op], p)
  {
    assert (ops + [op])[p.start + 1..p.stop] == ops[p.start + 1..p.stop];
  }

  /** Last in, first out: each event handed over is a start completed by the stop that matches it. */
  lemma {:induction false} StopsMatchStarts(ops: seq<Op>)
    requires NeverEmpty(ops)
    ensures forall d :: 0 <= d < |Trace(ops).open| ==> OpenAt(ops, Trace(ops).open, d)
    ensures forall k :: 0 <= k < |Trace(ops).emitted| ==> Matched(ops, Trace(ops).emitted[k])
  {
    if ops != [] {
      var n := |ops| - 1;
      var before, op, f, f' := ops[..n], ops[n], Trace(ops[..n]), Trace(ops);
      assert ops == before + [op];
      StopsMatchStarts(before);
      hide Trace;
      hide OpenAt;
      hide Matched;
      TraceStep(ops);
      forall d | 0 <= d < |f'.open|
        ensures OpenAt(ops, f'.open, d)
      {
        if d < |f.open| {
          OpenSnoc(before, f.open, d, op, f'.open);
        } else {
          OpenNew(before, f.open, op);
        }
      }
      forall k | 0 <= k < |f'.emitted|
        ensures Matched(ops, f'.emitted[k])
      {
        if k < |f.emitted| {
          MatchedSnoc(before, f.emitted[k], op);
        } else {
          MatchedTop(before, f.open, op);
        }
      }
    }
  }

  lemma TraceStep(ops: seq<Op>)
    requires NeverEmpty(ops) && ops != []
    ensures var n := |ops| - 1;
            var f, op := Trace(ops[..n]), ops[n];
            (op.Stop? ==> f.open != []) && Trace(ops) == NextFrame(f, op, n)
  {
  }

  // Which start a stop completes.

  lemma {:induction false} NetAppend(a: seq<Op>, b: seq<Op>)
    ensures Net(a + b) == Net(a) + Net(b)
  {
    if b == [] {
      assert a + b == a;
    } else {
      assert (a + b)[..|a + b| - 1] == a + b[..|b| - 1];
      NetAppend(a, b[..|b| - 1]);
    }
  }

  /** A stored start leaves a segment one level higher than what follows it does. */
  lemma OpenBetween(seg: seq<Op>, j: nat)
    requires NeverEmpty(seg) && j < |seg| && seg[j].Start? && seg[j].stored
    ensures Net(seg) >= 1 + Net(seg[j + 1..])
  {
    assert seg == seg[..j + 1] + seg[j + 1..];
    assert seg[..j + 1][..j] == seg[..j];
    NetAppend(seg[..j + 1], seg[j + 1..]);
    NeverEmptyPrefix(seg, j);
  }

  /** A stop matches no start that lies before another one it matches. */
  lemma MatchedOnce(ops: seq<Op>, p: Pair, q: Pair)
    requires Matched(ops, p) && Matched(ops, q) && p.stop == q.stop
    ensures p.start >= q.start
  {
    if p.start < q.start {
      InnerNet(ops, p, q.start);
    }
  }

  /** Every stop completes a start. */
  lemma {:induction false} StopEmits(ops: seq<Op>, stop: nat) returns (k: nat)
    requires NeverEmpty(ops) && stop < |ops| && ops[stop].Stop?
    ensures k < |Trace(ops).emitted| && Trace(ops).emitted[k].stop == stop
  {
    var n := |ops| - 1;
    TraceStep(ops);
    if stop == n {
      k := |Trace(ops).emitted| - 1;
    } else {
      k := StopEmits(ops[..n], stop);
    }
  }

  /** A pair is handed over if and only if it matches. */
  lemma EmittedIsMatched(ops: seq<Op>, p: Pair)
    requires NeverEmpty(ops)
    ensures p in Trace(ops).emitted <==> Matched(ops, p)
  {
    StopsMatchStarts(ops);
    hide Trace;
    hide NeverEmpty;
    if Matched(ops, p) {
      var k := StopEmits(ops, p.stop);
      var q := Trace(ops).emitted[k];
      assert Matched(ops, q) && q.stop == p.stop;
      hide Matched;
      MatchedOnce(ops, p, q);
      MatchedOnce(ops, q, p);
      assert q == p;
    }
  }

  /** The run as the program wrote it, in which every start is stored. */
  function Intended(ops: seq<Op>): (r: seq<Op>)
    ensures |r| == |ops|
    ensures forall i :: 0 <= i < |ops| ==> r[i] == if ops[i].Start? then ops[i].(stored := true) else ops[i]
  {
    seq(|ops|, i requires 0 <= i < |ops| => if ops[i].Start? then ops[i].(stored := true) else ops[i])
  }

  /** The starts that could not be stored. */
  function Lost(ops: seq<Op>): nat {
    if ops == [] then 0
    else Lost(ops[..|ops| - 1]) + (if ops[|ops| - 1].Start? && !ops[|ops| - 1].stored then 1 else 0)
  }

  predicate AllStored(ops: seq<Op>) {
    forall i :: 0 <= i < |ops| && ops[i].Start? ==> ops[i].stored
  }

  lemma {:induction false} LostLowers(ops: seq<Op>)
    ensures Net(Intended(ops)) == Net(ops) + Lost(ops)
    ensures Lost(ops) == 0 <==> AllStored(ops)
  {
    if ops != [] {
      var n := |ops| - 1;
      LostLowers(ops[..n]);
      IntendedSlice(ops, 0, n);
      StoredSnoc(ops);
      hide AllStored;
      assert Intended(ops)[0..n] == Intended(ops)[..n] && ops[0..n] == ops[..n];
    }
  }

  lemma IntendedSlice(ops: seq<Op>, lo: nat, hi: nat)
    requires lo <= hi <= |ops|
    ensures Intended(ops)[lo..hi] == Intended(ops[lo..hi])
  {
  }

  lemma StoredSnoc(ops: seq<Op>)
    requires ops != []
    ensures var n := |ops| - 1;
            AllStored(ops) <==> AllStored(ops[..n]) && (ops[n].Start? ==> ops[n].stored)
  {
    assert ops == ops[..|ops| - 1] + [ops[|ops| - 1]];
  }

  lemma StoredCons(op: Op, ops: seq<Op>)
    ensures AllStored([op] + ops) <==> AllStored(ops) && (op.Start? ==> op.stored)
  {
    var all := [op] + ops;
    assert all[0] == op && forall i :: 0 <= i < |ops| ==> ops[i] == all[i + 1];
  }

  lemma StoredIsIntended(ops: seq<Op>)
    requires AllStored(ops)
    ensures Intended(ops) == ops
  {
  }

  /**
   A stop that the program wrote for a certain start completes that start if and only if neither it nor any start
   between the two was lost; otherwise it completes an event further out.
   */
  lemma StopIsForItsStart(ops: seq<Op>, p: Pair)
    requires NeverEmpty(ops) && Matched(Intended(ops), p)
    ensures p in Trace(ops).emitted <==> AllStored(ops[p.start..p.stop])
  {
    hide *;
    EmittedIsMatched(ops, p);
    IntendedPair(ops, p);
    StoredFrom(ops, p.start, p.stop);
    LostLowers(ops[p.start + 1..p.stop]);
    if AllStored(ops[p.start..p.stop]) {
      StoredIsIntended(ops[p.start + 1..p.stop]);
      PairMatches(ops, p);
    }
    if Matched(ops, p) {
      MatchedParts(ops, p);
    }
  }

  lemma IntendedPair(ops: seq<Op>, p: Pair)
    requires Matched(Intended(ops), p)
    ensures p.start < p.stop < |ops| && ops[p.start].Start? && ops[p.stop].Stop?
    ensures NeverEmpty(Intended(ops[p.start + 1..p.stop])) && Net(Intended(ops[p.start + 1..p.stop])) == 0
  {
    MatchedParts(Intended(ops), p);
    IntendedSlice(ops, p.start + 1, p.stop);
    hide NeverEmpty;
    hide Net;
  }

  lemma StoredFrom(ops: seq<Op>, lo: nat, hi: nat)
    requires lo < hi <= |ops| && ops[lo].Start?
    ensures AllStored(ops[lo..hi]) <==> ops[lo].stored && AllStored(ops[lo + 1..hi])
  {
    assert ops[lo..hi] == [ops[lo]] + ops[lo + 1..hi];
    StoredCons(ops[lo], ops[lo + 1..hi]);
    hide AllStored;
  }

  lemma PairMatches(ops: seq<Op>, p: Pair)
    requires p.start < p.stop < |ops| && ops[p.start].Start? && ops[p.start].stored && ops[p.stop].Stop?
    requires NeverEmpty(ops[p.start + 1..p.stop]) && Net(ops[p.start + 1..p.stop]) == 0
    ensures Matched(ops, p)
  {
    hide NeverEmpty;
    hide Net;
  }

  lemma MatchedParts(ops: seq<Op>, p: Pair)
    requires Matched(ops, p)
    ensures IsPair(ops, p) && p.start < p.stop < |ops| && ops[p.start].Start? && ops[p.start].stored
    ensures NeverEmpty(ops[p.start + 1..p.stop]) && Net(ops[p.start + 1..p.stop]) == 0
  {
    hide NeverEmpty;
    hide Net;
  }

  lemma IntendedNet(ops: seq<Op>, lo: nat, hi: nat)
    requires lo <= hi <= |ops|
    ensures Net(Intended(ops)[lo..hi]) >= Net(ops[lo..hi])
  {
    IntendedSlice(ops, lo, hi);
    LostLowers(ops[lo..hi]);
  }

  /** Behind a start that lies within a matching pair more is closed than opened. */
  lemma InnerNet(ops: seq<Op>, p: Pair, i: nat)
    requires Matched(ops, p) && p.start < i < p.stop && ops[i].Start? && ops[i].stored
    ensures Net(ops[i + 1..p.stop]) < 0
  {
    hide *;
    MatchedParts(ops, p);
    var seg, j := ops[p.start + 1..p.stop], i - p.start - 1;
    assert seg[j] == ops[i] && seg[j + 1..] == ops[i + 1..p.stop];
    OpenBetween(seg, j);
  }

  /** The start a stop completes is never further in than the one the program wrote it for. */
  lemma StopIsForAnOuterStart(ops: seq<Op>, p: Pair, q: Pair)
    requires NeverEmpty(ops) && Matched(Intended(ops), p) && q in Trace(ops).emitted && q.stop == p.stop
    ensures q.start <= p.start
  {
    hide *;
    EmittedIsMatched(ops, q);
    MatchedParts(ops, q);
    IntendedNet(ops, q.start + 1, q.stop);
    if q.start > p.start {
      InnerNet(Intended(ops), p, q.start);
    }
  }

  // Nesting.

  predicate Outside(o: nat, p: Pair) {
    o < p.start || p.stop < o
  }

  predicate NestPairs(a: Pair, b: Pair) {
    (a.start < b.start && b.stop < a.stop) || (b.start < a.start && a.stop < b.stop) || a.stop < b.start
    || b.stop < a.start
  }

  predicate Ordered(ops: seq<Op>, f: Frame) {
    && (forall d :: 0 <= d < |f.open| ==> f.open[d] < |ops|)
    && (forall c, d :: 0 <= c < d < |f.open| ==> f.open[c] < f.open[d])
    && (forall k :: 0 <= k < |f.emitted| ==> f.emitted[k].start < f.emitted[k].stop < |ops|)
    && (forall d, k :: 0 <= d < |f.open| && 0 <= k < |f.emitted| ==> Outside(f.open[d], f.emitted[k]))
    && (forall j, k :: 0 <= j < k < |f.emitted| ==> NestPairs(f.emitted[j], f.emitted[k]))
  }

  lemma OrderedStart(ops: seq<Op>, f: Frame, op: Op)
    requires Ordered(ops, f)
    ensures Ordered(ops + [op], f.(open := f.open + [|ops|]))
  {
  }

  lemma OrderedLost(ops: seq<Op>, f: Frame, op: Op)
    requires Ordered(ops, f)
    ensures Ordered(ops + [op], f)
  {
  }

  lemma OrderedStop(ops: seq<Op>, f: Frame, op: Op)
    requires Ordered(ops, f) && f.open != []
    ensures Ordered(ops + [op], Frame(f.open[..|f.open| - 1], f.emitted + [Pair(f.open[|f.open| - 1], |ops|)]))
  {
    var top := f.open[|f.open| - 1];
    forall k | 0 <= k < |f.emitted| ensures NestPairs(f.emitted[k], Pair(top, |ops|)) {
      assert Outside(top, f.emitted[k]);
    }
  }

  lemma OrderedNext(ops: seq<Op>, f: Frame, op: Op)
    requires Ordered(ops, f) && (op.Stop? ==> f.open != [])
    ensures Ordered(ops + [op], NextFrame(f, op, |ops|))
  {
    hide Ordered;
    if op.Stop? {
      OrderedStop(ops, f, op);
    } else if op.stored {
      OrderedStart(ops, f, op);
    } else {
      OrderedLost(ops, f, op);
    }
  }

  lemma {:induction false} TraceOrdered(ops: seq<Op>)
    requires NeverEmpty(ops)
    ensures Ordered(ops, Trace(ops))
  {
    if ops != [] {
      var n := |ops| - 1;
      TraceOrdered(ops[..n]);
      TraceStep(ops);
      hide *;
      OrderedNext(ops[..n], Trace(ops[..n]), ops[n]);
      assert ops == ops[..n] + [ops[n]];
    }
  }

  /** The interval of time an emitted event covers. */
  predicate NestOrDisjoint(a: CallEvent, b: CallEvent) {
    || (a.timestamp <= b.timestamp && b.timestamp + b.duration <= a.timestamp + a.duration)
    || (b.timestamp <= a.timestamp && a.timestamp + a.duration <= b.timestamp + b.duration)
    || a.timestamp + a.duration <= b.timestamp
    || b.timestamp + b.duration <= a.timestamp
  }

  /** The event a pair of operations hands to the timeline. */
  function EventOf(ops: seq<Op>, p: Pair): CallEvent
    requires Clocked(ops) && IsPair(ops, p)
  {
    Closed(Opened(ops[p.start]), ops[p.stop])
  }

  /**
   What a completed pair hands over: an event that begins when its start was made and ends when its stop was made,
   on the thread of the stop, with the identifier, the class and the contents its start gave it.
   */
  lemma EmittedTimes(ops: seq<Op>, p: Pair)
    requires NeverEmpty(ops) && Clocked(ops) && p in Trace(ops).emitted
    ensures IsPair(ops, p) && p.start < p.stop < |ops| && ops[p.start].Start? && ops[p.stop].Stop?
    ensures var event, start, stop := EventOf(ops, p), ops[p.start], ops[p.stop];
            && event.timestamp == start.now && event.timestamp + event.duration == stop.now
            && event.thread == stop.thread && event.id == start.id
            && event.klass == start.e.klass && event.rest == start.e.rest
  {
    EmittedIsMatched(ops, p);
  }

  /**
   For every run that never stops an empty stack, under a clock that does not go back, intervals nest or do not
   overlap.
   */
  lemma EmittedIntervalsNest(ops: seq<Op>, j: nat, k: nat)
    requires NeverEmpty(ops) && Clocked(ops) && j < |Trace(ops).emitted| && k < |Trace(ops).emitted| && j != k
    ensures var a, b := Trace(ops).emitted[j], Trace(ops).emitted[k];
            && Matched(ops, a) && Matched(ops, b)
            && NestOrDisjoint(EventOf(ops, a), EventOf(ops, b))
  {
    StopsMatchStarts(ops);
    TraceOrdered(ops);
    hide Trace;
    hide Rises;
    var a, b := Trace(ops).emitted[j], Trace(ops).emitted[k];
    assert if j < k then NestPairs(a, b) else NestPairs(b, a);
  }

  // The feature object.

  class CallstackFeature {
    const order: Endianness
    const stack: Stack

    constructor (order: Endianness)
      ensures this.order == order && stack.Valid() && stack.View() == NewMemory(1024, 32) && stack.blocks == []
      ensures stack.minCapacity == stack.data.Length == 1024 && stack.offsets.data.Length == 32
      ensures fresh(stack.Repr())
    {
      this.order := order;
      stack := new Stack(1024, 32);
    }

    /** ht_feature_callstack_start; the result of the push is ignored. */
    method StartEvent(e: CallEvent, now: nat, id: nat, grows: bool, bagGrows: bool)
      requires stack.Valid()
      modifies stack.Repr()
      ensures stack.Valid() && fresh(stack.Repr() - old(stack.Repr()))
      ensures ValidMemory(old(stack.View()))
      ensures stack.View() == PushMemory(old(stack.View()), ImageSize(e), grows, bagGrows)
      ensures var op := OpOf(old(stack.View()), Enter(e, now, id, grows, bagGrows));
              stack.blocks == if op.stored then old(stack.blocks) + [Image(order, Opened(op))] else old(stack.blocks)
      ensures stack.blocks == old(stack.blocks)
              || stack.blocks == old(stack.blocks) + [Image(order, e.(timestamp := now, id := id))]
      ensures stack.blocks != old(stack.blocks) <==>
                && (old(stack.data.Length - stack.size) >= 36 + |e.rest| || grows)
                && (old(stack.offsets.size < stack.offsets.data.Length) || bagGrows)
    {
      var stamped := e.(timestamp := now, id := id);
      var ok := stack.Push(Image(order, stamped), grows, bagGrows);
    }

    /** The timestamp of the event on top. */
    method Timestamp(ghost e: CallEvent) returns (t: nat)
      requires stack.Valid() && stack.blocks != [] && stack.blocks[|stack.blocks| - 1] == Image(order, e) && Sized(e)
      ensures t == e.timestamp
    {
      hide Image;
      hide Store;
      hide Load;
      hide Capacity;
      hide stack.Valid;
      ImageParts(order, e);
      LoadStore(order, e.timestamp, 8);
      var block := stack.TopBlock();
      t := Load(order, block[8..16]);
    }

    /** Writes duration and thread into the event on top, where it lies. */
    method Complete(now: nat, thread: nat, ghost e: CallEvent)
      requires stack.Valid() && stack.blocks != [] && stack.blocks[|stack.blocks| - 1] == Image(order, e)
      requires Sized(e) && e.timestamp <= now
      modifies stack`blocks, stack.data
      ensures stack.Valid() && stack.View() == old(stack.View())
      ensures stack.blocks
              == ReplaceTop(old(stack.blocks), Image(order, e.(duration := now - e.timestamp, thread := thread)))
    {
      hide Image;
      hide Store;
      hide Load;
      hide Patch;
      hide ReplaceTop;
      hide stack.Valid;
      var started := Timestamp(e);
      ghost var timed := e.(duration := now - started);
      ImagePatched(order, e, now - started, thread);
      ImagePatched(order, timed, now - started, thread);
      ReplacedTwice(stack.blocks, Image(order, timed), Image(order, timed.(thread := thread)));
      stack.SetTop(DURATION_OFFSET, Store(order, now - started, 8));
      stack.SetTop(THREAD_OFFSET, Store(order, thread, 4));
    }

    /** Completes the event on top and reads what lies there. */
    method HandOver(now: nat, thread: nat, ghost e: CallEvent) returns (event: CallEvent)
      requires stack.Valid() && stack.blocks != [] && stack.blocks[|stack.blocks| - 1] == Image(order, e)
      requires Sized(e) && e.timestamp <= now && SizedOp(Stop(now, thread))
      modifies stack`blocks, stack.data
      ensures stack.Valid() && stack.View() == old(stack.View())
      ensures event == e.(duration := now - e.timestamp, thread := thread)
      ensures stack.blocks
              == ReplaceTop(old(stack.blocks), Image(order, e.(duration := now - e.timestamp, thread := thread)))
    {
      ghost var closed := e.(duration := now - e.timestamp, thread := thread);
      assert Sized(closed);
      hide Image;
      hide FromImage;
      hide Sized;
      hide SizedOp;
      hide stack.Valid;
      Complete(now, thread, e);
      ImageRoundTrip(order, closed);
      var block := stack.TopBlock();
      event := FromImage(order, block);
    }

    /** ht_feature_callstack_stop: completes the event on top, hands over what lies there, and pops it. */
    method StopEvent(now: nat, thread: nat, bagShrinks: bool, shrinks: bool, ghost e: CallEvent)
      returns (event: CallEvent)
      requires stack.Valid() && stack.blocks != [] && stack.blocks[|stack.blocks| - 1] == Image(order, e)
      requires Sized(e) && e.timestamp <= now && SizedOp(Stop(now, thread))
      modifies stack.Repr()
      ensures stack.Valid() && fresh(stack.Repr() - old(stack.Repr()))
      ensures event.timestamp == e.timestamp && event.timestamp + event.duration == now && event.thread == thread
      ensures event.klass == e.klass && event.id == e.id && event.rest == e.rest
      ensures stack.blocks == old(stack.blocks)[..|old(stack.blocks)| - 1]
      ensures ValidMemory(old(stack.View())) && old(stack.View()).bag.items != []
      ensures stack.View() == PopMemory(old(stack.View()), bagShrinks, shrinks)
    {
      hide Image;
      hide Sized;
      hide SizedOp;
      hide stack.Valid;
      event := HandOver(now, thread, e);
      ReplacedTwice(old(stack.blocks), Image(order, e.(duration := now - e.timestamp, thread := thread)), []);
      stack.Pop(bagShrinks, shrinks);
    }

    /** The blocks on the stack are the starts still open. */
    ghost predicate Holds(ops: seq<Op>, open: seq<nat>)
      reads stack
    {
      && |stack.blocks| == |open|
      && forall d :: 0 <= d < |open| ==>
                       && open[d] < |ops| && ops[open[d]].Start? && ops[open[d]].stored
                       && stack.blocks[d] == Image(order, Opened(ops[open[d]]))
    }
  }

  /** The events of the completed pairs, in the order of their stops. */
  ghost predicate EventsOf(ops: seq<Op>, ps: seq<Pair>, events: seq<CallEvent>) {
    && Clocked(ops) && |events| == |ps|
    && forall k :: 0 <= k < |ps| ==> IsPair(ops, ps[k]) && events[k] == EventOf(ops, ps[k])
  }

  predicate AllSized(ops: seq<Op>) {
    forall i :: 0 <= i < |ops| ==> SizedOp(ops[i])
  }

  method PlayStop(f: CallstackFeature, ghost ops: seq<Op>, i: nat, call: Call, ghost fr: Frame)
    returns (event: CallEvent)
    requires f.stack.Valid() && f.Holds(ops, fr.open) && i < |ops| && call.Leave?
             && ops[i] == OpOf(f.stack.View(), call)
    requires Clocked(ops) && AllSized(ops)
    requires fr.open != [] && forall d :: 0 <= d < |fr.open| ==> fr.open[d] < i
    modifies f.stack.Repr()
    ensures f.stack.Valid() && fresh(f.stack.Repr() - old(f.stack.Repr()))
    ensures f.Holds(ops, fr.open[..|fr.open| - 1])
    ensures ValidMemory(old(f.stack.View())) && f.stack.View() == NextMemory(old(f.stack.View()), call)
    ensures var p := Pair(fr.open[|fr.open| - 1], i); IsPair(ops, p) && event == EventOf(ops, p)
  {
    hide Image;
    hide PopMemory;
    hide ValidMemory;
    var top := |fr.open| - 1;
    assert SizedOp(ops[fr.open[top]]) && SizedOp(ops[i]);
    event := f.StopEvent(call.now, call.thread, call.bagShrinks, call.shrinks, Opened(ops[fr.open[top]]));
  }

  method PlayCall(f: CallstackFeature, ghost ops: seq<Op>, i: nat, call: Call, ghost fr: Frame, events: seq<CallEvent>)
    returns (events': seq<CallEvent>)
    requires f.stack.Valid() && f.Holds(ops, fr.open) && i < |ops| && ops[i] == OpOf(f.stack.View(), call)
    requires EventsOf(ops, fr.emitted, events) && AllSized(ops)
    requires (call.Leave? ==> fr.open != []) && forall d :: 0 <= d < |fr.open| ==> fr.open[d] < i
    modifies f.stack.Repr()
    ensures f.stack.Valid() && fresh(f.stack.Repr() - old(f.stack.Repr()))
    ensures ValidMemory(old(f.stack.View())) && f.stack.View() == NextMemory(old(f.stack.View()), call)
    ensures var fr' := NextFrame(fr, ops[i], i); f.Holds(ops, fr'.open) && EventsOf(ops, fr'.emitted, events')
  {
    hide Image;
    hide AllSized;
    hide Clocked;
    hide f.stack.Valid;
    hide PushMemory;
    hide PopMemory;
    hide ValidMemory;
    hide CanPush;
    match call {
      case Enter(e, now, id, grows, bagGrows) =>
        f.StartEvent(e, now, id, grows, bagGrows);
        events' := events;
      case Leave(_, _, _, _) =>
        var event := PlayStop(f, ops, i, call, fr);
        events' := events + [event];
    }
  }

  /**
   A whole run, under any pattern of allocation failures: through every growth and shrinking of the stack each stop
   hands over the event of the stored start it matches, contents unchanged.
   */
  method Play(order: Endianness, calls: seq<Call>) returns (events: seq<CallEvent>)
    requires var ops := OpsOf(calls); NeverEmpty(ops) && Clocked(ops) && AllSized(ops)
    ensures EventsOf(OpsOf(calls), Trace(OpsOf(calls)).emitted, events)
    ensures var ops, ps := OpsOf(calls), Trace(OpsOf(calls)).emitted;
            && |events| == |ps|
            && forall k :: 0 <= k < |ps| ==>
                             && IsPair(ops, ps[k]) && events[k].timestamp == ops[ps[k].start].now
                             && events[k].timestamp + events[k].duration == ops[ps[k].stop].now
                             && events[k].thread == ops[ps[k].stop].thread && events[k].id == ops[ps[k].start].id
                             && events[k].klass == ops[ps[k].start].e.klass
                             && events[k].rest == ops[ps[k].start].e.rest
  {
    var f := new CallstackFeature(order);
    hide Trace;
    hide NextFrame;
    hide NeverEmpty;
    hide EventsOf;
    hide MemoryAfter;
    hide NextMemory;
    hide ValidMemory;
    hide Clocked;
    hide AllSized;
    hide OpOf;
    hide OpsOf;
    hide f.Holds;
    hide f.stack.Valid;
    hide f.stack.View;
    events := [];
    ghost var fr, ops := Frame([], []), OpsOf(calls);
    assert ops[..0] == [] && calls[..0] == [];
    TraceNone();
    NothingPlayed(f, ops);
    for i := 0 to |calls|
      invariant f.stack.Valid() && fresh(f.stack.Repr()) && f.stack.View() == MemoryAfter(calls[..i])
      invariant NeverEmpty(ops[..i]) && fr == Trace(ops[..i]) && f.Holds(ops, fr.open)
      invariant EventsOf(ops, fr.emitted, events)
    {
      PrefixStep(ops, i);
      MemoryStep(calls, i);
      StopIsLeave(f.stack.View(), calls[i]);
      events := PlayCall(f, ops, i, calls[i], fr, events);
      fr := NextFrame(fr, ops[i], i);
    }
    assert ops[..|ops|] == ops;
    EventsTimed(ops, events);
  }

  lemma EventsTimed(ops: seq<Op>, events: seq<CallEvent>)
    requires NeverEmpty(ops) && EventsOf(ops, Trace(ops).emitted, events)
    ensures var ps := Trace(ops).emitted;
            && |events| == |ps|
            && forall k :: 0 <= k < |ps| ==>
                             && IsPair(ops, ps[k]) && events[k].timestamp == ops[ps[k].start].now
                             && events[k].timestamp + events[k].duration == ops[ps[k].stop].now
                             && events[k].thread == ops[ps[k].stop].thread && events[k].id == ops[ps[k].start].id
                             && events[k].klass == ops[ps[k].start].e.klass
                             && events[k].rest == ops[ps[k].start].e.rest
  {
    hide Trace;
    hide NeverEmpty;
    hide Closed;
    var ps := Trace(ops).emitted;
    forall k | 0 <= k < |ps|
      ensures IsPair(ops, ps[k])
      ensures var event, start, stop := EventOf(ops, ps[k]), ops[ps[k].start], ops[ps[k].stop];
              && event.timestamp == start.now && event.timestamp + event.duration == stop.now
              && event.thread == stop.thread && event.id == start.id
              && event.klass == start.e.klass && event.rest == start.e.rest
    {
      EmittedTimes(ops, ps[k]);
    }
  }

  lemma NothingPlayed(f: CallstackFeature, ops: seq<Op>)
    requires f.stack.Valid() && f.stack.blocks == [] && Clocked(ops)
    ensures f.Holds(ops, []) && EventsOf(ops, [], []) && MemoryAfter([]) == NewMemory(1024, 32)
  {
  }

  lemma MemoryStep(calls: seq<Call>, i: nat)
    requires i < |calls|
    ensures MemoryAfter(calls[..i + 1]) == NextMemory(MemoryAfter(calls[..i]), calls[i])
    ensures OpsOf(calls)[i] == OpOf(MemoryAfter(calls[..i]), calls[i])
  {
    assert calls[..i + 1][..i] == calls[..i];
    hide NextMemory;
    hide OpOf;
  }

  lemma StopIsLeave(m: Memory, c: Call)
    ensures OpOf(m, c).Stop? <==> c.Leave?
  {
  }

  lemma TraceNone()
    ensures NeverEmpty([]) && Trace([]) == Frame([], [])
  {
  }

  lemma PrefixStep(ops: seq<Op>, i: nat)
    requires NeverEmpty(ops) && i < |ops|
    ensures NeverEmpty(ops[..i]) && NeverEmpty(ops[..i + 1])
    ensures var f, op := Trace(ops[..i]), ops[i];
            && (op.Stop? ==> f.open != [])
            && (forall d :: 0 <= d < |f.open| ==> f.open[d] < i)
            && Trace(ops[..i + 1]) == NextFrame(f, op, i)
  {
    NeverEmptyPrefix(ops, i + 1);
    assert ops[..i + 1][..i] == ops[..i];
    TraceStep(ops[..i + 1]);
    TraceOrdered(ops[..i]);
  }

  lemma {:induction false} NeverEmptyPrefix(ops: seq<Op>, n: nat)
    requires NeverEmpty(ops) && n <= |ops|
    ensures NeverEmpty(ops[..n])
    decreases |ops|
  {
    if n == |ops| {
      assert ops[..n] == ops;
    } else {
      var m := |ops| - 1;
      NeverEmptyPrefix(ops[..m], n);
      assert ops[..m][..n] == ops[..n];
    }
  }
}
