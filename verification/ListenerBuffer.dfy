/**
 The buffer in front of a listener's sink (listener_buffer.c), as functions from what is pending and
 what arrives to what is flushed and what stays, and as the object that keeps the bytes in an array.
 */
module ListenerBuffers {
  import opened Bytes

  /** An event as the pipeline handles it: its serialised form, and the size of its structure. */
  datatype Ev = Ev(bytes: seq<byte>, structSize: nat)

  /** Every event has at least a header. */
  predicate ValidEvs(evs: seq<Ev>) {
    forall i :: 0 <= i < |evs| ==> evs[i].bytes != [] && evs[i].structSize > 0
  }

  /** The serialised events, one after the other. */
  function BytesOf(evs: seq<Ev>): seq<byte> {
    if evs == [] then [] else evs[0].bytes + BytesOf(evs[1..])
  }

  lemma {:induction false} BytesAppend(a: seq<Ev>, b: seq<Ev>)
    ensures BytesOf(a + b) == BytesOf(a) + BytesOf(b)
  {
    if a == [] {
      assert a + b == b;
    } else {
      assert (a + b)[1..] == a[1..] + b;
      BytesAppend(a[1..], b);
    }
  }

  lemma BytesSnoc(a: seq<Ev>, e: Ev)
    ensures BytesOf(a + [e]) == BytesOf(a) + e.bytes
  {
    BytesAppend(a, [e]);
    assert BytesOf([e]) == e.bytes + BytesOf([e][1..]) == e.bytes;
  }

  /** The blocks handed to the flush callback, and what is left in the buffer. */
  datatype Flushed = Flushed(blocks: seq<seq<byte>>, pending: seq<byte>)

  function Then(b: seq<byte>, f: Flushed): Flushed {
    Flushed([b] + f.blocks, f.pending)
  }

  function Min(a: nat, b: nat): nat {
    if a > b then b else a
  }

  /** Serialised bytes fill the buffer; it is flushed each time it is full. */
  function Fill(max: nat, pending: seq<byte>, data: seq<byte>): Flushed
    requires max > 0 && |pending| <= max
    decreases |data|, |pending|
  {
    if data == [] then Flushed([], pending)
    else
      var n := Min(|data|, max - |pending|);
      if |pending| + n == max then Then(pending + data[..n], Fill(max, [], data[n..]))
      else Fill(max, pending + data[..n], data[n..])
  }

  lemma FillStep(max: nat, pending: seq<byte>, data: seq<byte>, n: nat)
    requires max > 0 && |pending| <= max && data != [] && n == Min(|data|, max - |pending|)
    ensures n <= |data| && |pending| + n <= max && (n > 0 || |pending| > 0)
    ensures Fill(max, pending, data)
         == if |pending| + n == max then Then(pending + data[..n], Fill(max, [], data[n..]))
            else Fill(max, pending + data[..n], data[n..])
  {
  }

  lemma FillEnd(max: nat, pending: seq<byte>)
    requires max > 0 && |pending| <= max
    ensures Fill(max, pending, []) == Flushed([], pending)
  {
  }

  predicate Fits(max: nat, evs: seq<Ev>) {
    forall i :: 0 <= i < |evs| ==> |evs[i].bytes| <= max
  }

  /** Events are serialised one by one; the buffer is flushed before an event that does not fit. */
  function Spill(max: nat, pending: seq<byte>, evs: seq<Ev>): Flushed
    requires |pending| <= max && Fits(max, evs)
    decreases |evs|
  {
    if evs == [] then Flushed([], pending)
    else if |evs[0].bytes| + |pending| > max then Then(pending, Spill(max, evs[0].bytes, evs[1..]))
    else Spill(max, pending + evs[0].bytes, evs[1..])
  }

  lemma ThenConcat(b: seq<byte>, f: Flushed)
    ensures Concat(Then(b, f).blocks) + Then(b, f).pending == b + (Concat(f.blocks) + f.pending)
  {
    assert Then(b, f).blocks[1..] == f.blocks;
  }

  /** Every byte comes out in order; blocks are full, and something that arrived never leaves the buffer full. */
  lemma {:induction false} FillKeepsBytes(max: nat, pending: seq<byte>, data: seq<byte>)
    requires max > 0 && |pending| <= max
    ensures var f := Fill(max, pending, data);
            && Concat(f.blocks) + f.pending == pending + data
            && (forall i :: 0 <= i < |f.blocks| ==> |f.blocks[i]| == max)
            && |f.pending| <= max && (data != [] ==> |f.pending| < max)
    decreases |data|, |pending|
  {
    hide Fill;
    if data == [] {
      FillEnd(max, pending);
      assert pending + data == pending;
    } else {
      var n := Min(|data|, max - |pending|);
      FillStep(max, pending, data, n);
      assert data == data[..n] + data[n..];
      ConcatAssoc(pending, data[..n], data[n..]);
      if |pending| + n == max {
        FillKeepsBytes(max, [], data[n..]);
        ThenConcat(pending + data[..n], Fill(max, [], data[n..]));
        assert [] + data[n..] == data[n..];
      } else {
        FillKeepsBytes(max, pending + data[..n], data[n..]);
      }
    }
  }

  /** Every byte comes out in order, and the buffer never overflows. */
  lemma {:induction false} SpillKeepsBytes(max: nat, pending: seq<byte>, evs: seq<Ev>)
    requires |pending| <= max && Fits(max, evs)
    ensures var f := Spill(max, pending, evs);
            Concat(f.blocks) + f.pending == pending + BytesOf(evs) && |f.pending| <= max
    decreases |evs|
  {
    if evs == [] {
      assert pending + BytesOf(evs) == pending;
    } else if |evs[0].bytes| + |pending| > max {
      SpillKeepsBytes(max, evs[0].bytes, evs[1..]);
      ThenConcat(pending, Spill(max, evs[0].bytes, evs[1..]));
    } else {
      SpillKeepsBytes(max, pending + evs[0].bytes, evs[1..]);
      ConcatAssoc(pending, evs[0].bytes, BytesOf(evs[1..]));
    }
  }

  /** Something is flushed exactly when the events do not all fit. */
  lemma {:induction false} SpillWrites(max: nat, pending: seq<byte>, evs: seq<Ev>)
    requires |pending| <= max && Fits(max, evs)
    ensures Concat(Spill(max, pending, evs).blocks) != [] <==> |pending| + |BytesOf(evs)| > max
    decreases |evs|
  {
    if evs != [] {
      var e := evs[0];
      if |e.bytes| + |pending| > max {
        ThenConcat(pending, Spill(max, e.bytes, evs[1..]));
        assert pending != [];
      } else {
        SpillWrites(max, pending + e.bytes, evs[1..]);
      }
    }
  }

  /**
   The events split into `groups` where the buffer was flushed: each block holds whole events, the first behind what
   was pending, fits the buffer, and had no room for the event that starts the next.
   */
  ghost predicate SplitAt(max: nat, pending: seq<byte>, groups: seq<seq<Ev>>, f: Flushed)
    decreases |groups|
  {
    && |groups| == |f.blocks| + 1
    && if f.blocks == [] then f.pending == pending + BytesOf(groups[0])
       else
         && f.blocks[0] == pending + BytesOf(groups[0]) && |f.blocks[0]| <= max
         && groups[1] != [] && |f.blocks[0]| + |groups[1][0].bytes| > max
         && SplitAt(max, [], groups[1..], Flushed(f.blocks[1..], f.pending))
  }

  lemma SplitLater(max: nat, pending: seq<byte>, e: Ev, groups: seq<seq<Ev>>, f: Flushed)
    requires SplitAt(max, pending + e.bytes, groups, f)
    ensures SplitAt(max, pending, groups[0 := [e] + groups[0]], f)
  {
    BytesAppend([e], groups[0]);
    BytesSnoc([], e);
    assert [] + [e] == [e] && [] + e.bytes == e.bytes;
    ConcatAssoc(pending, e.bytes, BytesOf(groups[0]));
    assert groups[0 := [e] + groups[0]][1..] == groups[1..];
    hide BytesOf;
  }

  lemma SplitHere(max: nat, pending: seq<byte>, e: Ev, groups: seq<seq<Ev>>, f: Flushed)
    requires |pending| <= max && SplitAt(max, e.bytes, groups, f) && |e.bytes| + |pending| > max
    ensures SplitAt(max, pending, [[]] + groups[0 := [e] + groups[0]], Then(pending, f))
  {
    var groups', f' := [[]] + groups[0 := [e] + groups[0]], Then(pending, f);
    assert [] + e.bytes == e.bytes;
    SplitLater(max, [], e, groups, f);
    assert groups'[1..] == groups[0 := [e] + groups[0]] && f'.blocks[1..] == f.blocks;
    assert pending + BytesOf([]) == pending;
  }

  lemma ConcatFirst(e: Ev, groups: seq<seq<Ev>>)
    requires groups != []
    ensures Concat(groups[0 := [e] + groups[0]]) == [e] + Concat(groups)
    ensures Concat([[]] + groups[0 := [e] + groups[0]]) == [e] + Concat(groups)
  {
    ConcatAssoc([e], groups[0], Concat(groups[1..]));
    assert groups[0 := [e] + groups[0]][1..] == groups[1..];
    assert ([[]] + groups[0 := [e] + groups[0]])[1..] == groups[0 := [e] + groups[0]];
  }

  lemma {:induction false} SpillGroups(max: nat, pending: seq<byte>, evs: seq<Ev>) returns (groups: seq<seq<Ev>>)
    requires |pending| <= max && Fits(max, evs)
    ensures Concat(groups) == evs && SplitAt(max, pending, groups, Spill(max, pending, evs))
    decreases |evs|
  {
    if evs == [] {
      groups := [[]];
    } else {
      var flush := |evs[0].bytes| + |pending| > max;
      var start := if flush then evs[0].bytes else pending + evs[0].bytes;
      var rest := SpillGroups(max, start, evs[1..]);
      var f := Spill(max, start, evs[1..]);
      groups := rest[0 := [evs[0]] + rest[0]];
      ConcatFirst(evs[0], rest);
      hide SplitAt;
      hide BytesOf;
      if flush {
        SplitHere(max, pending, evs[0], rest, f);
        groups := [[]] + groups;
        assert groups[1..] == rest[0 := [evs[0]] + rest[0]];
      } else {
        SplitLater(max, pending, evs[0], rest, f);
      }
    }
  }

  /** The buffer is flushed only where the next event does not fit, and no event is cut in two. */
  lemma SpillSplits(max: nat, pending: seq<byte>, evs: seq<Ev>)
    requires |pending| <= max && Fits(max, evs)
    ensures exists groups :: Concat(groups) == evs && SplitAt(max, pending, groups, Spill(max, pending, evs))
  {
    var groups := SpillGroups(max, pending, evs);
  }

  function Prepend(blocks: seq<seq<byte>>, f: Flushed): Flushed {
    Flushed(blocks + f.blocks, f.pending)
  }

  lemma PrependThen(blocks: seq<seq<byte>>, b: seq<byte>, f: Flushed)
    ensures Prepend(blocks, Then(b, f)) == Prepend(blocks + [b], f)
  {
    assert blocks + ([b] + f.blocks) == (blocks + [b]) + f.blocks;
  }

  lemma PrependNone(f: Flushed)
    ensures Prepend([], f) == f
  {
    assert [] + f.blocks == f.blocks;
  }

  lemma PrependLast(blocks: seq<seq<byte>>, pending: seq<byte>)
    ensures Prepend(blocks, Flushed([], pending)) == Flushed(blocks, pending)
  {
    assert blocks + [] == blocks;
  }

  lemma SliceStep(s: seq<byte>, i: nat, n: nat)
    requires i + n <= |s|
    ensures s[i..][..n] == s[i..i + n] && s[i..][n..] == s[i + n..]
  {
  }

  class ListenerBuffer {
    const maxSize: nat
    const data: array<byte>
    var usage: nat

    ghost predicate Valid()
      reads this
    {
      data.Length == maxSize && usage <= maxSize
    }

    ghost function Pending(): seq<byte>
      requires Valid()
      reads this, data
    {
      data[..usage]
    }

    constructor (maxSize: nat)
      ensures Valid() && this.maxSize == maxSize && usage == 0 && fresh(data)
    {
      this.maxSize := maxSize;
      data := new byte[maxSize];
      usage := 0;
    }

    /** Hands the pending bytes to the flush callback. */
    method Flush() returns (block: seq<byte>)
      requires Valid()
      modifies this
      ensures Valid() && block == old(Pending()) && Pending() == []
    {
      block := data[..usage];
      usage := 0;
    }

    /** Copies bytes behind the pending ones. */
    method Copy(bs: seq<byte>)
      requires Valid() && usage + |bs| <= maxSize
      modifies this, data
      ensures Valid() && Pending() == old(Pending()) + bs
    {
      forall k | 0 <= k < |bs| {
        data[usage + k] := bs[k];
      }
      usage := usage + |bs|;
    }

    /** ht_listener_buffer_process_serialized_events; without a buffer everything is flushed at once. */
    method ProcessSerialized(events: seq<byte>) returns (blocks: seq<seq<byte>>)
      requires Valid()
      modifies this, data
      ensures Valid()
      ensures maxSize == 0 ==> blocks == [events] && Pending() == []
      ensures maxSize > 0 ==> Flushed(blocks, Pending()) == Fill(maxSize, old(Pending()), events)
    {
      if maxSize == 0 {
        return [events];
      }
      hide Fill;
      hide Prepend;
      var written := 0;
      blocks := [];
      assert events[0..] == events;
      PrependNone(Fill(maxSize, Pending(), events));
      while written < |events|
        invariant 0 <= written <= |events| && Valid()
        invariant Prepend(blocks, Fill(maxSize, Pending(), events[written..])) == Fill(maxSize, old(Pending()), events)
        decreases |events| - written, usage
      {
        var n := Min(|events| - written, maxSize - usage);
        ghost var rest, before := events[written..], Pending();
        FillStep(maxSize, before, rest, n);
        var chunk := events[written..written + n];
        SliceStep(events, written, n);
        Copy(chunk);
        written := written + n;
        if usage == maxSize {
          var block := Flush();
          assert block == before + chunk;
          PrependThen(blocks, block, Fill(maxSize, [], rest[n..]));
          blocks := blocks + [block];
        }
      }
      assert events[written..] == [];
      FillEnd(maxSize, Pending());
      PrependLast(blocks, Pending());
    }

    /** ht_listener_buffer_process_unserialized_events; an event must fit into the buffer. */
    method ProcessUnserialized(events: seq<Ev>) returns (blocks: seq<seq<byte>>)
      requires Valid() && maxSize > 0 && Fits(maxSize, events)
      modifies this, data
      ensures Valid()
      ensures Flushed(blocks, Pending()) == Spill(maxSize, old(Pending()), events)
    {
      blocks := [];
      assert events[0..] == events;
      PrependNone(Spill(maxSize, Pending(), events));
      for i := 0 to |events|
        invariant Valid()
        invariant Prepend(blocks, Spill(maxSize, Pending(), events[i..])) == Spill(maxSize, old(Pending()), events)
      {
        ghost var rest := events[i..];
        assert rest[0] == events[i] && rest[1..] == events[i + 1..];
        assert [] + rest[0].bytes == rest[0].bytes;
        if |events[i].bytes| + usage > maxSize {
          var block := Flush();
          PrependThen(blocks, block, Spill(maxSize, rest[0].bytes, rest[1..]));
          blocks := blocks + [block];
        }
        Copy(events[i].bytes);
      }
      assert events[|events|..] == [];
      assert blocks + [] == blocks;
    }
  }
}
