/**
 The network input stream (client_utils/tcp_client_stream.cpp): a receiving thread queues chunks, the reader
 takes bytes from the chunk at the front.  What is still to arrive is part of the state.
 */
module ChunkedStream {
  import opened Bytes

  /** A queued chunk and how much of it has been read. */
  datatype Chunk = Chunk(offset: nat, data: seq<byte>)

  function Left(c: Chunk): seq<byte>
    requires c.offset <= |c.data|
  {
    c.data[c.offset..]
  }

  /** No queued chunk is used up. */
  predicate Unused(queue: seq<Chunk>) {
    forall i :: 0 <= i < |queue| ==> queue[i].offset < |queue[i].data|
  }

  function Queued(queue: seq<Chunk>): seq<byte>
    requires Unused(queue)
  {
    if queue == [] then [] else Left(queue[0]) + Queued(queue[1..])
  }

  lemma {:induction false} QueuedSnoc(queue: seq<Chunk>, c: Chunk)
    requires Unused(queue) && c.offset < |c.data|
    ensures Unused(queue + [c]) && Queued(queue + [c]) == Queued(queue) + Left(c)
  {
    if queue == [] {
      assert queue + [c] == [c];
      assert Queued([c]) == Left(c) + Queued([]) == Left(c);
    } else {
      assert (queue + [c])[1..] == queue[1..] + [c];
      QueuedSnoc(queue[1..], c);
      ConcatAssoc(Left(queue[0]), Queued(queue[1..]), Left(c));
    }
  }

  /**
   How many chunks the receiving thread queues, besides those the reader waits for, by the time the reader
   takes the lock for the n-th time.
   */
  type Arrivals = nat -> nat

  class TcpClientStream {
    const arrivals: Arrivals
    var turn: nat
    var queue: seq<Chunk>
    var incoming: seq<seq<byte>>

    ghost predicate Valid()
      reads this
    {
      Unused(queue) && forall i :: 0 <= i < |incoming| ==> incoming[i] != []
    }

    /** Every byte not read yet, in order. */
    ghost function Unread(): seq<byte>
      requires Valid()
      reads this
    {
      Queued(queue) + Concat(incoming)
    }

    /** A connection over which these chunks arrive before it is closed; none of them is empty. */
    constructor (chunks: seq<seq<byte>>, arrivals: Arrivals)
      requires forall i :: 0 <= i < |chunks| ==> chunks[i] != []
      ensures Valid() && Unread() == Concat(chunks)
    {
      this.arrivals := arrivals;
      turn := 0;
      queue := [];
      incoming := chunks;
      new;
      assert [] + Concat(chunks) == Concat(chunks);
    }

    /** The receiving thread queues the next chunk. */
    method Receive()
      requires Valid() && incoming != []
      modifies `queue, `incoming
      ensures Valid() && Unread() == old(Unread()) && |incoming| < |old(incoming)|
      ensures queue == old(queue) + [Chunk(0, old(incoming)[0])]
    {
      var chunk := Chunk(0, incoming[0]);
      QueuedSnoc(queue, chunk);
      ConcatAssoc(Queued(queue), incoming[0], Concat(incoming[1..]));
      queue := queue + [chunk];
      incoming := incoming[1..];
    }

    /** Whatever has arrived in the meantime is queued; then waits until something is or the connection is closed. */
    method WaitForData() returns (available: bool)
      requires Valid()
      modifies this
      ensures Valid() && Unread() == old(Unread())
      ensures available == (queue != []) == (Unread() != [])
    {
      var due := arrivals(turn);
      turn := turn + 1;
      while (due > 0 || queue == []) && incoming != []
        invariant Valid() && Unread() == old(Unread())
        decreases |incoming|
      {
        Receive();
        due := if due > 0 then due - 1 else 0;
      }
      available := queue != [];
      assert available ==> Left(queue[0]) != [];
    }

    /** Takes up to n bytes from the chunk at the front; a chunk that is used up leaves the queue. */
    method Take(n: nat) returns (bs: seq<byte>)
      requires Valid() && queue != []
      modifies `queue
      ensures Valid()
      ensures |bs| <= n && (n > 0 ==> bs != []) && bs + Unread() == old(Unread())
    {
      var front, rest := queue[0], queue[1..];
      var count := if n < |front.data| - front.offset then n else |front.data| - front.offset;
      bs := front.data[front.offset..front.offset + count];
      ghost var tail := front.data[front.offset + count..];
      assert Left(front) == bs + tail;
      ConcatAssoc(bs, tail, Queued(rest));
      ConcatAssoc(bs, tail + Queued(rest), Concat(incoming));
      var used := front.(offset := front.offset + count);
      if used.offset == |used.data| {
        queue := rest;
        assert [] + Queued(rest) == Queued(rest);
      } else {
        queue := [used] + rest;
        assert queue[1..] == rest;
      }
    }

    method ReadByte() returns (c: int)
      requires Valid()
      modifies this
      ensures Valid()
      ensures old(Unread()) == [] ==> c == -1 && Unread() == []
      ensures old(Unread()) != [] ==> c == SignedChar(old(Unread())[0]) && Unread() == old(Unread())[1..]
    {
      var available := WaitForData();
      if !available {
        return -1;
      }
      var bs := Take(1);
      assert old(Unread())[0] == bs[0] && old(Unread())[1..] == Unread();
      c := SignedChar(bs[0]);
    }

    /** Fills a buffer of the given size; at the end of the stream what was left is lost. */
    method ReadData(size: nat) returns (ok: bool, buff: seq<byte>)
      requires Valid()
      modifies this
      ensures Valid()
      ensures ok == (if size > 0 then size <= |old(Unread())| else old(Unread()) != [])
      ensures ok ==> buff == old(Unread())[..size] && Unread() == old(Unread())[size..]
      ensures !ok ==> buff == old(Unread()) && Unread() == []
    {
      buff := [];
      var first := true;
      assert [] + Unread() == Unread();
      while first || |buff| < size
        invariant Valid() && |buff| <= size && (first ==> buff == []) && (!first && size > 0 ==> buff != [])
        invariant buff + Unread() == old(Unread()) && (!first && size == 0 ==> old(Unread()) != [])
        decreases first, size - |buff|
      {
        var available := WaitForData();
        if !available {
          assert buff + [] == buff;
          return false, buff;
        }
        var more := Take(size - |buff|);
        ConcatAssoc(buff, more, Unread());
        buff := buff + more;
        first := false;
      }
      ok := true;
    }
  }

  // Series of reads.

  datatype ReadOp = ByteOp | DataOp(size: nat)

  datatype ReadResult = ByteResult(value: int) | DataResult(ok: bool, bytes: seq<byte>)

  /** A read from the unsplit bytes. */
  function FlatRead(rest: seq<byte>, op: ReadOp): ReadResult {
    match op
    case ByteOp => ByteResult(if rest == [] then -1 else rest[0])
    case DataOp(size) => DataResult(size <= |rest|, if size <= |rest| then rest[..size] else rest)
  }

  function FlatRest(rest: seq<byte>, op: ReadOp): seq<byte> {
    var size := if op.ByteOp? then 1 else op.size;
    if size <= |rest| then rest[size..] else []
  }

  /** The results of a series of reads from the unsplit bytes. */
  function FlatReads(rest: seq<byte>, ops: seq<ReadOp>): (rs: seq<ReadResult>)
    ensures |rs| == |ops|
    decreases |ops|
  {
    if ops == [] then [] else [FlatRead(rest, ops[0])] + FlatReads(FlatRest(rest, ops[0]), ops[1..])
  }

  /** A read from this stream, as if the bytes were not split. */
  function StreamRead(rest: seq<byte>, op: ReadOp): ReadResult {
    match op
    case ByteOp => ByteResult(if rest == [] then -1 else SignedChar(rest[0]))
    case DataOp(size) =>
      var ok := if size > 0 then size <= |rest| else rest != [];
      DataResult(ok, if ok then rest[..size] else rest)
  }

  function StreamReads(rest: seq<byte>, ops: seq<ReadOp>): (rs: seq<ReadResult>)
    ensures |rs| == |ops|
    decreases |ops|
  {
    if ops == [] then [] else [StreamRead(rest, ops[0])] + StreamReads(FlatRest(rest, ops[0]), ops[1..])
  }

  /** Single bytes are read only where they are below 0x80, and nothing of size zero at the end of the stream. */
  predicate Faithful(rest: seq<byte>, ops: seq<ReadOp>)
    decreases |ops|
  {
    ops == []
    || ((if ops[0].ByteOp? then rest != [] ==> rest[0] < 0x80 else ops[0].size == 0 ==> rest != [])
        && Faithful(FlatRest(rest, ops[0]), ops[1..]))
  }

  lemma {:induction false} FaithfulReads(rest: seq<byte>, ops: seq<ReadOp>)
    ensures StreamReads(rest, ops) == FlatReads(rest, ops) <==> Faithful(rest, ops)
    decreases |ops|
  {
    if ops != [] {
      var a, b := StreamReads(rest, ops), FlatReads(rest, ops);
      FaithfulReads(FlatRest(rest, ops[0]), ops[1..]);
      assert a[1..] == StreamReads(FlatRest(rest, ops[0]), ops[1..]);
      assert b[1..] == FlatReads(FlatRest(rest, ops[0]), ops[1..]);
      assert a == b <==> a[0] == b[0] && a[1..] == b[1..] by {
        assert a == [a[0]] + a[1..] && b == [b[0]] + b[1..];
      }
    }
  }

  method ReadOne(stream: TcpClientStream, op: ReadOp) returns (r: ReadResult)
    requires stream.Valid()
    modifies stream
    ensures stream.Valid() && r == StreamRead(old(stream.Unread()), op)
    ensures stream.Unread() == FlatRest(old(stream.Unread()), op)
  {
    match op {
      case ByteOp =>
        var c := stream.ReadByte();
        r := ByteResult(c);
      case DataOp(size) =>
        var ok, bs := stream.ReadData(size);
        r := DataResult(ok, bs);
    }
  }

  /**
   However the bytes are split into chunks, and whenever the chunks arrive, a series of reads gives what the
   unsplit bytes would give exactly when no single byte of 0x80 or more is read, and nothing of size zero at
   the end.
   */
  method ReadSeries(chunks: seq<seq<byte>>, arrivals: Arrivals, ops: seq<ReadOp>) returns (results: seq<ReadResult>)
    requires forall i :: 0 <= i < |chunks| ==> chunks[i] != []
    ensures results == FlatReads(Concat(chunks), ops) <==> Faithful(Concat(chunks), ops)
  {
    var stream := new TcpClientStream(chunks, arrivals);
    results := [];
    FaithfulReads(Concat(chunks), ops);
    hide StreamReads;
    hide FlatReads;
    hide Faithful;
    hide StreamRead;
    hide FlatRest;
    ghost var whole := StreamReads(Concat(chunks), ops);
    assert ops[0..] == ops && [] + whole == whole;
    for i := 0 to |ops|
      invariant stream.Valid() && fresh(stream)
      invariant results + StreamReads(stream.Unread(), ops[i..]) == whole
    {
      SeriesStep(stream.Unread(), ops, i);
      var r := ReadOne(stream, ops[i]);
      ConcatAssoc(results, [r], StreamReads(stream.Unread(), ops[i + 1..]));
      results := results + [r];
    }
    assert ops[|ops|..] == [];
    assert results + [] == results;
  }

  lemma SeriesStep(rest: seq<byte>, ops: seq<ReadOp>, i: nat)
    requires i < |ops|
    ensures StreamReads(rest, ops[i..])
            == [StreamRead(rest, ops[i])] + StreamReads(FlatRest(rest, ops[i]), ops[i + 1..])
  {
    assert ops[i..][0] == ops[i] && ops[i..][1..] == ops[i + 1..];
  }
}
