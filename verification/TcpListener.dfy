/**
 The network listener (listeners/tcp_listener.c): blocks go to every connected client, and a push that
 flushed anything flushes the rest too, so that nothing is ever left half sent.
 */
module TcpListeners {
  import opened Bytes
  import opened ListenerBuffers
  import opened Timelines
  import opened FileDump
  import EventKlasses
  import opened Registry
  import opened Metadata

  /** A listener; each client is the sequence of bytes written to its socket. */
  datatype Tcp = Tcp(max: nat, pending: seq<byte>, clients: seq<seq<byte>>, wasFlushed: bool, running: bool)

  function SendAll(clients: seq<seq<byte>>, bs: seq<byte>): (r: seq<seq<byte>>)
    ensures |r| == |clients| && forall i :: 0 <= i < |clients| ==> r[i] == clients[i] + bs
  {
    seq(|clients|, i requires 0 <= i < |clients| => clients[i] + bs)
  }

  /** What the buffer does with a notification; without a buffer it is one block. */
  function Process(max: nat, pending: seq<byte>, note: Note): Flushed
    requires |pending| <= max && Accepts(max, note)
  {
    match note
    case Serialized(bs) => if max == 0 then Flushed([bs], pending) else Fill(max, pending, bs)
    case Structs(evs) => Spill(max, pending, evs)
  }

  lemma ProcessKeepsBytes(max: nat, pending: seq<byte>, note: Note)
    requires |pending| <= max && Accepts(max, note)
    ensures var f := Process(max, pending, note);
            && |f.pending| <= max && Concat(f.blocks) + f.pending == pending + NoteBytes(note)
            && (f.blocks == [] ==> f.pending == pending + NoteBytes(note))
  {
    match note {
      case Serialized(bs) =>
        if max == 0 {
          assert pending == [] && [] + bs == bs && bs + [] == bs && Concat([bs][1..]) == [];
        } else {
          FillKeepsBytes(max, pending, bs);
        }
      case Structs(evs) => SpillKeepsBytes(max, pending, evs);
    }
    var f := Process(max, pending, note);
    assert [] + f.pending == f.pending;
  }

  /** ht_tcp_listener_push_events. */
  function PushTcp(t: Tcp, note: Note): Tcp
    requires |t.pending| <= t.max && Accepts(t.max, note)
  {
    if !t.running then t
    else
      var f := Process(t.max, t.pending, note);
      var clients := SendAll(t.clients, Concat(f.blocks));
      if t.wasFlushed || f.blocks != [] then
        t.(pending := [], clients := SendAll(clients, f.pending), wasFlushed := false)
      else t.(pending := f.pending, clients := clients)
  }

  /** A client that connects is sent the blocks of the metadata, and then counts among the clients. */
  function Connect(t: Tcp, blocks: seq<seq<byte>>): Tcp {
    t.(clients := t.clients + [Concat(blocks)])
  }

  // When a push sends.

  /** Whether a notification makes a buffer with `held` pending bytes flush. */
  predicate Flushes(max: nat, held: nat, note: Note) {
    match note
    case Serialized(bs) => max == 0 || (bs != [] && held + |bs| >= max)
    case Structs(evs) => held + |BytesOf(evs)| > max
  }

  lemma {:induction false} BlocksSize(blocks: seq<seq<byte>>, max: nat)
    requires blocks != [] && forall i :: 0 <= i < |blocks| ==> |blocks[i]| == max
    ensures |Concat(blocks)| >= max
  {
  }

  lemma FillFlushes(max: nat, pending: seq<byte>, data: seq<byte>)
    requires max > 0 && |pending| <= max
    ensures Fill(max, pending, data).blocks != [] <==> data != [] && |pending| + |data| >= max
  {
    var f := Fill(max, pending, data);
    FillKeepsBytes(max, pending, data);
    if data == [] {
      FillEnd(max, pending);
    } else {
      hide Fill;
      assert |Concat(f.blocks)| + |f.pending| == |Concat(f.blocks) + f.pending| == |pending| + |data|;
      if f.blocks != [] {
        BlocksSize(f.blocks, max);
      }
    }
  }

  lemma {:induction false} SpillFlushes(max: nat, pending: seq<byte>, evs: seq<Ev>)
    requires |pending| <= max && ListenerBuffers.Fits(max, evs)
    ensures Spill(max, pending, evs).blocks != [] <==> |pending| + |BytesOf(evs)| > max
    decreases |evs|
  {
    if evs != [] && |evs[0].bytes| + |pending| <= max {
      SpillFlushes(max, pending + evs[0].bytes, evs[1..]);
    }
  }

  /** The buffer flushes exactly when the sizes say so. */
  lemma ProcessFlushes(max: nat, pending: seq<byte>, note: Note)
    requires |pending| <= max && Accepts(max, note)
    ensures Process(max, pending, note).blocks != [] <==> Flushes(max, |pending|, note)
  {
    match note {
      case Serialized(bs) =>
        if max > 0 {
          FillFlushes(max, pending, bs);
        }
      case Structs(evs) => SpillFlushes(max, pending, evs);
    }
  }

  // Event boundaries.

  /** When a client connected, how many groups of events had been sent already. */
  datatype Joined = Joined(metadata: seq<byte>, at: nat)

  predicate ClientAt(client: seq<byte>, j: Joined, groups: seq<seq<Ev>>, sent: nat) {
    j.at <= sent <= |groups| && client == j.metadata + BytesOf(Concat(groups[j.at..sent]))
  }

  predicate ClientsAt(clients: seq<seq<byte>>, joined: seq<Joined>, groups: seq<seq<Ev>>, sent: nat) {
    |clients| == |joined| && forall i :: 0 <= i < |joined| ==> ClientAt(clients[i], joined[i], groups, sent)
  }

  /**
   Of the groups of events pushed, the first `sent` have been sent whole and the others are pending; every
   client has got its metadata and whole groups since it connected.
   */
  ghost predicate OnBoundary(t: Tcp, groups: seq<seq<Ev>>, sent: nat, joined: seq<Joined>) {
    && t.running && !t.wasFlushed && |t.pending| <= t.max
    && sent <= |groups| && t.pending == BytesOf(Concat(groups[sent..]))
    && ClientsAt(t.clients, joined, groups, sent)
  }

  lemma GroupBytes(groups: seq<seq<Ev>>, lo: nat, mid: nat)
    requires lo <= mid <= |groups|
    ensures BytesOf(Concat(groups[lo..])) == BytesOf(Concat(groups[lo..mid])) + BytesOf(Concat(groups[mid..]))
  {
    assert groups[lo..] == groups[lo..mid] + groups[mid..];
    ConcatAppend(groups[lo..mid], groups[mid..]);
    BytesAppend(Concat(groups[lo..mid]), Concat(groups[mid..]));
  }

  lemma GroupBytesSnoc(groups: seq<seq<Ev>>, sent: nat, evs: seq<Ev>)
    requires sent <= |groups|
    ensures BytesOf(Concat((groups + [evs])[sent..])) == BytesOf(Concat(groups[sent..])) + BytesOf(evs)
  {
    assert (groups + [evs])[sent..] == groups[sent..] + [evs];
    ConcatSnoc(groups[sent..], evs);
    BytesAppend(Concat(groups[sent..]), evs);
  }

  lemma ClientKept(client: seq<byte>, j: Joined, groups: seq<seq<Ev>>, sent: nat, evs: seq<Ev>)
    requires ClientAt(client, j, groups, sent)
    ensures ClientAt(client + [], j, groups + [evs], sent)
  {
    assert (groups + [evs])[j.at..sent] == groups[j.at..sent];
    assert client + [] == client;
  }

  lemma ClientCaughtUp(client: seq<byte>, j: Joined, groups: seq<seq<Ev>>, sent: nat, a: seq<byte>, b: seq<byte>)
    requires ClientAt(client, j, groups, sent) && a + b == BytesOf(Concat(groups[sent..]))
    ensures ClientAt((client + a) + b, j, groups, |groups|)
  {
    GroupBytes(groups, j.at, sent);
    assert groups[j.at..|groups|] == groups[j.at..];
    ConcatAssoc(client, a, b);
    ConcatAssoc(j.metadata, BytesOf(Concat(groups[j.at..sent])), a + b);
  }

  lemma ClientAppend(client: seq<byte>, j: Joined, groups: seq<seq<Ev>>, sent: nat, evs: seq<Ev>)
    requires ClientAt(client, j, groups, sent)
    ensures ClientAt(client, j, groups + [evs], sent)
  {
    ClientKept(client, j, groups, sent, evs);
    assert client + [] == client;
  }

  lemma AllCaughtUp(clients: seq<seq<byte>>, joined: seq<Joined>, groups: seq<seq<Ev>>, sent: nat, evs: seq<Ev>,
                    a: seq<byte>, b: seq<byte>)
    requires ClientsAt(clients, joined, groups, sent) && sent <= |groups|
    requires a + b == BytesOf(Concat((groups + [evs])[sent..]))
    ensures ClientsAt(SendAll(SendAll(clients, a), b), joined, groups + [evs], |groups| + 1)
  {
    hide ClientAt;
    forall i | 0 <= i < |joined|
      ensures ClientAt((clients[i] + a) + b, joined[i], groups + [evs], |groups| + 1)
    {
      ClientAppend(clients[i], joined[i], groups, sent, evs);
      ClientCaughtUp(clients[i], joined[i], groups + [evs], sent, a, b);
    }
  }

  lemma AllKept(clients: seq<seq<byte>>, joined: seq<Joined>, groups: seq<seq<Ev>>, sent: nat, evs: seq<Ev>)
    requires ClientsAt(clients, joined, groups, sent)
    ensures ClientsAt(SendAll(clients, []), joined, groups + [evs], sent)
  {
    hide ClientAt;
    forall i | 0 <= i < |joined|
      ensures ClientAt(clients[i] + [], joined[i], groups + [evs], sent)
    {
      ClientKept(clients[i], joined[i], groups, sent, evs);
    }
  }

  /** A push ends with everything sent, or with nothing sent: no event is left half sent. */
  lemma PushKeepsBoundary(t: Tcp, groups: seq<seq<Ev>>, sent: nat, joined: seq<Joined>, serialize: bool, evs: seq<Ev>)
    requires OnBoundary(t, groups, sent, joined) && Accepts(t.max, NoteOf(serialize, evs))
    ensures var sent' := if Flushes(t.max, |t.pending|, NoteOf(serialize, evs)) then |groups| + 1 else sent;
            OnBoundary(PushTcp(t, NoteOf(serialize, evs)), groups + [evs], sent', joined)
  {
    hide Process;
    hide ClientAt;
    hide Flushes;
    hide Accepts;
    hide ClientsAt;
    var note, all := NoteOf(serialize, evs), groups + [evs];
    var f := Process(t.max, t.pending, note);
    ProcessFlushes(t.max, t.pending, note);
    ProcessKeepsBytes(t.max, t.pending, note);
    GroupBytesSnoc(groups, sent, evs);
    if f.blocks != [] {
      assert all[|all|..] == [];
      AllCaughtUp(t.clients, joined, groups, sent, evs, Concat(f.blocks), f.pending);
    } else {
      AllKept(t.clients, joined, groups, sent, evs);
    }
  }

  /** A client that connects between pushes starts at an event boundary. */
  lemma ConnectKeepsBoundary(t: Tcp, groups: seq<seq<Ev>>, sent: nat, joined: seq<Joined>, blocks: seq<seq<byte>>)
    requires OnBoundary(t, groups, sent, joined)
    ensures OnBoundary(Connect(t, blocks), groups, sent, joined + [Joined(Concat(blocks), sent)])
  {
    assert Concat(blocks) + BytesOf(Concat(groups[sent..sent])) == Concat(blocks);
  }

  /** A push of whole events, or a client that has connected and been sent the blocks of the metadata. */
  datatype TcpOp = Push(serialize: bool, evs: seq<Ev>) | ClientConnected(blocks: seq<seq<byte>>)

  predicate Acceptable(max: nat, op: TcpOp) {
    op.Push? ==> Accepts(max, NoteOf(op.serialize, op.evs))
  }

  function Groups(ops: seq<TcpOp>): seq<seq<Ev>> {
    if ops == [] then []
    else Groups(ops[..|ops| - 1]) + (if ops[|ops| - 1].Push? then [ops[|ops| - 1].evs] else [])
  }

  /** How many of the groups pushed so far have been sent, by sizes alone. */
  function Sent(max: nat, ops: seq<TcpOp>): (n: nat)
    ensures n <= |Groups(ops)|
  {
    if ops == [] then 0
    else
      var before, op := ops[..|ops| - 1], ops[|ops| - 1];
      if op.Push? && Flushes(max, |BytesOf(Concat(Groups(before)[Sent(max, before)..]))|, NoteOf(op.serialize, op.evs))
      then |Groups(ops)| else Sent(max, before)
  }

  /** The clients in order of connection: each with its own metadata and what had been sent at that moment. */
  function Joins(max: nat, ops: seq<TcpOp>): seq<Joined> {
    if ops == [] then []
    else
      var before, op := ops[..|ops| - 1], ops[|ops| - 1];
      Joins(max, before) + (if op.ClientConnected? then [Joined(Concat(op.blocks), Sent(max, before))] else [])
  }

  predicate AllAcceptable(max: nat, ops: seq<TcpOp>) {
    forall i :: 0 <= i < |ops| ==> Acceptable(max, ops[i])
  }

  /** The listener after a sequence of pushes and connections. */
  function TcpRun(max: nat, ops: seq<TcpOp>): (t: Tcp)
    requires AllAcceptable(max, ops)
    ensures |t.pending| <= t.max == max
  {
    if ops == [] then Tcp(max, [], [], false, true)
    else
      var t, op := TcpRun(max, ops[..|ops| - 1]), ops[|ops| - 1];
      match op
      case Push(serialize, evs) =>
        assert Acceptable(max, op);
        ProcessKeepsBytes(max, t.pending, NoteOf(serialize, evs));
        PushTcp(t, NoteOf(serialize, evs))
      case ClientConnected(blocks) => Connect(t, blocks)
  }

  /**
   After every sequence of pushes and connections, for any buffer size: the groups sent are those the sizes
   say, the others are pending whole, and every client has got exactly its metadata and the groups sent since
   it connected.
   */
  lemma {:induction false} TcpStaysOnBoundary(max: nat, ops: seq<TcpOp>)
    requires AllAcceptable(max, ops)
    ensures OnBoundary(TcpRun(max, ops), Groups(ops), Sent(max, ops), Joins(max, ops))
  {
    if ops != [] {
      var before, op := ops[..|ops| - 1], ops[|ops| - 1];
      TcpStaysOnBoundary(max, before);
      assert Acceptable(max, op);
      var t, groups, sent, joined := TcpRun(max, before), Groups(before), Sent(max, before), Joins(max, before);
      if op.Push? {
        PushKeepsBoundary(t, groups, sent, joined, op.serialize, op.evs);
        assert joined + [] == joined;
      } else {
        ConnectKeepsBoundary(t, groups, sent, joined, op.blocks);
        assert groups + [] == groups;
      }
      hide OnBoundary;
      hide Flushes;
    }
  }

  /** What a client has been sent, from the operations alone. */
  lemma ClientBytes(max: nat, ops: seq<TcpOp>, c: nat)
    requires AllAcceptable(max, ops) && c < |Joins(max, ops)|
    ensures var clients, j, sent := TcpRun(max, ops).clients, Joins(max, ops)[c], Sent(max, ops);
            && |clients| == |Joins(max, ops)| && j.at <= sent
            && clients[c] == j.metadata + BytesOf(Concat(Groups(ops)[j.at..sent]))
  {
    TcpStaysOnBoundary(max, ops);
    assert ClientAt(TcpRun(max, ops).clients[c], Joins(max, ops)[c], Groups(ops), Sent(max, ops));
  }

  /** The bytes of the metadata: the byte order, a description of every class, and the version. */
  ghost predicate IsMetadataStream(order: Endianness, r: seq<EventKlasses.Klass>, version: Item, bytes: seq<byte>) {
    exists blocks: seq<seq<byte>>, meta, groups ::
      IsMetadata(order, r, version, meta, groups, blocks) && bytes == Concat(blocks)
  }

  class TCPListener {
    const buffer: ListenerBuffer
    var clients: seq<seq<byte>>
    var wasFlushed: bool
    var running: bool

    ghost function View(): Tcp
      requires buffer.Valid()
      reads this, buffer, buffer.data
    {
      Tcp(buffer.maxSize, buffer.Pending(), clients, wasFlushed, running)
    }

    constructor (maxSize: nat)
      ensures buffer.Valid() && View() == Tcp(maxSize, [], [], false, true) && fresh(buffer) && fresh(buffer.data)
    {
      buffer := new ListenerBuffer(maxSize);
      clients := [];
      wasFlushed := false;
      running := true;
    }

    /** ht_tcp_listener_f_flush: writes a block to every client. */
    method FlushCallback(block: seq<byte>)
      modifies `clients, `wasFlushed
      ensures clients == SendAll(old(clients), block) && wasFlushed
    {
      var i := 0;
      while i < |clients|
        invariant 0 <= i <= |clients| == |old(clients)|
        invariant forall k :: 0 <= k < |clients| ==>
                    clients[k] == if k < i then old(clients)[k] + block else old(clients)[k]
      {
        clients := clients[i := clients[i] + block];
        i := i + 1;
      }
      wasFlushed := true;
    }

    method FlushCallbacks(blocks: seq<seq<byte>>)
      modifies `clients, `wasFlushed
      ensures clients == SendAll(old(clients), Concat(blocks))
      ensures wasFlushed == (old(wasFlushed) || blocks != [])
    {
      SendNothing(clients);
      for i := 0 to |blocks|
        invariant clients == SendAll(old(clients), Concat(blocks[..i]))
        invariant wasFlushed == (old(wasFlushed) || i > 0)
      {
        assert blocks[..i + 1] == blocks[..i] + [blocks[i]];
        ConcatSnoc(blocks[..i], blocks[i]);
        SendTwice(old(clients), Concat(blocks[..i]), blocks[i]);
        FlushCallback(blocks[i]);
      }
      assert blocks[..|blocks|] == blocks;
    }

    method PushEvents(note: Note)
      requires buffer.Valid() && Accepts(buffer.maxSize, note)
      modifies this, buffer, buffer.data
      ensures buffer.Valid() && View() == PushTcp(old(View()), note)
      ensures !old(running) ==> View() == old(View())
    {
      if !running {
        return;
      }
      var blocks: seq<seq<byte>>;
      match note {
        case Serialized(bs) => blocks := buffer.ProcessSerialized(bs);
        case Structs(evs) => blocks := buffer.ProcessUnserialized(evs);
      }
      FlushCallbacks(blocks);
      if wasFlushed {
        var rest := buffer.Flush();
        FlushCallback(rest);
        wasFlushed := false;
      }
    }

    /**
     ht_tcp_listener_client_connected: the metadata is pushed block by block to the new client's socket before
     the client counts among the others.  Nothing reaches the others, and if the listener is on an event
     boundary, the new client starts there.
     */
    method ClientConnected(order: Endianness, r: seq<EventKlasses.Klass>, major: byte, minor: byte, patch: byte)
      requires buffer.Valid() && ValidRegistry(r) && forall i :: 0 <= i < |r| ==> ShortNames(r[i])
      modifies `clients
      ensures buffer.Valid() && |clients| == |old(clients)| + 1 && clients[..|old(clients)|] == old(clients)
      ensures IsMetadataStream(order, r, SystemInfoItem(major, minor, patch), clients[|old(clients)|])
      ensures forall groups, sent, joined :: old(OnBoundary(View(), groups, sent, joined)) ==>
                OnBoundary(View(), groups, sent, joined + [Joined(clients[|old(clients)|], sent)])
    {
      ghost var version := SystemInfoItem(major, minor, patch);
      hide SystemInfoItem;
      hide ValidRegistry;
      hide ShortNames;
      hide IsMetadata;
      hide OnBoundary;
      var blocks := PushMetadata(order, r, major, minor, patch);
      var socket: seq<byte> := [];
      for i := 0 to |blocks|
        invariant socket == Concat(blocks[..i]) && clients == old(clients)
      {
        assert blocks[..i + 1] == blocks[..i] + [blocks[i]];
        ConcatSnoc(blocks[..i], blocks[i]);
        socket := socket + blocks[i];
      }
      assert blocks[..|blocks|] == blocks;
      assert IsMetadataStream(order, r, version, socket);
      clients := clients + [socket];
      assert View() == Connect(old(View()), blocks);
      forall groups, sent, joined | old(OnBoundary(View(), groups, sent, joined))
        ensures OnBoundary(View(), groups, sent, joined + [Joined(clients[|old(clients)|], sent)])
      {
        ConnectKeepsBoundary(old(View()), groups, sent, joined, blocks);
      }
    }
  }

  lemma SendNothing(clients: seq<seq<byte>>)
    ensures SendAll(clients, []) == clients
  {
    forall i | 0 <= i < |clients| ensures clients[i] + [] == clients[i] {}
  }

  lemma SendTwice(clients: seq<seq<byte>>, a: seq<byte>, b: seq<byte>)
    ensures SendAll(SendAll(clients, a), b) == SendAll(clients, a + b)
  {
    forall i | 0 <= i < |clients|
      ensures (clients[i] + a) + b == clients[i] + (a + b)
    {
      ConcatAssoc(clients[i], a, b);
    }
  }
}
