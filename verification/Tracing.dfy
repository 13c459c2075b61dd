/**
 From a program's events to a reader's: every way through the buffers ends in a stream the parser turns
 back into the events.
 */
module Tracing {
  import opened Bytes
  import opened EventKlasses
  import opened Registry
  import opened KlassTable
  import opened ProtocolReader
  import opened RoundTrip
  import opened Decoding
  import opened Metadata
  import opened DeliveredEvents
  import opened Reader
  import opened ChunkedStream
  import opened InputStreams
  import B = ListenerBuffers
  import I = Interleaving
  import N = NetworkThreads
  import T = TcpListeners
  import CoreRegistry
  import Recording

  /** The pipeline's events are the program's, serialised. */
  ghost predicate Matches(order: Endianness, r: seq<Klass>, items: seq<Item>, evs: seq<B.Ev>) {
    && |items| == |evs| && ValidItems(r, items)
    && forall i :: 0 <= i < |items| ==> evs[i].bytes == ItemBytes(order, r, items[i])
  }

  lemma {:induction false} MatchBytes(order: Endianness, r: seq<Klass>, items: seq<Item>, evs: seq<B.Ev>)
    requires Matches(order, r, items, evs)
    ensures B.BytesOf(evs) == StreamBytes(order, r, items)
    decreases |items|
  {
    hide ItemBytes;
    hide ValidItem;
    if items == [] {
      EmptyStream(order, r);
    } else {
      MatchBytes(order, r, items[1..], evs[1..]);
      StreamCons(order, r, items);
    }
  }

  /** The metadata written ahead of the events. */
  function Head(order: Endianness, meta: seq<Item>, version: Item): seq<Item> {
    [EndiannessItem(order)] + meta + [version]
  }

  /** The metadata bytes a listener writes first. */
  ghost predicate IsPreamble(order: Endianness, r: seq<Klass>, meta: seq<Item>, version: Item, preamble: seq<byte>) {
    ValidItems(r, Head(order, meta, version)) && preamble == StreamBytes(order, r, Head(order, meta, version))
  }

  /**
   Reading the bytes, from a file or from a network stream that hands out signed characters, delivers the
   metadata and the events up to the first that is not legible; when all are legible the reader uses up every
   byte and learns every class.
   */
  ghost predicate Decodes(host: Endianness, flat: bool, signed: bool, r: seq<Klass>, order: Endianness, meta: seq<Item>,
                          version: Item, items: seq<Item>, input: seq<byte>)
  {
    && Usable(r) && ValidItems(r, meta) && ValidItem(r, version) && ValidItems(r, items)
    && Consuming(Parser(host, flat, signed)) && KnowsHeader(INITIAL_TABLE)
    && var o := Run(Parser(host, flat, signed), State(INITIAL_TABLE, Little, input));
       var stream, es := Stream(order, meta, version, items), StreamEvents(flat, r, order, meta, version, items);
       && |es| == |stream| && o.events == es[..Legibles(signed, stream)] && !o.crashed
       && (Legibles(signed, stream) == |stream| ==>
             KnowsAll(o.final.table, r) && o.final.order == order && o.final.bytes == [])
  }

  /** Every string of the items is made of bytes below 0x80. */
  predicate AllPlain(items: seq<Item>) {
    forall i :: 0 <= i < |items| ==> PlainEvent(items[i].ev)
  }

  /** The stream is delivered whole exactly when it is a file's or when all its strings are plain. */
  lemma DecodesWhole(host: Endianness, flat: bool, signed: bool, r: seq<Klass>, order: Endianness, meta: seq<Item>,
                     version: Item, items: seq<Item>, input: seq<byte>)
    requires Decodes(host, flat, signed, r, order, meta, version, items, input)
    ensures Usable(r) && ValidItems(r, meta) && ValidItem(r, version) && ValidItems(r, items)
    ensures Consuming(Parser(host, flat, signed)) && KnowsHeader(INITIAL_TABLE)
    ensures Run(Parser(host, flat, signed), State(INITIAL_TABLE, Little, input)).events
              == StreamEvents(flat, r, order, meta, version, items)
       <==> !signed || AllPlain(Stream(order, meta, version, items))
  {
    hide Usable;
    hide ValidItems;
    hide ValidItem;
    hide Consuming;
    hide KnowsHeader;
    hide KnowsAll;
    hide StreamEvents;
    hide Stream;
    hide PlainEvent;
    hide Run;
    var es, n := StreamEvents(flat, r, order, meta, version, items),
                 Legibles(signed, Stream(order, meta, version, items));
    assert n == |es| ==> es[..n] == es;
    assert n < |es| ==> |es[..n]| < |es|;
  }

  /** A preamble followed by whole events is a stream. */
  lemma PreambleThenEvents(host: Endianness, flat: bool, signed: bool, r: seq<Klass>, order: Endianness,
                           meta: seq<Item>, version: Item, items: seq<Item>, preamble: seq<byte>, evs: seq<B.Ev>)
    requires StreamReady(r, meta, version, items) && IsPreamble(order, r, meta, version, preamble)
    requires Matches(order, r, items, evs)
    ensures Decodes(host, flat, signed, r, order, meta, version, items, preamble + B.BytesOf(evs))
  {
    hide *;
    StreamDecodes(host, flat, signed, r, order, meta, version, items);
    PreambleParts(order, r, meta, version, preamble);
    MatchBytes(order, r, items, evs);
    MatchesValid(order, r, items, evs);
    StreamAppend(order, r, Head(order, meta, version), items);
    HeadThenItems(order, meta, version, items);
  }

  lemma StreamDecodes(host: Endianness, flat: bool, signed: bool, r: seq<Klass>, order: Endianness, meta: seq<Item>,
                      version: Item, items: seq<Item>)
    requires StreamReady(r, meta, version, items)
    ensures ValidItems(r, Stream(order, meta, version, items))
    ensures Decodes(host, flat, signed, r, order, meta, version, items,
                    StreamBytes(order, r, Stream(order, meta, version, items)))
  {
    var t := StreamRoundTrip(host, flat, signed, r, order, meta, version, items);
    hide Usable;
    hide ValidItems;
    hide ValidItem;
    hide Consuming;
    hide KnowsHeader;
    hide KnowsAll;
    hide StreamReady;
    hide StreamEvents;
    hide Stream;
    hide StreamBytes;
    hide Legibles;
    hide Run;
  }

  lemma MatchesValid(order: Endianness, r: seq<Klass>, items: seq<Item>, evs: seq<B.Ev>)
    requires Matches(order, r, items, evs)
    ensures ValidItems(r, items)
  {
  }

  lemma PreambleParts(order: Endianness, r: seq<Klass>, meta: seq<Item>, version: Item, preamble: seq<byte>)
    requires IsPreamble(order, r, meta, version, preamble)
    ensures ValidItems(r, Head(order, meta, version)) && preamble == StreamBytes(order, r, Head(order, meta, version))
  {
  }

  lemma HeadThenItems(order: Endianness, meta: seq<Item>, version: Item, items: seq<Item>)
    ensures Head(order, meta, version) + items == Stream(order, meta, version, items)
  {
  }

  // Several threads.

  /** The program's events in the order of a log, given the events of each thread. */
  function MergedItems(log: seq<I.Entry>, itemsOf: seq<seq<Item>>): (items: seq<Item>)
    requires I.Logged(log, |itemsOf|) && forall t :: 0 <= t < |itemsOf| ==> |I.Of(log, t)| <= |itemsOf[t]|
    ensures |items| == |log|
  {
    if log == [] then []
    else
      var n := |log| - 1;
      var before, t := log[..n], log[n].thread;
      LogPrefix(log, itemsOf);
      MergedItems(before, itemsOf) + [itemsOf[t][|I.Of(before, t)|]]
  }

  lemma LogPrefix(log: seq<I.Entry>, itemsOf: seq<seq<Item>>)
    requires log != [] && I.Logged(log, |itemsOf|) && forall t :: 0 <= t < |itemsOf| ==> |I.Of(log, t)| <= |itemsOf[t]|
    ensures var n := |log| - 1;
            && I.Logged(log[..n], |itemsOf|) && log[n].thread < |itemsOf|
            && (forall t :: 0 <= t < |itemsOf| ==> |I.Of(log[..n], t)| <= |itemsOf[t]|)
            && |I.Of(log[..n], log[n].thread)| < |itemsOf[log[n].thread]|
  {
    var n := |log| - 1;
    forall t | 0 <= t < |itemsOf|
      ensures |I.Of(log[..n], t)| + (if log[n].thread == t then 1 else 0) == |I.Of(log, t)|
    {
    }
  }

  /** Those of the items that came from thread t. */
  function FromThread(log: seq<I.Entry>, items: seq<Item>, t: nat): seq<Item>
    requires |items| == |log|
  {
    if log == [] then []
    else
      var n := |log| - 1;
      FromThread(log[..n], items[..n], t) + (if log[n].thread == t then [items[n]] else [])
  }

  /** Each thread's events appear in the merged order as that thread pushed them. */
  lemma {:induction false} MergedKeepsThreads(log: seq<I.Entry>, itemsOf: seq<seq<Item>>, t: nat)
    requires I.Logged(log, |itemsOf|) && forall u :: 0 <= u < |itemsOf| ==> |I.Of(log, u)| <= |itemsOf[u]|
    requires t < |itemsOf|
    ensures FromThread(log, MergedItems(log, itemsOf), t) == itemsOf[t][..|I.Of(log, t)|]
  {
    if log != [] {
      var n := |log| - 1;
      LogPrefix(log, itemsOf);
      MergedKeepsThreads(log[..n], itemsOf, t);
      assert MergedItems(log, itemsOf)[..n] == MergedItems(log[..n], itemsOf);
    }
  }

  /** The events of each thread are the program's items for it, in order. */
  ghost predicate ThreadsMatch(order: Endianness, r: seq<Klass>, itemsOf: seq<seq<Item>>, evsOf: seq<seq<B.Ev>>) {
    |itemsOf| == |evsOf| && forall t :: 0 <= t < |itemsOf| ==> Matches(order, r, itemsOf[t], evsOf[t])
  }

  lemma {:induction false} MergedMatches(order: Endianness, r: seq<Klass>, log: seq<I.Entry>, itemsOf: seq<seq<Item>>,
                                         evsOf: seq<seq<B.Ev>>)
    requires ThreadsMatch(order, r, itemsOf, evsOf) && I.Logged(log, |itemsOf|)
    requires forall t :: 0 <= t < |itemsOf| ==> I.Of(log, t) <= evsOf[t]
    ensures Matches(order, r, MergedItems(log, itemsOf), I.Events(log))
  {
    hide Matches;
    hide I.Of;
    if log == [] {
      MatchesNone(order, r);
    } else {
      var n := |log| - 1;
      var before, t, e := log[..n], log[n].thread, log[n].ev;
      assert log == before + [log[n]];
      forall u | 0 <= u < |itemsOf| ensures I.Of(before, u) <= I.Of(log, u) && |evsOf[u]| == |itemsOf[u]| {
        MatchesSizes(order, r, itemsOf[u], evsOf[u]);
        I.OfSnoc(before, log[n], u);
      }
      LogPrefix(log, itemsOf);
      MergedMatches(order, r, before, itemsOf, evsOf);
      I.OfSnoc(before, log[n], t);
      MatchesAt(order, r, itemsOf[t], evsOf[t], |I.Of(before, t)|);
      EventsSnoc(before, log[n]);
      MatchesSnoc(order, r, MergedItems(before, itemsOf), I.Events(before), itemsOf[t][|I.Of(before, t)|], e);
    }
  }

  lemma EventsSnoc(log: seq<I.Entry>, x: I.Entry)
    ensures I.Events(log + [x]) == I.Events(log) + [x.ev]
  {
  }

  lemma MatchesNone(order: Endianness, r: seq<Klass>)
    ensures Matches(order, r, [], [])
  {
  }

  lemma MatchesSizes(order: Endianness, r: seq<Klass>, items: seq<Item>, evs: seq<B.Ev>)
    requires Matches(order, r, items, evs)
    ensures |items| == |evs|
  {
  }

  lemma MatchesAt(order: Endianness, r: seq<Klass>, items: seq<Item>, evs: seq<B.Ev>, i: nat)
    requires Matches(order, r, items, evs) && i < |evs|
    ensures |items| == |evs| && ValidItem(r, items[i]) && evs[i].bytes == ItemBytes(order, r, items[i])
  {
  }

  lemma MatchesSnoc(order: Endianness, r: seq<Klass>, items: seq<Item>, evs: seq<B.Ev>, it: Item, e: B.Ev)
    requires Matches(order, r, items, evs) && ValidItem(r, it) && e.bytes == ItemBytes(order, r, it)
    ensures Matches(order, r, items + [it], evs + [e])
  {
    hide ItemBytes;
    hide ValidItem;
  }

  lemma {:induction false} MergedNoControl(log: seq<I.Entry>, itemsOf: seq<seq<Item>>)
    requires I.Logged(log, |itemsOf|) && forall t :: 0 <= t < |itemsOf| ==> |I.Of(log, t)| <= |itemsOf[t]|
    requires forall t :: 0 <= t < |itemsOf| ==> NoControl(itemsOf[t])
    ensures NoControl(MergedItems(log, itemsOf))
  {
    if log != [] {
      LogPrefix(log, itemsOf);
      MergedNoControl(log[..|log| - 1], itemsOf);
      assert NoControl(itemsOf[log[|log| - 1].thread]);
    }
  }

  /** What each thread pushes in a run. */
  function PushedIn(steps: seq<I.Step>, n: nat): (evsOf: seq<seq<B.Ev>>)
    ensures |evsOf| == n && forall t :: 0 <= t < n ==> evsOf[t] == I.Pushes(steps, t)
  {
    seq(n, t requires 0 <= t < n => I.Pushes(steps, t))
  }

  lemma WithItems(order: Endianness, r: seq<Klass>, meta: seq<Item>, version: Item, items: seq<Item>, evs: seq<B.Ev>)
    requires StreamReady(r, meta, version, []) && NoControl(items) && Matches(order, r, items, evs)
    ensures StreamReady(r, meta, version, items)
  {
    hide ValidRegistry;
    hide CarryAll;
    hide ItemBytes;
    hide ValidItem;
  }

  /**
   Any number of threads, any run: given the events each thread pushes, once every timeline is destroyed and
   the listener stops, the file decodes to the metadata and a merge of exactly those events.
   */
  lemma MergedFileDecodes(host: Endianness, flat: bool, r: seq<Klass>, order: Endianness, meta: seq<Item>,
                          version: Item, itemsOf: seq<seq<Item>>, preamble: seq<byte>, states: seq<I.State>,
                          steps: seq<I.Step>)
    returns (items: seq<Item>)
    requires I.Complete(preamble, states, steps) && |itemsOf| == |states[0].threads|
    requires ThreadsMatch(order, r, itemsOf, PushedIn(steps, |itemsOf|))
    requires forall t :: 0 <= t < |itemsOf| ==> NoControl(itemsOf[t])
    requires StreamReady(r, meta, version, []) && IsPreamble(order, r, meta, version, preamble)
    ensures |items| == |states[|steps|].log| && I.Logged(states[|steps|].log, |itemsOf|)
    ensures forall t :: 0 <= t < |itemsOf| ==> FromThread(states[|steps|].log, items, t) == itemsOf[t]
    ensures Decodes(host, flat, false, r, order, meta, version, items, I.FileOf(preamble, states, steps))
  {
    hide *;
    I.CompleteRun(preamble, states, steps);
    var log := states[|steps|].log;
    items := MergeOfRun(order, r, log, itemsOf, steps);
    WithItems(order, r, meta, version, items, I.Events(log));
    PreambleThenEvents(host, flat, false, r, order, meta, version, items, preamble, I.Events(log));
  }

  lemma MergeOfRun(order: Endianness, r: seq<Klass>, log: seq<I.Entry>, itemsOf: seq<seq<Item>>, steps: seq<I.Step>)
    returns (items: seq<Item>)
    requires I.IsMerge(log, |itemsOf|, steps) && ThreadsMatch(order, r, itemsOf, PushedIn(steps, |itemsOf|))
    requires forall t :: 0 <= t < |itemsOf| ==> NoControl(itemsOf[t])
    ensures |items| == |log| && I.Logged(log, |itemsOf|) && NoControl(items) && Matches(order, r, items, I.Events(log))
    ensures forall t :: 0 <= t < |itemsOf| ==> FromThread(log, items, t) == itemsOf[t]
  {
    var evsOf := PushedIn(steps, |itemsOf|);
    forall t | 0 <= t < |itemsOf| ensures I.Of(log, t) == evsOf[t] && |evsOf[t]| == |itemsOf[t]| {
      assert Matches(order, r, itemsOf[t], evsOf[t]);
    }
    items := MergedItems(log, itemsOf);
    MergedMatches(order, r, log, itemsOf, evsOf);
    MergedNoControl(log, itemsOf);
    hide Matches;
    hide NoControl;
    forall t | 0 <= t < |itemsOf| ensures FromThread(log, items, t) == itemsOf[t] {
      MergedKeepsThreads(log, itemsOf, t);
    }
  }

  // A network client.

  /** Each group pushed to the network listener is the serialisation of a group of the program's items. */
  ghost predicate GroupsAre(order: Endianness, r: seq<Klass>, itemGroups: seq<seq<Item>>, groups: seq<seq<B.Ev>>) {
    |itemGroups| == |groups| && forall i :: 0 <= i < |groups| ==> Matches(order, r, itemGroups[i], groups[i])
  }

  lemma {:induction false} GroupsMatchItems(order: Endianness, r: seq<Klass>, itemGroups: seq<seq<Item>>,
                                            groups: seq<seq<B.Ev>>)
    requires GroupsAre(order, r, itemGroups, groups)
    ensures Matches(order, r, Concat(itemGroups), Concat(groups))
    decreases |groups|
  {
    hide Matches;
    if groups == [] {
      MatchesNone(order, r);
    } else {
      GroupsMatchItems(order, r, itemGroups[1..], groups[1..]);
      MatchesAppend(order, r, itemGroups[0], groups[0], Concat(itemGroups[1..]), Concat(groups[1..]));
    }
  }

  lemma MatchesAppend(order: Endianness, r: seq<Klass>, a: seq<Item>, x: seq<B.Ev>, b: seq<Item>, y: seq<B.Ev>)
    requires Matches(order, r, a, x) && Matches(order, r, b, y)
    ensures Matches(order, r, a + b, x + y)
  {
    hide ItemBytes;
    hide ValidItem;
  }

  lemma {:induction false} ConcatNoControl(itemGroups: seq<seq<Item>>)
    requires forall i :: 0 <= i < |itemGroups| ==> NoControl(itemGroups[i])
    ensures NoControl(Concat(itemGroups))
  {
    if itemGroups != [] {
      ConcatNoControl(itemGroups[1..]);
    }
  }

  /** What a client is sent: the groups from the one it joined at up to the last one sent. */
  function ClientItems(max: nat, ops: seq<T.TcpOp>, itemGroups: seq<seq<Item>>, c: nat): seq<Item>
    requires |itemGroups| == |T.Groups(ops)| && c < |T.Joins(max, ops)| && T.Joins(max, ops)[c].at <= T.Sent(max, ops)
  {
    Concat(itemGroups[T.Joins(max, ops)[c].at..T.Sent(max, ops)])
  }

  /**
   After every run of the network listener, for every client: the bytes written to its socket, read over a
   network stream or as a file, decode to the metadata of its own connection and exactly the groups of events
   sent since.
   */
  lemma ClientDecodes(host: Endianness, flat: bool, signed: bool, r: seq<Klass>, order: Endianness, meta: seq<Item>,
                      version: Item, max: nat, ops: seq<T.TcpOp>, itemGroups: seq<seq<Item>>, c: nat)
    requires T.AllAcceptable(max, ops) && c < |T.Joins(max, ops)|
    requires StreamReady(r, meta, version, []) && IsPreamble(order, r, meta, version, T.Joins(max, ops)[c].metadata)
    requires GroupsAre(order, r, itemGroups, T.Groups(ops))
    requires forall i :: 0 <= i < |itemGroups| ==> NoControl(itemGroups[i])
    ensures c < |T.TcpRun(max, ops).clients| && T.Joins(max, ops)[c].at <= T.Sent(max, ops)
    ensures Decodes(host, flat, signed, r, order, meta, version, ClientItems(max, ops, itemGroups, c),
                    T.TcpRun(max, ops).clients[c])
  {
    hide *;
    var joined, sent, groups := T.Joins(max, ops)[c], T.Sent(max, ops), T.Groups(ops);
    T.ClientBytes(max, ops, c);
    GroupsSlice(order, r, itemGroups, groups, joined.at, sent);
    var items, evs := ClientItems(max, ops, itemGroups, c), Concat(groups[joined.at..sent]);
    ClientItemsAre(max, ops, itemGroups, c);
    GroupsMatchItems(order, r, itemGroups[joined.at..sent], groups[joined.at..sent]);
    ConcatNoControl(itemGroups[joined.at..sent]);
    WithItems(order, r, meta, version, items, evs);
    PreambleThenEvents(host, flat, signed, r, order, meta, version, items, joined.metadata, evs);
  }

  lemma ClientItemsAre(max: nat, ops: seq<T.TcpOp>, itemGroups: seq<seq<Item>>, c: nat)
    requires |itemGroups| == |T.Groups(ops)| && c < |T.Joins(max, ops)| && T.Joins(max, ops)[c].at <= T.Sent(max, ops)
    ensures ClientItems(max, ops, itemGroups, c) == Concat(itemGroups[T.Joins(max, ops)[c].at..T.Sent(max, ops)])
  {
  }

  lemma GroupsSlice(order: Endianness, r: seq<Klass>, itemGroups: seq<seq<Item>>, groups: seq<seq<B.Ev>>, lo: nat,
                    hi: nat)
    requires GroupsAre(order, r, itemGroups, groups) && lo <= hi <= |groups|
    ensures |itemGroups| == |groups| && GroupsAre(order, r, itemGroups[lo..hi], groups[lo..hi])
  {
    hide Matches;
  }

  /**
   A reader connected to the network listener, however its bytes are split and whenever they arrive: it
   delivers its metadata and exactly the events it was sent if and only if all their strings are made of bytes
   below 0x80.
   */
  method ClientReads(host: Endianness, flat: bool, r: seq<Klass>, order: Endianness, ghost meta: seq<Item>,
                     ghost version: Item, max: nat, ghost ops: seq<T.TcpOp>, ghost itemGroups: seq<seq<Item>>,
                     ghost c: nat, chunks: seq<seq<byte>>, arrivals: Arrivals)
    returns (delivered: seq<Event>)
    requires T.AllAcceptable(max, ops) && c < |T.Joins(max, ops)|
    requires StreamReady(r, meta, version, []) && IsPreamble(order, r, meta, version, T.Joins(max, ops)[c].metadata)
    requires GroupsAre(order, r, itemGroups, T.Groups(ops))
    requires forall i :: 0 <= i < |itemGroups| ==> NoControl(itemGroups[i])
    requires c < |T.TcpRun(max, ops).clients| && Concat(chunks) == T.TcpRun(max, ops).clients[c]
    requires forall i :: 0 <= i < |chunks| ==> chunks[i] != []
    ensures T.Joins(max, ops)[c].at <= T.Sent(max, ops)
    ensures var items := ClientItems(max, ops, itemGroups, c);
            && Usable(r) && ValidItems(r, meta) && ValidItem(r, version) && ValidItems(r, items)
            && (delivered == StreamEvents(flat, r, order, meta, version, items)
                <==> AllPlain(Stream(order, meta, version, items)))
  {
    hide *;
    GroupsSlice(order, r, itemGroups, T.Groups(ops), 0, 0);
    ClientDecodes(host, flat, true, r, order, meta, version, max, ops, itemGroups, c);
    DecodesWhole(host, flat, true, r, order, meta, version, ClientItems(max, ops, itemGroups, c),
                 T.TcpRun(max, ops).clients[c]);
    delivered := ReadNetwork(host, flat, chunks, arrivals);
  }

  // Clients of a listener that several threads share.

  /** What each thread pushes in a run. */
  function PushedOnNetwork(steps: seq<N.Step>, n: nat): (evsOf: seq<seq<B.Ev>>)
    ensures |evsOf| == n && forall t :: 0 <= t < n ==> evsOf[t] == N.Pushes(steps, t)
  {
    seq(n, t requires 0 <= t < n => N.Pushes(steps, t))
  }

  lemma MatchesFrom(order: Endianness, r: seq<Klass>, items: seq<Item>, evs: seq<B.Ev>, lo: nat)
    requires Matches(order, r, items, evs) && lo <= |evs|
    ensures |items| == |evs| && Matches(order, r, items[lo..], evs[lo..])
  {
    hide ItemBytes;
    hide ValidItem;
  }

  lemma NoControlFrom(items: seq<Item>, lo: nat)
    requires NoControl(items) && lo <= |items|
    ensures NoControl(items[lo..])
  {
  }

  /** Of each thread's sequence, what comes from a certain point on. */
  function Suffixes<T>(s: seq<seq<T>>, from: seq<nat>): (r: seq<seq<T>>)
    requires |from| == |s| && forall t :: 0 <= t < |s| ==> from[t] <= |s[t]|
    ensures |r| == |s| && forall t :: 0 <= t < |s| ==> r[t] == s[t][from[t]..]
  {
    seq(|s|, t requires 0 <= t < |s| => s[t][from[t]..])
  }

  /** The items of thread t in the log are those of a sequence from a certain point on, in order. */
  predicate IsStretch(log: seq<I.Entry>, items: seq<Item>, t: nat, all: seq<Item>, from: nat) {
    && |items| == |log| && from + |I.Of(log, t)| <= |all|
    && FromThread(log, items, t) == all[from..from + |I.Of(log, t)|]
  }

  /** A log whose events are, thread by thread, a stretch of what the threads pushed. */
  lemma StretchMatches(order: Endianness, r: seq<Klass>, log: seq<I.Entry>, itemsOf: seq<seq<Item>>,
                       evsOf: seq<seq<B.Ev>>, from: seq<nat>)
    returns (items: seq<Item>)
    requires ThreadsMatch(order, r, itemsOf, evsOf) && I.Logged(log, |itemsOf|) && |from| == |itemsOf|
    requires forall t :: 0 <= t < |itemsOf| ==> from[t] <= |evsOf[t]| && I.Of(log, t) <= evsOf[t][from[t]..]
    requires forall t :: 0 <= t < |itemsOf| ==> NoControl(itemsOf[t])
    ensures |items| == |log| && NoControl(items) && Matches(order, r, items, I.Events(log))
    ensures forall t :: 0 <= t < |itemsOf| ==> IsStretch(log, items, t, itemsOf[t], from[t])
  {
    hide Matches;
    hide NoControl;
    hide I.Of;
    hide MergedItems;
    hide FromThread;
    hide Suffixes;
    forall t | 0 <= t < |itemsOf|
      ensures |itemsOf[t]| == |evsOf[t]| && Matches(order, r, itemsOf[t][from[t]..], evsOf[t][from[t]..])
      ensures NoControl(itemsOf[t][from[t]..])
    {
      assert Matches(order, r, itemsOf[t], evsOf[t]) && NoControl(itemsOf[t]);
      MatchesFrom(order, r, itemsOf[t], evsOf[t], from[t]);
      NoControlFrom(itemsOf[t], from[t]);
    }
    var itemsOf', evsOf' := Suffixes(itemsOf, from), Suffixes(evsOf, from);
    assert ThreadsMatch(order, r, itemsOf', evsOf');
    items := MergedItems(log, itemsOf');
    MergedMatches(order, r, log, itemsOf', evsOf');
    MergedNoControl(log, itemsOf');
    forall t | 0 <= t < |itemsOf|
      ensures IsStretch(log, items, t, itemsOf[t], from[t])
    {
      MergedKeepsThreads(log, itemsOf', t);
      assert itemsOf[t][from[t]..][..|I.Of(log, t)|] == itemsOf[t][from[t]..from[t] + |I.Of(log, t)|];
    }
  }

  /** How many events of a thread had been sent when the client of step i joined. */
  ghost function SentBefore(states: seq<N.State>, i: nat, j: nat, t: nat): nat
    requires i < |states| && j < |states| && |states[j].owners| == |T.Groups(states[j].ops)|
    requires T.Sent(states[i].tcp.max, states[i].ops) <= |T.Groups(states[j].ops)|
  {
    |N.Received(states[j], 0, T.Sent(states[i].tcp.max, states[i].ops), t)|
  }

  /**
   Any number of threads, any run, any client: its bytes decode to the metadata of its own connection and, for each
   thread, a stretch of that thread's events, in order, that begins no later than with the first event pushed
   after the client joined.
   */
  lemma MergedClientDecodes(host: Endianness, flat: bool, signed: bool, r: seq<Klass>, order: Endianness,
                            meta: seq<Item>, version: Item, itemsOf: seq<seq<Item>>, states: seq<N.State>,
                            steps: seq<N.Step>, i: nat, j: nat)
    returns (items: seq<Item>)
    requires N.Joining(states, steps, i, j)
    requires |itemsOf| == |states[0].threads| && ThreadsMatch(order, r, itemsOf, PushedOnNetwork(steps[..j], |itemsOf|))
    requires forall t :: 0 <= t < |itemsOf| ==> NoControl(itemsOf[t])
    requires StreamReady(r, meta, version, []) && IsPreamble(order, r, meta, version, Concat(steps[i].blocks))
    ensures Decodes(host, flat, signed, r, order, meta, version, items, N.SentTo(states, steps, i, j))
    ensures Portions(states, steps, i, j, items, itemsOf)
  {
    hide *;
    N.ClientGetsMerge(states, steps, i, j);
    N.SentToIs(states, steps, i, j);
    var log, evsOf := N.ClientLog(states, i, j), PushedOnNetwork(steps[..j], |itemsOf|);
    var from := seq(|itemsOf|, t requires 0 <= t < |itemsOf| => SentBefore(states, i, j, t));
    forall t | 0 <= t < |itemsOf|
      ensures from[t] <= |evsOf[t]| && I.Of(log, t) <= evsOf[t][from[t]..] && from[t] <= |N.Pushes(steps[..i], t)|
    {
      StretchOfThread(states, steps, i, j, t);
    }
    items := StretchMatches(order, r, log, itemsOf, evsOf, from);
    PortionsFrom(states, steps, i, j, items, itemsOf);
    WithItems(order, r, meta, version, items, I.Events(log));
    PreambleThenEvents(host, flat, signed, r, order, meta, version, items, Concat(steps[i].blocks), I.Events(log));
  }

  /** A client's items are, thread by thread, a stretch of the thread's that misses nothing since the client joined. */
  ghost predicate Portions(states: seq<N.State>, steps: seq<N.Step>, i: nat, j: nat, items: seq<Item>,
                           itemsOf: seq<seq<Item>>)
    requires N.Joining(states, steps, i, j)
  {
    N.ClientGetsMerge(states, steps, i, j);
    var log := N.ClientLog(states, i, j);
    && |items| == |log| && I.Logged(log, |itemsOf|)
    && forall t :: 0 <= t < |itemsOf| ==>
                     && SentBefore(states, i, j, t) <= |N.Pushes(steps[..i], t)|
                     && IsStretch(log, items, t, itemsOf[t], SentBefore(states, i, j, t))
  }

  lemma PortionsFrom(states: seq<N.State>, steps: seq<N.Step>, i: nat, j: nat, items: seq<Item>,
                     itemsOf: seq<seq<Item>>)
    requires N.Joining(states, steps, i, j)
    requires i < j < |states| && |states[j].owners| == |T.Groups(states[j].ops)|
    requires T.Sent(states[i].tcp.max, states[i].ops) <= T.Sent(states[j].tcp.max, states[j].ops)
    requires |items| == |N.ClientLog(states, i, j)| && I.Logged(N.ClientLog(states, i, j), |itemsOf|) && i <= |steps|
    requires forall t :: 0 <= t < |itemsOf| ==>
                           && SentBefore(states, i, j, t) <= |N.Pushes(steps[..i], t)|
                           && IsStretch(N.ClientLog(states, i, j), items, t, itemsOf[t], SentBefore(states, i, j, t))
    ensures Portions(states, steps, i, j, items, itemsOf)
  {
    hide IsStretch;
    hide SentBefore;
    hide N.ClientLog;
    hide N.Pushes;
    hide T.Sent;
    hide T.Groups;
  }

  lemma StretchOfThread(states: seq<N.State>, steps: seq<N.Step>, i: nat, j: nat, t: nat)
    requires i < j <= |steps| && |states| == |steps| + 1
    requires |states[j].owners| == |T.Groups(states[j].ops)| && t < |states[j].threads|
    requires T.Sent(states[i].tcp.max, states[i].ops) <= T.Sent(states[j].tcp.max, states[j].ops)
    requires N.Shares(states, steps, i, j, t)
    ensures var lo, pushed := SentBefore(states, i, j, t), N.Pushes(steps[..j], t);
            && lo <= |N.Pushes(steps[..i], t)| && lo <= |pushed|
            && I.Of(N.ClientLog(states, i, j), t) <= pushed[lo..]
  {
    hide N.Received;
    hide N.ClientLog;
    hide N.Pushes;
    hide N.OnItsWay;
    hide I.Of;
    hide T.Sent;
    hide T.Groups;
  }

  // One string for which the network is not enough.

  /** The mapping of identifier 1 to the UTF-8 text of a single letter with an accent. */
  const ACCENTED_MAPPING := Item(7, Extended(Header(0, 0), [IntValue(1), StringValue([0xC3, 0xA9])]))

  lemma AccentedIsValid()
    ensures ValidRegistry(CORE_KLASSES) && ValidItems(CORE_KLASSES, [ACCENTED_MAPPING]) && NoControl([ACCENTED_MAPPING])
    ensures !PlainEvent(ACCENTED_MAPPING.ev)
  {
    CoreRegistry.CoreRegistryIsValid();
    CoreRegistry.Widths();
    hide Capacity;
    assert CORE_KLASSES[7] == STRING_MAPPING_EVENT;
    assert Fits(ACCENTED_MAPPING.ev.values[0], STRING_MAPPING_EVENT.fields[0]);
    assert !SevenBit(ACCENTED_MAPPING.ev.values[1].s) by {
      assert ACCENTED_MAPPING.ev.values[1].s[0] == 0xC3;
    }
  }

  /** The same bytes read back from a file, but a reader on the network never delivers that mapping. */
  lemma AccentedLabelIsLost(host: Endianness, flat: bool, order: Endianness, meta: seq<Item>, version: Item)
    requires StreamReady(CORE_KLASSES, meta, version, [])
    ensures var r, items := CORE_KLASSES, [ACCENTED_MAPPING];
            && Usable(r) && ValidItems(r, meta) && ValidItem(r, version) && ValidItems(r, items)
            && ValidItems(r, Stream(order, meta, version, items))
            && Consuming(Parser(host, flat, false)) && Consuming(Parser(host, flat, true)) && KnowsHeader(INITIAL_TABLE)
            && var s := State(INITIAL_TABLE, Little, StreamBytes(order, r, Stream(order, meta, version, items)));
               var es := StreamEvents(flat, r, order, meta, version, items);
               && Run(Parser(host, flat, false), s).events == es
               && Run(Parser(host, flat, true), s).events < es
  {
    hide *;
    var r, items := CORE_KLASSES, [ACCENTED_MAPPING];
    AccentedIsValid();
    AlsoReady(r, meta, version, items);
    StreamDecodes(host, flat, false, r, order, meta, version, items);
    StreamDecodes(host, flat, true, r, order, meta, version, items);
    var input := StreamBytes(order, r, Stream(order, meta, version, items));
    DecodesWhole(host, flat, false, r, order, meta, version, items, input);
    DecodesWhole(host, flat, true, r, order, meta, version, items, input);
    NotAllPlain(order, meta, version, items, 0);
    DecodesPrefix(host, flat, true, r, order, meta, version, items, input);
  }

  /** Whatever is delivered is the start of the stream. */
  lemma DecodesPrefix(host: Endianness, flat: bool, signed: bool, r: seq<Klass>, order: Endianness, meta: seq<Item>,
                      version: Item, items: seq<Item>, input: seq<byte>)
    requires Decodes(host, flat, signed, r, order, meta, version, items, input)
    ensures Usable(r) && ValidItems(r, meta) && ValidItem(r, version) && ValidItems(r, items)
    ensures Consuming(Parser(host, flat, signed)) && KnowsHeader(INITIAL_TABLE)
    ensures Run(Parser(host, flat, signed), State(INITIAL_TABLE, Little, input)).events
         <= StreamEvents(flat, r, order, meta, version, items)
  {
    hide Usable;
    hide ValidItems;
    hide ValidItem;
    hide Consuming;
    hide KnowsHeader;
    hide KnowsAll;
    hide StreamEvents;
    hide Stream;
    hide Legibles;
    hide Run;
  }

  lemma AlsoReady(r: seq<Klass>, meta: seq<Item>, version: Item, items: seq<Item>)
    requires StreamReady(r, meta, version, []) && ValidItems(r, items) && NoControl(items)
    ensures StreamReady(r, meta, version, items)
  {
    hide ValidRegistry;
    hide CarryAll;
    hide ValidItems;
  }

  lemma NotAllPlain(order: Endianness, meta: seq<Item>, version: Item, items: seq<Item>, i: nat)
    requires i < |items| && !PlainEvent(items[i].ev)
    ensures !AllPlain(Stream(order, meta, version, items))
  {
    hide PlainEvent;
    assert Stream(order, meta, version, items)[1 + |meta| + 1 + i] == items[i];
  }

  // One program, end to end.

  /** What a program does: it traces events and flushes its timeline or its listener. */
  datatype Act = Trace(it: Item) | FlushTimeline | FlushListener

  function Traced(acts: seq<Act>): seq<Item> {
    if acts == [] then []
    else Traced(acts[..|acts| - 1]) + (if acts[|acts| - 1].Trace? then [acts[|acts| - 1].it] else [])
  }

  predicate Recordable(order: Endianness, r: seq<Klass>, serialize: bool, maxSize: nat, act: Act) {
    act.Trace? ==>
      && ValidItem(r, act.it) && SizeOf(r[act.it.klassId]) > 0
      && (!serialize ==> |ItemBytes(order, r, act.it)| <= maxSize)
  }

  /** The bytes of an event, written by its class's serialize function. */
  method Encode(order: Endianness, r: seq<Klass>, it: Item) returns (bytes: seq<byte>)
    requires ValidItem(r, it)
    ensures bytes == ItemBytes(order, r, it)
  {
    hide *;
    ItemIs(order, r, it);
    var k := r[it.klassId];
    var buffer := new byte[GetSize(k, it.ev)];
    var n := Serialize(order, it.klassId, k, it.ev, buffer, 0);
    bytes := buffer[0..n];
  }

  lemma ItemIs(order: Endianness, r: seq<Klass>, it: Item)
    requires ValidItem(r, it)
    ensures it.klassId < |r| && InstanceOf(it.ev, r[it.klassId])
    ensures ItemBytes(order, r, it) == Serialized(order, it.klassId, r[it.klassId], it.ev)
  {
  }

  lemma EncodedSuits(order: Endianness, r: seq<Klass>, serialize: bool, maxSize: nat, it: Item)
    requires Recordable(order, r, serialize, maxSize, Trace(it))
    ensures ValidItem(r, it)
    ensures Recording.Suitable(maxSize, serialize,
                               Recording.PushEvent(B.Ev(ItemBytes(order, r, it), SizeOf(r[it.klassId]))))
  {
    hide ItemBytes;
    hide SizeOf;
    hide InstanceOf;
    var e := B.Ev(ItemBytes(order, r, it), SizeOf(r[it.klassId]));
    assert [e][0] == e;
  }

  /** What a program makes its timeline and its listener do. */
  method Perform(order: Endianness, r: seq<Klass>, serialize: bool, maxSize: nat, acts: seq<Act>)
    returns (ops: seq<Recording.Op>, ghost evs: seq<B.Ev>)
    requires forall i :: 0 <= i < |acts| ==> Recordable(order, r, serialize, maxSize, acts[i])
    ensures |ops| == |acts| && forall i :: 0 <= i < |ops| ==> Recording.Suitable(maxSize, serialize, ops[i])
    ensures evs == Recording.PushedBy(ops) && Matches(order, r, Traced(acts), evs)
  {
    hide ItemBytes;
    hide Matches;
    hide Traced;
    hide Recording.Suitable;
    hide Recording.PushedBy;
    ops, evs := [], [];
    MatchesNone(order, r);
    assert acts[..0] == [];
    NothingTraced();
    PushedNone();
    for i := 0 to |acts|
      invariant |ops| == i && evs == Recording.PushedBy(ops)
      invariant forall k :: 0 <= k < |ops| ==> Recording.Suitable(maxSize, serialize, ops[k])
      invariant Matches(order, r, Traced(acts[..i]), evs)
    {
      assert Recordable(order, r, serialize, maxSize, acts[i]);
      TracedSnoc(acts, i);
      ghost var before := ops;
      match acts[i] {
        case Trace(it) =>
          var bytes := Encode(order, r, it);
          var e := B.Ev(bytes, SizeOf(r[it.klassId]));
          EncodedSuits(order, r, serialize, maxSize, it);
          MatchesSnoc(order, r, Traced(acts[..i]), evs, it, e);
          ops := ops + [Recording.PushEvent(e)];
          evs := evs + [e];
        case FlushTimeline =>
          FlushesSuit(serialize, maxSize);
          ops := ops + [Recording.FlushTimeline];
        case FlushListener =>
          FlushesSuit(serialize, maxSize);
          ops := ops + [Recording.FlushListener];
      }
      PushedSnoc(before, ops[i]);
      assert ops == before + [ops[i]];
    }
    assert acts[..|acts|] == acts;
  }

  lemma FlushesSuit(serialize: bool, maxSize: nat)
    ensures Recording.Suitable(maxSize, serialize, Recording.FlushTimeline)
    ensures Recording.Suitable(maxSize, serialize, Recording.FlushListener)
  {
  }

  lemma NothingTraced()
    ensures Traced([]) == []
  {
  }

  lemma PushedNone()
    ensures Recording.PushedBy([]) == []
  {
  }

  lemma PushedSnoc(ops: seq<Recording.Op>, op: Recording.Op)
    ensures Recording.PushedBy(ops + [op])
         == if op.PushEvent? then Recording.PushedBy(ops) + [op.e] else Recording.PushedBy(ops)
  {
    assert (ops + [op])[..|ops|] == ops;
  }

  lemma TracedSnoc(acts: seq<Act>, i: nat)
    requires i < |acts|
    ensures Traced(acts[..i + 1]) == if acts[i].Trace? then Traced(acts[..i]) + [acts[i].it] else Traced(acts[..i])
  {
    assert acts[..i + 1][..i] == acts[..i];
  }

  lemma MetadataIsPreamble(order: Endianness, r: seq<Klass>, meta: seq<Item>, version: Item, groups: seq<seq<Item>>,
                           blocks: seq<seq<byte>>)
    requires GroupsMatch(order, r, groups, blocks) && Concat(groups) == Head(order, meta, version)
    ensures IsPreamble(order, r, meta, version, Concat(blocks))
  {
    GroupsBytes(order, r, groups, blocks);
    hide StreamBytes;
    hide ValidItem;
  }

  lemma ReadyToStream(r: seq<Klass>, meta: seq<Item>, order: Endianness, major: byte, minor: byte, patch: byte,
                      items: seq<Item>)
    requires ValidRegistry(r) && CarryAll(meta, RegistryRecords(r, |r|)) && ValidItems(r, items) && NoControl(items)
    ensures StreamReady(r, meta, SystemInfoItem(major, minor, patch), items)
  {
    CoreIsReserved(r);
    SmallItems(order, r, major, minor, patch);
    hide RegistryRecords;
    hide Coherent;
    hide ItemBytes;
    hide CORE_KLASSES;
  }

  /**
   A program registers its classes, creates a file listener, traces events, flushes whenever it likes and
   shuts down; a reader then parses the file.  It delivers the metadata and exactly the events, whatever the
   machines' byte orders, the buffer sizes, the way of serialising and the mode of reading.
   */
  method TraceAndRead(order: Endianness, host: Endianness, flat: bool, r: seq<Klass>, major: byte, minor: byte,
                      patch: byte, serialize: bool, capacity: nat, maxSize: nat, acts: seq<Act>)
    returns (delivered: seq<Event>)
    requires ValidRegistry(r) && forall i :: 0 <= i < |r| ==> ShortNames(r[i])
    requires NoControl(Traced(acts))
    requires forall i :: 0 <= i < |acts| ==> Recordable(order, r, serialize, maxSize, acts[i])
    ensures exists meta :: ReadBack(flat, r, order, SystemInfoItem(major, minor, patch), Traced(acts), meta, delivered)
    ensures HeadIs(delivered, r, order, major, minor, patch)
  {
    hide *;
    var blocks := PushMetadata(order, r, major, minor, patch);
    ghost var version, items := SystemInfoItem(major, minor, patch), Traced(acts);
    ghost var meta, groups :| IsMetadata(order, r, version, meta, groups, blocks);
    MetadataParts(order, r, version, meta, groups, blocks);
    var ops, evs := Perform(order, r, serialize, maxSize, acts);
    MatchesValid(order, r, items, evs);
    var file := Recording.Record(serialize, capacity, maxSize, blocks, ops);
    MetadataIsPreamble(order, r, meta, version, groups, blocks);
    ReadyToStream(r, meta, order, major, minor, patch, items);
    PreambleThenEvents(host, flat, false, r, order, meta, version, items, Concat(blocks), evs);
    DecodesWhole(host, flat, false, r, order, meta, version, items, file);
    delivered := ReadFile(host, flat, file);
    ReadBackFromParts(flat, r, order, version, items, meta, delivered);
    HeadDelivered(flat, r, order, meta, major, minor, patch, items);
  }

  /** The events delivered are the byte order, descriptions of every class, the version, and exactly the items. */
  ghost predicate ReadBack(flat: bool, r: seq<Klass>, order: Endianness, version: Item, items: seq<Item>,
                           meta: seq<Item>, delivered: seq<Event>)
  {
    && CarryAll(meta, RegistryRecords(r, |r|))
    && Usable(r) && ValidItems(r, meta) && ValidItem(r, version) && ValidItems(r, items)
    && delivered == StreamEvents(flat, r, order, meta, version, items)
  }

  lemma ReadBackFromParts(flat: bool, r: seq<Klass>, order: Endianness, version: Item, items: seq<Item>,
                          meta: seq<Item>, delivered: seq<Event>)
    requires CarryAll(meta, RegistryRecords(r, |r|))
    requires Usable(r) && ValidItems(r, meta) && ValidItem(r, version) && ValidItems(r, items)
    requires delivered == StreamEvents(flat, r, order, meta, version, items)
    ensures ReadBack(flat, r, order, version, items, meta, delivered)
  {
  }

  lemma MetadataParts(order: Endianness, r: seq<Klass>, version: Item, meta: seq<Item>, groups: seq<seq<Item>>,
                      blocks: seq<seq<byte>>)
    requires IsMetadata(order, r, version, meta, groups, blocks)
    ensures CarryAll(meta, RegistryRecords(r, |r|)) && GroupsMatch(order, r, groups, blocks)
    ensures Concat(groups) == Head(order, meta, version)
  {
  }

  method ReadStream(host: Endianness, flat: bool, stream: InputStream) returns (delivered: seq<Event>)
    requires KnowsHeader(INITIAL_TABLE) && stream.Valid()
    modifies stream.Repr()
    ensures Consuming(Parser(host, flat, stream.Signed()))
    ensures delivered
            == Run(Parser(host, flat, stream.Signed()), State(INITIAL_TABLE, Little, old(stream.Rest()))).events
  {
    var reader := new EventReader(host, flat, stream);
    hide KnowsHeader;
    hide Consuming;
    hide Run;
    var crashed := reader.ReadEvents();
    delivered := reader.delivered;
    assert forall es: seq<Event> :: [] + es == es;
  }

  method ReadFile(host: Endianness, flat: bool, file: seq<byte>) returns (delivered: seq<Event>)
    requires KnowsHeader(INITIAL_TABLE)
    ensures Consuming(Parser(host, flat, false))
    ensures delivered == Run(Parser(host, flat, false), State(INITIAL_TABLE, Little, file)).events
  {
    var stream := new InputStream.File(file);
    delivered := ReadStream(host, flat, stream);
  }

  /** The chunks of a connection, whenever they arrive. */
  method ReadNetwork(host: Endianness, flat: bool, chunks: seq<seq<byte>>, arrivals: Arrivals)
    returns (delivered: seq<Event>)
    requires KnowsHeader(INITIAL_TABLE) && forall i :: 0 <= i < |chunks| ==> chunks[i] != []
    ensures Consuming(Parser(host, flat, true))
    ensures delivered == Run(Parser(host, flat, true), State(INITIAL_TABLE, Little, Concat(chunks))).events
  {
    var tcp := new TcpClientStream(chunks, arrivals);
    var stream := new InputStream.Network(tcp);
    delivered := ReadStream(host, flat, stream);
  }
}
