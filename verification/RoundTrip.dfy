/**
 Writing and reading a whole stream: the parser learns the classes from the metadata at the head of
 the stream and then recovers every event.
 */
module RoundTrip {
  import opened Bytes
  import opened EventKlasses
  import opened Registry
  import opened KlassTable
  import opened ProtocolReader
  import opened Decoding
  import opened Learning

  // The header.

  const HEADER_DECL: seq<FieldDecl> :=
    [U32(KLASS_ID, Ascii("uint32_t")), U64(TIMESTAMP, Ascii("uint64_t")), U64(ID, Ascii("uint64_t"))]

  function HeaderFields(klassId: nat, h: EventData): seq<FieldValue>
    requires h.Header?
  {
    [IntValue(klassId), IntValue(h.timestamp), IntValue(h.id)]
  }

  predicate HeaderFits(klassId: nat, h: EventData) {
    klassId < Capacity(4) && InstanceOf(h, HTEvent)
  }

  lemma HeaderFitsFields(klassId: nat, h: EventData)
    requires HeaderFits(klassId, h)
    ensures AllFit(HeaderFields(klassId, h), HEADER_DECL)
  {
  }

  /** The event the parser builds from a header. */
  function HeaderEvent(klassId: nat, h: EventData): Event
    requires HeaderFits(klassId, h)
  {
    HeaderFitsFields(klassId, h);
    Event(EVENT_KLASS, FieldMap(HEADER_DECL, HeaderFields(klassId, h)))
  }

  lemma HeaderNames()
    ensures forall j, k :: 0 <= j < k < |HEADER_DECL| ==> HEADER_DECL[j].name != HEADER_DECL[k].name
  {
    assert |KLASS_ID| == 8 && |TIMESTAMP| == 9 && |ID| == 2;
  }

  /** The header event holds the class id, the timestamp and the event id. */
  lemma HeaderEventValues(klassId: nat, h: EventData)
    requires HeaderFits(klassId, h)
    ensures GetNum(HeaderEvent(klassId, h), KLASS_ID) == Some(klassId)
    ensures GetNum(HeaderEvent(klassId, h), TIMESTAMP) == Some(h.timestamp)
    ensures GetNum(HeaderEvent(klassId, h), ID) == Some(h.id)
  {
    HeaderFitsFields(klassId, h);
    HeaderNames();
    FieldMapAt(HEADER_DECL, HeaderFields(klassId, h), 0);
    FieldMapAt(HEADER_DECL, HeaderFields(klassId, h), 1);
    FieldMapAt(HEADER_DECL, HeaderFields(klassId, h), 2);
  }

  lemma HeaderBytesAsFields(order: Endianness, klassId: nat, h: EventData)
    requires HeaderFits(klassId, h)
    ensures AllFit(HeaderFields(klassId, h), HEADER_DECL)
    ensures HeaderBytes(order, klassId, h) == FieldsBytes(order, HEADER_DECL, HeaderFields(klassId, h))
  {
    var fs, vs := HEADER_DECL, HeaderFields(klassId, h);
    assert fs[1..][1..][1..] == [];
    assert fs[1..][1..] == [fs[2]] && vs[1..][1..] == [vs[2]];
    assert FieldsBytes(order, fs[1..][1..], vs[1..][1..]) == Store(order, h.id, 8);
  }

  lemma HeaderIsPlain(klassId: nat, h: EventData)
    requires h.Header?
    ensures PlainText(HeaderFields(klassId, h))
  {
  }

  lemma HeaderDescribed()
    ensures Describes(EVENT_FIELDS, HEADER_DECL)
  {
  }

  lemma HeaderRoundTrip(host: Endianness, flat: bool, signed: bool, s: State, klassId: nat, h: EventData,
                        rest: seq<byte>)
    requires KnowsHeader(s.table) && HeaderFits(klassId, h)
    requires s.bytes == HeaderBytes(s.order, klassId, h) + rest
    ensures ReadHeader(host, flat, signed, s) == Got(HeaderEvent(klassId, h), rest)
  {
    HeaderBytesAsFields(s.order, klassId, h);
    HeaderDescribed();
    HeaderIsPlain(klassId, h);
    hide ReadFields;
    hide FieldMap;
    hide EVENT_FIELDS;
    hide HEADER_DECL;
    hide HeaderFields;
    hide PlainText;
    hide FieldsBytes;
    hide HeaderBytes;
    var own := FieldMap(HEADER_DECL, HeaderFields(klassId, h));
    assert own + map[] == own;
    PlainRoundTrip(Mode(host, s.order, flat, signed), s.table, Event(EVENT_KLASS, map[]), EVENT_FIELDS,
                   HEADER_DECL, HeaderFields(klassId, h), map[], rest, {EVENT_KLASS});
  }

  // One event.

  predicate Encodable(r: seq<Klass>, it: Item) {
    ValidItem(r, it) && |r| < Capacity(4)
  }

  lemma EncodableHeader(r: seq<Klass>, it: Item)
    requires Encodable(r, it)
    ensures HeaderFits(it.klassId, HeaderOf(it.ev))
  {
    HeaderInRange(it.ev, r[it.klassId]);
  }

  function ItemHeader(r: seq<Klass>, it: Item): Event
    requires Encodable(r, it)
  {
    EncodableHeader(r, it);
    HeaderEvent(it.klassId, HeaderOf(it.ev))
  }

  /** An event assembled from its header and the values decoded for its class. */
  function Assemble(flat: bool, klassId: nat, header: Event, values: map<cstring, Value>): Event {
    Event(klassId, if flat then Merge(values, header.values) else values)
  }

  /** The loop reads a header, then the body of the class it names. */
  lemma StepWithBody(host: Endianness, flat: bool, signed: bool, s: State, r: seq<Klass>, it: Item,
                     b: Read<map<cstring, Value>>, rest: seq<byte>)
    requires KnowsHeader(s.table) && Encodable(r, it)
    requires it.klassId != EVENT_KLASS && it.klassId in s.table.klasses
    requires s.bytes == ItemBytes(s.order, r, it) + rest
    requires ReadFields(Mode(host, s.order, flat, signed), s.table, ItemHeader(r, it),
                        s.table.klasses[it.klassId].fields, map[],
                        Payload(s.order, r[it.klassId], it.ev) + rest, {it.klassId}) == b
    requires b.Got? ==> b.rest == rest
    ensures b.Got? ==>
              Step(host, flat, signed, s)
              == Deliver(host, s, Assemble(flat, it.klassId, ItemHeader(r, it), b.value), rest)
    ensures b.Fail? ==> Step(host, flat, signed, s) == Finished
  {
    hide ReadFields;
    hide FieldMap;
    hide EVENT_FIELDS;
    hide HEADER_DECL;
    var h := HeaderOf(it.ev);
    EncodableHeader(r, it);
    var body := Payload(s.order, r[it.klassId], it.ev) + rest;
    assert s.bytes == HeaderBytes(s.order, it.klassId, h) + body;
    HeaderRoundTrip(host, flat, signed, s, it.klassId, h, body);
    HeaderEventValues(it.klassId, h);
  }

  /** An HT_Event is its header. */
  lemma StepHeaderOnly(host: Endianness, flat: bool, signed: bool, s: State, r: seq<Klass>, it: Item, rest: seq<byte>)
    requires KnowsHeader(s.table) && Encodable(r, it) && it.klassId == EVENT_KLASS && r[it.klassId].HTEvent?
    requires s.bytes == ItemBytes(s.order, r, it) + rest
    ensures Step(host, flat, signed, s) == Deliver(host, s, ItemHeader(r, it), rest)
  {
    var h := HeaderOf(it.ev);
    EncodableHeader(r, it);
    assert s.bytes == HeaderBytes(s.order, it.klassId, h) + rest;
    HeaderRoundTrip(host, flat, signed, s, it.klassId, h, rest);
    HeaderEventValues(it.klassId, h);
  }

  /** The event the parser should deliver, given a register that knows every class. */
  ghost function Expected(flat: bool, r: seq<Klass>, it: Item): Event
    requires Coherent(r) && Encodable(r, it)
  {
    if r[it.klassId].HTEvent? then ItemHeader(r, it)
    else Assemble(flat, it.klassId, ItemHeader(r, it), BodyValues(flat, r, it.klassId, it.ev, ItemHeader(r, it)))
  }

  /** Events of these classes steer the parser itself. */
  predicate IsControl(klassId: nat) {
    klassId == ENDIANNESS_KLASS || klassId == KLASS_INFO_KLASS || klassId == FIELD_INFO_KLASS
  }

  /** A stream of signed characters delivers only events whose strings are made of bytes below 0x80. */
  predicate Legible(signed: bool, it: Item) {
    signed ==> PlainEvent(it.ev)
  }

  /** How many items come before the first that is not legible. */
  function Legibles(signed: bool, items: seq<Item>): (n: nat)
    ensures n <= |items|
    ensures n == |items| <==> forall i :: 0 <= i < |items| ==> Legible(signed, items[i])
  {
    if items == [] || !Legible(signed, items[0]) then 0 else 1 + Legibles(signed, items[1..])
  }

  lemma {:induction false} LegiblesAppend(signed: bool, a: seq<Item>, b: seq<Item>)
    ensures Legibles(signed, a + b)
         == if Legibles(signed, a) == |a| then |a| + Legibles(signed, b) else Legibles(signed, a)
  {
    if a == [] {
      assert a + b == b;
    } else {
      assert (a + b)[1..] == a[1..] + b;
      LegiblesAppend(signed, a[1..], b);
    }
  }

  lemma StepParts(t: Table, r: seq<Klass>, it: Item)
    requires Coherent(r) && KnowsAll(t, r) && Encodable(r, it) && EVENT_KLASS < |r| && r[EVENT_KLASS].HTEvent?
    ensures it.klassId < |r| && it.klassId in t.klasses && InstanceOf(it.ev, r[it.klassId])
    ensures r[it.klassId].HTEvent? <==> it.klassId == EVENT_KLASS
    ensures r[it.klassId].HTEvent? ==> PlainEvent(it.ev)
    ensures NotBelow(r, it.klassId, {it.klassId})
  {
    var i := it.klassId;
    assert KnowsKlass(t, r, i);
    assert r[i].HTEvent? ==> Name(r[i]) == Name(r[EVENT_KLASS]);
    hide GetKlassByName;
    hide HasShape;
  }

  lemma ExpectedParts(flat: bool, r: seq<Klass>, it: Item)
    requires Coherent(r) && Encodable(r, it)
    ensures it.klassId < |r| && InstanceOf(it.ev, r[it.klassId])
    ensures r[it.klassId].HTEvent? ==> Expected(flat, r, it) == ItemHeader(r, it)
    ensures r[it.klassId].Derived? ==>
              var header := ItemHeader(r, it);
              Expected(flat, r, it)
              == Assemble(flat, it.klassId, header, BodyValues(flat, r, it.klassId, it.ev, header))
    ensures Expected(flat, r, it).klassId == if r[it.klassId].HTEvent? then EVENT_KLASS else it.klassId
  {
    hide BodyValues;
    hide FieldMap;
    hide Coherent;
  }

  lemma DeliverPlain(host: Endianness, s: State, e: Event, rest: seq<byte>)
    requires !IsControl(e.klassId)
    ensures Deliver(host, s, e, rest) == Delivered(e, State(s.table, s.order, rest))
  {
  }

  lemma LegibleIs(signed: bool, it: Item)
    ensures Legible(signed, it) <==> !(signed && !PlainEvent(it.ev))
  {
    hide PlainEvent;
  }

  lemma StepRoundTrip(host: Endianness, flat: bool, signed: bool, s: State, r: seq<Klass>, it: Item, rest: seq<byte>)
    requires KnowsHeader(s.table) && Coherent(r) && KnowsAll(s.table, r) && Encodable(r, it) && !IsControl(it.klassId)
    requires EVENT_KLASS < |r| && r[EVENT_KLASS].HTEvent?
    requires s.bytes == ItemBytes(s.order, r, it) + rest
    ensures Step(host, flat, signed, s)
         == if Legible(signed, it) then Delivered(Expected(flat, r, it), State(s.table, s.order, rest)) else Finished
  {
    hide *;
    var i := it.klassId;
    StepParts(s.table, r, it);
    ExpectedParts(flat, r, it);
    DeliverPlain(host, s, Expected(flat, r, it), rest);
    LegibleIs(signed, it);
    if r[i].HTEvent? {
      StepHeaderOnly(host, flat, signed, s, r, it, rest);
    } else {
      EventRoundTrip(Mode(host, s.order, flat, signed), s.table, r, i, it.ev, ItemHeader(r, it), rest, {i});
      var b := if Legible(signed, it) then Got(BodyValues(flat, r, i, it.ev, ItemHeader(r, it)), rest) else Fail;
      StepWithBody(host, flat, signed, s, r, it, b, rest);
    }
  }

  // The metadata.

  predicate Usable(r: seq<Klass>) {
    Coherent(r) && |r| < Capacity(4) && Reserved(r)
  }

  lemma UsableParts(r: seq<Klass>)
    requires Usable(r)
    ensures Coherent(r) && |r| < Capacity(4) && Reserved(r)
  {
  }

  lemma RecordItemValid(r: seq<Klass>, it: Item, rec: Record)
    requires Reserved(r) && Carries(it, rec) && RecordFits(rec)
    ensures ValidItem(r, it) && RecordFields(rec) == r[it.klassId].fields
    ensures r[it.klassId].base.HTEvent? && ShapeOf(it.klassId).NoBase?
  {
  }

  predicate BuiltInRecords(t: Table) {
    && KnowsHeader(t)
    && KLASS_INFO_KLASS in t.klasses && t.klasses[KLASS_INFO_KLASS].fields == KLASS_INFO_FIELDS
    && FIELD_INFO_KLASS in t.klasses && t.klasses[FIELD_INFO_KLASS].fields == FIELD_INFO_FIELDS
  }

  /** The register's fields of a metadata class. */
  lemma RecordShape(t: Table, r: seq<Klass>, it: Item, rec: Record)
    requires Reserved(r) && BuiltInRecords(t) && Carries(it, rec) && RecordFits(rec) && ValidItem(r, it)
    ensures var i := it.klassId;
            && i < |r| && i != EVENT_KLASS && i in t.klasses && r[i].Derived? && r[i].base.HTEvent?
            && HasShape(t.klasses[i].fields, r[i], NoBase)
    ensures InstanceOf(it.ev, r[it.klassId]) && it.ev.Extended? && it.ev.base.Header?
    ensures AllFit(it.ev.values, r[it.klassId].fields)
    ensures RecordValues(rec) == FieldMap(r[it.klassId].fields, it.ev.values)
  {
    BuiltInShapes();
    RecordItemValid(r, it, rec);
    hide FieldMap;
    hide KLASS_INFO_EVENT;
    hide FIELD_INFO_EVENT;
    hide ENDIANNESS_INFO_EVENT;
    hide SYSTEM_INFO_EVENT;
    hide KLASS_INFO_FIELDS;
    hide FIELD_INFO_FIELDS;
    hide EVENT_FIELDS;
  }

  lemma LegibleRecord(signed: bool, it: Item)
    requires it.ev.Extended? && it.ev.base.Header?
    ensures Legible(signed, it) <==> !(signed && !PlainText(it.ev.values))
  {
    assert PlainEvent(it.ev.base);
  }

  lemma RecordExpected(flat: bool, r: seq<Klass>, it: Item, rec: Record)
    requires Reserved(r) && Coherent(r) && |r| < Capacity(4) && Carries(it, rec) && RecordFits(rec) && ValidItem(r, it)
    ensures Expected(flat, r, it) == Assemble(flat, it.klassId, ItemHeader(r, it), RecordValues(rec))
  {
    RecordItemValid(r, it, rec);
    hide FieldMap;
    hide KLASS_INFO_EVENT;
    hide FIELD_INFO_EVENT;
    hide ENDIANNESS_INFO_EVENT;
    hide SYSTEM_INFO_EVENT;
    BodyByShape(flat, r, it.klassId, it.ev, ItemHeader(r, it));
  }

  lemma ValidIsEncodable(r: seq<Klass>, it: Item)
    requires ValidItem(r, it) && |r| < Capacity(4)
    ensures Encodable(r, it)
  {
  }

  /** A metadata event decodes to its record whatever else the register holds. */
  lemma RecordStep(host: Endianness, flat: bool, signed: bool, s: State, r: seq<Klass>, it: Item, rec: Record,
                   rest: seq<byte>)
    requires Reserved(r) && Coherent(r) && |r| < Capacity(4) && BuiltInRecords(s.table)
    requires Carries(it, rec) && RecordFits(rec) && ValidItem(r, it)
    requires s.bytes == ItemBytes(s.order, r, it) + rest
    ensures Step(host, flat, signed, s)
         == if Legible(signed, it) then Deliver(host, s, Expected(flat, r, it), rest) else Finished
    ensures Expected(flat, r, it) == Assemble(flat, it.klassId, ItemHeader(r, it), RecordValues(rec))
  {
    hide *;
    ValidIsEncodable(r, it);
    RecordShape(s.table, r, it, rec);
    RecordExpected(flat, r, it, rec);
    LegibleRecord(signed, it);
    BuiltInHeader(s.table);
    var i := it.klassId;
    NoBaseRoundTrip(Mode(host, s.order, flat, signed), s.table, ItemHeader(r, it), s.table.klasses[i].fields, r[i],
                    it.ev, rest, {i});
    StepWithBody(host, flat, signed, s, r, it,
                 if Legible(signed, it) then Got(RecordValues(rec), rest) else Fail, rest);
  }

  lemma BuiltInHeader(t: Table)
    requires BuiltInRecords(t)
    ensures KnowsHeader(t)
  {
  }

  lemma PartialKeepsBuiltIn(t: Table, n: nat, k: Klass, j: nat)
    requires BuiltInRecords(t) && j <= |TypeFields(k)|
    ensures BuiltInRecords(Partial(t, n, k, j))
  {
    hide TypeFields;
    hide EVENT_FIELDS;
    hide KLASS_INFO_FIELDS;
    hide FIELD_INFO_FIELDS;
    hide ScratchFields;
  }

  lemma HoldsBuiltIn(t: Table, r: seq<Klass>, n: nat)
    requires FIELD_INFO_KLASS < |r| && n <= |r| && r[ENDIANNESS_KLASS].Derived? && Holds(t, r, n)
    ensures BuiltInRecords(t)
  {
  }

  lemma PartialBuiltIn(t: Table, r: seq<Klass>, n: nat, j: nat)
    requires Reserved(r) && Coherent(r) && n < |r| && Holds(t, r, n) && j <= |TypeFields(r[n])|
    ensures BuiltInRecords(t) && BuiltInRecords(Partial(t, n, r[n], j))
  {
    HoldsBuiltIn(t, r, n);
    PartialKeepsBuiltIn(t, n, r[n], j);
    hide BuiltInRecords;
    hide Partial;
  }

  /** The event announcing class n. */
  lemma KlassItemStep(host: Endianness, flat: bool, signed: bool, s: State, r: seq<Klass>, n: nat, it: Item,
                      rest: seq<byte>)
    requires Usable(r) && n < |r| && Holds(s.table, r, n)
    requires Carries(it, KlassRecord(n, r[n])) && ValidItem(r, it)
    requires s.bytes == ItemBytes(s.order, r, it) + rest
    ensures Step(host, flat, signed, s)
         == if Legible(signed, it) then
              Delivered(Expected(flat, r, it), State(Partial(s.table, n, r[n], 0), s.order, rest))
            else Finished
  {
    hide *;
    UsableParts(r);
    CoherentAt(r, n);
    ValidIsEncodable(r, it);
    var rec := KlassRecord(n, r[n]);
    KlassRecordFits(n, r[n]);
    KlassRecordKlass(n, r[n]);
    PartialBuiltIn(s.table, r, n, 0);
    PartialStart(s.table, r, n);
    RecordStep(host, flat, signed, s, r, it, rec, rest);
    AssembledValues(flat, it, ItemHeader(r, it), rec);
    LearnKlassRecord(s.table, n, r[n], Expected(flat, r, it));
    DeliverLearned(host, s, Expected(flat, r, it), rest);
  }

  lemma CoherentAt(r: seq<Klass>, n: nat)
    requires Coherent(r) && n < |r|
    ensures WellFormed(r[n])
  {
  }

  lemma KlassRecordKlass(n: nat, k: Klass)
    ensures KlassRecord(n, k).klassId == KLASS_INFO_KLASS
  {
  }

  lemma FieldRecordKlass(n: nat, f: TypeField)
    ensures FieldRecord(n, f).klassId == FIELD_INFO_KLASS
  {
  }

  /** An assembled metadata event holds the values of its record. */
  lemma AssembledValues(flat: bool, it: Item, header: Event, rec: Record)
    requires Carries(it, rec) && RecordFits(rec)
    ensures var e := Assemble(flat, it.klassId, header, RecordValues(rec));
            && e.klassId == rec.klassId && e.klassId != ENDIANNESS_KLASS
            && forall name :: name in RecordValues(rec) ==>
                 name in e.values && e.values[name] == RecordValues(rec)[name]
  {
    hide RecordValues;
  }

  lemma DeliverLearned(host: Endianness, s: State, e: Event, rest: seq<byte>)
    requires e.klassId != ENDIANNESS_KLASS && Learn(s.table, e).Some?
    ensures Deliver(host, s, e, rest) == Delivered(e, State(Learn(s.table, e).value, s.order, rest))
  {
    hide Learn;
  }

  /** The event describing field j of class n. */
  lemma FieldItemStep(host: Endianness, flat: bool, signed: bool, s: State, t: Table, r: seq<Klass>, n: nat, j: nat,
                      it: Item, rest: seq<byte>)
    requires Usable(r) && n < |r| && Holds(t, r, n) && j < |TypeFields(r[n])|
    requires s.table == Partial(t, n, r[n], j)
    requires Carries(it, FieldRecord(n, TypeFields(r[n])[j])) && ValidItem(r, it)
    requires s.bytes == ItemBytes(s.order, r, it) + rest
    ensures Step(host, flat, signed, s)
         == if Legible(signed, it) then
              Delivered(Expected(flat, r, it), State(Partial(t, n, r[n], j + 1), s.order, rest))
            else Finished
  {
    hide *;
    UsableParts(r);
    CoherentAt(r, n);
    ValidIsEncodable(r, it);
    var f := TypeFields(r[n])[j];
    var rec := FieldRecord(n, f);
    TypeFieldFits(r[n], j);
    FieldRecordFits(n, f);
    FieldRecordKlass(n, f);
    PartialBuiltIn(t, r, n, j);
    PartialStep(t, r, n, j);
    RecordStep(host, flat, signed, s, r, it, rec, rest);
    AssembledValues(flat, it, ItemHeader(r, it), rec);
    LearnFieldRecord(s.table, n, f, Expected(flat, r, it));
    DeliverLearned(host, s, Expected(flat, r, it), rest);
  }

  ghost function ExpectedAll(flat: bool, r: seq<Klass>, items: seq<Item>): (es: seq<Event>)
    requires Coherent(r) && |r| < Capacity(4) && ValidItems(r, items)
    ensures |es| == |items|
    ensures forall i :: 0 <= i < |items| ==> es[i] == Expected(flat, r, items[i])
  {
    seq(|items|, i requires 0 <= i < |items| => Expected(flat, r, items[i]))
  }

  lemma ExpectedCons(flat: bool, r: seq<Klass>, items: seq<Item>)
    requires Coherent(r) && |r| < Capacity(4) && ValidItems(r, items) && items != []
    ensures ExpectedAll(flat, r, items) == [Expected(flat, r, items[0])] + ExpectedAll(flat, r, items[1..])
  {
    hide Expected;
  }

  lemma ExpectedAppend(flat: bool, r: seq<Klass>, a: seq<Item>, b: seq<Item>)
    requires Coherent(r) && |r| < Capacity(4) && ValidItems(r, a) && ValidItems(r, b)
    ensures ValidItems(r, a + b)
    ensures ExpectedAll(flat, r, a + b) == ExpectedAll(flat, r, a) + ExpectedAll(flat, r, b)
  {
    hide Expected;
  }

  /** The bytes ahead are the given events and then `rest`. */
  predicate Splits(s: State, r: seq<Klass>, items: seq<Item>, rest: seq<byte>) {
    ValidItems(r, items) && s.bytes == StreamBytes(s.order, r, items) + rest
  }

  lemma SplitsCons(s: State, r: seq<Klass>, items: seq<Item>, rest: seq<byte>) returns (after: seq<byte>)
    requires Splits(s, r, items, rest) && items != []
    ensures ValidItems(r, items) && ValidItems(r, items[1..]) && ValidItem(r, items[0])
    ensures after == StreamBytes(s.order, r, items[1..]) + rest
    ensures s.bytes == ItemBytes(s.order, r, items[0]) + after
    ensures forall t: Table :: Splits(State(t, s.order, after), r, items[1..], rest)
  {
    StreamCons(s.order, r, items);
    ConcatAssoc(ItemBytes(s.order, r, items[0]), StreamBytes(s.order, r, items[1..]), rest);
    hide ItemBytes;
    hide StreamBytes;
    hide ValidItem;
    after := StreamBytes(s.order, r, items[1..]) + rest;
  }

  lemma SplitsValid(s: State, r: seq<Klass>, items: seq<Item>, rest: seq<byte>)
    requires Splits(s, r, items, rest)
    ensures ValidItems(r, items)
  {
  }

  lemma SplitsNil(s: State, r: seq<Klass>, rest: seq<byte>)
    requires Splits(s, r, [], rest)
    ensures s.bytes == rest
  {
  }

  lemma SplitsAppend(s: State, r: seq<Klass>, a: seq<Item>, b: seq<Item>, rest: seq<byte>)
    requires Splits(s, r, a + b, rest) && ValidItems(r, a) && ValidItems(r, b)
    ensures Splits(s, r, a, StreamBytes(s.order, r, b) + rest)
  {
    StreamAppend(s.order, r, a, b);
    ConcatAssoc(StreamBytes(s.order, r, a), StreamBytes(s.order, r, b), rest);
    hide StreamBytes;
    hide ValidItems;
  }

  /**
   From s the parser delivers the events of the items up to the first that is not legible and stops there;
   when all are legible it gets to s'.
   */
  ghost predicate Reads(host: Endianness, flat: bool, signed: bool, s: State, r: seq<Klass>, items: seq<Item>,
                        s': State)
    requires Coherent(r) && |r| < Capacity(4) && ValidItems(r, items)
  {
    Delivers(Parser(host, flat, signed), s, ExpectedAll(flat, r, items), Legibles(signed, items), s')
  }

  lemma ReadsDeliver(host: Endianness, flat: bool, signed: bool, s: State, r: seq<Klass>, items: seq<Item>, s': State)
    requires Coherent(r) && |r| < Capacity(4) && ValidItems(r, items)
    ensures Reads(host, flat, signed, s, r, items, s')
       <==> Delivers(Parser(host, flat, signed), s, ExpectedAll(flat, r, items), Legibles(signed, items), s')
  {
  }

  lemma ReadsAppend(host: Endianness, flat: bool, signed: bool, s: State, r: seq<Klass>, a: seq<Item>, m: State,
                    b: seq<Item>, e: State)
    requires Coherent(r) && |r| < Capacity(4) && ValidItems(r, a) && ValidItems(r, b)
    requires Reads(host, flat, signed, s, r, a, m) && Reads(host, flat, signed, m, r, b, e)
    ensures ValidItems(r, a + b) && Reads(host, flat, signed, s, r, a + b, e)
  {
    hide *;
    ExpectedAppend(flat, r, a, b);
    LegiblesAppend(signed, a, b);
    ReadsDeliver(host, flat, signed, s, r, a, m);
    ReadsDeliver(host, flat, signed, m, r, b, e);
    ReadsDeliver(host, flat, signed, s, r, a + b, e);
    var es, stop := ExpectedAll(flat, r, a), Legibles(signed, a + b);
    if Legibles(signed, a) == |a| {
      DeliversEnough(Parser(host, flat, signed), s, es, |a|, stop, m);
    }
    DeliversAppend(Parser(host, flat, signed), s, es, stop, m, ExpectedAll(flat, r, b), e);
  }

  /** One event, then the rest of a run. */
  lemma ReadsCons(host: Endianness, flat: bool, signed: bool, s: State, r: seq<Klass>, items: seq<Item>, s1: State,
                  s2: State)
    requires Coherent(r) && |r| < Capacity(4) && ValidItems(r, items) && items != []
    requires Step(host, flat, signed, s)
          == if Legible(signed, items[0]) then Delivered(Expected(flat, r, items[0]), s1) else Finished
    requires Reads(host, flat, signed, s1, r, items[1..], s2)
    ensures Reads(host, flat, signed, s, r, items, s2)
  {
    hide *;
    ParserStep(host, flat, signed, s);
    ValidSplit(r, items, items[..1], items[1..]);
    ExpectedCons(flat, r, items);
    LegiblesCons(signed, items);
    ReadsDeliver(host, flat, signed, s1, r, items[1..], s2);
    ReadsDeliver(host, flat, signed, s, r, items, s2);
    var es := ExpectedAll(flat, r, items);
    assert es[1..] == ExpectedAll(flat, r, items[1..]);
    DeliversCons(Parser(host, flat, signed), s, es, Legibles(signed, items), s2);
  }

  lemma LegiblesCons(signed: bool, items: seq<Item>)
    requires items != []
    ensures Legibles(signed, items) == if Legible(signed, items[0]) then 1 + Legibles(signed, items[1..]) else 0
  {
  }

  lemma ReadsNone(host: Endianness, flat: bool, signed: bool, s: State, r: seq<Klass>)
    requires Coherent(r) && |r| < Capacity(4)
    ensures ValidItems(r, []) && Reads(host, flat, signed, s, r, [], s)
  {
  }

  lemma CarryFields(items: seq<Item>, n: nat, fs: seq<TypeField>, j: nat)
    requires j < |fs| && CarryAll(items, FieldRecords(n, fs[j..]))
    ensures |items| > 0 && Carries(items[0], FieldRecord(n, fs[j]))
    ensures CarryAll(items[1..], FieldRecords(n, fs[j + 1..]))
  {
    assert fs[j..][1..] == fs[j + 1..];
  }

  lemma CarryNone(n: nat, fs: seq<TypeField>, j: nat)
    requires j <= |fs| && CarryAll([], FieldRecords(n, fs[j..]))
    ensures j == |fs|
  {
  }

  lemma CarrySome(items: seq<Item>, n: nat, fs: seq<TypeField>, j: nat)
    requires j <= |fs| && CarryAll(items, FieldRecords(n, fs[j..])) && items != []
    ensures j < |fs|
  {
  }

  /** The events describing the fields of class n from field j on. */
  lemma {:induction false} FieldsDeliver(host: Endianness, flat: bool, signed: bool, s: State, t: Table,
                                         r: seq<Klass>, n: nat, j: nat, items: seq<Item>, rest: seq<byte>)
    requires Usable(r) && n < |r| && Holds(t, r, n) && j <= |TypeFields(r[n])|
    requires s.table == Partial(t, n, r[n], j)
    requires CarryAll(items, FieldRecords(n, TypeFields(r[n])[j..])) && Splits(s, r, items, rest)
    ensures Reads(host, flat, signed, s, r, items, State(Partial(t, n, r[n], |TypeFields(r[n])|), s.order, rest))
    decreases |items|
  {
    hide *;
    UsableParts(r);
    if items == [] {
      SplitsNil(s, r, rest);
      ReadsNone(host, flat, signed, s, r);
      CarryNone(n, TypeFields(r[n]), j);
    } else {
      CarrySome(items, n, TypeFields(r[n]), j);
      FieldsDeliverCons(host, flat, signed, s, t, r, n, j, items, rest);
    }
  }

  lemma {:induction false} FieldsDeliverCons(host: Endianness, flat: bool, signed: bool, s: State, t: Table,
                                             r: seq<Klass>, n: nat, j: nat, items: seq<Item>, rest: seq<byte>)
    requires Usable(r) && n < |r| && Holds(t, r, n) && j < |TypeFields(r[n])|
    requires s.table == Partial(t, n, r[n], j)
    requires CarryAll(items, FieldRecords(n, TypeFields(r[n])[j..])) && Splits(s, r, items, rest) && items != []
    ensures Reads(host, flat, signed, s, r, items, State(Partial(t, n, r[n], |TypeFields(r[n])|), s.order, rest))
    decreases |items|, 0
  {
    hide *;
    UsableParts(r);
    var after := SplitsCons(s, r, items, rest);
    CarryFields(items, n, TypeFields(r[n]), j);
    var s1 := State(Partial(t, n, r[n], j + 1), s.order, after);
    FieldItemStep(host, flat, signed, s, t, r, n, j, items[0], after);
    FieldsDeliver(host, flat, signed, s1, t, r, n, j + 1, items[1..], rest);
    ReadsCons(host, flat, signed, s, r, items, s1, State(Partial(t, n, r[n], |TypeFields(r[n])|), s.order, rest));
  }

  /** The events describing class n. */
  lemma KlassDelivers(host: Endianness, flat: bool, signed: bool, s: State, r: seq<Klass>, n: nat, items: seq<Item>,
                      rest: seq<byte>)
    requires Usable(r) && n < |r| && Holds(s.table, r, n)
    requires CarryAll(items, KlassRecords(n, r[n])) && Splits(s, r, items, rest)
    ensures Reads(host, flat, signed, s, r, items, State(Partial(s.table, n, r[n], |TypeFields(r[n])|), s.order, rest))
  {
    hide *;
    UsableParts(r);
    var fs := TypeFields(r[n]);
    CarryKlass(items, n, r[n]);
    var after := SplitsCons(s, r, items, rest);
    KlassItemStep(host, flat, signed, s, r, n, items[0], after);
    var s1 := State(Partial(s.table, n, r[n], 0), s.order, after);
    assert fs[0..] == fs;
    FieldsDeliver(host, flat, signed, s1, s.table, r, n, 0, items[1..], rest);
    ReadsCons(host, flat, signed, s, r, items, s1, State(Partial(s.table, n, r[n], |fs|), s.order, rest));
  }

  lemma CarryKlass(items: seq<Item>, n: nat, k: Klass)
    requires CarryAll(items, KlassRecords(n, k))
    ensures |items| > 0 && Carries(items[0], KlassRecord(n, k))
    ensures CarryAll(items[1..], FieldRecords(n, TypeFields(k)))
  {
    hide TypeFields;
    hide KlassRecord;
    assert KlassRecords(n, k)[1..] == FieldRecords(n, TypeFields(k));
  }

  /** The events describing the first n classes teach the parser those classes. */
  lemma {:induction false} RegistryDelivers(host: Endianness, flat: bool, signed: bool, s: State, r: seq<Klass>,
                                            n: nat, items: seq<Item>, rest: seq<byte>)
    returns (t: Table)
    requires Usable(r) && n <= |r| && Holds(s.table, r, 0)
    requires CarryAll(items, RegistryRecords(r, n)) && Splits(s, r, items, rest)
    ensures Holds(t, r, n)
    ensures Reads(host, flat, signed, s, r, items, State(t, s.order, rest))
    decreases n
  {
    if n == 0 {
      t := s.table;
      SplitsNil(s, r, rest);
      ReadsNone(host, flat, signed, s, r);
    } else {
      t := RegistryDeliversStep(host, flat, signed, s, r, n, items, rest);
    }
  }

  lemma {:induction false} RegistryDeliversStep(host: Endianness, flat: bool, signed: bool, s: State, r: seq<Klass>,
                                                n: nat, items: seq<Item>, rest: seq<byte>)
    returns (t: Table)
    requires Usable(r) && 0 < n <= |r| && Holds(s.table, r, 0)
    requires CarryAll(items, RegistryRecords(r, n)) && Splits(s, r, items, rest)
    ensures Holds(t, r, n)
    ensures Reads(host, flat, signed, s, r, items, State(t, s.order, rest))
    decreases n, 0
  {
    hide *;
    UsableParts(r);
    SplitsValid(s, r, items, rest);
    var a, b := CarrySplit(items, r, n);
    ValidSplit(r, items, a, b);
    SplitsAppend(s, r, a, b, rest);
    var tail := StreamBytes(s.order, r, b) + rest;
    var t1 := RegistryDelivers(host, flat, signed, s, r, n - 1, a, tail);
    t := LastKlassDelivers(host, flat, signed, State(t1, s.order, tail), r, n, b, rest);
    ExpectedAppend(flat, r, a, b);
    ReadsAppend(host, flat, signed, s, r, a, State(t1, s.order, tail), b, State(t, s.order, rest));
  }

  lemma LastKlassDelivers(host: Endianness, flat: bool, signed: bool, s: State, r: seq<Klass>, n: nat,
                          items: seq<Item>, rest: seq<byte>)
    returns (t: Table)
    requires Usable(r) && 0 < n <= |r| && Holds(s.table, r, n - 1)
    requires CarryAll(items, KlassRecords(n - 1, r[n - 1]))
    requires ValidItems(r, items) && s.bytes == StreamBytes(s.order, r, items) + rest
    ensures Holds(t, r, n)
    ensures Reads(host, flat, signed, s, r, items, State(t, s.order, rest))
  {
    hide *;
    UsableParts(r);
    SplitsTail(s, r, items, rest);
    KlassDelivers(host, flat, signed, s, r, n - 1, items, rest);
    PartialEnd(s.table, r, n - 1);
    t := Partial(s.table, n - 1, r[n - 1], |TypeFields(r[n - 1])|);
  }

  lemma ValidSplit(r: seq<Klass>, items: seq<Item>, a: seq<Item>, b: seq<Item>)
    requires ValidItems(r, items) && items == a + b
    ensures ValidItems(r, a) && ValidItems(r, b)
  {
    hide ValidItem;
    forall i | 0 <= i < |a| ensures ValidItem(r, a[i]) { assert items[i] == a[i]; }
    forall i | 0 <= i < |b| ensures ValidItem(r, b[i]) { assert items[|a| + i] == b[i]; }
  }

  lemma SplitsTail(s: State, r: seq<Klass>, b: seq<Item>, rest: seq<byte>)
    requires ValidItems(r, b) && s.bytes == StreamBytes(s.order, r, b) + rest
    ensures Splits(s, r, b, rest)
  {
  }

  lemma CarrySplit(items: seq<Item>, r: seq<Klass>, n: nat) returns (a: seq<Item>, b: seq<Item>)
    requires 0 < n <= |r| && CarryAll(items, RegistryRecords(r, n))
    ensures items == a + b
    ensures CarryAll(a, RegistryRecords(r, n - 1)) && CarryAll(b, KlassRecords(n - 1, r[n - 1]))
  {
    hide KlassRecords;
    var x, y := RegistryRecords(r, n - 1), KlassRecords(n - 1, r[n - 1]);
    assert RegistryRecords(r, n) == x + y;
    a, b := items[..|x|], items[|x|..];
    forall i | 0 <= i < |y| ensures Carries(b[i], y[i]) { assert (x + y)[|x| + i] == y[i]; }
    forall i | 0 <= i < |x| ensures Carries(a[i], x[i]) { assert (x + y)[i] == x[i]; }
  }

  // The first event.

  lemma EndiannessItemValid(r: seq<Klass>, order: Endianness)
    requires Reserved(r)
    ensures ValidItem(r, EndiannessItem(order))
  {
  }

  /** The event delivered first; the class has no `base` in the register yet. */
  function FirstEvent(flat: bool, r: seq<Klass>, order: Endianness): Event
    requires Reserved(r) && |r| < Capacity(4)
  {
    EndiannessItemValid(r, order);
    var it := EndiannessItem(order);
    Assemble(flat, ENDIANNESS_KLASS, ItemHeader(r, it), FieldMap(ENDIANNESS_INFO_EVENT.fields, it.ev.values))
  }

  lemma ZeroHeaderHasNoOrder(a: Endianness, b: Endianness)
    ensures HeaderBytes(a, 0, Header(0, 0)) == HeaderBytes(b, 0, Header(0, 0))
  {
    ZeroHasNoOrder(a, b, 4);
    ZeroHasNoOrder(a, b, 8);
    hide Store;
  }

  lemma ByteHasNoOrder(a: Endianness, b: Endianness, k: Klass, ev: EventData)
    requires k.Derived? && k.base.HTEvent? && InstanceOf(ev, k)
    requires |k.fields| == 1 && k.fields[0].IntField? && k.fields[0].width == 1
    ensures Payload(a, k, ev) == Payload(b, k, ev)
  {
    var n := ev.values[0].n;
    assert Reverse(ToLittle(n, 1)) == ToLittle(n, 1);
    assert k.fields[1..] == [] && ev.values[1..] == [];
    hide Store;
  }

  /** The first event reads the same in either byte order. */
  lemma FirstItemHasNoOrder(r: seq<Klass>, order: Endianness, assumed: Endianness)
    requires Reserved(r) && ValidItem(r, EndiannessItem(order))
    ensures ItemBytes(order, r, EndiannessItem(order)) == ItemBytes(assumed, r, EndiannessItem(order))
  {
    var it := EndiannessItem(order);
    ZeroHeaderHasNoOrder(order, assumed);
    ByteHasNoOrder(order, assumed, ENDIANNESS_INFO_EVENT, it.ev);
    hide HeaderBytes;
    hide Payload;
  }

  lemma EndiannessValue(values: seq<FieldValue>)
    requires AllFit(values, ENDIANNESS_INFO_EVENT.fields)
    ensures ENDIANNESS in FieldMap(ENDIANNESS_INFO_EVENT.fields, values)
    ensures FieldMap(ENDIANNESS_INFO_EVENT.fields, values)[ENDIANNESS] == Num(UINT8, values[0].n)
  {
    FieldMapAt(ENDIANNESS_INFO_EVENT.fields, values, 0);
  }

  lemma FirstDelivery(host: Endianness, flat: bool, signed: bool, s: State, r: seq<Klass>, order: Endianness,
                      rest: seq<byte>)
    requires Usable(r)
    ensures Deliver(host, s, FirstEvent(flat, r, order), rest)
         == Delivered(FirstEvent(flat, r, order), State(s.table, order, rest))
  {
    EndiannessItemValid(r, order);
    EndiannessValue(EndiannessItem(order).ev.values);
    hide FieldMap;
    hide ENDIANNESS_INFO_EVENT;
  }

  /** The parser starts out assuming little-endian data and learns the real byte order here. */
  lemma FirstStep(host: Endianness, flat: bool, signed: bool, r: seq<Klass>, order: Endianness, rest: seq<byte>)
    requires Usable(r) && ValidItem(r, EndiannessItem(order))
    ensures Step(host, flat, signed, State(INITIAL_TABLE, Little, ItemBytes(order, r, EndiannessItem(order)) + rest))
         == Delivered(FirstEvent(flat, r, order), State(INITIAL_TABLE, order, rest))
  {
    var it := EndiannessItem(order);
    var s := State(INITIAL_TABLE, Little, ItemBytes(order, r, it) + rest);
    FirstItemHasNoOrder(r, order, Little);
    FirstDelivery(host, flat, signed, s, r, order, rest);
    InitialHolds(r);
    FirstBody(host, flat, signed, s.table, ItemHeader(r, it), it.ev, rest);
    hide ReadFields;
    hide FieldMap;
    hide ReadHeader;
    hide ReadBody;
    hide INITIAL_TABLE;
    hide ENDIANNESS_INFO_EVENT;
    hide KLASS_INFO_EVENT;
    hide FIELD_INFO_EVENT;
    hide SYSTEM_INFO_EVENT;
    StepWithBody(host, flat, signed, s, r, it, Got(FieldMap(ENDIANNESS_INFO_EVENT.fields, it.ev.values), rest), rest);
  }

  lemma FirstBody(host: Endianness, flat: bool, signed: bool, t: Table, header: Event, ev: EventData, rest: seq<byte>)
    requires InstanceOf(ev, ENDIANNESS_INFO_EVENT) && t == INITIAL_TABLE
    ensures ENDIANNESS_KLASS in t.klasses
    ensures ReadFields(Mode(host, Little, flat, signed), t, header, t.klasses[ENDIANNESS_KLASS].fields, map[],
                       Payload(Little, ENDIANNESS_INFO_EVENT, ev) + rest, {ENDIANNESS_KLASS})
         == Got(FieldMap(ENDIANNESS_INFO_EVENT.fields, ev.values), rest)
  {
    assert Describes(ENDIANNESS_FIELDS, ENDIANNESS_INFO_EVENT.fields);
    NoBaseRoundTrip(Mode(host, Little, flat, signed), t, header, ENDIANNESS_FIELDS, ENDIANNESS_INFO_EVENT, ev, rest,
                    {ENDIANNESS_KLASS});
    hide ReadFields;
  }

  // The events of the program.

  predicate NoControl(items: seq<Item>) {
    forall i :: 0 <= i < |items| ==> !IsControl(items[i].klassId)
  }

  lemma NoControlParts(items: seq<Item>)
    requires NoControl(items) && items != []
    ensures !IsControl(items[0].klassId) && NoControl(items[1..])
  {
  }

  lemma EventIsReserved(r: seq<Klass>)
    requires Reserved(r)
    ensures EVENT_KLASS < |r| && r[EVENT_KLASS].HTEvent?
  {
  }

  /** With every class known, a run of events is delivered as it was written. */
  lemma {:induction false} ItemsDeliver(host: Endianness, flat: bool, signed: bool, s: State, r: seq<Klass>,
                                        items: seq<Item>, rest: seq<byte>)
    requires Usable(r) && KnowsAll(s.table, r) && KnowsHeader(s.table)
    requires Splits(s, r, items, rest) && NoControl(items)
    ensures Reads(host, flat, signed, s, r, items, State(s.table, s.order, rest))
    decreases |items|
  {
    if items == [] {
      SplitsNil(s, r, rest);
      ReadsNone(host, flat, signed, s, r);
    } else {
      hide *;
      UsableParts(r);
      NoControlParts(items);
      EventIsReserved(r);
      var after := SplitsCons(s, r, items, rest);
      var s1 := State(s.table, s.order, after);
      StepRoundTrip(host, flat, signed, s, r, items[0], after);
      ItemsDeliver(host, flat, signed, s1, r, items[1..], rest);
      ReadsCons(host, flat, signed, s, r, items, s1, State(s.table, s.order, rest));
    }
  }

  // The whole stream.

  /** Metadata items are valid instances of the two metadata classes. */
  lemma {:induction false} RecordsFit(r: seq<Klass>, n: nat, j: nat)
    requires Usable(r) && n <= |r| && j < |RegistryRecords(r, n)|
    ensures RecordFits(RegistryRecords(r, n)[j])
    decreases n
  {
    hide *;
    RecordAt(r, n, j);
    UsableParts(r);
    CoherentAt(r, n - 1);
    var k, before := r[n - 1], |RegistryRecords(r, n - 1)|;
    if j < before {
      RecordsFit(r, n - 1, j);
    } else if j == before {
      KlassRecordFits(n - 1, k);
    } else {
      TypeFieldFits(k, j - before - 1);
      FieldRecordFits(n - 1, TypeFields(k)[j - before - 1]);
    }
  }

  /** Which class or field a record describes. */
  lemma RecordAt(r: seq<Klass>, n: nat, j: nat)
    requires n <= |r| && j < |RegistryRecords(r, n)|
    ensures n > 0
    ensures var before, record := RegistryRecords(r, n - 1), RegistryRecords(r, n)[j];
            var m, fs := j - |before| - 1, TypeFields(r[n - 1]);
            && (j < |before| ==> record == before[j])
            && (j == |before| ==> record == KlassRecord(n - 1, r[n - 1]))
            && (j > |before| ==> m < |fs| && record == FieldRecord(n - 1, fs[m]))
  {
    hide TypeFields;
    hide KlassRecord;
    hide FieldRecord;
  }

  lemma MetadataValid(r: seq<Klass>, meta: seq<Item>)
    requires Usable(r) && CarryAll(meta, RegistryRecords(r, |r|))
    ensures ValidItems(r, meta)
  {
    forall i | 0 <= i < |meta|
      ensures ValidItem(r, meta[i])
    {
      RecordsFit(r, |r|, i);
      RecordItemValid(r, meta[i], RegistryRecords(r, |r|)[i]);
    }
  }

  /** The stream a listener receives: the metadata, then the events of the program. */
  function Stream(order: Endianness, meta: seq<Item>, version: Item, items: seq<Item>): seq<Item> {
    [EndiannessItem(order)] + (meta + ([version] + items))
  }

  /** What the parser delivers for a stream. */
  ghost function StreamEvents(flat: bool, r: seq<Klass>, order: Endianness, meta: seq<Item>, version: Item,
                              items: seq<Item>): seq<Event>
    requires Usable(r) && ValidItems(r, meta) && ValidItem(r, version) && ValidItems(r, items)
  {
    [FirstEvent(flat, r, order)]
    + (ExpectedAll(flat, r, meta) + ([Expected(flat, r, version)] + ExpectedAll(flat, r, items)))
  }

  ghost predicate StreamReady(r: seq<Klass>, meta: seq<Item>, version: Item, items: seq<Item>) {
    && ValidRegistry(r)
    && CarryAll(meta, RegistryRecords(r, |r|))
    && version.klassId == SYSTEM_INFO_KLASS && ValidItem(r, version)
    && ValidItems(r, items) && NoControl(items)
  }

  lemma StreamItemsValid(order: Endianness, r: seq<Klass>, meta: seq<Item>, version: Item, items: seq<Item>)
    requires StreamReady(r, meta, version, items)
    ensures Usable(r) && ValidItems(r, meta) && ValidItems(r, [version] + items) && NoControl([version] + items)
    ensures ValidItem(r, EndiannessItem(order))
  {
    hide *;
    RegistryUsable(r, meta, version, items);
    MetadataValid(r, meta);
    UsableParts(r);
    EndiannessItemValid(r, order);
    VersionThenItems(r, meta, version, items);
  }

  lemma RegistryUsable(r: seq<Klass>, meta: seq<Item>, version: Item, items: seq<Item>)
    requires StreamReady(r, meta, version, items)
    ensures Usable(r) && CarryAll(meta, RegistryRecords(r, |r|))
  {
    hide *;
    ReadyMetadata(r, meta, version, items);
    CoreIsReserved(r);
    ValidIsUsable(r);
  }

  lemma ValidIsUsable(r: seq<Klass>)
    requires ValidRegistry(r) && Reserved(r)
    ensures Usable(r)
  {
    hide Coherent;
    hide Reserved;
  }

  lemma VersionThenItems(r: seq<Klass>, meta: seq<Item>, version: Item, items: seq<Item>)
    requires StreamReady(r, meta, version, items)
    ensures ValidItems(r, [version] + items) && NoControl([version] + items)
  {
    hide ValidRegistry;
    hide CarryAll;
    hide ValidItem;
  }

  lemma StreamBytesParts(order: Endianness, r: seq<Klass>, first: Item, meta: seq<Item>, tail: seq<Item>)
    requires ValidItem(r, first) && ValidItems(r, meta) && ValidItems(r, tail)
    ensures ValidItems(r, [first] + (meta + tail))
    ensures StreamBytes(order, r, [first] + (meta + tail))
         == ItemBytes(order, r, first) + (StreamBytes(order, r, meta) + StreamBytes(order, r, tail))
  {
    hide StreamBytes;
    hide ItemBytes;
    hide ValidItem;
    StreamAppend(order, r, meta, tail);
    StreamCons(order, r, [first] + (meta + tail));
    assert ([first] + (meta + tail))[1..] == meta + tail;
  }

  lemma StreamParts(order: Endianness, r: seq<Klass>, meta: seq<Item>, version: Item, items: seq<Item>)
    requires StreamReady(r, meta, version, items)
    ensures Usable(r) && ValidItems(r, meta) && ValidItems(r, [version] + items) && NoControl([version] + items)
    ensures ValidItem(r, EndiannessItem(order)) && ValidItems(r, Stream(order, meta, version, items))
    ensures StreamBytes(order, r, Stream(order, meta, version, items))
         == ItemBytes(order, r, EndiannessItem(order))
            + (StreamBytes(order, r, meta) + StreamBytes(order, r, [version] + items))
  {
    assert Stream(order, meta, version, items) == [EndiannessItem(order)] + (meta + ([version] + items));
    hide *;
    StreamItemsValid(order, r, meta, version, items);
    StreamBytesParts(order, r, EndiannessItem(order), meta, [version] + items);
  }

  /** After the last event the header read fails and the loop ends. */
  lemma EndOfStream(host: Endianness, flat: bool, signed: bool, s: State)
    requires KnowsHeader(s.table) && s.bytes == []
    ensures Step(host, flat, signed, s) == Finished
  {
  }

  /** Metadata and events after the first event, for a parser that already knows the byte order. */
  lemma BodyDelivers(host: Endianness, flat: bool, signed: bool, r: seq<Klass>, order: Endianness, meta: seq<Item>,
                     tail: seq<Item>)
    returns (t: Table)
    requires Usable(r) && CarryAll(meta, RegistryRecords(r, |r|)) && ValidItems(r, meta)
    requires ValidItems(r, tail) && NoControl(tail)
    ensures KnowsAll(t, r) && KnowsHeader(t) && ValidItems(r, meta + tail)
    ensures Reads(host, flat, signed,
                  State(INITIAL_TABLE, order, StreamBytes(order, r, meta) + StreamBytes(order, r, tail)), r,
                  meta + tail, State(t, order, []))
  {
    hide *;
    UsableParts(r);
    InitialHolds(r);
    var rest := StreamBytes(order, r, tail);
    var s := State(INITIAL_TABLE, order, StreamBytes(order, r, meta) + rest);
    SplitsTail(s, r, meta, rest);
    t := RegistryDelivers(host, flat, signed, s, r, |r|, meta, rest);
    HoldsKnowsAll(t, r);
    var s1 := State(t, order, rest);
    assert rest == rest + [];
    SplitsTail(s1, r, tail, []);
    ItemsDeliver(host, flat, signed, s1, r, tail, []);
    ReadsAppend(host, flat, signed, s, r, meta, s1, tail, State(t, order, []));
  }

  /** The first event, then the rest of the stream. */
  lemma StreamReads(host: Endianness, flat: bool, signed: bool, r: seq<Klass>, order: Endianness, body: seq<Item>,
                    rest: seq<byte>, t: Table)
    requires Usable(r) && Coherent(r) && Reserved(r) && |r| < Capacity(4) && ValidItem(r, EndiannessItem(order))
    requires ValidItems(r, body)
             && Reads(host, flat, signed, State(INITIAL_TABLE, order, rest), r, body, State(t, order, []))
    ensures Delivers(Parser(host, flat, signed),
                     State(INITIAL_TABLE, Little, ItemBytes(order, r, EndiannessItem(order)) + rest),
                     [FirstEvent(flat, r, order)] + ExpectedAll(flat, r, body),
                     Legibles(signed, [EndiannessItem(order)] + body), State(t, order, []))
  {
    hide *;
    var parser := Parser(host, flat, signed);
    var s0 := State(INITIAL_TABLE, Little, ItemBytes(order, r, EndiannessItem(order)) + rest);
    var s1 := State(INITIAL_TABLE, order, rest);
    FirstStep(host, flat, signed, r, order, rest);
    ParserStep(host, flat, signed, s0);
    FirstIsLegible(signed, order, body);
    ReadsDeliver(host, flat, signed, s1, r, body, State(t, order, []));
    DeliversOne(parser, s0, FirstEvent(flat, r, order), 1 + Legibles(signed, body), s1);
    DeliversAppend(parser, s0, [FirstEvent(flat, r, order)], 1 + Legibles(signed, body), s1, ExpectedAll(flat, r, body),
                   State(t, order, []));
  }

  lemma FirstIsLegible(signed: bool, order: Endianness, body: seq<Item>)
    ensures Legibles(signed, [EndiannessItem(order)] + body) == 1 + Legibles(signed, body)
  {
    var all := [EndiannessItem(order)] + body;
    assert all[1..] == body;
    assert PlainEvent(all[0].ev);
  }

  /** The events of a stream, item by item. */
  lemma StreamEventsParts(flat: bool, r: seq<Klass>, order: Endianness, meta: seq<Item>, version: Item,
                          items: seq<Item>)
    requires Usable(r) && Coherent(r) && Reserved(r) && |r| < Capacity(4)
    requires ValidItems(r, meta) && ValidItems(r, [version] + items)
    ensures ValidItem(r, version) && ValidItems(r, items) && ValidItems(r, meta + ([version] + items))
    ensures StreamEvents(flat, r, order, meta, version, items)
         == [FirstEvent(flat, r, order)] + ExpectedAll(flat, r, meta + ([version] + items))
    ensures |StreamEvents(flat, r, order, meta, version, items)| == |Stream(order, meta, version, items)|
  {
    var tail := [version] + items;
    assert tail[0] == version && tail[1..] == items;
    hide Expected;
    hide ValidItem;
    hide FirstEvent;
    ExpectedCons(flat, r, tail);
    ExpectedAppend(flat, r, meta, tail);
  }

  /**
   The full round trip.  A stream written on a machine of any byte order is read on a host of any
   byte order, in either mode, from a file or from the network.  The parser stops without an error and delivers
   the metadata events followed by the events of the program, in order and with their field values, up to the
   first one that is not legible.  When all are legible, and over a file they always are, it consumes every
   byte and knows every registered class.
   */
  lemma StreamRoundTrip(host: Endianness, flat: bool, signed: bool, r: seq<Klass>, order: Endianness, meta: seq<Item>,
                        version: Item, items: seq<Item>)
    returns (t: Table)
    requires StreamReady(r, meta, version, items)
    ensures Usable(r) && ValidItems(r, meta) && ValidItem(r, version) && ValidItems(r, items)
    ensures ValidItems(r, Stream(order, meta, version, items)) && KnowsAll(t, r)
    ensures Consuming(Parser(host, flat, signed)) && KnowsHeader(INITIAL_TABLE)
    ensures var stream := Stream(order, meta, version, items);
            var es := StreamEvents(flat, r, order, meta, version, items);
            var o := Run(Parser(host, flat, signed), State(INITIAL_TABLE, Little, StreamBytes(order, r, stream)));
            && |es| == |stream| && o.events == es[..Legibles(signed, stream)] && !o.crashed
            && (Legibles(signed, stream) == |stream| ==> o.final == State(t, order, []))
  {
    hide *;
    StreamParts(order, r, meta, version, items);
    ReadyMetadata(r, meta, version, items);
    UsableParts(r);
    InitialHolds(r);
    ParserConsumes(host, flat, signed);
    StreamEventsParts(flat, r, order, meta, version, items);
    var body := meta + ([version] + items);
    t := BodyDelivers(host, flat, signed, r, order, meta, [version] + items);
    var rest := StreamBytes(order, r, meta) + StreamBytes(order, r, [version] + items);
    StreamReads(host, flat, signed, r, order, body, rest, t);
    StreamIs(order, meta, version, items);
    var s0 := State(INITIAL_TABLE, Little, ItemBytes(order, r, EndiannessItem(order)) + rest);
    EndOfStream(host, flat, signed, State(t, order, []));
    ParserStep(host, flat, signed, State(t, order, []));
    DeliversRun(Parser(host, flat, signed), s0, [FirstEvent(flat, r, order)] + ExpectedAll(flat, r, body),
                Legibles(signed, Stream(order, meta, version, items)), State(t, order, []));
  }

  lemma ReadyMetadata(r: seq<Klass>, meta: seq<Item>, version: Item, items: seq<Item>)
    requires StreamReady(r, meta, version, items)
    ensures ValidRegistry(r) && CarryAll(meta, RegistryRecords(r, |r|))
  {
    hide ValidRegistry;
    hide CarryAll;
    hide ValidItem;
  }

  lemma StreamIs(order: Endianness, meta: seq<Item>, version: Item, items: seq<Item>)
    ensures Stream(order, meta, version, items) == [EndiannessItem(order)] + (meta + ([version] + items))
  {
  }
}
