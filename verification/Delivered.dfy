/**
 What the delivered events hold, name by name: the byte order, the description of every class and of each of its
 fields, the version, and the fields of any other event in either mode.
 */
module DeliveredEvents {
  import opened Bytes
  import opened EventKlasses
  import opened Registry
  import opened KlassTable
  import opened Decoding
  import opened RoundTrip
  import opened Modes

  predicate Holds(e: Event, name: cstring, v: Value) {
    name in e.values && e.values[name] == v
  }

  // Fields.

  lemma CoherentAt(r: seq<Klass>, i: nat)
    requires Coherent(r) && i < |r|
    ensures WellFormed(r[i])
    ensures r[i].Derived? ==>
              forall j, k :: 0 <= j < k < |r[i].fields| ==> r[i].fields[j].name != r[i].fields[k].name
  {
    hide DistinctKlassNames;
    hide BaseRegistered;
  }

  /** Flat mode: every field of the class and of its bases; among namesakes, that of the base nearest to HT_Event. */
  lemma FlatField(r: seq<Klass>, it: Item, d: nat, j: nat)
    requires Coherent(r) && Encodable(r, it) && d < Depth(r[it.klassId]) && j < |BaseAt(r[it.klassId], d).fields|
    requires BaseAt(r[it.klassId], d).fields[j].name !in ChainNames(BaseAt(r[it.klassId], d).base)
    ensures var k := r[it.klassId];
            && InstanceOf(it.ev, k) && DataAt(k, it.ev, d).Extended?
            && AllFit(DataAt(k, it.ev, d).values, BaseAt(k, d).fields)
            && Holds(Expected(true, r, it), BaseAt(k, d).fields[j].name,
                     Decoded(BaseAt(k, d).fields[j], DataAt(k, it.ev, d).values[j]))
  {
    hide *;
    EncodableItem(r, it);
    CoherentAt(r, it.klassId);
    DerivedDepth(r[it.klassId], d);
    ExpectedUnfold(r, it);
    InstanceFits(DataAt(r[it.klassId], it.ev, d), BaseAt(r[it.klassId], d));
    FlatFieldValue(r[it.klassId], it.ev, d, j);
    HoldsIn(Expected(true, r, it), ItemHeader(r, it).values, FlatValues(r[it.klassId], it.ev),
            BaseAt(r[it.klassId], d).fields[j].name);
  }

  lemma DerivedDepth(k: Klass, d: nat)
    requires d < Depth(k)
    ensures k.Derived?
  {
  }

  lemma InstanceFits(ev: EventData, k: Klass)
    requires k.Derived? && InstanceOf(ev, k)
    ensures ev.Extended? && AllFit(ev.values, k.fields)
  {
  }

  lemma HoldsIn(e: Event, a: map<cstring, Value>, b: map<cstring, Value>, name: cstring)
    requires e.values == a + b
    ensures name in b ==> Holds(e, name, b[name])
    ensures name in a && name !in b ==> Holds(e, name, a[name])
  {
  }

  /** Flat mode: the header, under names no field has. */
  lemma FlatHeader(r: seq<Klass>, it: Item)
    requires Coherent(r) && Encodable(r, it) && r[it.klassId].Derived?
    ensures var e, names, h := Expected(true, r, it), ChainNames(r[it.klassId]), HeaderOf(it.ev);
            && e.klassId == it.klassId
            && (KLASS_ID !in names ==> Holds(e, KLASS_ID, Num(UINT32, it.klassId)))
            && (TIMESTAMP !in names ==> Holds(e, TIMESTAMP, Num(UINT64, h.timestamp)))
            && (ID !in names ==> Holds(e, ID, Num(UINT64, h.id)))
  {
    hide *;
    EncodableItem(r, it);
    ExpectedUnfold(r, it);
    ExpectedKlass(true, r, it);
    HeaderHolds(it.klassId, HeaderOf(it.ev));
    FlatKeys(r[it.klassId], it.ev);
    var e, a, b := Expected(true, r, it), ItemHeader(r, it).values, FlatValues(r[it.klassId], it.ev);
    HoldsIn(e, a, b, KLASS_ID);
    HoldsIn(e, a, b, TIMESTAMP);
    HoldsIn(e, a, b, ID);
    HoldsIs(ItemHeader(r, it), KLASS_ID);
    HoldsIs(ItemHeader(r, it), TIMESTAMP);
    HoldsIs(ItemHeader(r, it), ID);
  }

  lemma HoldsIs(e: Event, name: cstring)
    ensures forall v :: Holds(e, name, v) <==> name in e.values && e.values[name] == v
  {
  }

  lemma ExpectedKlass(flat: bool, r: seq<Klass>, it: Item)
    requires Coherent(r) && Encodable(r, it) && r[it.klassId].Derived?
    ensures Expected(flat, r, it).klassId == it.klassId
  {
    hide BodyValues;
    hide Coherent;
    hide ItemHeader;
  }

  /** The header as an event of class one. */
  lemma HeaderHolds(klassId: nat, h: EventData)
    requires HeaderFits(klassId, h)
    ensures var e := HeaderEvent(klassId, h);
            && e.klassId == 1
            && Holds(e, KLASS_ID, Num(UINT32, klassId))
            && Holds(e, TIMESTAMP, Num(UINT64, h.timestamp))
            && Holds(e, ID, Num(UINT64, h.id))
  {
    hide *;
    HeaderDeclared(klassId, h);
    HeaderNames();
    var fs, vs := HEADER_DECL, HeaderFields(klassId, h);
    FieldMapAt(fs, vs, 0);
    FieldMapAt(fs, vs, 1);
    FieldMapAt(fs, vs, 2);
    NamedInMap(fs, vs, 0);
    NamedInMap(fs, vs, 1);
    NamedInMap(fs, vs, 2);
    HoldsIs(HeaderEvent(klassId, h), KLASS_ID);
    HoldsIs(HeaderEvent(klassId, h), TIMESTAMP);
    HoldsIs(HeaderEvent(klassId, h), ID);
  }

  lemma HeaderDeclared(klassId: nat, h: EventData)
    requires HeaderFits(klassId, h)
    ensures h.Header? && AllFit(HeaderFields(klassId, h), HEADER_DECL) && |HEADER_DECL| == 3
    ensures HeaderEvent(klassId, h) == Event(1, FieldMap(HEADER_DECL, HeaderFields(klassId, h)))
    ensures var fs, vs := HEADER_DECL, HeaderFields(klassId, h);
            && fs[0].name == KLASS_ID && Decoded(fs[0], vs[0]) == Num(UINT32, klassId)
            && fs[1].name == TIMESTAMP && Decoded(fs[1], vs[1]) == Num(UINT64, h.timestamp)
            && fs[2].name == ID && Decoded(fs[2], vs[2]) == Num(UINT64, h.id)
  {
    HeaderFitsFields(klassId, h);
    hide FieldMap;
  }

  /** Nested mode: every field of the class itself. */
  lemma NestedField(r: seq<Klass>, it: Item, j: nat)
    requires Coherent(r) && Encodable(r, it) && r[it.klassId].Derived? && j < |r[it.klassId].fields|
    ensures it.ev.Extended? && AllFit(it.ev.values, r[it.klassId].fields)
    ensures Expected(false, r, it).klassId == it.klassId
    ensures var f := r[it.klassId].fields[j];
            Holds(Expected(false, r, it), f.name, Decoded(f, it.ev.values[j]))
  {
    hide *;
    EncodableItem(r, it);
    CoherentAt(r, it.klassId);
    ExpectedUnfold(r, it);
    ExpectedKlass(false, r, it);
    var k, ev, header := r[it.klassId], it.ev, ItemHeader(r, it);
    LevelUnfold(r, it.klassId, ev, header);
    FieldMapAt(k.fields, ev.values, j);
    HoldsOwn(Expected(false, r, it), FieldMap(k.fields, ev.values), k.fields[j].name);
    NamedInMap(k.fields, ev.values, j);
  }

  lemma HoldsOwn(e: Event, own: map<cstring, Value>, name: cstring)
    requires name in own && BASE !in own
    requires e.values == own || exists v :: e.values == own + map[BASE := v]
    ensures Holds(e, name, own[name])
  {
  }

  lemma NamedInMap(fields: seq<FieldDecl>, values: seq<FieldValue>, j: nat)
    requires AllFit(values, fields) && j < |fields|
    ensures fields[j].name in FieldMap(fields, values)
  {
    hide FieldMap;
  }

  /**
   Nested mode: the base is an event of its own, of the base's class and with the base's fields; at the bottom is
   the header, an event of class one.  Only the events that describe classes and fields have none.
   */
  lemma NestedBase(r: seq<Klass>, i: nat, ev: EventData, header: Event)
    requires Coherent(r) && i < |r| && r[i].Derived? && InstanceOf(ev, r[i])
    ensures var values := NestedValues(r, i, ev, header);
            if i == 2 || i == 3 then BASE !in values
            else
              && BASE in values && values[BASE].Sub?
              && var sub := values[BASE].event;
                 if r[i].base.HTEvent? then sub == header
                 else
                   && sub.klassId < |r| && r[sub.klassId] == r[i].base && InstanceOf(ev.base, r[i].base)
                   && sub.values == NestedValues(r, sub.klassId, ev.base, header)
  {
    hide NestedValues;
    hide BaseEvent;
    hide Coherent;
    hide FieldMap;
    LevelUnfold(r, i, ev, header);
    if r[i].base.Derived? {
      BaseLevel(r, i, ev, header);
    } else {
      RootBase(r, i, ev, header);
    }
  }

  lemma RootBase(r: seq<Klass>, i: nat, ev: EventData, header: Event)
    requires Coherent(r) && i < |r| && r[i].Derived? && r[i].base.HTEvent? && InstanceOf(ev, r[i])
    ensures BaseEvent(r, r[i], ev, header) == header
  {
  }

  /** A class derived from HT_Event itself: every field of the class, in both modes. */
  lemma OwnField(flat: bool, r: seq<Klass>, it: Item, j: nat)
    requires Coherent(r) && Encodable(r, it) && r[it.klassId].Derived? && r[it.klassId].base.HTEvent?
    requires j < |r[it.klassId].fields|
    ensures it.ev.Extended? && AllFit(it.ev.values, r[it.klassId].fields)
    ensures Expected(flat, r, it).klassId == it.klassId
    ensures var f := r[it.klassId].fields[j];
            Holds(Expected(flat, r, it), f.name, Decoded(f, it.ev.values[j]))
  {
    var k := r[it.klassId];
    assert Depth(k) == 1 && BaseAt(k, 0) == k && ChainNames(k.base) == {};
    EncodableItem(r, it);
    assert DataAt(k, it.ev, 0) == it.ev;
    hide *;
    NestedField(r, it, j);
    if flat {
      FlatField(r, it, 0, j);
      ExpectedKlass(true, r, it);
    }
  }

  /** The first event: the code of the byte order. */
  predicate IsOrder(e: Event, order: Endianness) {
    e.klassId == 0 && Holds(e, ENDIANNESS, Num(UINT8, if order == Little then 0 else 1))
  }

  /** The description of class i. */
  predicate IsKlassInfo(e: Event, i: nat, k: Klass) {
    && e.klassId == 2
    && Holds(e, INFO_KLASS_ID, Num(UINT32, i))
    && Holds(e, EVENT_KLASS_NAME, Str(Name(k)))
    && Holds(e, FIELD_COUNT, Num(UINT8, |TypeFields(k)| % 256))
  }

  /** The description of a field of class i. */
  predicate IsFieldInfo(e: Event, i: nat, f: TypeField) {
    && e.klassId == 3
    && Holds(e, INFO_KLASS_ID, Num(UINT32, i))
    && Holds(e, FIELD_TYPE, Str(f.ctype))
    && Holds(e, FIELD_NAME, Str(f.name))
    && Holds(e, SIZE, Num(UINT64, f.size))
    && Holds(e, DATA_TYPE, Num(UINT8, f.dataType))
  }

  /** The version of the library. */
  predicate IsVersion(e: Event, major: byte, minor: byte, patch: byte) {
    && e.klassId == 8
    && Holds(e, Ascii("version_major"), Num(UINT8, major))
    && Holds(e, Ascii("version_minor"), Num(UINT8, minor))
    && Holds(e, Ascii("version_patch"), Num(UINT8, patch))
  }

  lemma OrderEvent(flat: bool, r: seq<Klass>, order: Endianness)
    requires Usable(r)
    ensures IsOrder(FirstEvent(flat, r, order), order)
  {
    EndiannessItemValid(r, order);
    var fs, vs := ENDIANNESS_INFO_EVENT.fields, EndiannessItem(order).ev.values;
    FieldMapAt(fs, vs, 0);
    hide FieldMap;
    hide ItemHeader;
  }

  lemma KlassInfoFields(r: seq<Klass>, vs: seq<FieldValue>)
    requires Reserved(r) && AllFit(vs, KLASS_INFO_EVENT.fields)
    ensures r[2].Derived? && r[2].base.HTEvent? && |r[2].fields| == 3 && r[2].fields == KLASS_INFO_EVENT.fields
    ensures var fs := r[2].fields;
            && fs[0].name == INFO_KLASS_ID && vs[0].IntValue? && Decoded(fs[0], vs[0]) == Num(UINT32, vs[0].n)
            && fs[1].name == EVENT_KLASS_NAME && vs[1].StringValue? && Decoded(fs[1], vs[1]) == Str(vs[1].s)
            && fs[2].name == FIELD_COUNT && vs[2].IntValue? && Decoded(fs[2], vs[2]) == Num(UINT8, vs[2].n)
  {
  }

  lemma FieldInfoFields(r: seq<Klass>, vs: seq<FieldValue>)
    requires Reserved(r) && AllFit(vs, FIELD_INFO_EVENT.fields)
    ensures r[3].Derived? && r[3].base.HTEvent? && |r[3].fields| == 5 && r[3].fields == FIELD_INFO_EVENT.fields
    ensures var fs := r[3].fields;
            && fs[0].name == INFO_KLASS_ID && vs[0].IntValue? && Decoded(fs[0], vs[0]) == Num(UINT32, vs[0].n)
            && fs[1].name == FIELD_TYPE && vs[1].StringValue? && Decoded(fs[1], vs[1]) == Str(vs[1].s)
            && fs[2].name == FIELD_NAME && vs[2].StringValue? && Decoded(fs[2], vs[2]) == Str(vs[2].s)
            && fs[3].name == SIZE && vs[3].IntValue? && Decoded(fs[3], vs[3]) == Num(UINT64, vs[3].n)
            && fs[4].name == DATA_TYPE && vs[4].IntValue? && Decoded(fs[4], vs[4]) == Num(UINT8, vs[4].n)
  {
  }

  lemma KlassInfoFits(r: seq<Klass>, it: Item, i: nat, k: Klass)
    requires Usable(r) && ValidItem(r, it) && Carries(it, KlassRecord(i, k))
    ensures Encodable(r, it) && it.klassId == 2 < |r| && it.ev.Extended?
    ensures it.ev.values == [IntValue(i), StringValue(Name(k)), IntValue(|TypeFields(k)| % 256)]
    ensures AllFit(it.ev.values, KLASS_INFO_EVENT.fields)
  {
    hide Coherent;
    hide Name;
    hide TypeFields;
  }

  lemma FieldInfoFits(r: seq<Klass>, it: Item, i: nat, f: TypeField)
    requires Usable(r) && ValidItem(r, it) && Carries(it, FieldRecord(i, f))
    ensures Encodable(r, it) && it.klassId == 3 < |r| && it.ev.Extended?
    ensures it.ev.values
         == [IntValue(i), StringValue(f.ctype), StringValue(f.name), IntValue(f.size), IntValue(f.dataType)]
    ensures AllFit(it.ev.values, FIELD_INFO_EVENT.fields)
  {
    hide Coherent;
  }

  lemma KlassInfoEvent(flat: bool, r: seq<Klass>, it: Item, i: nat, k: Klass)
    requires Usable(r) && ValidItem(r, it) && Carries(it, KlassRecord(i, k))
    ensures IsKlassInfo(Expected(flat, r, it), i, k)
  {
    hide *;
    UsableParts(r);
    KlassInfoFits(r, it, i, k);
    KlassInfoFields(r, it.ev.values);
    OwnField(flat, r, it, 0);
    OwnField(flat, r, it, 1);
    OwnField(flat, r, it, 2);
    KlassInfoHolds(Expected(flat, r, it), i, k);
  }

  lemma KlassInfoHolds(e: Event, i: nat, k: Klass)
    requires e.klassId == 2 && Holds(e, INFO_KLASS_ID, Num(UINT32, i)) && Holds(e, EVENT_KLASS_NAME, Str(Name(k)))
    requires Holds(e, FIELD_COUNT, Num(UINT8, |TypeFields(k)| % 256))
    ensures IsKlassInfo(e, i, k)
  {
  }

  lemma FieldInfoEvent(flat: bool, r: seq<Klass>, it: Item, i: nat, f: TypeField)
    requires Usable(r) && ValidItem(r, it) && Carries(it, FieldRecord(i, f))
    ensures IsFieldInfo(Expected(flat, r, it), i, f)
  {
    hide *;
    UsableParts(r);
    FieldInfoFits(r, it, i, f);
    FieldInfoFields(r, it.ev.values);
    OwnField(flat, r, it, 0);
    OwnField(flat, r, it, 1);
    OwnField(flat, r, it, 2);
    OwnField(flat, r, it, 3);
    OwnField(flat, r, it, 4);
    FieldInfoHolds(Expected(flat, r, it), i, f);
  }

  lemma FieldInfoHolds(e: Event, i: nat, f: TypeField)
    requires e.klassId == 3 && Holds(e, INFO_KLASS_ID, Num(UINT32, i)) && Holds(e, FIELD_TYPE, Str(f.ctype))
    requires Holds(e, FIELD_NAME, Str(f.name)) && Holds(e, SIZE, Num(UINT64, f.size))
    requires Holds(e, DATA_TYPE, Num(UINT8, f.dataType))
    ensures IsFieldInfo(e, i, f)
  {
  }

  lemma VersionEvent(flat: bool, r: seq<Klass>, major: byte, minor: byte, patch: byte)
    requires Usable(r) && ValidItem(r, SystemInfoItem(major, minor, patch))
    ensures IsVersion(Expected(flat, r, SystemInfoItem(major, minor, patch)), major, minor, patch)
  {
    var it := SystemInfoItem(major, minor, patch);
    OwnField(flat, r, it, 0);
    OwnField(flat, r, it, 1);
    OwnField(flat, r, it, 2);
    hide Expected;
  }

  // The head of a stream.

  /** How many events describe the first n classes: one for each class and one for each of its fields. */
  function Start(r: seq<Klass>, n: nat): nat
    requires n <= |r|
  {
    if n == 0 then 0 else Start(r, n - 1) + 1 + |TypeFields(r[n - 1])|
  }

  /** The records of class i, when the first n are described. */
  lemma {:induction false} RecordsAt(r: seq<Klass>, n: nat, i: nat)
    requires i < n <= |r|
    ensures var recs, fs := RegistryRecords(r, n), TypeFields(r[i]);
            && |recs| == Start(r, n) && Start(r, i) + |fs| < |recs| && recs[Start(r, i)] == KlassRecord(i, r[i])
            && forall q :: Start(r, i) < q <= Start(r, i) + |fs| ==> recs[q] == FieldRecord(i, fs[q - Start(r, i) - 1])
  {
    hide KlassRecord;
    hide FieldRecord;
    hide TypeFields;
    if n > 1 {
      RecordsAt(r, n - 1, if i < n - 1 then i else n - 2);
    }
  }

  /** The head of a delivered stream: the byte order, every class with its fields in turn, the version. */
  ghost predicate HeadIs(es: seq<Event>, r: seq<Klass>, order: Endianness, major: byte, minor: byte, patch: byte) {
    && |es| > Start(r, |r|) + 1
    && IsOrder(es[0], order)
    && (forall i :: 0 <= i < |r| ==> KlassAt(es, r, i))
    && IsVersion(es[Start(r, |r|) + 1], major, minor, patch)
  }

  /** The events behind the first that describe class i. */
  ghost predicate KlassAt(es: seq<Event>, r: seq<Klass>, i: nat)
    requires i < |r|
  {
    var at, fs := Start(r, i) + 1, TypeFields(r[i]);
    && at + |fs| < |es|
    && IsKlassInfo(es[at], i, r[i])
    && forall q :: at < q <= at + |fs| ==> IsFieldInfo(es[q], i, fs[q - at - 1])
  }

  lemma StreamAt(order: Endianness, meta: seq<Item>, version: Item, items: seq<Item>, q: nat)
    ensures var stream := Stream(order, meta, version, items);
            && |stream| == |meta| + 2 + |items| && stream[|meta| + 1] == version
            && (0 < q <= |meta| ==> stream[q] == meta[q - 1])
  {
  }

  /** The event that carries record q of the metadata. */
  lemma MetaEvent(flat: bool, r: seq<Klass>, order: Endianness, meta: seq<Item>, version: Item, items: seq<Item>,
                  q: nat)
    requires StreamReady(r, meta, version, items) && q < |meta|
    ensures Usable(r) && ValidItems(r, meta) && ValidItem(r, version) && ValidItems(r, items)
    ensures var es, recs := StreamEvents(flat, r, order, meta, version, items), RegistryRecords(r, |r|);
            && |es| == |meta| + 2 + |items| && |recs| == |meta|
            && Carries(meta[q], recs[q]) && ValidItem(r, meta[q]) && Coherent(r) && Encodable(r, meta[q])
            && es[q + 1] == Expected(flat, r, meta[q])
  {
    hide *;
    StreamAt(order, meta, version, items, q + 1);
    StreamEventAt(flat, r, order, meta, version, items, q + 1);
    ReadyMetadata(r, meta, version, items);
    CarriesAt(meta, RegistryRecords(r, |r|), q);
    ValidAt(r, meta, q);
  }

  lemma CarriesAt(items: seq<Item>, recs: seq<Record>, q: nat)
    requires CarryAll(items, recs) && q < |items|
    ensures |items| == |recs| && Carries(items[q], recs[q])
  {
  }

  lemma SameSize(r: seq<Klass>, meta: seq<Item>, version: Item, items: seq<Item>)
    requires StreamReady(r, meta, version, items)
    ensures |meta| == |RegistryRecords(r, |r|)|
  {
    hide RegistryRecords;
    hide ValidRegistry;
  }

  lemma KlassDelivered(flat: bool, r: seq<Klass>, order: Endianness, meta: seq<Item>, version: Item, items: seq<Item>,
                       i: nat)
    requires StreamReady(r, meta, version, items) && i < |r|
    ensures Usable(r) && ValidItems(r, meta) && ValidItem(r, version) && ValidItems(r, items)
    ensures |meta| == Start(r, |r|)
    ensures KlassAt(StreamEvents(flat, r, order, meta, version, items), r, i)
  {
    hide *;
    SameSize(r, meta, version, items);
    RecordsAt(r, |r|, i);
    var at, fs := Start(r, i), TypeFields(r[i]);
    MetaEvent(flat, r, order, meta, version, items, at);
    var es := StreamEvents(flat, r, order, meta, version, items);
    KlassInfoEvent(flat, r, meta[at], i, r[i]);
    forall q | at + 1 < q <= at + 1 + |fs|
      ensures q < |es| && IsFieldInfo(es[q], i, fs[q - (at + 1) - 1])
    {
      MetaEvent(flat, r, order, meta, version, items, q - 1);
      FieldInfoEvent(flat, r, meta[q - 1], i, fs[q - 1 - at - 1]);
    }
    KlassAtFrom(es, r, i, at + 1);
  }

  lemma KlassAtFrom(es: seq<Event>, r: seq<Klass>, i: nat, at: nat)
    requires i < |r| && at == Start(r, i) + 1 && at + |TypeFields(r[i])| < |es|
    requires IsKlassInfo(es[at], i, r[i])
    requires forall q :: at < q <= at + |TypeFields(r[i])| ==> IsFieldInfo(es[q], i, TypeFields(r[i])[q - at - 1])
    ensures KlassAt(es, r, i)
  {
    hide Start;
    hide TypeFields;
    hide IsFieldInfo;
    hide IsKlassInfo;
  }

  /** What a stream delivers first, in either mode and for any registry: by name, down to the version. */
  lemma HeadDelivered(flat: bool, r: seq<Klass>, order: Endianness, meta: seq<Item>, major: byte, minor: byte,
                      patch: byte, items: seq<Item>)
    requires StreamReady(r, meta, SystemInfoItem(major, minor, patch), items)
    ensures var version := SystemInfoItem(major, minor, patch);
            && Usable(r) && ValidItems(r, meta) && ValidItem(r, version) && ValidItems(r, items)
            && HeadIs(StreamEvents(flat, r, order, meta, version, items), r, order, major, minor, patch)
  {
    hide *;
    var version := SystemInfoItem(major, minor, patch);
    StreamAt(order, meta, version, items, 0);
    StreamEventAt(flat, r, order, meta, version, items, 0);
    StreamEventAt(flat, r, order, meta, version, items, |meta| + 1);
    OrderEvent(flat, r, order);
    VersionEvent(flat, r, major, minor, patch);
    var es := StreamEvents(flat, r, order, meta, version, items);
    ReservedSize(r);
    forall i | 0 <= i < |r| ensures KlassAt(es, r, i) && |meta| == Start(r, |r|) {
      KlassDelivered(flat, r, order, meta, version, items, i);
    }
    KlassDelivered(flat, r, order, meta, version, items, 0);
    HeadIsFrom(es, r, order, major, minor, patch);
  }

  lemma ReservedSize(r: seq<Klass>)
    requires Usable(r)
    ensures |r| > 0
  {
  }

  lemma HeadIsFrom(es: seq<Event>, r: seq<Klass>, order: Endianness, major: byte, minor: byte, patch: byte)
    requires |es| > Start(r, |r|) + 1 && IsOrder(es[0], order)
    requires forall i :: 0 <= i < |r| ==> KlassAt(es, r, i)
    requires IsVersion(es[Start(r, |r|) + 1], major, minor, patch)
    ensures HeadIs(es, r, order, major, minor, patch)
  {
    hide KlassAt;
    hide Start;
    hide IsVersion;
    hide IsOrder;
  }
}
