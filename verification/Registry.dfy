/**
 The class registry of the traced program and the metadata it sends ahead of the events
 (lib/registry.c, lib/init.c, lib/system_info.c, lib/timeline_listener.c).
 */
module Registry {
  import opened Bytes
  import opened EventKlasses

  // Wire values of a field's data type.
  const TYPE_STRUCT := 1
  const TYPE_STRING := 2
  const TYPE_INTEGER := 3
  const TYPE_PTR := 6
  const TYPE_UNSIGNED_INTEGER := 99

  // Class identifiers the parser knows in advance.
  const ENDIANNESS_KLASS := 0
  const EVENT_KLASS := 1
  const KLASS_INFO_KLASS := 2
  const FIELD_INFO_KLASS := 3
  const SYSTEM_INFO_KLASS := 8

  const BASE: cstring := Ascii("base")
  const HT_EVENT: cstring := Ascii("HT_Event")
  const ENDIANNESS_INFO: cstring := Ascii("HT_EndiannessInfoEvent")
  const KLASS_INFO: cstring := Ascii("HT_EventKlassInfoEvent")
  const FIELD_INFO: cstring := Ascii("HT_EventKlassFieldInfoEvent")

  // Names of the fields of the classes the parser knows in advance.
  const INFO_KLASS_ID: cstring := Ascii("info_klass_id")
  const EVENT_KLASS_NAME: cstring := Ascii("event_klass_name")
  const FIELD_COUNT: cstring := Ascii("field_count")
  const FIELD_TYPE: cstring := Ascii("field_type")
  const FIELD_NAME: cstring := Ascii("field_name")
  const SIZE: cstring := Ascii("size")
  const DATA_TYPE: cstring := Ascii("data_type")
  const ENDIANNESS: cstring := Ascii("endianness")
  const KLASS_ID: cstring := Ascii("klass_id")
  const TIMESTAMP: cstring := Ascii("timestamp")
  const ID: cstring := Ascii("id")

  function U8(name: cstring): FieldDecl { IntField(name, Ascii("uint8_t"), 1, false) }
  function U32(name: cstring, ctype: cstring): FieldDecl { IntField(name, ctype, 4, false) }
  function U64(name: cstring, ctype: cstring): FieldDecl { IntField(name, ctype, 8, false) }
  function Text(name: cstring): FieldDecl { StringField(name, Ascii("const char*")) }

  const ENDIANNESS_INFO_EVENT: Klass :=
    Derived(ENDIANNESS_INFO, HTEvent, [U8(ENDIANNESS)], 32)
  const KLASS_INFO_EVENT: Klass :=
    Derived(KLASS_INFO, HTEvent,
            [U32(INFO_KLASS_ID, Ascii("HT_EventKlassId")), Text(EVENT_KLASS_NAME),
             U8(FIELD_COUNT)], 48)
  const FIELD_INFO_EVENT: Klass :=
    Derived(FIELD_INFO, HTEvent,
            [U32(INFO_KLASS_ID, Ascii("HT_EventKlassId")), Text(FIELD_TYPE),
             Text(FIELD_NAME), U64(SIZE, Ascii("uint64_t")), U8(DATA_TYPE)], 64)
  const CALLSTACK_BASE_EVENT: Klass :=
    Derived(Ascii("HT_CallstackBaseEvent"), HTEvent,
            [U64(Ascii("duration"), Ascii("HT_DurationNs")), U32(Ascii("thread_id"), Ascii("HT_ThreadId"))], 40)
  const CALLSTACK_INT_EVENT: Klass :=
    Derived(Ascii("HT_CallstackIntEvent"), CALLSTACK_BASE_EVENT,
            [U64(Ascii("label"), Ascii("HT_CallstackEventLabel"))], 48)
  const CALLSTACK_STRING_EVENT: Klass :=
    Derived(Ascii("HT_CallstackStringEvent"), CALLSTACK_BASE_EVENT, [Text(Ascii("label"))], 48)
  const STRING_MAPPING_EVENT: Klass :=
    Derived(Ascii("HT_StringMappingEvent"), HTEvent,
            [U64(Ascii("identifier"), Ascii("uint64_t")), Text(Ascii("label"))], 40)
  const SYSTEM_INFO_EVENT: Klass :=
    Derived(Ascii("HT_SystemInfoEvent"), HTEvent,
            [U8(Ascii("version_major")), U8(Ascii("version_minor")), U8(Ascii("version_patch"))], 32)

  /** The classes every program registers, in the order ht_init registers them. */
  const CORE_KLASSES: seq<Klass> :=
    [ENDIANNESS_INFO_EVENT, HTEvent, KLASS_INFO_EVENT, FIELD_INFO_EVENT, CALLSTACK_BASE_EVENT, CALLSTACK_INT_EVENT,
     CALLSTACK_STRING_EVENT, STRING_MAPPING_EVENT, SYSTEM_INFO_EVENT]

  function Name(k: Klass): cstring {
    if k.HTEvent? then HT_EVENT else k.derivedName
  }

  function SizeOf(k: Klass): nat {
    if k.HTEvent? then 24 else k.structSize
  }

  /** One row of a structure's reflection table, as transmitted. */
  datatype TypeField = TypeField(name: cstring, ctype: cstring, size: nat, dataType: nat)

  function ToTypeField(f: FieldDecl): TypeField {
    match f
    case IntField(name, ctype, w, signed) =>
      TypeField(name, ctype, w, if signed then TYPE_INTEGER else TYPE_UNSIGNED_INTEGER)
    case StringField(name, ctype) => TypeField(name, ctype, 8, TYPE_STRING)
  }

  function ToTypeFields(fields: seq<FieldDecl>): (r: seq<TypeField>)
    ensures |r| == |fields|
    ensures forall i :: 0 <= i < |fields| ==> r[i] == ToTypeField(fields[i])
  {
    seq(|fields|, i requires 0 <= i < |fields| => ToTypeField(fields[i]))
  }

  function TypeFields(k: Klass): seq<TypeField> {
    match k
    case HTEvent =>
      [TypeField(Ascii("klass"), Ascii("HT_EventKlass*"), 8, TYPE_PTR),
       TypeField(TIMESTAMP, Ascii("HT_TimestampNs"), 8, TYPE_UNSIGNED_INTEGER),
       TypeField(ID, Ascii("HT_EventId"), 8, TYPE_UNSIGNED_INTEGER)]
    case Derived(_, base, fields, _) =>
      [TypeField(BASE, Name(base), SizeOf(base), TYPE_STRUCT)] + ToTypeFields(fields)
  }

  /** Members of one C structure have distinct names, and `base` is one of them. */
  predicate DistinctNames(fields: seq<FieldDecl>) {
    && (forall i :: 0 <= i < |fields| ==> fields[i].name != BASE)
    && (forall i, j :: 0 <= i < j < |fields| ==> fields[i].name != fields[j].name)
  }

  predicate WellFormed(k: Klass) {
    match k
    case HTEvent => true
    case Derived(_, base, fields, size) =>
      && WellFormed(base)
      && DistinctNames(fields)
      && size < Capacity(8)
      && forall i :: 0 <= i < |fields| ==> fields[i].IntField? ==> IsWidth(fields[i].width)
  }

  lemma TypeFieldFits(k: Klass, j: nat)
    requires WellFormed(k) && j < |TypeFields(k)|
    ensures TypeFields(k)[j].size < Capacity(8) && TypeFields(k)[j].dataType < 256
  {
    if k.Derived? && j == 0 {
      assert SizeOf(k.base) < Capacity(8);
    }
  }

  predicate BaseRegistered(r: seq<Klass>, i: nat)
    requires i < |r|
  {
    r[i].Derived? ==> r[i].base in r
  }

  predicate DistinctKlassNames(r: seq<Klass>) {
    forall i, j :: 0 <= i < j < |r| ==> Name(r[i]) != Name(r[j])
  }

  /** Registered classes are well formed, have distinct names and a registered base. */
  predicate Coherent(r: seq<Klass>) {
    && (forall i :: 0 <= i < |r| ==> WellFormed(r[i]))
    && DistinctKlassNames(r)
    && (forall i :: 0 <= i < |r| ==> BaseRegistered(r, i))
  }

  /** The classes the parser knows in advance are where it expects them. */
  predicate Reserved(r: seq<Klass>) {
    && |r| > SYSTEM_INFO_KLASS
    && r[ENDIANNESS_KLASS] == ENDIANNESS_INFO_EVENT && r[EVENT_KLASS] == HTEvent
    && r[KLASS_INFO_KLASS] == KLASS_INFO_EVENT && r[FIELD_INFO_KLASS] == FIELD_INFO_EVENT
    && r[SYSTEM_INFO_KLASS] == SYSTEM_INFO_EVENT
  }

  /** Every class a program has registered, indexed by class identifier. */
  predicate ValidRegistry(r: seq<Klass>) {
    CORE_KLASSES <= r && |r| < Capacity(4) && Coherent(r)
  }

  lemma CoreIsReserved(r: seq<Klass>)
    requires ValidRegistry(r)
    ensures Reserved(r)
  {
    assert r[..|CORE_KLASSES|] == CORE_KLASSES;
  }

  /** An event on its way to a listener: an instance of the class registered under klassId. */
  datatype Item = Item(klassId: nat, ev: EventData)

  predicate ValidItem(r: seq<Klass>, it: Item) {
    it.klassId < |r| && InstanceOf(it.ev, r[it.klassId])
  }

  predicate ValidItems(r: seq<Klass>, items: seq<Item>) {
    forall i :: 0 <= i < |items| ==> ValidItem(r, items[i])
  }

  function ItemBytes(order: Endianness, r: seq<Klass>, it: Item): (bs: seq<byte>)
    requires ValidItem(r, it)
    ensures |bs| >= HEADER_SIZE
  {
    Serialized(order, it.klassId, r[it.klassId], it.ev)
  }

  function ItemParts(order: Endianness, r: seq<Klass>, items: seq<Item>): (parts: seq<seq<byte>>)
    requires ValidItems(r, items)
    ensures |parts| == |items|
    ensures forall i :: 0 <= i < |items| ==> parts[i] == ItemBytes(order, r, items[i])
  {
    seq(|items|, i requires 0 <= i < |items| => ItemBytes(order, r, items[i]))
  }

  /** A run of serialised events. */
  function StreamBytes(order: Endianness, r: seq<Klass>, items: seq<Item>): seq<byte>
    requires ValidItems(r, items)
  {
    Concat(ItemParts(order, r, items))
  }

  lemma StreamAppend(order: Endianness, r: seq<Klass>, a: seq<Item>, b: seq<Item>)
    requires ValidItems(r, a) && ValidItems(r, b)
    ensures ValidItems(r, a + b)
    ensures StreamBytes(order, r, a + b) == StreamBytes(order, r, a) + StreamBytes(order, r, b)
  {
    hide ItemBytes;
    assert ItemParts(order, r, a + b) == ItemParts(order, r, a) + ItemParts(order, r, b);
    ConcatAppend(ItemParts(order, r, a), ItemParts(order, r, b));
  }

  lemma StreamCons(order: Endianness, r: seq<Klass>, items: seq<Item>)
    requires ValidItems(r, items) && items != []
    ensures ValidItems(r, items[1..])
    ensures StreamBytes(order, r, items) == ItemBytes(order, r, items[0]) + StreamBytes(order, r, items[1..])
  {
    hide ItemBytes;
    assert ItemParts(order, r, items)[1..] == ItemParts(order, r, items[1..]);
  }

  /** The values of a metadata event; its timestamp and id are whatever the clock and counter say. */
  datatype Record = Record(klassId: nat, values: seq<FieldValue>)

  function KlassRecord(i: nat, k: Klass): Record {
    Record(KLASS_INFO_KLASS, [IntValue(i), StringValue(Name(k)), IntValue(|TypeFields(k)| % 256)])
  }

  function FieldRecord(i: nat, f: TypeField): Record {
    Record(FIELD_INFO_KLASS,
           [IntValue(i), StringValue(f.ctype), StringValue(f.name), IntValue(f.size), IntValue(f.dataType)])
  }

  function FieldRecords(i: nat, fs: seq<TypeField>): (rs: seq<Record>)
    ensures |rs| == |fs|
    ensures forall j :: 0 <= j < |fs| ==> rs[j] == FieldRecord(i, fs[j])
  {
    seq(|fs|, j requires 0 <= j < |fs| => FieldRecord(i, fs[j]))
  }

  /** The records describing one class. */
  function KlassRecords(i: nat, k: Klass): seq<Record> {
    [KlassRecord(i, k)] + FieldRecords(i, TypeFields(k))
  }

  /** The records describing the first n classes. */
  function RegistryRecords(r: seq<Klass>, n: nat): seq<Record>
    requires n <= |r|
  {
    if n == 0 then [] else RegistryRecords(r, n - 1) + KlassRecords(n - 1, r[n - 1])
  }

  predicate Carries(it: Item, rec: Record) {
    && it.klassId == rec.klassId
    && it.ev.Extended?
    && InstanceOf(it.ev.base, HTEvent)
    && it.ev.values == rec.values
  }

  /** The items carry the records, in order, under any timestamps and event ids. */
  predicate CarryAll(items: seq<Item>, recs: seq<Record>) {
    |items| == |recs| && forall i :: 0 <= i < |recs| ==> Carries(items[i], recs[i])
  }

  function OrderCode(order: Endianness): nat {
    if order.Little? then 0 else 1
  }

  /** The first event of every stream: its header is all zeros. */
  function EndiannessItem(order: Endianness): Item {
    Item(ENDIANNESS_KLASS, Extended(Header(0, 0), [IntValue(OrderCode(order))]))
  }

  function SystemInfoItem(major: byte, minor: byte, patch: byte): Item {
    Item(SYSTEM_INFO_KLASS, Extended(Header(0, 0), [IntValue(major), IntValue(minor), IntValue(patch)]))
  }
}
