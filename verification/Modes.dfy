/**
 Consequences of the round trip: byte orders are unobservable, every field of a class and of its
 bases is reported, and flat and nested decoding agree.
 */
module Modes {
  import opened Bytes
  import opened EventKlasses
  import opened Registry
  import opened KlassTable
  import opened ProtocolReader
  import opened Decoding
  import opened RoundTrip

  /**
   The same program run on machines of different byte orders and read on hosts of different byte
   orders, from files or over the network: after the event that names the byte order, the same events are
   delivered.
   */
  lemma ByteOrderIsUnobservable(hostA: Endianness, orderA: Endianness, hostB: Endianness, orderB: Endianness,
                                flat: bool, signed: bool, r: seq<Klass>, meta: seq<Item>, version: Item,
                                items: seq<Item>)
    requires StreamReady(r, meta, version, items)
    ensures ValidItems(r, Stream(orderA, meta, version, items)) && ValidItems(r, Stream(orderB, meta, version, items))
    ensures Consuming(Parser(hostA, flat, signed)) && Consuming(Parser(hostB, flat, signed))
            && KnowsHeader(INITIAL_TABLE)
    ensures var a := Run(Parser(hostA, flat, signed),
                         State(INITIAL_TABLE, Little, StreamBytes(orderA, r, Stream(orderA, meta, version, items))));
            var b := Run(Parser(hostB, flat, signed),
                         State(INITIAL_TABLE, Little, StreamBytes(orderB, r, Stream(orderB, meta, version, items))));
            |a.events| == |b.events| > 0 && a.events[1..] == b.events[1..] && !a.crashed && !b.crashed
  {
    hide *;
    var ta := StreamRoundTrip(hostA, flat, signed, r, orderA, meta, version, items);
    var tb := StreamRoundTrip(hostB, flat, signed, r, orderB, meta, version, items);
    EventsBehindFirst(flat, r, orderA, orderB, meta, version, items);
    StreamIs(orderA, meta, version, items);
    StreamIs(orderB, meta, version, items);
    FirstIsLegible(signed, orderA, meta + ([version] + items));
    FirstIsLegible(signed, orderB, meta + ([version] + items));
    var n := 1 + Legibles(signed, meta + ([version] + items));
    var a, b := StreamEvents(flat, r, orderA, meta, version, items),
                StreamEvents(flat, r, orderB, meta, version, items);
    assert a[..n][1..] == a[1..][..n - 1] && b[..n][1..] == b[1..][..n - 1];
  }

  /** Only the first event tells the byte order. */
  lemma EventsBehindFirst(flat: bool, r: seq<Klass>, orderA: Endianness, orderB: Endianness, meta: seq<Item>,
                          version: Item, items: seq<Item>)
    requires Usable(r) && ValidItems(r, meta) && ValidItem(r, version) && ValidItems(r, items)
    ensures var a := StreamEvents(flat, r, orderA, meta, version, items);
            var b := StreamEvents(flat, r, orderB, meta, version, items);
            |a| == |b| > 0 && a[1..] == b[1..]
  {
    hide Usable;
    hide ValidItem;
    hide ExpectedAll;
    hide Expected;
    hide FirstEvent;
  }

  // Base classes, counted from the class itself.

  function BaseAt(k: Klass, d: nat): (b: Klass)
    requires d < Depth(k)
    ensures b.Derived?
  {
    if d == 0 then k else BaseAt(k.base, d - 1)
  }

  function DataAt(k: Klass, ev: EventData, d: nat): EventData
    requires InstanceOf(ev, k) && d < Depth(k)
    ensures BaseAt(k, d).Derived? && InstanceOf(DataAt(k, ev, d), BaseAt(k, d))
  {
    if d == 0 then ev else DataAt(k.base, ev.base, d - 1)
  }

  /** The names of all fields of a class and of its bases. */
  function ChainNames(k: Klass): set<cstring> {
    if k.HTEvent? then {}
    else (set i | 0 <= i < |k.fields| :: k.fields[i].name) + ChainNames(k.base)
  }

  lemma {:induction false} FlatKeys(k: Klass, ev: EventData)
    requires InstanceOf(ev, k)
    ensures FlatValues(k, ev).Keys == ChainNames(k)
  {
    if k.Derived? {
      FlatKeys(k.base, ev.base);
      var own := FieldMap(k.fields, ev.values);
      assert own.Keys == set i | 0 <= i < |k.fields| :: k.fields[i].name;
    }
  }

  /**
   Flat mode reports every field of the class and of every base under its own name; of several fields with one
   name, that of the base nearest to HT_Event.
   */
  lemma {:induction false} FlatFieldValue(k: Klass, ev: EventData, d: nat, i: nat)
    requires InstanceOf(ev, k) && WellFormed(k) && d < Depth(k) && i < |BaseAt(k, d).fields|
    requires BaseAt(k, d).fields[i].name !in ChainNames(BaseAt(k, d).base)
    ensures DataAt(k, ev, d).Extended?
    ensures var f := BaseAt(k, d).fields[i];
            f.name in FlatValues(k, ev) && FlatValues(k, ev)[f.name] == Decoded(f, DataAt(k, ev, d).values[i])
  {
    FlatKeys(k.base, ev.base);
    if d == 0 {
      FieldMapAt(k.fields, ev.values, i);
    } else {
      FlatFieldValue(k.base, ev.base, d - 1, i);
    }
  }

  // Flat against nested.

  /** The values of a nested event and of the events inside it, in one map. */
  function Flatten(values: map<cstring, Value>, depth: nat): map<cstring, Value>
    decreases depth
  {
    if depth == 0 || BASE !in values || !values[BASE].Sub? then values
    else (values - {BASE}) + Flatten(values[BASE].event.values, depth - 1)
  }

  /** The class is one of the two metadata classes or derived from one. */
  predicate FromMetadata(k: Klass) {
    k.Derived? && (k == KLASS_INFO_EVENT || k == FIELD_INFO_EVENT || FromMetadata(k.base))
  }

  lemma MetadataShape(r: seq<Klass>, i: nat)
    requires Coherent(r) && Reserved(r) && i < |r| && r[i].Derived?
    ensures ShapeOf(i).NoBase? <==> r[i] == KLASS_INFO_EVENT || r[i] == FIELD_INFO_EVENT
    ensures KLASS_INFO_EVENT.Derived? && KLASS_INFO_EVENT.base.HTEvent? && FIELD_INFO_EVENT.Derived?
            && FIELD_INFO_EVENT.base.HTEvent?
  {
    forall j | 0 <= j < |r| && r[j] == r[i]
      ensures i == j
    {
      assert Name(r[j]) == Name(r[i]);
    }
  }

  /** One level of flattening. */
  lemma FlattenLevel(own: map<cstring, Value>, base: Event, depth: nat)
    requires BASE !in own && depth > 0
    ensures Flatten(own, depth) == own
    ensures Flatten(own + map[BASE := Sub(base)], depth) == own + Flatten(base.values, depth - 1)
  {
    assert (own + map[BASE := Sub(base)]) - {BASE} == own;
  }

  /** A nested event, flattened: the fields along the chain, and the header unless a metadata class loses it. */
  function Flattened(k: Klass, ev: EventData, header: Event): map<cstring, Value>
    requires InstanceOf(ev, k)
  {
    if FromMetadata(k) then FlatValues(k, ev) else FlatValues(k, ev) + header.values
  }

  lemma {:induction false} FlattenNested(r: seq<Klass>, i: nat, ev: EventData, header: Event)
    requires Coherent(r) && Reserved(r) && i < |r| && r[i].Derived? && InstanceOf(ev, r[i]) && BASE !in header.values
    ensures Flatten(NestedValues(r, i, ev, header), Depth(r[i])) == Flattened(r[i], ev, header)
    decreases r[i]
  {
    hide *;
    MetadataShape(r, i);
    LevelUnfold(r, i, ev, header);
    var k := r[i];
    var own := FieldMap(k.fields, ev.values);
    FlattenLevel(own, BaseEvent(r, k, ev, header), Depth(k));
    FlattenedLevel(k, ev, header);
    if k.base.HTEvent? {
      RootLevel(r, k, ev, header);
    } else {
      BaseLevel(r, i, ev, header);
      FlattenNested(r, IndexOf(r, k.base), ev.base, header);
    }
  }

  lemma LevelUnfold(r: seq<Klass>, i: nat, ev: EventData, header: Event)
    requires Coherent(r) && i < |r| && r[i].Derived? && InstanceOf(ev, r[i])
    ensures ev.Extended? && AllFit(ev.values, r[i].fields) && InstanceOf(ev.base, r[i].base)
    ensures var own := FieldMap(r[i].fields, ev.values);
            && BASE !in own
            && NestedValues(r, i, ev, header)
               == if ShapeOf(i).NoBase? then own else own + map[BASE := Sub(BaseEvent(r, r[i], ev, header))]
    ensures Depth(r[i]) == Depth(r[i].base) + 1
  {
    assert WellFormed(r[i]);
    hide BaseEvent;
  }

  lemma BaseLevel(r: seq<Klass>, i: nat, ev: EventData, header: Event)
    requires Coherent(r) && i < |r| && r[i].Derived? && r[i].base.Derived? && InstanceOf(ev, r[i])
    ensures r[i].base in r && InstanceOf(ev.base, r[i].base)
    ensures var b := IndexOf(r, r[i].base);
            BaseEvent(r, r[i], ev, header) == Event(b, NestedValues(r, b, ev.base, header))
  {
    assert BaseRegistered(r, i);
    hide NestedValues;
  }

  lemma RootLevel(r: seq<Klass>, k: Klass, ev: EventData, header: Event)
    requires Coherent(r) && k in r && k.Derived? && k.base.HTEvent? && InstanceOf(ev, k) && BASE !in header.values
    ensures BaseEvent(r, k, ev, header) == header && Depth(k.base) == 0 && Flatten(header.values, 0) == header.values
  {
  }

  lemma Unions(own: map<cstring, Value>, base: map<cstring, Value>, header: map<cstring, Value>)
    ensures (own + base) + header == own + (base + header) && own + map[] == own
  {
  }

  lemma FlatUnfold(k: Klass, ev: EventData)
    requires k.Derived? && InstanceOf(ev, k) && AllFit(ev.values, k.fields) && InstanceOf(ev.base, k.base)
    ensures FlatValues(k, ev) == FieldMap(k.fields, ev.values) + FlatValues(k.base, ev.base)
    ensures k.base.HTEvent? ==> FlatValues(k.base, ev.base) == map[]
  {
    hide FieldMap;
  }

  lemma MetadataUnfold(k: Klass)
    requires k.Derived?
    ensures FromMetadata(k) <==> k == KLASS_INFO_EVENT || k == FIELD_INFO_EVENT || FromMetadata(k.base)
    ensures k.base.HTEvent? ==> !FromMetadata(k.base)
  {
    hide KLASS_INFO_EVENT;
    hide FIELD_INFO_EVENT;
  }

  lemma FlattenedIs(k: Klass, ev: EventData, header: Event)
    requires InstanceOf(ev, k)
    ensures Flattened(k, ev, header) == if FromMetadata(k) then FlatValues(k, ev) else FlatValues(k, ev) + header.values
  {
  }

  /** One level of what flattening should give. */
  lemma FlattenedLevel(k: Klass, ev: EventData, header: Event)
    requires k.Derived? && InstanceOf(ev, k) && ev.Extended? && AllFit(ev.values, k.fields)
             && InstanceOf(ev.base, k.base)
    requires k == KLASS_INFO_EVENT || k == FIELD_INFO_EVENT ==> k.base.HTEvent?
    ensures var own := FieldMap(k.fields, ev.values);
            && (k == KLASS_INFO_EVENT || k == FIELD_INFO_EVENT ==> Flattened(k, ev, header) == own)
            && (k != KLASS_INFO_EVENT && k != FIELD_INFO_EVENT && k.base.HTEvent? ==>
                  Flattened(k, ev, header) == own + header.values)
            && (k != KLASS_INFO_EVENT && k != FIELD_INFO_EVENT && k.base.Derived? ==>
                  Flattened(k, ev, header) == own + Flattened(k.base, ev.base, header))
  {
    hide *;
    FlatUnfold(k, ev);
    MetadataUnfold(k);
    FlattenedIs(k, ev, header);
    FlattenedIs(k.base, ev.base, header);
    Unions(FieldMap(k.fields, ev.values), FlatValues(k.base, ev.base), header.values);
  }

  lemma HeaderKeys(klassId: nat, h: EventData)
    requires HeaderFits(klassId, h)
    ensures HeaderEvent(klassId, h).values.Keys == {KLASS_ID, TIMESTAMP, ID}
    ensures BASE !in HeaderEvent(klassId, h).values
  {
    HeaderFitsFields(klassId, h);
    HeaderEventIs(klassId, h);
    hide *;
    HeaderDeclNames();
    var m := FieldMap(HEADER_DECL, HeaderFields(klassId, h));
    forall name
      ensures name in m <==> name in {KLASS_ID, TIMESTAMP, ID}
    {
      if name in m {
        var i :| 0 <= i < |HEADER_DECL| && HEADER_DECL[i].name == name;
      }
    }
  }

  lemma HeaderEventIs(klassId: nat, h: EventData)
    requires HeaderFits(klassId, h) && AllFit(HeaderFields(klassId, h), HEADER_DECL)
    ensures HeaderEvent(klassId, h).values == FieldMap(HEADER_DECL, HeaderFields(klassId, h))
  {
    hide FieldMap;
    hide HEADER_DECL;
    hide HeaderFields;
  }

  lemma HeaderDeclNames()
    ensures |HEADER_DECL| == 3
    ensures HEADER_DECL[0].name == KLASS_ID && HEADER_DECL[1].name == TIMESTAMP && HEADER_DECL[2].name == ID
    ensures BASE !in {KLASS_ID, TIMESTAMP, ID}
  {
    assert |BASE| == 4 && |KLASS_ID| == 8 && |TIMESTAMP| == 9 && |ID| == 2;
  }

  lemma ExpectedUnfold(r: seq<Klass>, it: Item)
    requires Coherent(r) && Encodable(r, it) && r[it.klassId].Derived?
    ensures HeaderFits(it.klassId, HeaderOf(it.ev)) && ItemHeader(r, it) == HeaderEvent(it.klassId, HeaderOf(it.ev))
    ensures it.klassId < |r| && InstanceOf(it.ev, r[it.klassId])
    ensures Expected(false, r, it).values == NestedValues(r, it.klassId, it.ev, ItemHeader(r, it))
    ensures Expected(true, r, it).values == ItemHeader(r, it).values + FlatValues(r[it.klassId], it.ev)
  {
    hide *;
    EncodableHeader(r, it);
    EncodableItem(r, it);
    ItemHeaderIs(r, it);
    ExpectedNested(r, it);
    ExpectedFlat(r, it);
  }

  lemma EncodableItem(r: seq<Klass>, it: Item)
    requires Encodable(r, it)
    ensures it.klassId < |r| && InstanceOf(it.ev, r[it.klassId])
  {
  }

  lemma ItemHeaderIs(r: seq<Klass>, it: Item)
    requires Encodable(r, it) && HeaderFits(it.klassId, HeaderOf(it.ev))
    ensures ItemHeader(r, it) == HeaderEvent(it.klassId, HeaderOf(it.ev))
  {
    hide HeaderEvent;
  }

  lemma ExpectedNested(r: seq<Klass>, it: Item)
    requires Coherent(r) && Encodable(r, it) && r[it.klassId].Derived?
    ensures Expected(false, r, it).values == NestedValues(r, it.klassId, it.ev, ItemHeader(r, it))
  {
    hide ItemHeader;
    hide NestedValues;
    hide FlatValues;
    hide Coherent;
  }

  lemma ExpectedFlat(r: seq<Klass>, it: Item)
    requires Coherent(r) && Encodable(r, it) && r[it.klassId].Derived?
    ensures Expected(true, r, it).values == ItemHeader(r, it).values + FlatValues(r[it.klassId], it.ev)
  {
    hide ItemHeader;
    hide NestedValues;
    hide FlatValues;
    hide Coherent;
  }

  // The events of a stream.

  const HEADER_WORDS: set<cstring> := {KLASS_ID, TIMESTAMP, ID}

  /** A field along the chain that has the name of a header field has the value of that header field. */
  predicate SameAsHeader(r: seq<Klass>, it: Item)
    requires Encodable(r, it)
  {
    var header, own := ItemHeader(r, it).values, FlatValues(r[it.klassId], it.ev);
    forall name :: name in header && name in own ==> header[name] == own[name]
  }

  lemma UnionCommutes(own: map<cstring, Value>, header: map<cstring, Value>)
    ensures own + header == header + own <==> forall name :: name in header && name in own ==> header[name] == own[name]
    ensures own == header + own <==> header.Keys <= own.Keys
  {
    if own + header == header + own {
      forall name | name in header && name in own
        ensures header[name] == own[name]
      {
        assert (own + header)[name] == header[name] && (header + own)[name] == own[name];
      }
    }
    assert (header + own).Keys == header.Keys + own.Keys;
  }

  /**
   When flattening the event of nested mode gives the event of flat mode.  If the event keeps its header, they
   agree unless a field hides a header field; if it loses its header, they agree only if every header field is hidden.
   */
  predicate Agreeing(r: seq<Klass>, it: Item, first: bool)
    requires Encodable(r, it)
  {
    if first || FromMetadata(r[it.klassId]) then HEADER_WORDS <= ChainNames(r[it.klassId]) else SameAsHeader(r, it)
  }

  lemma ItemModes(r: seq<Klass>, it: Item)
    requires Coherent(r) && Reserved(r) && Encodable(r, it)
    ensures Flatten(Expected(false, r, it).values, Depth(r[it.klassId])) == Expected(true, r, it).values
       <==> Agreeing(r, it, false)
  {
    hide *;
    EncodableHeader(r, it);
    EncodableItem(r, it);
    ItemHeaderIs(r, it);
    HeaderKeys(it.klassId, HeaderOf(it.ev));
    var k, header := r[it.klassId], ItemHeader(r, it);
    if k.HTEvent? {
      HeaderOnlyModes(r, it);
    } else {
      ExpectedUnfold(r, it);
      FlattenNested(r, it.klassId, it.ev, header);
      FlatKeys(k, it.ev);
      UnionCommutes(FlatValues(k, it.ev), header.values);
      AgreeingIs(r, it);
      HeaderWordsAre();
    }
  }

  /** An event of a metadata class, or of a class derived from one: nested mode reports no header anywhere in it. */
  lemma MetadataLosesHeader(r: seq<Klass>, it: Item)
    requires Coherent(r) && Reserved(r) && Encodable(r, it) && FromMetadata(r[it.klassId])
    requires HEADER_WORDS !! ChainNames(r[it.klassId])
    ensures HEADER_WORDS <= Expected(true, r, it).values.Keys
    ensures HEADER_WORDS !! Flatten(Expected(false, r, it).values, Depth(r[it.klassId])).Keys
  {
    var k, header := r[it.klassId], ItemHeader(r, it);
    assert k.Derived? && HEADER_WORDS == {KLASS_ID, TIMESTAMP, ID};
    hide *;
    EncodableHeader(r, it);
    EncodableItem(r, it);
    ItemHeaderIs(r, it);
    HeaderKeys(it.klassId, HeaderOf(it.ev));
    ExpectedUnfold(r, it);
    FlattenNested(r, it.klassId, it.ev, header);
    FlattenedIs(k, it.ev, header);
    FlatKeys(k, it.ev);
  }

  lemma HeaderWordsAre()
    ensures HEADER_WORDS == {KLASS_ID, TIMESTAMP, ID}
  {
  }

  lemma AgreeingIs(r: seq<Klass>, it: Item)
    requires Encodable(r, it)
    ensures it.klassId < |r| && InstanceOf(it.ev, r[it.klassId])
    ensures var k, header, own := r[it.klassId], ItemHeader(r, it), FlatValues(r[it.klassId], it.ev);
            && Flattened(k, it.ev, header) == (if FromMetadata(k) then own else own + header.values)
            && (Agreeing(r, it, false)
                <==> if FromMetadata(k) then HEADER_WORDS <= ChainNames(k)
                     else forall name :: name in header.values && name in own ==> header.values[name] == own[name])
  {
    hide FromMetadata;
    hide ItemHeader;
    hide FlatValues;
    hide ChainNames;
    hide HEADER_WORDS;
  }

  /** An HT_Event is its header in both modes. */
  lemma HeaderOnlyModes(r: seq<Klass>, it: Item)
    requires Coherent(r) && Encodable(r, it) && r[it.klassId].HTEvent?
    ensures Flatten(Expected(false, r, it).values, Depth(r[it.klassId])) == Expected(true, r, it).values
    ensures Agreeing(r, it, false)
  {
    hide ItemHeader;
  }

  lemma FirstModes(r: seq<Klass>, order: Endianness)
    requires Reserved(r) && |r| < Capacity(4)
    ensures Flatten(FirstEvent(false, r, order).values, Depth(ENDIANNESS_INFO_EVENT))
            != FirstEvent(true, r, order).values
    ensures !(HEADER_WORDS <= ChainNames(ENDIANNESS_INFO_EVENT))
  {
    EndiannessItemValid(r, order);
    var it := EndiannessItem(order);
    EncodableHeader(r, it);
    HeaderKeys(ENDIANNESS_KLASS, HeaderOf(it.ev));
    FirstNames(it.ev);
    hide HeaderEvent;
    hide FieldMap;
    hide ENDIANNESS_INFO_EVENT;
    hide ChainNames;
    var own := FieldMap(ENDIANNESS_INFO_EVENT.fields, it.ev.values);
    assert TIMESTAMP in FirstEvent(true, r, order).values;
  }

  lemma FirstNames(ev: EventData)
    requires InstanceOf(ev, ENDIANNESS_INFO_EVENT)
    ensures ENDIANNESS_INFO_EVENT.Derived? && ev.Extended? && AllFit(ev.values, ENDIANNESS_INFO_EVENT.fields)
            && Depth(ENDIANNESS_INFO_EVENT) == 1
    ensures var own := FieldMap(ENDIANNESS_INFO_EVENT.fields, ev.values);
            BASE !in own && TIMESTAMP !in own && Flatten(own, 1) == own
    ensures TIMESTAMP !in ChainNames(ENDIANNESS_INFO_EVENT)
  {
    assert |TIMESTAMP| == 9 && |BASE| == 4 && |ENDIANNESS| == 10;
    FlatKeys(ENDIANNESS_INFO_EVENT, ev);
    hide FieldMap;
  }

  lemma StreamEventAt(flat: bool, r: seq<Klass>, order: Endianness, meta: seq<Item>, version: Item, items: seq<Item>,
                      i: nat)
    requires StreamReady(r, meta, version, items) && i < |Stream(order, meta, version, items)|
    ensures Usable(r) && Coherent(r) && Reserved(r) && |r| < Capacity(4)
    ensures ValidItems(r, meta) && ValidItem(r, version) && ValidItems(r, items)
    ensures var stream, es := Stream(order, meta, version, items), StreamEvents(flat, r, order, meta, version, items);
            && |es| == |stream| && Encodable(r, stream[i])
            && es[i] == (if i == 0 then FirstEvent(flat, r, order) else Expected(flat, r, stream[i]))
            && (i == 0 ==> stream[i] == EndiannessItem(order))
  {
    hide *;
    StreamParts(order, r, meta, version, items);
    UsableParts(r);
    StreamEventsParts(flat, r, order, meta, version, items);
    StreamIs(order, meta, version, items);
    ValidAt(r, Stream(order, meta, version, items), i);
    ValidIsEncodable(r, Stream(order, meta, version, items)[i]);
  }

  lemma ValidAt(r: seq<Klass>, items: seq<Item>, i: nat)
    requires ValidItems(r, items) && i < |items|
    ensures ValidItem(r, items[i])
  {
  }

  /**
   For every event a stream delivers, the first one and those of the metadata classes included: the two modes
   agree exactly when Agreeing says so.  Where no field has the name of a header field, they agree for every
   event but the first and those of metadata classes and of classes derived from them.
   */
  lemma ModesAgree(r: seq<Klass>, order: Endianness, meta: seq<Item>, version: Item, items: seq<Item>, i: nat)
    requires StreamReady(r, meta, version, items) && i < |Stream(order, meta, version, items)|
    ensures Usable(r) && ValidItems(r, meta) && ValidItem(r, version) && ValidItems(r, items)
    ensures var it := Stream(order, meta, version, items)[i];
            var nested := StreamEvents(false, r, order, meta, version, items);
            var flat := StreamEvents(true, r, order, meta, version, items);
            && Encodable(r, it) && i < |nested| == |flat|
            && (Flatten(nested[i].values, Depth(r[it.klassId])) == flat[i].values <==> Agreeing(r, it, i == 0))
            && (HEADER_WORDS !! ChainNames(r[it.klassId]) ==>
                  (Agreeing(r, it, i == 0) <==> i > 0 && !FromMetadata(r[it.klassId])))
  {
    hide *;
    StreamEventAt(false, r, order, meta, version, items, i);
    StreamEventAt(true, r, order, meta, version, items, i);
    var it := Stream(order, meta, version, items)[i];
    if i == 0 {
      FirstModes(r, order);
      FirstIs(r, order);
    } else {
      ItemModes(r, it);
    }
    EncodableItem(r, it);
    if HEADER_WORDS !! ChainNames(r[it.klassId]) {
      AgreeingDisjoint(r, it, i == 0);
    }
  }

  lemma FirstIs(r: seq<Klass>, order: Endianness)
    requires Reserved(r) && Encodable(r, EndiannessItem(order))
    ensures r[EndiannessItem(order).klassId] == ENDIANNESS_INFO_EVENT
    ensures Agreeing(r, EndiannessItem(order), true) <==> HEADER_WORDS <= ChainNames(ENDIANNESS_INFO_EVENT)
  {
    hide ENDIANNESS_INFO_EVENT;
    hide ChainNames;
    hide HEADER_WORDS;
  }

  lemma AgreeingDisjoint(r: seq<Klass>, it: Item, first: bool)
    requires Encodable(r, it) && HEADER_WORDS !! ChainNames(r[it.klassId])
    ensures Agreeing(r, it, first) <==> !first && !FromMetadata(r[it.klassId])
  {
    EncodableHeader(r, it);
    ItemHeaderIs(r, it);
    HeaderKeys(it.klassId, HeaderOf(it.ev));
    FlatKeys(r[it.klassId], it.ev);
    hide ItemHeader;
    hide FlatValues;
    hide ChainNames;
    hide FromMetadata;
    hide HeaderEvent;
    assert KLASS_ID in HEADER_WORDS;
  }

  lemma ScalarModes(host: Endianness, order: Endianness, signed: bool, t: FieldTypeId, bytes: seq<byte>)
    requires t != STRUCT
    ensures ReadScalar(Mode(host, order, true, signed), t, bytes)
            == ReadScalar(Mode(host, order, false, signed), t, bytes)
  {
  }

  predicate Alike(a: Read<map<cstring, Value>>, b: Read<map<cstring, Value>>) {
    (a.Got? <==> b.Got?) && (a.Crash? <==> b.Crash?) && (a.Got? ==> a.rest == b.rest)
  }

  /**
   On any bytes, in any register, both modes consume the same bytes, fail together and crash
   together.
   */
  lemma {:induction false} ModesConsumeAlike(host: Endianness, order: Endianness, signed: bool, t: Table, a: Event,
                                             b: Event, fields: seq<ParsedField>, va: map<cstring, Value>,
                                             vb: map<cstring, Value>, bytes: seq<byte>, seen: set<nat>)
    ensures Alike(ReadFields(Mode(host, order, true, signed), t, a, fields, va, bytes, seen),
                  ReadFields(Mode(host, order, false, signed), t, b, fields, vb, bytes, seen))
    decreases |bytes|, |t.klasses.Keys - seen|, |fields|, 1
  {
    var ma, mb := Mode(host, order, true, signed), Mode(host, order, false, signed);
    if fields != [] {
      var f := fields[0];
      hide *;
      AlikeSame();
      if f.typeId != STRUCT {
        ScalarStep(ma, t, a, fields, va, bytes, seen);
        ScalarStep(mb, t, b, fields, vb, bytes, seen);
        ScalarModes(host, order, signed, f.typeId, bytes);
        var v := ReadScalar(ma, f.typeId, bytes);
        if v.Got? {
          ModesConsumeAlike(host, order, signed, t, a, b, fields[1..], SetValue(va, f.name, v.value),
                            SetValue(vb, f.name, v.value), v.rest, {});
        }
      } else {
        StructStep(ma, t, a, fields, va, bytes, seen);
        StructStep(mb, t, b, fields, vb, bytes, seen);
        StructAlike(host, order, signed, t, a, b, fields, va, vb, bytes, seen);
        var x := StructResult(ma, t, a, f, va, bytes, seen);
        var y := StructResult(mb, t, b, f, vb, bytes, seen);
        AlikeParts(x, y);
        if x.Got? {
          StructShrinks(ma, t, a, f, va, bytes, seen);
          ModesConsumeAlike(host, order, signed, t, a, b, fields[1..], x.value, y.value, x.rest,
                            if |x.rest| < |bytes| then {} else seen);
        }
      }
    }
  }

  lemma AlikeSame()
    ensures Alike(Fail, Fail) && Alike(Crash, Crash)
  {
  }

  lemma AlikeParts(a: Read<map<cstring, Value>>, b: Read<map<cstring, Value>>)
    ensures Alike(a, b) <==> (a.Got? <==> b.Got?) && (a.Crash? <==> b.Crash?) && (a.Got? ==> a.rest == b.rest)
  {
  }

  /** A structure field consumes the same bytes in both modes. */
  lemma {:induction false} StructAlike(host: Endianness, order: Endianness, signed: bool, t: Table, a: Event, b: Event,
                                       fields: seq<ParsedField>, va: map<cstring, Value>, vb: map<cstring, Value>,
                                       bytes: seq<byte>, seen: set<nat>)
    requires fields != [] && fields[0].typeId == STRUCT
    ensures Alike(StructResult(Mode(host, order, true, signed), t, a, fields[0], va, bytes, seen),
                  StructResult(Mode(host, order, false, signed), t, b, fields[0], vb, bytes, seen))
    decreases |bytes|, |t.klasses.Keys - seen|, |fields|, 0
  {
    hide ReadFields;
    hide GetKlassByName;
    hide Merge;
    hide SetValue;
    var f := fields[0];
    var id := GetKlassByName(t, f.typeName);
    if !IsEventBase(f) && id.Some? && id.value in t.klasses && id.value !in seen {
      SeenGrows(t, seen, id.value);
      ModesConsumeAlike(host, order, signed, t, a, b, t.klasses[id.value].fields, map[], map[], bytes,
                        seen + {id.value});
    }
  }
}
