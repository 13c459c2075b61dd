/**
 Reading back the bytes of one event: the parser recovers every field of the event and of its base
 classes, given a register that knows those classes.
 */
module Decoding {
  import opened Bytes
  import opened EndiannessConvert
  import opened EventKlasses
  import opened Registry
  import opened KlassTable
  import opened ProtocolReader

  function TypeIdOf(f: FieldDecl): FieldTypeId {
    match f
    case StringField(_, _) => STRING
    case IntField(_, _, w, signed) =>
      if w == 1 then if signed then INT8 else UINT8
      else if w == 2 then if signed then INT16 else UINT16
      else if w == 4 then if signed then INT32 else UINT32
      else if signed then INT64 else UINT64
  }

  /** The value the parser should report for a field. */
  function Decoded(f: FieldDecl, v: FieldValue): Value
    requires Fits(v, f)
  {
    match f
    case IntField(_, _, _, _) => Num(TypeIdOf(f), v.n)
    case StringField(_, _) => Str(v.s)
  }

  /** A parser's field list describes the declared fields. */
  predicate Describes(pf: seq<ParsedField>, fields: seq<FieldDecl>) {
    && |pf| == |fields|
    && forall i :: 0 <= i < |pf| ==> pf[i].name == fields[i].name && pf[i].typeId == TypeIdOf(fields[i])
  }

  /** Field names with their values. */
  function FieldMap(fields: seq<FieldDecl>, values: seq<FieldValue>): (m: map<cstring, Value>)
    requires AllFit(values, fields)
    ensures forall i :: 0 <= i < |fields| ==> fields[i].name in m
    ensures forall name :: name in m ==> exists i :: 0 <= i < |fields| && fields[i].name == name
  {
    if fields == [] then map[]
    else FieldMap(fields[1..], values[1..])[fields[0].name := Decoded(fields[0], values[0])]
  }

  /** With distinct names every field is found under its name. */
  lemma {:induction false} FieldMapAt(fields: seq<FieldDecl>, values: seq<FieldValue>, i: nat)
    requires AllFit(values, fields) && i < |fields|
    requires forall j, k :: 0 <= j < k < |fields| ==> fields[j].name != fields[k].name
    ensures FieldMap(fields, values)[fields[i].name] == Decoded(fields[i], values[i])
  {
    if i > 0 {
      FieldMapAt(fields[1..], values[1..], i - 1);
    }
  }

  lemma NumericRoundTrip(mode: Mode, f: FieldDecl, v: FieldValue, rest: seq<byte>)
    requires Fits(v, f) && f.IntField?
    ensures IsNumeric(TypeIdOf(f))
    ensures ReadNumeric(mode, TypeIdOf(f), FieldBytes(mode.order, f, v) + rest) == Got(Decoded(f, v), rest)
  {
    hide ConvertToNative;
    hide Load;
    hide Store;
    var bs := FieldBytes(mode.order, f, v);
    var all := bs + rest;
    assert all[..f.width] == bs && all[f.width..] == rest;
    ConversionReadsForeignOrder(mode.host, mode.order, bs);
    LoadStore(mode.order, v.n, f.width);
  }

  lemma {:induction false} TextRoundTrip(s: cstring, rest: seq<byte>)
    ensures ReadText(s + [0] + rest) == Got(s, rest)
  {
    var all := s + [0] + rest;
    if s == [] {
      assert all[1..] == rest;
    } else {
      var tail: cstring := s[1..];
      assert all[1..] == tail + [0] + rest;
      TextRoundTrip(tail, rest);
      assert [s[0]] + tail == s;
    }
  }

  /** The strings among the values are made of bytes below 0x80. */
  predicate PlainText(values: seq<FieldValue>) {
    forall i :: 0 <= i < |values| && values[i].StringValue? ==> SevenBit(values[i].s)
  }

  /** Every string of the event, in its own fields and in those of its bases, is made of bytes below 0x80. */
  predicate PlainEvent(ev: EventData) {
    ev.Extended? ==> PlainText(ev.values) && PlainEvent(ev.base)
  }

  lemma PlainTextCons(values: seq<FieldValue>)
    requires values != []
    ensures PlainText(values) <==> PlainText([values[0]]) && PlainText(values[1..])
  {
    var head, tail := [values[0]], values[1..];
    assert head[0] == values[0];
    forall i | 0 < i < |values|
      ensures values[i] == tail[i - 1]
    {
    }
  }

  /**
   Decoding one field consumes exactly its bytes and goes on with the fields that follow, unless the stream
   hands out signed characters and the field is a string with others.
   */
  lemma OneField(mode: Mode, t: Table, base: Event, fs: seq<ParsedField>, f: FieldDecl, v: FieldValue,
                 acc: map<cstring, Value>, rest: seq<byte>, seen: set<nat>)
    requires fs != [] && fs[0].name == f.name && fs[0].typeId == TypeIdOf(f) && Fits(v, f)
    ensures ReadFields(mode, t, base, fs, acc, FieldBytes(mode.order, f, v) + rest, seen)
         == if mode.signed && !PlainText([v]) then Fail
            else ReadFields(mode, t, base, fs[1..], SetValue(acc, f.name, Decoded(f, v)), rest, {})
  {
    assert [v][0] == v;
    if f.IntField? {
      NumericRoundTrip(mode, f, v, rest);
    } else {
      TextRoundTrip(v.s, rest);
    }
  }

  lemma FieldMapCons(fields: seq<FieldDecl>, values: seq<FieldValue>, acc: map<cstring, Value>)
    requires fields != [] && AllFit(values, fields)
    ensures FieldMap(fields[1..], values[1..]) + SetValue(acc, fields[0].name, Decoded(fields[0], values[0]))
         == FieldMap(fields, values) + acc
  {
  }

  lemma FieldsBytesCons(order: Endianness, fields: seq<FieldDecl>, values: seq<FieldValue>, rest: seq<byte>)
    requires fields != [] && AllFit(values, fields)
    ensures FieldsBytes(order, fields, values) + rest
         == FieldBytes(order, fields[0], values[0]) + (FieldsBytes(order, fields[1..], values[1..]) + rest)
  {
  }

  /** Decoding plain fields consumes exactly their bytes and goes on with the fields that follow. */
  lemma {:induction false} PlainFields(mode: Mode, t: Table, base: Event, pf: seq<ParsedField>, more: seq<ParsedField>,
                                       fields: seq<FieldDecl>, values: seq<FieldValue>,
                                       acc: map<cstring, Value>, rest: seq<byte>, seen: set<nat>)
    requires Describes(pf, fields) && AllFit(values, fields)
    ensures ReadFields(mode, t, base, pf + more, acc, FieldsBytes(mode.order, fields, values) + rest, seen)
         == if mode.signed && !PlainText(values) then Fail
            else ReadFields(mode, t, base, more, FieldMap(fields, values) + acc, rest,
                            if fields == [] then seen else {})
    decreases |fields|
  {
    if fields == [] {
      assert pf + more == more;
      assert FieldsBytes(mode.order, fields, values) + rest == rest;
      assert FieldMap(fields, values) + acc == acc;
    } else {
      PlainFieldsCons(mode, t, base, pf, more, fields, values, acc, rest, seen);
    }
  }

  lemma {:induction false} PlainFieldsCons(mode: Mode, t: Table, base: Event, pf: seq<ParsedField>,
                                           more: seq<ParsedField>, fields: seq<FieldDecl>, values: seq<FieldValue>,
                                           acc: map<cstring, Value>, rest: seq<byte>, seen: set<nat>)
    requires Describes(pf, fields) && AllFit(values, fields) && fields != []
    ensures ReadFields(mode, t, base, pf + more, acc, FieldsBytes(mode.order, fields, values) + rest, seen)
         == if mode.signed && !PlainText(values) then Fail
            else ReadFields(mode, t, base, more, FieldMap(fields, values) + acc, rest, {})
    decreases |fields|, 0
  {
    hide *;
    FieldsCons(pf, fields, values);
    var tail := FieldsBytes(mode.order, fields[1..], values[1..]) + rest;
    assert (pf + more)[1..] == pf[1..] + more;
    FieldsBytesCons(mode.order, fields, values, rest);
    PlainTextCons(values);
    OneField(mode, t, base, pf + more, fields[0], values[0], acc, tail, seen);
    var acc' := SetValue(acc, fields[0].name, Decoded(fields[0], values[0]));
    FieldMapCons(fields, values, acc);
    PlainFields(mode, t, base, pf[1..], more, fields[1..], values[1..], acc', rest, {});
  }

  lemma FieldsCons(pf: seq<ParsedField>, fields: seq<FieldDecl>, values: seq<FieldValue>)
    requires Describes(pf, fields) && AllFit(values, fields) && fields != []
    ensures |pf| == |fields| == |values|
    ensures pf[0].name == fields[0].name && pf[0].typeId == TypeIdOf(fields[0]) && Fits(values[0], fields[0])
    ensures Describes(pf[1..], fields[1..]) && AllFit(values[1..], fields[1..])
  {
    hide TypeIdOf;
    hide Fits;
  }

  /** Decoding plain fields and nothing else. */
  lemma PlainRoundTrip(mode: Mode, t: Table, base: Event, pf: seq<ParsedField>, fields: seq<FieldDecl>,
                       values: seq<FieldValue>, acc: map<cstring, Value>, rest: seq<byte>, seen: set<nat>)
    requires Describes(pf, fields) && AllFit(values, fields)
    ensures ReadFields(mode, t, base, pf, acc, FieldsBytes(mode.order, fields, values) + rest, seen)
         == if mode.signed && !PlainText(values) then Fail else Got(FieldMap(fields, values) + acc, rest)
  {
    assert pf + [] == pf;
    PlainFields(mode, t, base, pf, [], fields, values, acc, rest, seen);
    NothingLeft(mode, t, base, FieldMap(fields, values) + acc, rest, if fields == [] then seen else {});
    hide ReadFields;
  }

  // Base classes.

  function ParsedFields(fields: seq<FieldDecl>): (pf: seq<ParsedField>)
    ensures |pf| == |fields|
    ensures forall i :: 0 <= i < |fields| ==> pf[i] == ParsedField(fields[i].name, fields[i].ctype, TypeIdOf(fields[i]))
  {
    seq(|fields|, i requires 0 <= i < |fields| => ParsedField(fields[i].name, fields[i].ctype, TypeIdOf(fields[i])))
  }

  function BaseField(k: Klass): ParsedField
    requires k.Derived?
  {
    ParsedField(BASE, Name(k.base), STRUCT)
  }

  /**
   Where a class's `base` sits in the parser's field list.  The two classes that carry metadata are
   built into the parser without it, and the built-in endianness class gains it after its own field.
   */
  datatype Shape = NoBase | BaseFirst | BaseLast

  function ShapeOf(i: nat): Shape {
    if i == KLASS_INFO_KLASS || i == FIELD_INFO_KLASS then NoBase
    else if i == ENDIANNESS_KLASS then BaseLast
    else BaseFirst
  }

  predicate HasShape(fields: seq<ParsedField>, k: Klass, shape: Shape)
    requires k.Derived?
  {
    match shape
    case NoBase => k.base.HTEvent? && Describes(fields, k.fields)
    case BaseFirst => fields != [] && fields[0] == BaseField(k) && Describes(fields[1..], k.fields)
    case BaseLast =>
      k.base.HTEvent? && fields != [] && fields[|fields| - 1] == BaseField(k)
      && Describes(fields[..|fields| - 1], k.fields)
  }

  predicate KnowsKlass(t: Table, r: seq<Klass>, i: nat)
    requires i < |r|
  {
    && i in t.klasses
    && GetKlassByName(t, Name(r[i])) == Some(i)
    && (r[i].Derived? ==> HasShape(t.klasses[i].fields, r[i], ShapeOf(i)))
  }

  predicate KnowsAll(t: Table, r: seq<Klass>) {
    forall i :: 0 <= i < |r| ==> KnowsKlass(t, r, i)
  }

  function Depth(k: Klass): nat {
    if k.HTEvent? then 0 else 1 + Depth(k.base)
  }

  /** The class identifier of a registered class. */
  ghost function IndexOf(r: seq<Klass>, k: Klass): (i: nat)
    requires k in r
    ensures i < |r| && r[i] == k
  {
    var i :| 0 <= i < |r| && r[i] == k;
    i
  }

  /** Flat mode: the fields of a class and of all its bases in one map; a base wins a name clash. */
  function FlatValues(k: Klass, ev: EventData): map<cstring, Value>
    requires InstanceOf(ev, k)
  {
    if k.HTEvent? then map[]
    else FieldMap(k.fields, ev.values) + FlatValues(k.base, ev.base)
  }

  /** Nested mode: the fields of a class, with its base as an event of its own. */
  ghost function NestedValues(r: seq<Klass>, i: nat, ev: EventData, header: Event): map<cstring, Value>
    requires Coherent(r) && i < |r| && InstanceOf(ev, r[i])
    decreases r[i]
  {
    var k := r[i];
    if k.HTEvent? then map[]
    else if ShapeOf(i).NoBase? then FieldMap(k.fields, ev.values)
    else FieldMap(k.fields, ev.values) + map[BASE := Sub(BaseEvent(r, k, ev, header))]
  }

  ghost function BaseEvent(r: seq<Klass>, k: Klass, ev: EventData, header: Event): Event
    requires Coherent(r) && k in r && k.Derived? && InstanceOf(ev, k)
    decreases k, 0
  {
    if k.base.HTEvent? then header
    else
      assert BaseRegistered(r, IndexOf(r, k));
      var b := IndexOf(r, k.base);
      Event(b, NestedValues(r, b, ev.base, header))
  }

  ghost function BodyValues(flat: bool, r: seq<Klass>, i: nat, ev: EventData, header: Event): map<cstring, Value>
    requires Coherent(r) && i < |r| && InstanceOf(ev, r[i])
  {
    if flat then FlatValues(r[i], ev) else NestedValues(r, i, ev, header)
  }

  /** What a leading `base` field contributes. */
  ghost function BaseValues(flat: bool, r: seq<Klass>, k: Klass, ev: EventData, header: Event): map<cstring, Value>
    requires Coherent(r) && k in r && k.Derived? && InstanceOf(ev, k)
  {
    if flat then FlatValues(k.base, ev.base) else map[BASE := Sub(BaseEvent(r, k, ev, header))]
  }

  /** Classes under expansion are no closer to HT_Event than class i. */
  predicate NotBelow(r: seq<Klass>, i: nat, seen: set<nat>)
    requires i < |r|
  {
    forall j :: j in seen ==> j < |r| && Depth(r[j]) >= Depth(r[i])
  }

  /** The effect of a field holding a base class other than HT_Event, once the base is decoded. */
  lemma BaseFieldStep(mode: Mode, t: Table, header: Event, f: ParsedField, more: seq<ParsedField>, b: nat,
                      sub: map<cstring, Value>, bytes: seq<byte>, rest: seq<byte>, seen: set<nat>)
    requires f.typeId == STRUCT && f.name == BASE && f.typeName != HT_EVENT
    requires GetKlassByName(t, f.typeName) == Some(b) && b in t.klasses && b !in seen
    ensures var base := ReadFields(mode, t, header, t.klasses[b].fields, map[], bytes, seen + {b});
            && (base == Got(sub, rest) ==>
                  ReadFields(mode, t, header, [f] + more, map[], bytes, seen)
                  == ReadFields(mode, t, header, more, if mode.flat then sub else map[BASE := Sub(Event(b, sub))], rest,
                                if |rest| < |bytes| then {} else seen))
            && (base == Fail ==> ReadFields(mode, t, header, [f] + more, map[], bytes, seen) == Fail)
  {
    assert ([f] + more)[1..] == more;
    assert Merge(map[], sub) == sub;
  }

  /** Decoding a `base` field consumes the base's bytes and goes on with the fields that follow. */
  lemma {:induction false} BaseRoundTrip(mode: Mode, t: Table, r: seq<Klass>, i: nat, ev: EventData, header: Event,
                                         more: seq<ParsedField>, rest: seq<byte>, seen: set<nat>)
    requires Coherent(r) && KnowsAll(t, r) && EVENT_KLASS < |r| && r[EVENT_KLASS].HTEvent?
    requires i < |r| && r[i].Derived? && InstanceOf(ev, r[i]) && NotBelow(r, i, seen)
    ensures ReadFields(mode, t, header, [BaseField(r[i])] + more, map[],
                       Payload(mode.order, r[i].base, ev.base) + rest, seen)
         == if mode.signed && !PlainEvent(ev.base) then Fail
            else ReadFields(mode, t, header, more, BaseValues(mode.flat, r, r[i], ev, header), rest,
                            if Payload(mode.order, r[i].base, ev.base) == [] then seen else {})
    decreases r[i], 0
  {
    var k := r[i];
    var bytes := Payload(mode.order, k.base, ev.base) + rest;
    if k.base.HTEvent? {
      assert bytes == rest;
      assert ([BaseField(k)] + more)[1..] == more;
    } else {
      assert BaseRegistered(r, i);
      var b := IndexOf(r, k.base);
      assert Name(r[b]) != Name(r[EVENT_KLASS]);
      assert KnowsKlass(t, r, b);
      EventRoundTrip(mode, t, r, b, ev.base, header, rest, seen + {b});
      BaseFieldStep(mode, t, header, BaseField(k), more, b, BodyValues(mode.flat, r, b, ev.base, header),
                    bytes, rest, seen);
    }
  }

  /** A class whose parser fields are its own fields only. */
  lemma NoBaseRoundTrip(mode: Mode, t: Table, header: Event, pf: seq<ParsedField>, k: Klass, ev: EventData,
                        rest: seq<byte>, seen: set<nat>)
    requires k.Derived? && InstanceOf(ev, k) && HasShape(pf, k, NoBase)
    ensures ReadFields(mode, t, header, pf, map[], Payload(mode.order, k, ev) + rest, seen)
         == if mode.signed && !PlainText(ev.values) then Fail else Got(FieldMap(k.fields, ev.values), rest)
  {
    hide ReadFields;
    var own := FieldMap(k.fields, ev.values);
    assert Payload(mode.order, k, ev) == FieldsBytes(mode.order, k.fields, ev.values);
    assert own + map[] == own;
    PlainRoundTrip(mode, t, header, pf, k.fields, ev.values, map[], rest, seen);
  }

  lemma TrailingBase(mode: Mode, t: Table, header: Event, f: ParsedField, own: map<cstring, Value>, rest: seq<byte>,
                     seen: set<nat>)
    requires f.typeId == STRUCT && IsEventBase(f) && BASE !in own
    ensures ReadFields(mode, t, header, [f], own, rest, seen)
         == Got(if mode.flat then own else own + map[BASE := Sub(header)], rest)
  {
    assert [f][1..] == [];
    assert own[BASE := Sub(header)] == own + map[BASE := Sub(header)];
  }

  /** A class whose `base` comes last contributes the header there. */
  lemma BaseLastRoundTrip(mode: Mode, t: Table, header: Event, pf: seq<ParsedField>, k: Klass, ev: EventData,
                          rest: seq<byte>, seen: set<nat>)
    requires k.Derived? && k.base.HTEvent? && InstanceOf(ev, k) && WellFormed(k) && Describes(pf, k.fields)
    ensures ReadFields(mode, t, header, pf + [BaseField(k)], map[], Payload(mode.order, k, ev) + rest, seen)
         == if mode.signed && !PlainText(ev.values) then Fail
            else Got(if mode.flat then FieldMap(k.fields, ev.values)
                     else FieldMap(k.fields, ev.values) + map[BASE := Sub(header)], rest)
  {
    hide ReadFields;
    var own := FieldMap(k.fields, ev.values);
    assert Payload(mode.order, k, ev) == FieldsBytes(mode.order, k.fields, ev.values);
    assert own + map[] == own;
    PlainFields(mode, t, header, pf, [BaseField(k)], k.fields, ev.values, map[], rest, seen);
    TrailingBase(mode, t, header, BaseField(k), own, rest, if k.fields == [] then seen else {});
  }

  /** A class whose `base` comes first: the base, then the class's own fields. */
  lemma BaseFirstRoundTrip(mode: Mode, t: Table, r: seq<Klass>, i: nat, pf: seq<ParsedField>, ev: EventData,
                           header: Event, rest: seq<byte>, seen: set<nat>)
    requires Coherent(r) && KnowsAll(t, r) && EVENT_KLASS < |r| && r[EVENT_KLASS].HTEvent?
    requires i < |r| && r[i].Derived? && InstanceOf(ev, r[i]) && NotBelow(r, i, seen)
    requires Describes(pf, r[i].fields)
    ensures ReadFields(mode, t, header, [BaseField(r[i])] + pf, map[], Payload(mode.order, r[i], ev) + rest, seen)
         == if mode.signed && !PlainEvent(ev) then Fail
            else Got(FieldMap(r[i].fields, ev.values) + BaseValues(mode.flat, r, r[i], ev, header), rest)
    decreases r[i], 1
  {
    var k := r[i];
    var own := FieldsBytes(mode.order, k.fields, ev.values) + rest;
    assert Payload(mode.order, k, ev) + rest == Payload(mode.order, k.base, ev.base) + own;
    hide ReadFields;
    BaseRoundTrip(mode, t, r, i, ev, header, pf, own, seen);
    PlainRoundTrip(mode, t, header, pf, k.fields, ev.values, BaseValues(mode.flat, r, k, ev, header), rest,
                if Payload(mode.order, k.base, ev.base) == [] then seen else {});
  }

  lemma BodyByShape(flat: bool, r: seq<Klass>, i: nat, ev: EventData, header: Event)
    requires Coherent(r) && i < |r| && r[i].Derived? && InstanceOf(ev, r[i])
    requires ShapeOf(i) != BaseFirst ==> r[i].base.HTEvent?
    ensures BodyValues(flat, r, i, ev, header)
         == match ShapeOf(i)
            case NoBase => FieldMap(r[i].fields, ev.values)
            case BaseLast =>
              if flat then FieldMap(r[i].fields, ev.values)
              else FieldMap(r[i].fields, ev.values) + map[BASE := Sub(header)]
            case BaseFirst => FieldMap(r[i].fields, ev.values) + BaseValues(flat, r, r[i], ev, header)
  {
    hide FieldMap;
    var own := FieldMap(r[i].fields, ev.values);
    assert FlatValues(r[i], ev) == own + FlatValues(r[i].base, ev.base);
    if r[i].base.HTEvent? {
      assert FlatValues(r[i].base, ev.base) == map[];
      assert own + map[] == own;
      assert BaseEvent(r, r[i], ev, header) == header;
    }
  }

  /**
   Decoding a class's fields recovers the event and consumes exactly its bytes; over a stream of signed
   characters, exactly when every string of the event is plain.
   */
  lemma {:induction false} EventRoundTrip(mode: Mode, t: Table, r: seq<Klass>, i: nat, ev: EventData, header: Event,
                                          rest: seq<byte>, seen: set<nat>)
    requires Coherent(r) && KnowsAll(t, r) && EVENT_KLASS < |r| && r[EVENT_KLASS].HTEvent?
    requires i < |r| && i in t.klasses && r[i].Derived? && InstanceOf(ev, r[i]) && NotBelow(r, i, seen)
    ensures ReadFields(mode, t, header, t.klasses[i].fields, map[], Payload(mode.order, r[i], ev) + rest, seen)
         == if mode.signed && !PlainEvent(ev) then Fail else Got(BodyValues(mode.flat, r, i, ev, header), rest)
    decreases r[i], 2
  {
    hide ReadFields;
    hide FieldMap;
    hide Payload;
    hide FlatValues;
    hide GetKlassByName;
    var k, pf := r[i], t.klasses[i].fields;
    assert KnowsKlass(t, r, i);
    BodyByShape(mode.flat, r, i, ev, header);
    match ShapeOf(i)
    case NoBase =>
      NoBaseRoundTrip(mode, t, header, pf, k, ev, rest, seen);
    case BaseLast =>
      assert pf == pf[..|pf| - 1] + [BaseField(k)];
      BaseLastRoundTrip(mode, t, header, pf[..|pf| - 1], k, ev, rest, seen);
    case BaseFirst =>
      assert pf == [BaseField(k)] + pf[1..];
      BaseFirstRoundTrip(mode, t, r, i, pf[1..], ev, header, rest, seen);
  }
}
