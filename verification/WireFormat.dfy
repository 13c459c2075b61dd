/**
 The numbers of the wire format, written out: the codes that describe a field, the classes every stream starts with,
 and the bytes of an event in either byte order.
 */
module WireFormat {
  import opened Bytes
  import opened EventKlasses
  import opened Registry
  import opened KlassTable
  import opened ProtocolReader

  // Codes.

  /** The type the parser makes of a size and a data type; every other pair makes it throw. */
  lemma FieldTypes(size: nat, dataType: nat)
    ensures GetTypeId(size, 1) == Some(STRUCT) && GetTypeId(size, 2) == Some(STRING) && GetTypeId(size, 6) == Some(PTR)
    ensures GetTypeId(1, 3) == Some(INT8) && GetTypeId(2, 3) == Some(INT16)
    ensures GetTypeId(4, 3) == Some(INT32) && GetTypeId(8, 3) == Some(INT64)
    ensures GetTypeId(1, 99) == Some(UINT8) && GetTypeId(2, 99) == Some(UINT16)
    ensures GetTypeId(4, 99) == Some(UINT32) && GetTypeId(8, 99) == Some(UINT64)
    ensures GetTypeId(size, dataType).Some?
       <==> || dataType == 1 || dataType == 2 || dataType == 6
            || ((dataType == 3 || dataType == 99) && (size == 1 || size == 2 || size == 4 || size == 8))
  {
  }

  /** The size and the data type each kind of field is described with; the class pointer is not decoded. */
  lemma FieldCodes(name: cstring, ctype: cstring, w: nat, base: Klass, fields: seq<FieldDecl>, size: nat)
    ensures ToTypeField(IntField(name, ctype, w, true)) == TypeField(name, ctype, w, 3)
    ensures ToTypeField(IntField(name, ctype, w, false)) == TypeField(name, ctype, w, 99)
    ensures ToTypeField(StringField(name, ctype)) == TypeField(name, ctype, 8, 2)
    ensures var fs := TypeFields(Derived(name, base, fields, size));
            && |fs| == |fields| + 1 && fs[1..] == ToTypeFields(fields)
            && fs[0].name == BASE && fs[0].dataType == 1
            && fs[0].ctype == (if base.HTEvent? then HT_EVENT else base.derivedName)
            && fs[0].size == if base.HTEvent? then 24 else base.structSize
    ensures var fs := TypeFields(HTEvent);
            && |fs| == 3 && fs[0].name == Ascii("klass") && fs[1].name == TIMESTAMP && fs[2].name == ID
            && fs[0].size == fs[1].size == fs[2].size == 8
            && fs[0].dataType == 6 && fs[1].dataType == fs[2].dataType == 99
  {
  }

  /** The names both sides agree on. */
  lemma EventWords()
    ensures BASE == Ascii("base") && HT_EVENT == Ascii("HT_Event")
    ensures KLASS_ID == Ascii("klass_id") && TIMESTAMP == Ascii("timestamp") && ID == Ascii("id")
    ensures ENDIANNESS == Ascii("endianness")
  {
  }

  lemma MetadataWords()
    ensures INFO_KLASS_ID == Ascii("info_klass_id")
    ensures EVENT_KLASS_NAME == Ascii("event_klass_name") && FIELD_COUNT == Ascii("field_count")
    ensures FIELD_TYPE == Ascii("field_type") && FIELD_NAME == Ascii("field_name")
    ensures SIZE == Ascii("size") && DATA_TYPE == Ascii("data_type")
  {
  }

  /** The byte order is 0 or 1; the parser takes any other code for the opposite of its own order. */
  lemma OrderCodes(host: Endianness, code: nat)
    ensures OrderCode(Little) == 0 && OrderCode(Big) == 1
    ensures AssumedOrder(host, 0) == Little && AssumedOrder(host, 1) == Big
    ensures code > 1 ==> AssumedOrder(host, code) != host
  {
  }

  // Integers.

  /** Byte i of an integer, counted from the least significant, in each byte order. */
  lemma {:induction false} ImageAt(n: nat, w: nat, i: nat)
    requires i < w
    ensures Store(Little, n, w)[i] == n / Capacity(i) % 256 && Store(Big, n, w)[w - 1 - i] == n / Capacity(i) % 256
  {
    if i > 0 {
      ImageAt(n / 256, w - 1, i - 1);
      DivDiv(n, Capacity(i - 1));
    }
  }

  lemma DivDiv(n: nat, c: nat)
    requires c > 0
    ensures n / 256 / c == n / (256 * c)
  {
    var q, s := n / 256, n % 256;
    var p, t := q / c, q % c;
    assert n == 256 * q + s && q == c * p + t;
    assert n == (256 * c) * p + (256 * t + s);
    assert 0 <= 256 * t + s < 256 * c;
    Quotient(n, 256 * c, p, 256 * t + s);
  }

  lemma Quotient(n: nat, c: nat, p: nat, t: nat)
    requires t < c && n == c * p + t
    ensures n / c == p
  {
    var d := n / c;
    assert c * d <= n < c * d + c;
    if d > p {
      Monotone(c, p + 1, d);
    } else if d < p {
      Monotone(c, d + 1, p);
    }
  }

  lemma Monotone(c: nat, a: nat, b: nat)
    requires a <= b
    ensures c * a <= c * b
  {
  }

  lemma {:induction false} LittleImage(b: seq<byte>)
    ensures ToLittle(FromLittle(b), |b|) == b
  {
    if b != [] {
      LittleImage(b[1..]);
      assert FromLittle(b) % 256 == b[0] && FromLittle(b) / 256 == FromLittle(b[1..]);
    }
  }

  /** Every byte string is the image of the integer read from it. */
  lemma StoreLoad(order: Endianness, bs: seq<byte>)
    ensures Store(order, Load(order, bs), |bs|) == bs
  {
    if order.Little? {
      LittleImage(bs);
    } else {
      LittleImage(Reverse(bs));
      ReverseTwice(bs);
    }
  }

  lemma FourByteImage()
    ensures Store(Little, 0x0102, 4) == [0x02, 0x01, 0, 0] && Store(Big, 0x0102, 4) == [0, 0, 0x01, 0x02]
  {
    var bs := [0x02, 0x01, 0, 0];
    assert ToLittle(0x0102, 4) == bs;
    assert Reverse(bs) == [0, 0, 0x01, 0x02];
    hide *;
  }

  lemma TimestampImage()
    ensures Store(Little, 0x030405, 8) == [0x05, 0x04, 0x03, 0, 0, 0, 0, 0]
  {
  }

  lemma EventIdImage()
    ensures Store(Little, 0x06070809, 8) == [0x09, 0x08, 0x07, 0x06, 0, 0, 0, 0]
  {
    assert ToLittle(0x0607, 6) == [0x07, 0x06, 0, 0, 0, 0];
    assert ToLittle(0x060708, 7) == [0x08] + ToLittle(0x0607, 6);
    assert ToLittle(0x06070809, 8) == [0x09] + ToLittle(0x060708, 7);
  }

  lemma ReverseEight(bs: seq<byte>)
    requires |bs| == 8
    ensures Reverse(bs) == [bs[7], bs[6], bs[5], bs[4], bs[3], bs[2], bs[1], bs[0]]
  {
  }

  lemma BigIsReversed(n: nat, w: nat)
    ensures Store(Big, n, w) == Reverse(Store(Little, n, w))
  {
  }

  lemma HeaderParts(order: Endianness, klassId: nat, timestamp: nat, id: nat)
    ensures HeaderBytes(order, klassId, Header(timestamp, id))
         == Store(order, klassId, 4) + Store(order, timestamp, 8) + Store(order, id, 8)
  {
  }

  /** A header in each byte order: four bytes of class identifier, eight of timestamp, eight of event id. */
  lemma HeaderImage()
    ensures HeaderBytes(Little, 0x0102, Header(0x030405, 0x06070809))
         == [0x02, 0x01, 0, 0] + [0x05, 0x04, 0x03, 0, 0, 0, 0, 0] + [0x09, 0x08, 0x07, 0x06, 0, 0, 0, 0]
    ensures HeaderBytes(Big, 0x0102, Header(0x030405, 0x06070809))
         == [0, 0, 0x01, 0x02] + [0, 0, 0, 0, 0, 0x03, 0x04, 0x05] + [0, 0, 0, 0, 0x06, 0x07, 0x08, 0x09]
  {
    hide *;
    FourByteImage();
    TimestampImage();
    EventIdImage();
    ReverseEight(Store(Little, 0x030405, 8));
    ReverseEight(Store(Little, 0x06070809, 8));
    BigIsReversed(0x030405, 8);
    BigIsReversed(0x06070809, 8);
    HeaderParts(Little, 0x0102, 0x030405, 0x06070809);
    HeaderParts(Big, 0x0102, 0x030405, 0x06070809);
  }

  // Events.

  function Zeros(n: nat): seq<byte> {
    seq(n, _ => 0)
  }

  lemma ZeroStore(order: Endianness, w: nat)
    ensures Store(order, 0, w) == Zeros(w)
  {
    ZeroImage(w);
  }

  lemma OneByte(order: Endianness, b: byte)
    ensures Store(order, b, 1) == [b]
  {
    assert ToLittle(b, 1) == [b % 256] + ToLittle(b / 256, 0) == [b];
  }

  lemma NoMoreFields(order: Endianness, f: FieldDecl, v: FieldValue)
    requires Fits(v, f)
    ensures AllFit([v], [f]) && FieldsBytes(order, [f], [v]) == FieldBytes(order, f, v)
  {
    assert [f][1..] == [];
  }

  lemma ConsFields(order: Endianness, f: FieldDecl, v: FieldValue, fields: seq<FieldDecl>, values: seq<FieldValue>)
    requires Fits(v, f) && AllFit(values, fields)
    ensures AllFit([v] + values, [f] + fields)
    ensures FieldsBytes(order, [f] + fields, [v] + values)
            == FieldBytes(order, f, v) + FieldsBytes(order, fields, values)
  {
    assert ([f] + fields)[1..] == fields && ([v] + values)[1..] == values;
  }

  lemma ByteField(order: Endianness, name: cstring, b: byte)
    ensures Fits(IntValue(b), U8(name)) && FieldBytes(order, U8(name), IntValue(b)) == [b]
  {
    OneByte(order, b);
    assert Capacity(1) == 256 * Capacity(0);
  }

  lemma DirectInstance(r: seq<Klass>, it: Item)
    requires it.klassId < |r| && r[it.klassId].Derived? && r[it.klassId].base.HTEvent?
    requires it.ev.Extended? && it.ev.base == Header(0, 0) && AllFit(it.ev.values, r[it.klassId].fields)
    ensures ValidItem(r, it)
  {
    assert InstanceOf(it.ev.base, HTEvent);
  }

  /** A class derived from HT_Event: a header, then the fields in the order of their declaration. */
  lemma DirectBytes(order: Endianness, r: seq<Klass>, it: Item)
    requires ValidItem(r, it) && r[it.klassId].Derived? && r[it.klassId].base.HTEvent?
    ensures it.ev.Extended? && it.ev.base.Header? && AllFit(it.ev.values, r[it.klassId].fields)
    ensures ItemBytes(order, r, it)
         == HeaderBytes(order, it.klassId, it.ev.base) + FieldsBytes(order, r[it.klassId].fields, it.ev.values)
  {
    var k := r[it.klassId];
    SerializedSplit(order, it.klassId, k, it.ev);
    assert InstanceOf(it.ev.base, HTEvent);
    SerializedHeader(order, it.klassId, it.ev.base);
    hide Serialized;
    hide InstanceOf;
    hide FieldsBytes;
  }

  /** The first event of every stream: twenty zeros and the code of the byte order. */
  lemma EndiannessBytes(order: Endianness, r: seq<Klass>)
    requires Reserved(r)
    ensures ValidItem(r, EndiannessItem(order))
    ensures ItemBytes(order, r, EndiannessItem(order)) == Zeros(20) + [if order == Little then 0 else 1]
  {
    var it, code := EndiannessItem(order), if order == Little then 0 else 1;
    ByteField(order, ENDIANNESS, code);
    NoMoreFields(order, U8(ENDIANNESS), IntValue(code));
    DirectInstance(r, it);
    DirectBytes(order, r, it);
    HeaderParts(order, 0, 0, 0);
    ZeroStore(order, 4);
    ZeroStore(order, 8);
    hide FieldsBytes;
    hide ItemBytes;
    hide HeaderBytes;
    hide Store;
    assert Zeros(4) + Zeros(8) + Zeros(8) == Zeros(20);
  }

  /** The last event of the metadata: class identifier eight, sixteen zeros and the version, most significant first. */
  lemma SystemInfoBytes(order: Endianness, r: seq<Klass>, major: byte, minor: byte, patch: byte)
    requires Reserved(r)
    ensures ValidItem(r, SystemInfoItem(major, minor, patch))
    ensures ItemBytes(order, r, SystemInfoItem(major, minor, patch))
         == (if order == Little then [8, 0, 0, 0] else [0, 0, 0, 8]) + Zeros(16) + [major, minor, patch]
  {
    var it := SystemInfoItem(major, minor, patch);
    VersionFields(order, major, minor, patch);
    DirectInstance(r, it);
    DirectBytes(order, r, it);
    HeaderParts(order, 8, 0, 0);
    EightImage(order);
    ZeroStore(order, 8);
    hide FieldsBytes;
    hide ItemBytes;
    hide HeaderBytes;
    hide Store;
    assert Zeros(8) + Zeros(8) == Zeros(16);
  }

  lemma EightImage(order: Endianness)
    ensures Store(order, 8, 4) == if order == Little then [8, 0, 0, 0] else [0, 0, 0, 8]
  {
    assert ToLittle(8, 4) == [8, 0, 0, 0];
    assert Reverse([8, 0, 0, 0]) == [0, 0, 0, 8];
    hide ToLittle;
    hide Reverse;
  }

  lemma VersionFields(order: Endianness, major: byte, minor: byte, patch: byte)
    ensures var fs, vs := SYSTEM_INFO_EVENT.fields, SystemInfoItem(major, minor, patch).ev.values;
            AllFit(vs, fs) && FieldsBytes(order, fs, vs) == [major, minor, patch]
  {
    var fs, vs := SYSTEM_INFO_EVENT.fields, SystemInfoItem(major, minor, patch).ev.values;
    hide FieldsBytes;
    hide FieldBytes;
    hide Fits;
    hide AllFit;
    ByteField(order, fs[0].name, major);
    ByteField(order, fs[1].name, minor);
    ByteField(order, fs[2].name, patch);
    NoMoreFields(order, fs[2], vs[2]);
    ConsFields(order, fs[1], vs[1], [fs[2]], [vs[2]]);
    assert [fs[1]] + [fs[2]] == [fs[1], fs[2]] && [vs[1]] + [vs[2]] == [vs[1], vs[2]];
    ConsFields(order, fs[0], vs[0], [fs[1], fs[2]], [vs[1], vs[2]]);
    assert [fs[0]] + [fs[1], fs[2]] == fs && [vs[0]] + [vs[1], vs[2]] == vs;
  }

  lemma TextField(order: Endianness, name: cstring, s: cstring)
    ensures Fits(StringValue(s), Text(name)) && FieldBytes(order, Text(name), StringValue(s)) == s + [0]
  {
  }

  lemma WordField(order: Endianness, name: cstring, ctype: cstring, n: nat)
    requires n < Capacity(4)
    ensures Fits(IntValue(n), U32(name, ctype))
            && FieldBytes(order, U32(name, ctype), IntValue(n)) == Store(order, n, 4)
  {
  }

  lemma LongField(order: Endianness, name: cstring, ctype: cstring, n: nat)
    requires n < Capacity(8)
    ensures Fits(IntValue(n), U64(name, ctype))
            && FieldBytes(order, U64(name, ctype), IntValue(n)) == Store(order, n, 8)
  {
  }

  /** Two fields, three and five. */
  lemma TwoFields(order: Endianness, f: FieldDecl, g: FieldDecl, v: FieldValue, w: FieldValue)
    requires Fits(v, f) && Fits(w, g)
    ensures AllFit([v, w], [f, g])
    ensures FieldsBytes(order, [f, g], [v, w]) == FieldBytes(order, f, v) + FieldBytes(order, g, w)
  {
    NoMoreFields(order, g, w);
    ConsFields(order, f, v, [g], [w]);
    assert [f] + [g] == [f, g] && [v] + [w] == [v, w];
    hide *;
  }

  lemma ThreeFields(order: Endianness, fs: seq<FieldDecl>, vs: seq<FieldValue>)
    requires |fs| == |vs| == 3 && Fits(vs[0], fs[0]) && Fits(vs[1], fs[1]) && Fits(vs[2], fs[2])
    ensures AllFit(vs, fs)
    ensures FieldsBytes(order, fs, vs)
         == FieldBytes(order, fs[0], vs[0]) + FieldBytes(order, fs[1], vs[1]) + FieldBytes(order, fs[2], vs[2])
  {
    TwoFields(order, fs[1], fs[2], vs[1], vs[2]);
    ConsFields(order, fs[0], vs[0], [fs[1], fs[2]], [vs[1], vs[2]]);
    assert [fs[0]] + [fs[1], fs[2]] == fs && [vs[0]] + [vs[1], vs[2]] == vs;
    hide *;
  }

  lemma FiveFields(order: Endianness, fs: seq<FieldDecl>, vs: seq<FieldValue>)
    requires |fs| == |vs| == 5 && Fits(vs[0], fs[0]) && Fits(vs[1], fs[1]) && Fits(vs[2], fs[2])
    requires Fits(vs[3], fs[3]) && Fits(vs[4], fs[4])
    ensures AllFit(vs, fs)
    ensures FieldsBytes(order, fs, vs)
         == FieldBytes(order, fs[0], vs[0]) + FieldBytes(order, fs[1], vs[1]) + FieldBytes(order, fs[2], vs[2])
            + FieldBytes(order, fs[3], vs[3]) + FieldBytes(order, fs[4], vs[4])
  {
    hide *;
    var gs, ws := [fs[2], fs[3], fs[4]], [vs[2], vs[3], vs[4]];
    ThreeFields(order, gs, ws);
    ConsFields(order, fs[1], vs[1], gs, ws);
    ConsFields(order, fs[0], vs[0], [fs[1]] + gs, [vs[1]] + ws);
    assert [fs[0]] + ([fs[1]] + gs) == fs && [vs[0]] + ([vs[1]] + ws) == vs;
    FiveParts(FieldBytes(order, fs[0], vs[0]), FieldBytes(order, fs[1], vs[1]), FieldBytes(order, fs[2], vs[2]),
              FieldBytes(order, fs[3], vs[3]), FieldBytes(order, fs[4], vs[4]));
  }

  lemma FiveParts(a: seq<byte>, b: seq<byte>, c: seq<byte>, d: seq<byte>, e: seq<byte>)
    ensures a + (b + (c + d + e)) == a + b + c + d + e
  {
    ConcatAssoc(b, c + d, e);
    ConcatAssoc(b, c, d);
    ConcatAssoc(a, b + (c + d), e);
    ConcatAssoc(a, b + c, d);
    ConcatAssoc(a, b, c);
  }

  /** The description of a class: class identifier two; its identifier, its name, its number of fields modulo 256. */
  lemma KlassInfoBytes(order: Endianness, r: seq<Klass>, it: Item, i: nat, k: Klass)
    requires Reserved(r) && ValidItem(r, it) && Carries(it, KlassRecord(i, k)) && i < Capacity(4)
    ensures it.ev.base.Header?
    ensures ItemBytes(order, r, it)
         == HeaderBytes(order, 2, it.ev.base) + (Store(order, i, 4) + (Name(k) + [0]) + [|TypeFields(k)| % 256])
  {
    var fs, vs := KLASS_INFO_EVENT.fields, it.ev.values;
    DirectBytes(order, r, it);
    WordField(order, fs[0].name, fs[0].ctype, i);
    TextField(order, fs[1].name, Name(k));
    ByteField(order, fs[2].name, |TypeFields(k)| % 256);
    ThreeFields(order, fs, vs);
    hide Name;
    hide TypeFields;
    hide ItemBytes;
    hide FieldsBytes;
    hide FieldBytes;
    hide Fits;
    hide HeaderBytes;
    hide Store;
  }

  /** The description of a field: class identifier three; the class, the type, the name, the size, the data type. */
  lemma FieldInfoBytes(order: Endianness, r: seq<Klass>, it: Item, i: nat, f: TypeField)
    requires Reserved(r) && ValidItem(r, it) && Carries(it, FieldRecord(i, f)) && i < Capacity(4)
    requires f.size < Capacity(8) && f.dataType < 256
    ensures it.ev.base.Header?
    ensures ItemBytes(order, r, it)
         == HeaderBytes(order, 3, it.ev.base)
            + (Store(order, i, 4) + (f.ctype + [0]) + (f.name + [0]) + Store(order, f.size, 8) + [f.dataType])
  {
    var fs, vs := FIELD_INFO_EVENT.fields, it.ev.values;
    DirectBytes(order, r, it);
    WordField(order, fs[0].name, fs[0].ctype, i);
    TextField(order, fs[1].name, f.ctype);
    TextField(order, fs[2].name, f.name);
    LongField(order, fs[3].name, fs[3].ctype, f.size);
    ByteField(order, fs[4].name, f.dataType);
    FiveFields(order, fs, vs);
    hide ItemBytes;
    hide FieldsBytes;
    hide FieldBytes;
    hide Fits;
    hide HeaderBytes;
    hide Store;
  }

  // Callstack and string events.

  /** Duration, thread and label behind the header; the label is eight bytes or a string. */
  lemma CallstackBytes(order: Endianness, r: seq<Klass>, it: Item)
    requires CORE_KLASSES <= r && ValidItem(r, it) && (it.klassId == 5 || it.klassId == 6)
    ensures it.ev.Extended? && it.ev.base.Extended? && it.ev.base.base.Header? && |it.ev.base.values| == 2
    ensures it.ev.base.values[0].IntValue? && it.ev.base.values[1].IntValue? && |it.ev.values| == 1
    ensures it.klassId == 5 ==> it.ev.values[0].IntValue?
    ensures it.klassId == 6 ==> it.ev.values[0].StringValue?
    ensures ItemBytes(order, r, it)
         == HeaderBytes(order, it.klassId, it.ev.base.base)
            + (Store(order, it.ev.base.values[0].n, 8) + Store(order, it.ev.base.values[1].n, 4))
            + (if it.klassId == 5 then Store(order, it.ev.values[0].n, 8) else it.ev.values[0].s + [0])
  {
    var k, ev := r[it.klassId], it.ev;
    assert r[..|CORE_KLASSES|] == CORE_KLASSES;
    assert k == if it.klassId == 5 then CALLSTACK_INT_EVENT else CALLSTACK_STRING_EVENT;
    hide CORE_KLASSES;
    TwoLevels(order, it.klassId, k, ev);
    var fs, vs := k.base.fields, ev.base.values;
    assert vs == [vs[0], vs[1]] && ev.values == [ev.values[0]];
    assert Fits(vs[0], fs[0]) && Fits(vs[1], fs[1]) && Fits(ev.values[0], k.fields[0]);
    TwoFields(order, fs[0], fs[1], vs[0], vs[1]);
    NoMoreFields(order, k.fields[0], ev.values[0]);
    hide Serialized;
    hide InstanceOf;
    hide FieldsBytes;
    hide HeaderBytes;
    hide Store;
  }

  lemma TwoLevels(order: Endianness, klassId: nat, k: Klass, ev: EventData)
    requires k.Derived? && k.base.Derived? && k.base.base.HTEvent? && InstanceOf(ev, k)
    ensures ev.Extended? && ev.base.Extended? && ev.base.base.Header?
    ensures AllFit(ev.values, k.fields) && AllFit(ev.base.values, k.base.fields)
    ensures Serialized(order, klassId, k, ev)
         == HeaderBytes(order, klassId, ev.base.base) + FieldsBytes(order, k.base.fields, ev.base.values)
            + FieldsBytes(order, k.fields, ev.values)
  {
    hide *;
    SerializedSplit(order, klassId, k, ev);
    SerializedSplit(order, klassId, k.base, ev.base);
    SerializedHeader(order, klassId, ev.base.base);
  }

  /** The announcement of a label: its identifier and its text. */
  lemma StringMappingBytes(order: Endianness, r: seq<Klass>, it: Item)
    requires CORE_KLASSES <= r && ValidItem(r, it) && it.klassId == 7
    ensures it.ev.Extended? && it.ev.base.Header? && |it.ev.values| == 2
    ensures it.ev.values[0].IntValue? && it.ev.values[1].StringValue?
    ensures ItemBytes(order, r, it)
         == HeaderBytes(order, 7, it.ev.base) + (Store(order, it.ev.values[0].n, 8) + (it.ev.values[1].s + [0]))
  {
    assert r[..|CORE_KLASSES|] == CORE_KLASSES;
    var fs, vs := STRING_MAPPING_EVENT.fields, it.ev.values;
    DirectBytes(order, r, it);
    assert Fits(vs[0], fs[0]) && Fits(vs[1], fs[1]);
    assert vs == [vs[0], vs[1]];
    TwoFields(order, fs[0], fs[1], vs[0], vs[1]);
    hide ItemBytes;
    hide FieldsBytes;
    hide HeaderBytes;
    hide Store;
  }
}
