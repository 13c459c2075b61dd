/**
 Event classes and their generated size and serialisation functions
 (lib/include/hawktracer/event_macros.h, lib/events.c).

 An event structure is either HT_Event or a structure whose first member, `base`, is another event
 structure.  Integers are modelled by their bit patterns; the byte order is that of the machine
 running the traced program.
 */
module EventKlasses {
  import opened Bytes

  datatype FieldDecl =
    | IntField(name: cstring, ctype: cstring, width: nat, signed: bool)
    | StringField(name: cstring, ctype: cstring)

  datatype Klass =
    | HTEvent
    | Derived(derivedName: cstring, base: Klass, fields: seq<FieldDecl>, structSize: nat)

  datatype FieldValue = IntValue(n: nat) | StringValue(s: cstring)

  /** The contents of an event structure, without the class pointer. */
  datatype EventData =
    | Header(timestamp: nat, id: nat)
    | Extended(base: EventData, values: seq<FieldValue>)

  predicate Fits(v: FieldValue, f: FieldDecl) {
    match f
    case IntField(_, _, w, _) => v.IntValue? && IsWidth(w) && v.n < Capacity(w)
    case StringField(_, _) => v.StringValue?
  }

  predicate AllFit(values: seq<FieldValue>, fields: seq<FieldDecl>) {
    |values| == |fields| && forall i :: 0 <= i < |fields| ==> Fits(values[i], fields[i])
  }

  predicate InstanceOf(ev: EventData, k: Klass) {
    match k
    case HTEvent => ev.Header? && ev.timestamp < Capacity(8) && ev.id < Capacity(8)
    case Derived(_, base, fields, _) =>
      ev.Extended? && InstanceOf(ev.base, base) && AllFit(ev.values, fields)
  }

  /** The number of bytes of the HT_Event part on the wire: class id, timestamp and event id. */
  const HEADER_SIZE := 20

  function FieldSize(f: FieldDecl, v: FieldValue): nat
    requires Fits(v, f)
  {
    match f
    case IntField(_, _, w, _) => w
    case StringField(_, _) => |v.s| + 1
  }

  function FieldsSize(fields: seq<FieldDecl>, values: seq<FieldValue>): nat
    requires AllFit(values, fields)
  {
    if fields == [] then 0
    else FieldSize(fields[0], values[0]) + FieldsSize(fields[1..], values[1..])
  }

  /** The generated get_size function. */
  function GetSize(k: Klass, ev: EventData): nat
    requires InstanceOf(ev, k)
  {
    match k
    case HTEvent => HEADER_SIZE
    case Derived(_, base, fields, _) => GetSize(base, ev.base) + FieldsSize(fields, ev.values)
  }

  function FieldBytes(order: Endianness, f: FieldDecl, v: FieldValue): (bs: seq<byte>)
    requires Fits(v, f)
    ensures |bs| == FieldSize(f, v)
  {
    match f
    case IntField(_, _, w, _) => Store(order, v.n, w)
    case StringField(_, _) => v.s + [0]
  }

  function FieldsBytes(order: Endianness, fields: seq<FieldDecl>, values: seq<FieldValue>): (bs: seq<byte>)
    requires AllFit(values, fields)
    ensures |bs| == FieldsSize(fields, values)
  {
    if fields == [] then []
    else FieldBytes(order, fields[0], values[0]) + FieldsBytes(order, fields[1..], values[1..])
  }

  function HeaderOf(ev: EventData): (h: EventData)
    ensures h.Header?
  {
    if ev.Header? then ev else HeaderOf(ev.base)
  }

  lemma {:induction false} HeaderInRange(ev: EventData, k: Klass)
    requires InstanceOf(ev, k)
    ensures InstanceOf(HeaderOf(ev), HTEvent)
  {
    if k.Derived? {
      HeaderInRange(ev.base, k.base);
    }
  }

  /** The HT_Event part of a serialised event. */
  function HeaderBytes(order: Endianness, klassId: nat, h: EventData): (bs: seq<byte>)
    requires h.Header?
    ensures |bs| == HEADER_SIZE
  {
    Store(order, klassId, 4) + Store(order, h.timestamp, 8) + Store(order, h.id, 8)
  }

  /** Everything after the HT_Event part, fields of base classes first. */
  function Payload(order: Endianness, k: Klass, ev: EventData): (bs: seq<byte>)
    requires InstanceOf(ev, k)
    ensures |bs| + HEADER_SIZE == GetSize(k, ev)
  {
    match k
    case HTEvent => []
    case Derived(_, base, fields, _) => Payload(order, base, ev.base) + FieldsBytes(order, fields, ev.values)
  }

  /** An event on the wire. */
  function Serialized(order: Endianness, klassId: nat, k: Klass, ev: EventData): (bs: seq<byte>)
    requires InstanceOf(ev, k)
    ensures |bs| == GetSize(k, ev) >= HEADER_SIZE
  {
    HeaderBytes(order, klassId, HeaderOf(ev)) + Payload(order, k, ev)
  }

  /** True when only buffer[from..to] may differ from the old contents. */
  twostate predicate OnlyRange(buffer: array<byte>, from: nat, to: nat)
    reads buffer
  {
    forall i :: 0 <= i < buffer.Length && !(from <= i < to) ==> buffer[i] == old(buffer[i])
  }

  method CopyBytes(buffer: array<byte>, at: nat, bs: seq<byte>)
    requires at + |bs| <= buffer.Length
    modifies buffer
    ensures buffer[at..at + |bs|] == bs
    ensures OnlyRange(buffer, at, at + |bs|)
  {
    for i := 0 to |bs|
      invariant forall j :: 0 <= j < i ==> buffer[at + j] == bs[j]
      invariant OnlyRange(buffer, at, at + |bs|)
    {
      buffer[at + i] := bs[i];
    }
  }

  /** A copy at the end of an already written range extends that range. */
  method AppendBytes(buffer: array<byte>, at: nat, offset: nat, bs: seq<byte>, ghost done: seq<byte>)
    requires at + offset + |bs| <= buffer.Length
    requires buffer[at..at + offset] == done
    modifies buffer
    ensures buffer[at..at + offset + |bs|] == done + bs
    ensures OnlyRange(buffer, at + offset, at + offset + |bs|)
  {
    CopyBytes(buffer, at + offset, bs);
    assert buffer[at..at + offset] == done;
    assert buffer[at..at + offset + |bs|] == buffer[at..at + offset] + buffer[at + offset..at + offset + |bs|];
  }

  /** serialize for HT_Event: three copies at a moving offset. */
  method SerializeHeader(order: Endianness, klassId: nat, h: EventData, buffer: array<byte>, at: nat)
    returns (offset: nat)
    requires h.Header? && at + HEADER_SIZE <= buffer.Length
    modifies buffer
    ensures offset == HEADER_SIZE
    ensures buffer[at..at + offset] == HeaderBytes(order, klassId, h)
    ensures OnlyRange(buffer, at, at + offset)
  {
    offset := 0;
    AppendBytes(buffer, at, offset, Store(order, klassId, 4), []);
    offset := offset + 4;
    AppendBytes(buffer, at, offset, Store(order, h.timestamp, 8), Store(order, klassId, 4));
    offset := offset + 8;
    AppendBytes(buffer, at, offset, Store(order, h.id, 8), Store(order, klassId, 4) + Store(order, h.timestamp, 8));
    offset := offset + 8;
  }

  lemma FieldsUnfold(order: Endianness, fields: seq<FieldDecl>, values: seq<FieldValue>)
    requires AllFit(values, fields) && fields != []
    ensures values != [] && Fits(values[0], fields[0]) && AllFit(values[1..], fields[1..])
    ensures FieldsSize(fields, values)
            == |FieldBytes(order, fields[0], values[0])| + FieldsSize(fields[1..], values[1..])
    ensures FieldsBytes(order, fields, values)
         == FieldBytes(order, fields[0], values[0]) + FieldsBytes(order, fields[1..], values[1..])
  {
  }

  lemma NoFields(order: Endianness, values: seq<FieldValue>)
    requires AllFit(values, [])
    ensures FieldsSize([], values) == 0 && FieldsBytes(order, [], values) == []
  {
  }

  /** Writes the fields a class adds to its base, each at the current offset. */
  method SerializeFields(order: Endianness, fields: seq<FieldDecl>, values: seq<FieldValue>,
                         buffer: array<byte>, at: nat, start: nat, ghost done: seq<byte>)
    returns (offset: nat)
    requires AllFit(values, fields) && at + start + FieldsSize(fields, values) <= buffer.Length
    requires buffer[at..at + start] == done
    modifies buffer
    ensures offset == start + FieldsSize(fields, values)
    ensures buffer[at..at + offset] == done + FieldsBytes(order, fields, values)
    ensures OnlyRange(buffer, at + start, at + offset)
  {
    hide FieldBytes;
    hide FieldsBytes;
    hide FieldsSize;
    hide AllFit;
    hide Fits;
    if fields == [] {
      NoFields(order, values);
      assert done + [] == done;
      offset := start;
    } else {
      FieldsUnfold(order, fields, values);
      var bs := FieldBytes(order, fields[0], values[0]);
      ConcatAssoc(done, bs, FieldsBytes(order, fields[1..], values[1..]));
      AppendBytes(buffer, at, start, bs, done);
      offset := SerializeFields(order, fields[1..], values[1..], buffer, at, start + |bs|, done + bs);
    }
  }

  lemma SerializedSplit(order: Endianness, klassId: nat, k: Klass, ev: EventData)
    requires InstanceOf(ev, k) && k.Derived?
    ensures ev.Extended? && InstanceOf(ev.base, k.base) && AllFit(ev.values, k.fields)
    ensures GetSize(k, ev) == GetSize(k.base, ev.base) + FieldsSize(k.fields, ev.values)
    ensures Serialized(order, klassId, k, ev)
         == Serialized(order, klassId, k.base, ev.base) + FieldsBytes(order, k.fields, ev.values)
  {
  }

  lemma SerializedHeader(order: Endianness, klassId: nat, ev: EventData)
    requires InstanceOf(ev, HTEvent)
    ensures ev.Header? && GetSize(HTEvent, ev) == HEADER_SIZE
    ensures Serialized(order, klassId, HTEvent, ev) == HeaderBytes(order, klassId, ev)
  {
  }

  /**
   The generated serialize function: the base structure is written at the start of the buffer,
   then the fields of the class itself.
   */
  method Serialize(order: Endianness, klassId: nat, k: Klass, ev: EventData, buffer: array<byte>, at: nat)
    returns (offset: nat)
    requires InstanceOf(ev, k) && at + GetSize(k, ev) <= buffer.Length
    modifies buffer
    ensures offset == GetSize(k, ev)
    ensures buffer[at..at + offset] == Serialized(order, klassId, k, ev)
    ensures OnlyRange(buffer, at, at + offset)
    decreases k
  {
    hide Serialized;
    hide GetSize;
    hide InstanceOf;
    hide FieldsBytes;
    hide FieldsSize;
    hide AllFit;
    hide HeaderBytes;
    match k
    case HTEvent =>
      SerializedHeader(order, klassId, ev);
      offset := SerializeHeader(order, klassId, ev, buffer, at);
    case Derived(_, base, fields, _) =>
      SerializedSplit(order, klassId, k, ev);
      offset := Serialize(order, klassId, base, ev.base, buffer, at);
      offset := SerializeFields(order, fields, ev.values, buffer, at, offset,
                                Serialized(order, klassId, base, ev.base));
  }

  /** Serialises an event behind the part of a buffer already in use. */
  method SerializeBehind(order: Endianness, klassId: nat, k: Klass, ev: EventData, buffer: array<byte>, used: nat)
    returns (n: nat)
    requires InstanceOf(ev, k) && used + GetSize(k, ev) <= buffer.Length
    modifies buffer
    ensures n == GetSize(k, ev)
    ensures buffer[..used + n] == old(buffer[..used]) + Serialized(order, klassId, k, ev)
  {
    ghost var before := buffer[..];
    n := Serialize(order, klassId, k, ev, buffer, used);
    Joined(before, buffer[..], used, Serialized(order, klassId, k, ev));
    hide *;
  }

  lemma Joined(before: seq<byte>, after: seq<byte>, used: nat, bs: seq<byte>)
    requires used + |bs| <= |after| == |before| && after[used..used + |bs|] == bs
    requires forall i :: 0 <= i < used ==> after[i] == before[i]
    ensures after[..used + |bs|] == before[..used] + bs
  {
    assert after[..used] == before[..used];
  }

  lemma SizeCons(f: FieldDecl, fields: seq<FieldDecl>, v: FieldValue, values: seq<FieldValue>)
    requires Fits(v, f) && AllFit(values, fields)
    ensures AllFit([v] + values, [f] + fields)
    ensures FieldsSize([f] + fields, [v] + values) == FieldSize(f, v) + FieldsSize(fields, values)
  {
    assert ([f] + fields)[1..] == fields && ([v] + values)[1..] == values;
  }
}
