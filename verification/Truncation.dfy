/**
 Streams that end too early (parser/protocol_reader.cpp): cutting the input off at any byte delivers the events before
 the cut, unchanged, and then ends the reading; it never makes the parser deliver anything else or throw.
 */
module Truncation {
  import opened Bytes
  import opened EndiannessConvert
  import opened EventKlasses
  import opened Registry
  import opened KlassTable
  import opened ProtocolReader
  import opened Decoding
  import opened RoundTrip
  import opened Tracing
  import WireFormat

  /** The outcome c on the first n of the bytes on which the outcome was r. */
  ghost predicate CutOf<T>(r: Read<T>, c: Read<T>, bytes: seq<byte>, n: nat)
    requires n <= |bytes|
  {
    match r
    case Got(v, rest) =>
      var used := |bytes| - |rest|;
      && 0 <= used && rest == bytes[used..]
      && c == if n < used then Fail else Got(v, bytes[used..n])
    case Fail => c.Fail?
    case Crash => !c.Got?
  }

  // Single fields.

  lemma {:induction false} TextCut(bytes: seq<byte>, n: nat)
    requires n <= |bytes|
    ensures CutOf(ReadText(bytes), ReadText(bytes[..n]), bytes, n)
  {
    if n > 0 && bytes[0] != 0 {
      TextCut(bytes[1..], n - 1);
      assert bytes[..n][1..] == bytes[1..][..n - 1];
    }
  }

  lemma NumericCut(mode: Mode, t: FieldTypeId, bytes: seq<byte>, n: nat)
    requires IsNumeric(t) && n <= |bytes|
    ensures CutOf(ReadNumeric(mode, t, bytes), ReadNumeric(mode, t, bytes[..n]), bytes, n)
  {
    var w := WidthOf(t);
    if w <= n {
      assert bytes[..n][..w] == bytes[..w];
    }
    hide ConvertToNative;
    hide Load;
    hide WidthOf;
  }

  lemma CharsCut(signed: bool, bytes: seq<byte>, n: nat)
    requires n <= |bytes|
    ensures CutOf(ReadChars(signed, bytes), ReadChars(signed, bytes[..n]), bytes, n)
  {
    TextCut(bytes, n);
    hide ReadText;
    hide SevenBit;
  }

  lemma ScalarCut(mode: Mode, t: FieldTypeId, bytes: seq<byte>, n: nat)
    requires t != STRUCT && n <= |bytes|
    ensures CutOf(ReadScalar(mode, t, bytes), ReadScalar(mode, t, bytes[..n]), bytes, n)
  {
    if IsNumeric(t) {
      NumericCut(mode, t, bytes, n);
    } else {
      CharsCut(mode.signed, bytes, n);
    }
    hide ReadNumeric;
    hide ReadChars;
  }

  // One event.

  /** What is left of a cut is a cut of what is left. */
  lemma CutStep<T>(r: Read<T>, c: Read<T>, bytes: seq<byte>, n: nat, used: nat)
    requires used <= n <= |bytes| && CutOf(r, c, bytes[used..], n - used)
    ensures CutOf(r, c, bytes, n)
  {
    if r.Got? {
      var u := |bytes[used..]| - |r.rest|;
      assert bytes[used..][u..] == bytes[used + u..];
      assert n - used >= u ==> bytes[used..][u..n - used] == bytes[used + u..n];
    }
  }

  lemma CutParts<T>(r: Read<T>, c: Read<T>, bytes: seq<byte>, n: nat)
    requires n <= |bytes| && CutOf(r, c, bytes, n)
    ensures r.Got? ==>
              && |r.rest| <= |bytes| && r.rest == bytes[|bytes| - |r.rest|..]
              && c == if n < |bytes| - |r.rest| then Fail else Got(r.value, bytes[|bytes| - |r.rest|..n])
    ensures r.Fail? ==> c.Fail?
    ensures r.Crash? ==> !c.Got?
  {
  }

  lemma CutWhole<T>(v: T, bytes: seq<byte>, n: nat)
    requires n <= |bytes|
    ensures CutOf(Got(v, bytes), Got(v, bytes[..n]), bytes, n)
  {
  }

  lemma CutFailure<T>(r: Read<T>, c: Read<T>, bytes: seq<byte>, n: nat)
    requires n <= |bytes| && !r.Got? && !c.Got? && (r.Fail? ==> c.Fail?)
    ensures CutOf(r, c, bytes, n)
  {
  }

  /** A cut within what was read first: r is the outcome on the rest of the whole. */
  lemma CutBefore<T>(bytes: seq<byte>, n: nat, used: nat, r: Read<T>, c: Read<T>)
    requires n < used <= |bytes| && CutOf(r, c, bytes[used..], 0)
    ensures CutOf(r, Fail, bytes, n)
  {
    hide *;
    CutRest(r, c, bytes[used..], 0);
    if r.Got? {
      SuffixOfSuffix(bytes, used, |r.rest|);
    }
    CutShort(r, bytes, n, used);
  }

  lemma CutRest<T>(r: Read<T>, c: Read<T>, bytes: seq<byte>, n: nat)
    requires n <= |bytes| && CutOf(r, c, bytes, n)
    ensures r.Got? ==> |r.rest| <= |bytes| && r.rest == bytes[|bytes| - |r.rest|..]
  {
  }

  lemma CutShort<T>(r: Read<T>, bytes: seq<byte>, n: nat, used: nat)
    requires n < used <= |bytes| && (r.Got? ==> |r.rest| <= |bytes| - used && r.rest == bytes[|bytes| - |r.rest|..])
    ensures CutOf(r, Fail, bytes, n)
  {
  }

  lemma SuffixOfSuffix(bytes: seq<byte>, used: nat, left: nat)
    requires used + left <= |bytes|
    ensures bytes[used..][|bytes[used..]| - left..] == bytes[|bytes| - left..]
  {
  }

  lemma Slices(bytes: seq<byte>, used: nat, n: nat)
    requires used <= n <= |bytes|
    ensures bytes[used..][..n - used] == bytes[used..n] && |bytes[..n]| == n && |bytes[used..n]| == n - used
  {
  }

  /** Whatever the register and the bytes: a read cut short fails, unless it was over before the cut. */
  lemma {:induction false} FieldsCut(mode: Mode, t: Table, base: Event, fields: seq<ParsedField>,
                                     values: map<cstring, Value>, bytes: seq<byte>, seen: set<nat>, n: nat)
    requires n <= |bytes|
    ensures CutOf(ReadFields(mode, t, base, fields, values, bytes, seen),
                  ReadFields(mode, t, base, fields, values, bytes[..n], seen), bytes, n)
    decreases |bytes|, |t.klasses.Keys - seen|, |fields|, 1
  {
    hide *;
    if fields == [] {
      NothingLeft(mode, t, base, values, bytes, seen);
      NothingLeft(mode, t, base, values, bytes[..n], seen);
      CutWhole(values, bytes, n);
    } else if fields[0].typeId != STRUCT {
      var f := fields[0];
      ScalarStep(mode, t, base, fields, values, bytes, seen);
      ScalarStep(mode, t, base, fields, values, bytes[..n], seen);
      ScalarCut(mode, f.typeId, bytes, n);
      ScalarShrinks(mode, f.typeId, bytes);
      ScalarShrinks(mode, f.typeId, bytes[..n]);
      var v, c := ReadScalar(mode, f.typeId, bytes), ReadScalar(mode, f.typeId, bytes[..n]);
      CutParts(v, c, bytes, n);
      if v.Got? {
        RestCut(mode, t, base, fields, SetValue(values, f.name, v.value), bytes, |bytes| - |v.rest|, {}, n);
      } else {
        CutFailure<map<cstring, Value>>(Fail, Fail, bytes, n);
      }
    } else {
      var f := fields[0];
      StructStep(mode, t, base, fields, values, bytes, seen);
      StructStep(mode, t, base, fields, values, bytes[..n], seen);
      StructCut(mode, t, base, fields, values, bytes, seen, n);
      var v, c := StructResult(mode, t, base, f, values, bytes, seen),
                  StructResult(mode, t, base, f, values, bytes[..n], seen);
      CutParts(v, c, bytes, n);
      if v.Got? {
        var used := |bytes| - |v.rest|;
        RestCut(mode, t, base, fields, v.value, bytes, used, if used > 0 then {} else seen, n);
      } else {
        CutFailure(v, c, bytes, n);
      }
    }
  }

  /** The fields after the first, which used some of the bytes. */
  lemma {:induction false} RestCut(mode: Mode, t: Table, base: Event, fields: seq<ParsedField>,
                                   values: map<cstring, Value>, bytes: seq<byte>, used: nat, seen: set<nat>, n: nat)
    requires n <= |bytes| && used <= |bytes| && fields != []
    ensures CutOf(ReadFields(mode, t, base, fields[1..], values, bytes[used..], seen),
                  if n < used then Fail
                  else ReadFields(mode, t, base, fields[1..], values, bytes[used..n], seen), bytes, n)
    decreases |bytes| - used, |t.klasses.Keys - seen|, |fields|, 0
  {
    hide *;
    var m := if n < used then 0 else n - used;
    FieldsCut(mode, t, base, fields[1..], values, bytes[used..], seen, m);
    var r, c := ReadFields(mode, t, base, fields[1..], values, bytes[used..], seen),
                ReadFields(mode, t, base, fields[1..], values, bytes[used..][..m], seen);
    if n < used {
      CutBefore(bytes, n, used, r, c);
    } else {
      CutStep(r, c, bytes, n, used);
      Slices(bytes, used, n);
    }
  }

  lemma {:induction false} StructCut(mode: Mode, t: Table, base: Event, fields: seq<ParsedField>,
                                     values: map<cstring, Value>, bytes: seq<byte>, seen: set<nat>, n: nat)
    requires n <= |bytes| && fields != [] && fields[0].typeId == STRUCT
    ensures CutOf(StructResult(mode, t, base, fields[0], values, bytes, seen),
                  StructResult(mode, t, base, fields[0], values, bytes[..n], seen), bytes, n)
    decreases |bytes|, |t.klasses.Keys - seen|, |fields|, 0
  {
    hide *;
    var f, id := fields[0], GetKlassByName(t, fields[0].typeName);
    StructResultIs(mode, t, base, f, values, bytes, seen);
    StructResultIs(mode, t, base, f, values, bytes[..n], seen);
    var r, c := StructResult(mode, t, base, f, values, bytes, seen),
                StructResult(mode, t, base, f, values, bytes[..n], seen);
    if IsEventBase(f) {
      CutWhole(r.value, bytes, n);
    } else if id.Some? && id.value in t.klasses && id.value !in seen {
      SeenGrows(t, seen, id.value);
      FieldsCut(mode, t, base, t.klasses[id.value].fields, map[], bytes, seen + {id.value}, n);
      CutWrap(ReadFields(mode, t, base, t.klasses[id.value].fields, map[], bytes, seen + {id.value}),
              ReadFields(mode, t, base, t.klasses[id.value].fields, map[], bytes[..n], seen + {id.value}), r, c, bytes,
              n);
    } else {
      CutFailure(r, c, bytes, n);
    }
  }

  /** What a structure contributes depends on what was decoded and on nothing behind it. */
  function Wrapped(mode: Mode, f: ParsedField, id: nat, values: map<cstring, Value>, sub: map<cstring, Value>)
    : map<cstring, Value>
  {
    if mode.flat then Merge(values, sub) else SetValue(values, f.name, Sub(Event(id, sub)))
  }

  lemma StructResultIs(mode: Mode, t: Table, base: Event, f: ParsedField, values: map<cstring, Value>,
                       bytes: seq<byte>, seen: set<nat>)
    requires f.typeId == STRUCT
    ensures var r, id := StructResult(mode, t, base, f, values, bytes, seen), GetKlassByName(t, f.typeName);
            if IsEventBase(f) then r == Got(if mode.flat then values else SetValue(values, f.name, Sub(base)), bytes)
            else if id.Some? && id.value in t.klasses && id.value !in seen then
              var sub := ReadFields(mode, t, base, t.klasses[id.value].fields, map[], bytes, seen + {id.value});
              r == if sub.Got? then Got(Wrapped(mode, f, id.value, values, sub.value), sub.rest) else sub
            else r == Crash
  {
    hide ReadFields;
    hide Merge;
    hide SetValue;
    hide GetKlassByName;
    hide IsEventBase;
  }

  /** Outcomes that differ in their values only, by the same function of the values read. */
  lemma CutWrap<T>(r: Read<T>, c: Read<T>, r': Read<T>, c': Read<T>, bytes: seq<byte>, n: nat)
    requires n <= |bytes| && CutOf(r, c, bytes, n)
    requires if r.Got? then r'.Got? && r'.rest == r.rest else r' == r
    requires if c.Got? then c'.Got? && c'.rest == c.rest else c' == c
    requires r.Got? && c.Got? && r.value == c.value ==> r'.value == c'.value
    ensures CutOf(r', c', bytes, n)
  {
  }

  function Cut(s: State, n: nat): State
    requires n <= |s.bytes|
  {
    s.(bytes := s.bytes[..n])
  }

  lemma HeaderCut(host: Endianness, flat: bool, signed: bool, s: State, n: nat)
    requires n <= |s.bytes|
    ensures CutOf(ReadHeader(host, flat, signed, s), ReadHeader(host, flat, signed, Cut(s, n)), s.bytes, n)
  {
    if EVENT_KLASS in s.table.klasses {
      FieldsCut(Mode(host, s.order, flat, signed), s.table, Event(EVENT_KLASS, map[]),
                s.table.klasses[EVENT_KLASS].fields, map[], s.bytes, {EVENT_KLASS}, n);
    }
    hide ReadFields;
  }

  lemma BodyCut(host: Endianness, flat: bool, signed: bool, s: State, klassId: nat, header: Event, bytes: seq<byte>,
                n: nat, m: nat)
    requires n <= |bytes| && m <= |s.bytes|
    ensures CutOf(ReadBody(host, flat, signed, s, klassId, header, bytes),
                  ReadBody(host, flat, signed, Cut(s, m), klassId, header, bytes[..n]), bytes, n)
  {
    if klassId in s.table.klasses {
      FieldsCut(Mode(host, s.order, flat, signed), s.table, header, s.table.klasses[klassId].fields, map[], bytes,
                {klassId}, n);
      var b, d := ReadFields(Mode(host, s.order, flat, signed), s.table, header, s.table.klasses[klassId].fields, map[],
                             bytes, {klassId}),
                  ReadFields(Mode(host, s.order, flat, signed), s.table, header, s.table.klasses[klassId].fields, map[],
                             bytes[..n], {klassId});
      BodyIs(host, flat, signed, s, klassId, header, bytes);
      BodyIs(host, flat, signed, Cut(s, m), klassId, header, bytes[..n]);
      CutKeepsTable(s, m);
      hide *;
      AssembledCut(flat, klassId, header, b, d, bytes, n);
    }
  }

  /** The outcome of a body, from that of its fields. */
  function Assembled(flat: bool, klassId: nat, header: Event, b: Read<map<cstring, Value>>): Read<Event> {
    match b
    case Got(values, rest) => Got(Event(klassId, if flat then Merge(values, header.values) else values), rest)
    case Fail => Fail
    case Crash => Crash
  }

  lemma BodyIs(host: Endianness, flat: bool, signed: bool, s: State, klassId: nat, header: Event, bytes: seq<byte>)
    requires klassId in s.table.klasses
    ensures ReadBody(host, flat, signed, s, klassId, header, bytes)
         == Assembled(flat, klassId, header,
                      ReadFields(Mode(host, s.order, flat, signed), s.table, header, s.table.klasses[klassId].fields,
                                 map[], bytes, {klassId}))
  {
    hide ReadFields;
    hide Merge;
  }

  lemma AssembledCut(flat: bool, klassId: nat, header: Event, b: Read<map<cstring, Value>>,
                     d: Read<map<cstring, Value>>, bytes: seq<byte>, n: nat)
    requires n <= |bytes| && CutOf(b, d, bytes, n)
    ensures CutOf(Assembled(flat, klassId, header, b), Assembled(flat, klassId, header, d), bytes, n)
  {
    hide Merge;
  }

  /** One turn of the loop on a stream cut off after n bytes, where the whole stream gives r. */
  ghost predicate StepCutOf(r: StepResult, c: StepResult, bytes: seq<byte>, n: nat)
    requires n <= |bytes|
  {
    match r
    case Delivered(e, next) =>
      var used := |bytes| - |next.bytes|;
      && 0 <= used && next.bytes == bytes[used..]
      && c == if n < used then Finished else Delivered(e, next.(bytes := bytes[used..n]))
    case Finished => c.Finished?
    case Crashed => !c.Delivered?
  }

  /** How an event that was read is delivered does not depend on the bytes behind it. */
  lemma DeliverCut(host: Endianness, s: State, m: nat, r: Read<Event>, c: Read<Event>, bytes: seq<byte>, n: nat)
    requires m <= |s.bytes| && n <= |bytes| && CutOf(r, c, bytes, n)
    ensures StepCutOf(match r
                      case Got(e, rest) => Deliver(host, s, e, rest)
                      case Fail => Finished
                      case Crash => Crashed,
                      match c
                      case Got(e, rest) => Deliver(host, Cut(s, m), e, rest)
                      case Fail => Finished
                      case Crash => Crashed, bytes, n)
  {
    hide Learn;
    hide GetNum;
    hide AssumedOrder;
  }

  lemma StepIs(host: Endianness, flat: bool, signed: bool, s: State)
    ensures var h := ReadHeader(host, flat, signed, s);
            Step(host, flat, signed, s)
            == if !h.Got? then if h.Fail? then Finished else Crashed
               else if GetNum(h.value, KLASS_ID).None? then Crashed
               else if GetNum(h.value, KLASS_ID).value == EVENT_KLASS then Deliver(host, s, h.value, h.rest)
               else match ReadBody(host, flat, signed, s, GetNum(h.value, KLASS_ID).value, h.value, h.rest)
                    case Got(e, rest) => Deliver(host, s, e, rest)
                    case Fail => Finished
                    case Crash => Crashed
  {
    hide ReadHeader;
    hide ReadBody;
    hide Deliver;
    hide GetNum;
  }

  lemma StepCut(host: Endianness, flat: bool, signed: bool, s: State, n: nat)
    requires n <= |s.bytes|
    ensures StepCutOf(Step(host, flat, signed, s), Step(host, flat, signed, Cut(s, n)), s.bytes, n)
  {
    hide *;
    var h, c := ReadHeader(host, flat, signed, s), ReadHeader(host, flat, signed, Cut(s, n));
    HeaderCut(host, flat, signed, s, n);
    StepIs(host, flat, signed, s);
    StepIs(host, flat, signed, Cut(s, n));
    CutParts(h, c, s.bytes, n);
    if h.Got? {
      var used := |s.bytes| - |h.rest|;
      var id := GetNum(h.value, KLASS_ID);
      if id.None? {
        CrashedCut(if n < used then Finished else Crashed, s.bytes, n);
      } else if id.value == EVENT_KLASS {
        DeliverCut(host, s, n, h, c, s.bytes, n);
      } else {
        var m := if n < used then 0 else n - used;
        BodyCut(host, flat, signed, s, id.value, h.value, h.rest, m, n);
        var b, d := ReadBody(host, flat, signed, s, id.value, h.value, h.rest),
                    ReadBody(host, flat, signed, Cut(s, n), id.value, h.value, h.rest[..m]);
        if n < used {
          CutBefore(s.bytes, n, used, b, d);
          DeliverCut(host, s, n, b, Fail, s.bytes, n);
        } else {
          CutStep(b, d, s.bytes, n, used);
          DeliverCut(host, s, n, b, d, s.bytes, n);
          Slices(s.bytes, used, n);
        }
      }
    } else {
      FailedCut(h, c, s.bytes, n);
    }
  }

  lemma CrashedCut(c: StepResult, bytes: seq<byte>, n: nat)
    requires n <= |bytes| && !c.Delivered?
    ensures StepCutOf(Crashed, c, bytes, n)
  {
  }

  lemma FailedCut(h: Read<Event>, c: Read<Event>, bytes: seq<byte>, n: nat)
    requires n <= |bytes| && !h.Got? && !c.Got? && (h.Fail? ==> c.Fail?)
    ensures StepCutOf(if h.Fail? then Finished else Crashed, if c.Fail? then Finished else Crashed, bytes, n)
  {
  }

  // Any bytes at all.

  /** Any twenty bytes are a header. */
  lemma AnyHeader(order: Endianness, bs: seq<byte>)
    requires |bs| == 20
    ensures var id, h := Load(order, bs[..4]), Header(Load(order, bs[4..12]), Load(order, bs[12..]));
            HeaderFits(id, h) && HeaderBytes(order, id, h) == bs
  {
    WireFormat.StoreLoad(order, bs[..4]);
    WireFormat.StoreLoad(order, bs[4..12]);
    WireFormat.StoreLoad(order, bs[12..]);
    hide Load;
    hide Store;
    assert bs == bs[..4] + bs[4..12] + bs[12..];
  }

  /**
   The next event, whatever the bytes: fewer than twenty end the reading; class identifier one is the event itself; a
   class the register does not hold makes the parser throw.
   */
  lemma NextEvent(host: Endianness, flat: bool, signed: bool, s: State)
    requires KnowsHeader(s.table)
    ensures |s.bytes| < 20 ==> Step(host, flat, signed, s) == Finished
    ensures |s.bytes| >= 20 ==>
              var id, r := Load(s.order, s.bytes[..4]), Step(host, flat, signed, s);
              && (id == 1 ==> r.Delivered? && r.event.klassId == 1 && r.next == s.(bytes := s.bytes[20..]))
              && (id != 1 && id !in s.table.klasses ==> r == Crashed)
  {
    hide *;
    if |s.bytes| < 20 {
      ShortHeader(host, flat, signed, s);
      StepIs(host, flat, signed, s);
    } else {
      var head, rest := s.bytes[..20], s.bytes[20..];
      assert s.bytes == head + rest && head[..4] == s.bytes[..4];
      AnyHeader(s.order, head);
      var id, h := Load(s.order, head[..4]), Header(Load(s.order, head[4..12]), Load(s.order, head[12..]));
      HeaderRoundTrip(host, flat, signed, s, id, h, rest);
      HeaderEventValues(id, h);
      StepIs(host, flat, signed, s);
      KnownOrNot(host, flat, signed, s, id, h, rest);
    }
  }

  lemma ShortHeader(host: Endianness, flat: bool, signed: bool, s: State)
    requires KnowsHeader(s.table) && |s.bytes| < 20
    ensures ReadHeader(host, flat, signed, s) == Fail
  {
    hide *;
    var n := |s.bytes|;
    var padded := s.bytes + WireFormat.Zeros(20 - n);
    PaddedCut(s, padded);
    AnyHeader(s.order, padded);
    var id, h := Load(s.order, padded[..4]), Header(Load(s.order, padded[4..12]), Load(s.order, padded[12..]));
    var long := s.(bytes := padded);
    assert padded == padded + [];
    HeaderRoundTrip(host, flat, signed, long, id, h, []);
    HeaderCut(host, flat, signed, long, n);
    CutParts(ReadHeader(host, flat, signed, long), ReadHeader(host, flat, signed, s), padded, n);
  }

  lemma PaddedCut(s: State, padded: seq<byte>)
    requires |s.bytes| < 20 && padded == s.bytes + WireFormat.Zeros(20 - |s.bytes|)
    ensures |padded| == 20 && Cut(s.(bytes := padded), |s.bytes|) == s
  {
  }

  lemma KnownOrNot(host: Endianness, flat: bool, signed: bool, s: State, id: nat, h: EventData, rest: seq<byte>)
    requires HeaderFits(id, h)
    ensures EVENT_KLASS == 1
    ensures id !in s.table.klasses ==> ReadBody(host, flat, signed, s, id, HeaderEvent(id, h), rest) == Crash
    ensures var r := Deliver(host, s, HeaderEvent(id, h), rest);
            r.Delivered? && r.event.klassId == 1 && r.next == s.(bytes := rest)
  {
  }

  // Whole runs.

  lemma RunUnfold(parser: State -> StepResult, s: State)
    requires Consuming(parser) && KnowsHeader(s.table)
    ensures var r, o := parser(s), Run(parser, s);
            && (r.Finished? ==> o == Outcome([], s, false)) && (r.Crashed? ==> o == Outcome([], s, true))
            && (r.Delivered? ==>
                  && KnowsHeader(r.next.table) && |r.next.bytes| < |s.bytes|
                  && var rest := Run(parser, r.next);
                     o == Outcome([r.event] + rest.events, rest.final, rest.crashed))
  {
  }

  /** The bytes a run has used up. */
  ghost function Used(o: Outcome, s: State): int {
    |s.bytes| - |o.final.bytes|
  }

  /**
   On any bytes and any register: cutting the input off after n bytes delivers the events that were read by then,
   the same ones, and never makes a reading throw that would not have thrown.
   */
  lemma {:induction false} RunCut(host: Endianness, flat: bool, signed: bool, s: State, n: nat)
    requires KnowsHeader(s.table) && n <= |s.bytes|
    ensures Consuming(Parser(host, flat, signed))
    ensures var o, c := Run(Parser(host, flat, signed), s), Run(Parser(host, flat, signed), Cut(s, n));
            && c.events <= o.events && (!o.crashed ==> !c.crashed)
            && (|c.events| == |o.events| <==> n >= Used(o, s)) && Used(o, s) >= 0
    decreases |s.bytes|
  {
    hide *;
    var parser := Parser(host, flat, signed);
    ParserConsumes(host, flat, signed);
    CutKeepsTable(s, n);
    RunUnfold(parser, s);
    RunUnfold(parser, Cut(s, n));
    ParserStep(host, flat, signed, s);
    ParserStep(host, flat, signed, Cut(s, n));
    StepCut(host, flat, signed, s, n);
    var r, c := parser(s), parser(Cut(s, n));
    StepCutParts(r, c, s.bytes, n);
    NothingUsed(s);
    if r.Delivered? {
      var used := |s.bytes| - |r.next.bytes|;
      RunCut(host, flat, signed, r.next, if n < used then 0 else n - used);
      var rest := Run(parser, r.next);
      UsedBehind(rest, Run(parser, s), r.next, s);
      if n >= used {
        CutNext(r.next, s.bytes, used, n);
      }
    }
  }

  lemma CutKeepsTable(s: State, n: nat)
    requires n <= |s.bytes|
    ensures Cut(s, n).table == s.table && Cut(s, n).order == s.order
    ensures Cut(s, n).bytes == s.bytes[..n] && |Cut(s, n).bytes| == n
  {
  }

  lemma CutNext(next: State, bytes: seq<byte>, used: nat, n: nat)
    requires used <= n <= |bytes| && next.bytes == bytes[used..]
    ensures Cut(next, n - used) == next.(bytes := bytes[used..n])
  {
    Slices(bytes, used, n);
  }

  lemma StepCutParts(r: StepResult, c: StepResult, bytes: seq<byte>, n: nat)
    requires n <= |bytes| && StepCutOf(r, c, bytes, n)
    ensures r.Delivered? ==>
              var used := |bytes| - |r.next.bytes|;
              && 0 <= used && r.next.bytes == bytes[used..]
              && c == if n < used then Finished else Delivered(r.event, r.next.(bytes := bytes[used..n]))
    ensures r.Finished? ==> c.Finished?
    ensures r.Crashed? ==> !c.Delivered?
  {
  }

  lemma NothingUsed(s: State)
    ensures Used(Outcome([], s, false), s) == 0 == Used(Outcome([], s, true), s)
  {
  }

  lemma UsedBehind(rest: Outcome, o: Outcome, next: State, s: State)
    requires o.final == rest.final
    ensures Used(o, s) == Used(rest, next) + |s.bytes| - |next.bytes|
  {
  }

  // Recordings.

  /** The bytes of a whole recording. */
  ghost function Recorded(r: seq<Klass>, order: Endianness, meta: seq<Item>, version: Item, items: seq<Item>)
    : (bytes: seq<byte>)
    requires StreamReady(r, meta, version, items)
  {
    StreamParts(order, r, meta, version, items);
    StreamBytes(order, r, Stream(order, meta, version, items))
  }

  lemma ReadyPrefix(r: seq<Klass>, meta: seq<Item>, version: Item, items: seq<Item>, k: nat)
    requires StreamReady(r, meta, version, items) && k <= |items|
    ensures StreamReady(r, meta, version, items[..k])
  {
    hide ValidRegistry;
    hide CarryAll;
    hide ValidItem;
  }

  /** A recording starts with the recording of fewer events. */
  lemma RecordedPrefix(r: seq<Klass>, order: Endianness, meta: seq<Item>, version: Item, items: seq<Item>, k: nat)
    requires StreamReady(r, meta, version, items) && k <= |items|
    ensures StreamReady(r, meta, version, items[..k])
    ensures Recorded(r, order, meta, version, items[..k]) <= Recorded(r, order, meta, version, items)
  {
    hide *;
    ReadyPrefix(r, meta, version, items, k);
    RecordedIs(r, order, meta, version, items);
    RecordedIs(r, order, meta, version, items[..k]);
    var all, first := Stream(order, meta, version, items), Stream(order, meta, version, items[..k]);
    StreamSplit(order, meta, version, items, k);
    ValidFrom(r, all, |first|);
    StreamAppend(order, r, first, items[k..]);
    assert StreamBytes(order, r, first) <= StreamBytes(order, r, first) + StreamBytes(order, r, items[k..]);
  }

  lemma RecordedIs(r: seq<Klass>, order: Endianness, meta: seq<Item>, version: Item, items: seq<Item>)
    requires StreamReady(r, meta, version, items)
    ensures ValidItems(r, Stream(order, meta, version, items))
    ensures Recorded(r, order, meta, version, items) == StreamBytes(order, r, Stream(order, meta, version, items))
  {
    StreamParts(order, r, meta, version, items);
    hide StreamReady;
    hide StreamBytes;
    hide Stream;
    hide ValidItems;
  }

  lemma StreamSplit(order: Endianness, meta: seq<Item>, version: Item, items: seq<Item>, k: nat)
    requires k <= |items|
    ensures var all, first := Stream(order, meta, version, items), Stream(order, meta, version, items[..k]);
            |first| <= |all| && first + items[k..] == all && all[|first|..] == items[k..]
  {
    assert items == items[..k] + items[k..];
  }

  lemma ValidFrom(r: seq<Klass>, items: seq<Item>, n: nat)
    requires ValidItems(r, items) && n <= |items|
    ensures ValidItems(r, items[n..])
  {
    hide ValidItem;
  }

  lemma WholeRun(host: Endianness, flat: bool, r: seq<Klass>, order: Endianness, meta: seq<Item>, version: Item,
                 items: seq<Item>)
    requires StreamReady(r, meta, version, items)
    ensures Usable(r) && ValidItems(r, meta) && ValidItem(r, version) && ValidItems(r, items)
    ensures Consuming(Parser(host, flat, false)) && KnowsHeader(INITIAL_TABLE)
    ensures var o := Run(Parser(host, flat, false),
                         State(INITIAL_TABLE, Little, Recorded(r, order, meta, version, items)));
            o.events == StreamEvents(flat, r, order, meta, version, items) && !o.crashed && o.final.bytes == []
  {
    hide *;
    RecordedIs(r, order, meta, version, items);
    StreamDecodes(host, flat, false, r, order, meta, version, items);
    AllLegible(Stream(order, meta, version, items));
    DecodedWhole(host, flat, r, order, meta, version, items, Recorded(r, order, meta, version, items));
  }

  lemma DecodedWhole(host: Endianness, flat: bool, r: seq<Klass>, order: Endianness, meta: seq<Item>, version: Item,
                     items: seq<Item>, input: seq<byte>)
    requires Decodes(host, flat, false, r, order, meta, version, items, input)
    requires Legibles(false, Stream(order, meta, version, items)) == |Stream(order, meta, version, items)|
    ensures Usable(r) && ValidItems(r, meta) && ValidItem(r, version) && ValidItems(r, items)
    ensures Consuming(Parser(host, flat, false)) && KnowsHeader(INITIAL_TABLE)
    ensures var o := Run(Parser(host, flat, false), State(INITIAL_TABLE, Little, input));
            o.events == StreamEvents(flat, r, order, meta, version, items) && !o.crashed && o.final.bytes == []
  {
    hide Usable;
    hide ValidItems;
    hide ValidItem;
    hide Consuming;
    hide KnowsHeader;
    hide KnowsAll;
    hide StreamEvents;
    hide Stream;
    hide Legibles;
    hide Run;
    var es := StreamEvents(flat, r, order, meta, version, items);
    assert es[..|es|] == es;
  }

  lemma AllLegible(items: seq<Item>)
    ensures Legibles(false, items) == |items|
  {
  }

  /**
   A recording that breaks off after its k-th event, anywhere within the next one, reads like the recording of those
   k events: for every byte at which a program or a connection can end.
   */
  lemma TruncatedRecording(host: Endianness, flat: bool, r: seq<Klass>, order: Endianness, meta: seq<Item>,
                           version: Item, items: seq<Item>, k: nat, n: nat)
    requires StreamReady(r, meta, version, items) && k < |items|
    requires StreamReady(r, meta, version, items[..k]) && StreamReady(r, meta, version, items[..k + 1])
    requires |Recorded(r, order, meta, version, items[..k])| <= n < |Recorded(r, order, meta, version, items[..k + 1])|
    ensures n <= |Recorded(r, order, meta, version, items)|
    ensures Usable(r) && ValidItems(r, meta) && ValidItem(r, version) && ValidItems(r, items[..k])
    ensures Consuming(Parser(host, flat, false)) && KnowsHeader(INITIAL_TABLE)
    ensures var o := Run(Parser(host, flat, false),
                         State(INITIAL_TABLE, Little, Recorded(r, order, meta, version, items)[..n]));
            o.events == StreamEvents(flat, r, order, meta, version, items[..k]) && !o.crashed
  {
    hide *;
    var parser := Parser(host, flat, false);
    var more := items[..k + 1];
    assert more[..k] == items[..k];
    RecordedPrefix(r, order, meta, version, items, k + 1);
    RecordedPrefix(r, order, meta, version, more, k);
    WholeRun(host, flat, r, order, meta, version, items[..k]);
    WholeRun(host, flat, r, order, meta, version, more);
    var short, long := Recorded(r, order, meta, version, items[..k]), Recorded(r, order, meta, version, more);
    var cut := long[..n];
    assert Recorded(r, order, meta, version, items)[..n] == cut;
    CutAgain(long, short, n);
    RunCutBytes(host, flat, long, n);
    RunCutBytes(host, flat, cut, |short|);
    var es, es' := StreamEvents(flat, r, order, meta, version, items[..k]),
                   StreamEvents(flat, r, order, meta, version, more);
    OneMoreEvent(flat, r, order, meta, version, items, k);
  }

  lemma CutAgain(long: seq<byte>, short: seq<byte>, n: nat)
    requires short <= long && |short| <= n <= |long|
    ensures long[..n][..|short|] == short
  {
  }

  lemma RunCutBytes(host: Endianness, flat: bool, bytes: seq<byte>, n: nat)
    requires KnowsHeader(INITIAL_TABLE) && n <= |bytes|
    ensures Consuming(Parser(host, flat, false))
    ensures var o, c := Run(Parser(host, flat, false), State(INITIAL_TABLE, Little, bytes)),
                        Run(Parser(host, flat, false), State(INITIAL_TABLE, Little, bytes[..n]));
            && c.events <= o.events && (!o.crashed ==> !c.crashed)
            && (|c.events| == |o.events| <==> n >= |bytes| - |o.final.bytes|)
  {
    RunCut(host, flat, false, State(INITIAL_TABLE, Little, bytes), n);
    hide Run;
    hide Consuming;
    hide KnowsHeader;
  }

  lemma OneMoreEvent(flat: bool, r: seq<Klass>, order: Endianness, meta: seq<Item>, version: Item, items: seq<Item>,
                     k: nat)
    requires Usable(r) && ValidItems(r, meta) && ValidItem(r, version) && k < |items|
    requires ValidItems(r, items[..k]) && ValidItems(r, items[..k + 1])
    ensures |StreamEvents(flat, r, order, meta, version, items[..k + 1])|
         == |StreamEvents(flat, r, order, meta, version, items[..k])| + 1
  {
    hide ExpectedAll;
    hide Expected;
    hide FirstEvent;
  }
}
