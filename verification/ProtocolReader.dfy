/**
 The stream parser (parser/protocol_reader.cpp): what each function does to a byte sequence.
 */
module ProtocolReader {
  import opened Bytes
  import opened EndiannessConvert
  import opened Registry
  import opened KlassTable

  /**
   The outcome of a read: a value and the remaining bytes; the error flag (the stream ended, or the
   field has a type the parser does not decode); or a crash (a class the register does not hold, or
   class definitions whose expansion never ends).
   */
  datatype Read<+T> = Got(value: T, rest: seq<byte>) | Fail | Crash

  /**
   The byte order of the reading host, the byte order assumed for the data, the event mode, and whether the
   input stream hands out single bytes as signed characters (the network stream does, the file stream not).
   */
  datatype Mode = Mode(host: Endianness, order: Endianness, flat: bool, signed: bool)

  function ReadNumeric(mode: Mode, t: FieldTypeId, bytes: seq<byte>): (r: Read<Value>)
    requires IsNumeric(t)
    ensures !r.Crash?
    ensures r.Got? ==> |r.rest| < |bytes|
  {
    var w := WidthOf(t);
    if |bytes| < w then Fail
    else Got(Num(t, ConvertToNative(mode.host, mode.order, Load(mode.host, bytes[..w]), w)), bytes[w..])
  }

  /** Reads up to a zero byte. */
  function ReadText(bytes: seq<byte>): (r: Read<cstring>)
    ensures !r.Crash?
    ensures r.Got? ==> |r.rest| < |bytes| && bytes == r.value + [0] + r.rest
  {
    if bytes == [] then Fail
    else if bytes[0] == 0 then Got([], bytes[1..])
    else
      var tail := ReadText(bytes[1..]);
      if tail.Got? then Got([bytes[0]] + tail.value, tail.rest) else tail
  }

  predicate SevenBit(s: seq<byte>) {
    forall i :: 0 <= i < |s| ==> s[i] < 0x80
  }

  /** The parser's string loop: a byte that reads as a negative number ends it like the end of the stream. */
  function ReadChars(signed: bool, bytes: seq<byte>): (r: Read<cstring>)
    ensures !r.Crash?
    ensures r.Got? ==> |r.rest| < |bytes|
  {
    var r := ReadText(bytes);
    if r.Got? && signed && !SevenBit(r.value) then Fail else r
  }

  /** A field that is not a structure. */
  function ReadScalar(mode: Mode, t: FieldTypeId, bytes: seq<byte>): (r: Read<Value>)
    requires t != STRUCT
    ensures !r.Crash?
    ensures r.Got? ==> |r.rest| < |bytes|
  {
    if IsNumeric(t) then ReadNumeric(mode, t, bytes)
    else if t == STRING then
      match ReadChars(mode.signed, bytes)
      case Got(s, rest) => Got(Str(s), rest)
      case _ => Fail
    else Fail
  }

  predicate IsEventBase(f: ParsedField) {
    f.typeName == HT_EVENT && f.name == BASE
  }

  /**
   Decodes the listed fields and adds them to `values`.  `base` is the event header already read;
   `seen` holds the classes being expanded at the current position.
   */
  function ReadFields(mode: Mode, t: Table, base: Event, fields: seq<ParsedField>,
                      values: map<cstring, Value>, bytes: seq<byte>, seen: set<nat>)
    : (r: Read<map<cstring, Value>>)
    ensures r.Got? ==> |r.rest| <= |bytes|
    decreases |bytes|, |t.klasses.Keys - seen|, |fields|
  {
    if fields == [] then Got(values, bytes)
    else
      var f := fields[0];
      if f.typeId != STRUCT then
        var v := ReadScalar(mode, f.typeId, bytes);
        if v.Got? then ReadFields(mode, t, base, fields[1..], SetValue(values, f.name, v.value), v.rest, {})
        else Fail
      else if IsEventBase(f) then
        var values' := if mode.flat then values else SetValue(values, f.name, Sub(base));
        ReadFields(mode, t, base, fields[1..], values', bytes, seen)
      else
        var id := GetKlassByName(t, f.typeName);
        if id.None? || id.value !in t.klasses || id.value in seen then Crash
        else
          SeenGrows(t, seen, id.value);
          var sub := ReadFields(mode, t, base, t.klasses[id.value].fields, map[], bytes, seen + {id.value});
          if !sub.Got? then sub
          else
            var values' := if mode.flat then Merge(values, sub.value)
                           else SetValue(values, f.name, Sub(Event(id.value, sub.value)));
            ReadFields(mode, t, base, fields[1..], values', sub.rest, if |sub.rest| < |bytes| then {} else seen)
  }

  lemma SeenGrows(t: Table, seen: set<nat>, id: nat)
    requires id in t.klasses && id !in seen
    ensures |t.klasses.Keys - (seen + {id})| < |t.klasses.Keys - seen|
  {
    assert t.klasses.Keys - seen == (t.klasses.Keys - (seen + {id})) + {id};
  }

  // The first of several fields.

  /** What a structure field contributes. */
  function StructResult(mode: Mode, t: Table, base: Event, f: ParsedField, values: map<cstring, Value>,
                        bytes: seq<byte>, seen: set<nat>): Read<map<cstring, Value>>
    requires f.typeId == STRUCT
  {
    if IsEventBase(f) then Got(if mode.flat then values else SetValue(values, f.name, Sub(base)), bytes)
    else
      var id := GetKlassByName(t, f.typeName);
      if id.None? || id.value !in t.klasses || id.value in seen then Crash
      else
        var sub := ReadFields(mode, t, base, t.klasses[id.value].fields, map[], bytes, seen + {id.value});
        if !sub.Got? then sub
        else Got(if mode.flat then Merge(values, sub.value)
                 else SetValue(values, f.name, Sub(Event(id.value, sub.value))), sub.rest)
  }

  lemma ScalarStep(mode: Mode, t: Table, base: Event, fields: seq<ParsedField>, values: map<cstring, Value>,
                   bytes: seq<byte>, seen: set<nat>)
    requires fields != [] && fields[0].typeId != STRUCT
    ensures var v := ReadScalar(mode, fields[0].typeId, bytes);
            ReadFields(mode, t, base, fields, values, bytes, seen)
            == if v.Got? then
                 ReadFields(mode, t, base, fields[1..], SetValue(values, fields[0].name, v.value), v.rest, {})
               else Fail
  {
  }

  lemma StructStep(mode: Mode, t: Table, base: Event, fields: seq<ParsedField>, values: map<cstring, Value>,
                   bytes: seq<byte>, seen: set<nat>)
    requires fields != [] && fields[0].typeId == STRUCT
    ensures var v := StructResult(mode, t, base, fields[0], values, bytes, seen);
            ReadFields(mode, t, base, fields, values, bytes, seen)
            == if v.Got? then
                 ReadFields(mode, t, base, fields[1..], v.value, v.rest, if |v.rest| < |bytes| then {} else seen)
               else v
  {
  }

  lemma NothingLeft(mode: Mode, t: Table, base: Event, values: map<cstring, Value>, bytes: seq<byte>, seen: set<nat>)
    ensures ReadFields(mode, t, base, [], values, bytes, seen) == Got(values, bytes)
  {
  }

  lemma ScalarShrinks(mode: Mode, t: FieldTypeId, bytes: seq<byte>)
    requires t != STRUCT
    ensures var v := ReadScalar(mode, t, bytes);
            !v.Crash? && (v.Got? ==> |v.rest| < |bytes|)
  {
  }

  lemma StructShrinks(mode: Mode, t: Table, base: Event, f: ParsedField, values: map<cstring, Value>, bytes: seq<byte>,
                      seen: set<nat>)
    requires f.typeId == STRUCT
    ensures var v := StructResult(mode, t, base, f, values, bytes, seen);
            v.Got? ==> |v.rest| <= |bytes|
  {
  }

  /** The parser between two events. */
  datatype State = State(table: Table, order: Endianness, bytes: seq<byte>)

  datatype StepResult = Delivered(event: Event, next: State) | Finished | Crashed

  /** The byte order a reading host assumes after an endianness event with the given value. */
  function AssumedOrder(host: Endianness, code: nat): Endianness {
    if code == 0 then Little
    else if code == 1 then Big
    else if host.Little? then Big else Little
  }

  function Deliver(host: Endianness, s: State, e: Event, rest: seq<byte>): (r: StepResult)
    ensures r.Delivered? ==> r.next.bytes == rest
  {
    var code := GetNum(e, ENDIANNESS);
    if e.klassId == ENDIANNESS_KLASS && code.None? then Crashed
    else
      var order := if e.klassId == ENDIANNESS_KLASS then AssumedOrder(host, code.value) else s.order;
      var t := Learn(s.table, e);
      if t.None? then Crashed else Delivered(e, State(t.value, order, rest))
  }

  /** The header of the next event. */
  function ReadHeader(host: Endianness, flat: bool, signed: bool, s: State): (r: Read<Event>)
    ensures r.Got? ==> |r.rest| <= |s.bytes|
  {
    if EVENT_KLASS !in s.table.klasses then Crash
    else
      var h := ReadFields(Mode(host, s.order, flat, signed), s.table, Event(EVENT_KLASS, map[]),
                          s.table.klasses[EVENT_KLASS].fields, map[], s.bytes, {EVENT_KLASS});
      match h
      case Got(values, rest) => Got(Event(EVENT_KLASS, values), rest)
      case Fail => Fail
      case Crash => Crash
  }

  /** The rest of an event whose header has been read. */
  function ReadBody(host: Endianness, flat: bool, signed: bool, s: State, klassId: nat, header: Event, bytes: seq<byte>)
    : (r: Read<Event>)
    ensures r.Got? ==> |r.rest| <= |bytes|
  {
    if klassId !in s.table.klasses then Crash
    else
      var b := ReadFields(Mode(host, s.order, flat, signed), s.table, header, s.table.klasses[klassId].fields, map[],
                          bytes, {klassId});
      match b
      case Got(values, rest) => Got(Event(klassId, if flat then Merge(values, header.values) else values), rest)
      case Fail => Fail
      case Crash => Crash
  }

  /** One turn of the reading loop. */
  function Step(host: Endianness, flat: bool, signed: bool, s: State): (r: StepResult)
    ensures r.Delivered? ==> |r.next.bytes| <= |s.bytes|
  {
    var h := ReadHeader(host, flat, signed, s);
    match h
    case Fail => Finished
    case Crash => Crashed
    case Got(header, rest) =>
      var id := GetNum(header, KLASS_ID);
      if id.None? then Crashed
      else if id.value == EVENT_KLASS then Deliver(host, s, header, rest)
      else
        var b := ReadBody(host, flat, signed, s, id.value, header, rest);
        match b
        case Fail => Finished
        case Crash => Crashed
        case Got(event, rest') => Deliver(host, s, event, rest')
  }

  /** Every register holds the header class; the parser never changes it. */
  predicate KnowsHeader(t: Table) {
    EVENT_KLASS in t.klasses && t.klasses[EVENT_KLASS].fields == EVENT_FIELDS
  }

  lemma LearnKeepsHeader(t: Table, e: Event)
    requires KnowsHeader(t) && Learn(t, e).Some?
    ensures KnowsHeader(Learn(t, e).value)
  {
  }

  /** The parser as a step function. */
  function Parser(host: Endianness, flat: bool, signed: bool): State -> StepResult {
    s => Step(host, flat, signed, s)
  }

  lemma ParserStep(host: Endianness, flat: bool, signed: bool, s: State)
    ensures Parser(host, flat, signed)(s) == Step(host, flat, signed, s)
  {
  }

  /** A delivered event has consumed bytes. */
  ghost predicate Consuming(parser: State -> StepResult) {
    forall s: State :: KnowsHeader(s.table) && parser(s).Delivered? ==>
                  |parser(s).next.bytes| < |s.bytes| && KnowsHeader(parser(s).next.table)
  }

  lemma StepConsumes(host: Endianness, flat: bool, signed: bool, s: State)
    requires KnowsHeader(s.table)
    ensures var r := Step(host, flat, signed, s);
            r.Delivered? ==> |r.next.bytes| < |s.bytes| && KnowsHeader(r.next.table)
  {
    var r := Step(host, flat, signed, s);
    if r.Delivered? {
      LearnKeepsHeader(s.table, r.event);
    }
  }

  lemma ParserConsumes(host: Endianness, flat: bool, signed: bool)
    ensures Consuming(Parser(host, flat, signed))
  {
    var parser := Parser(host, flat, signed);
    forall s: State | KnowsHeader(s.table) && parser(s).Delivered?
      ensures |parser(s).next.bytes| < |s.bytes| && KnowsHeader(parser(s).next.table)
    {
      StepConsumes(host, flat, signed, s);
    }
  }

  datatype Outcome = Outcome(events: seq<Event>, final: State, crashed: bool)

  /** The reading loop: the events handed to the callbacks and the state in which it stops. */
  ghost function Run(parser: State -> StepResult, s: State): Outcome
    requires Consuming(parser) && KnowsHeader(s.table)
    decreases |s.bytes|
  {
    match parser(s)
    case Finished => Outcome([], s, false)
    case Crashed => Outcome([], s, true)
    case Delivered(e, next) =>
      var o := Run(parser, next);
      Outcome([e] + o.events, o.final, o.crashed)
  }

  /**
   Reading from s hands out the first `stop` of the events es and then stops; when `stop` reaches them all,
   it leaves the parser in state s'.
   */
  predicate Delivers(parser: State -> StepResult, s: State, es: seq<Event>, stop: nat, s': State)
    decreases |es|
  {
    if es == [] then s == s'
    else
      var r := parser(s);
      if stop == 0 then r.Finished?
      else r.Delivered? && r.event == es[0] && Delivers(parser, r.next, es[1..], stop - 1, s')
  }

  lemma DeliversCons(parser: State -> StepResult, s: State, es: seq<Event>, stop: nat, s': State)
    requires es != []
    ensures Delivers(parser, s, es, stop, s')
       <==> if stop == 0 then parser(s).Finished?
            else parser(s).Delivered? && parser(s).event == es[0]
                 && Delivers(parser, parser(s).next, es[1..], stop - 1, s')
  {
  }

  lemma {:induction false} DeliversAppend(parser: State -> StepResult, s: State, a: seq<Event>, stop: nat, m: State,
                                          b: seq<Event>, e: State)
    requires Delivers(parser, s, a, stop, m) && (stop >= |a| ==> Delivers(parser, m, b, stop - |a|, e))
    ensures Delivers(parser, s, a + b, stop, e)
    decreases |a|
  {
    if a == [] {
      assert a + b == b;
    } else {
      assert (a + b)[1..] == a[1..] + b;
      if stop > 0 {
        DeliversAppend(parser, parser(s).next, a[1..], stop - 1, m, b, e);
      }
    }
  }

  lemma {:induction false} DeliversEnough(parser: State -> StepResult, s: State, es: seq<Event>, n: nat, stop: nat,
                                          s': State)
    requires Delivers(parser, s, es, n, s') && n == |es| <= stop
    ensures Delivers(parser, s, es, stop, s')
    decreases |es|
  {
    if es != [] {
      DeliversEnough(parser, parser(s).next, es[1..], n - 1, stop - 1, s');
    }
  }

  lemma DeliversOne(parser: State -> StepResult, s: State, e: Event, stop: nat, s': State)
    requires parser(s) == Delivered(e, s') && stop > 0
    ensures Delivers(parser, s, [e], stop, s')
  {
    assert [e][1..] == [];
  }

  lemma {:induction false} DeliversRun(parser: State -> StepResult, s: State, es: seq<Event>, stop: nat, s': State)
    requires Consuming(parser) && KnowsHeader(s.table) && stop <= |es|
    requires Delivers(parser, s, es, stop, s') && parser(s').Finished?
    ensures var o := Run(parser, s);
            o.events == es[..stop] && !o.crashed && (stop == |es| ==> o.final == s')
    decreases |es|
  {
    if stop > 0 {
      DeliversRun(parser, parser(s).next, es[1..], stop - 1, s');
      assert es[..stop] == [es[0]] + es[1..][..stop - 1];
    }
  }
}
