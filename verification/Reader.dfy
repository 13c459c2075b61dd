/**
 The reader object of parser/protocol_reader.cpp, proved to do what the functions on byte sequences
 say.
 */
module Reader {
  import opened Bytes
  import opened EndiannessConvert
  import opened Registry
  import opened KlassTable
  import opened ProtocolReader
  import opened InputStreams

  /** What a reading method returns: a value, an error, or nothing because an exception was thrown. */
  datatype Parsed<+T> = Ok(value: T) | Bad | Raised

  /** A reading method did what the function on byte sequences says, and `rest` is left. */
  predicate Agrees<T(==)>(p: Parsed<T>, r: Read<T>, rest: seq<byte>) {
    match r
    case Got(value, after) => p == Ok(value) && rest == after
    case Fail => p == Bad
    case Crash => p == Raised
  }

  class EventReader {
    const host: Endianness
    const flat: bool
    const register: KlassRegister
    const stream: InputStream
    var endianness: Endianness
    var delivered: seq<Event>

    ghost predicate Valid()
      reads stream.Repr()
    {
      stream.Valid()
    }

    ghost function Rest(): seq<byte>
      requires Valid()
      reads stream.Repr()
    {
      stream.Rest()
    }

    ghost function AsMode(): Mode
      reads this
    {
      Mode(host, endianness, flat, stream.Signed())
    }

    ghost function AsState(): State
      requires Valid()
      reads this, register, stream.Repr()
    {
      State(register.View(), endianness, Rest())
    }

    constructor (host: Endianness, flat: bool, stream: InputStream)
      requires stream.Valid()
      ensures Valid() && fresh(register) && delivered == []
      ensures this.host == host && this.flat == flat && this.stream == stream
      ensures AsState() == State(INITIAL_TABLE, Little, stream.Rest())
    {
      this.host := host;
      this.flat := flat;
      this.stream := stream;
      register := new KlassRegister();
      endianness := Little;
      delivered := [];
    }

    /** Appends bytes to a buffer that doubles when full, until a byte that is zero or less. */
    method ReadString() returns (r: Parsed<cstring>)
      requires Valid()
      modifies stream.Repr()
      ensures Valid()
      ensures Agrees(r, ReadChars(stream.Signed(), old(Rest())), Rest())
      ensures r.Ok? ==> stream.taken - old(stream.taken) == |old(Rest())| - |Rest()|
    {
      hide ReadChars;
      hide SoFar;
      hide Seen;
      hide stream.Valid;
      hide stream.Rest;
      var data := new byte[32];
      var n := 0;
      ghost var signed, all, s, rest := stream.Signed(), Rest(), [], Rest();
      StartOfText(signed, all);
      var c := stream.ReadByte();
      while c > 0
        invariant Valid() && fresh(data) && data !in stream.Repr() && n < data.Length && data[..n] == s
        invariant SoFar(signed, all, s, rest) && Seen(signed, rest, c, Rest())
        invariant rest != [] ==> stream.taken - old(stream.taken) == |all| - |rest| + 1
        decreases |rest|
      {
        NextChar(signed, all, s, rest, c, Rest());
        data := Append(data, n, c);
        n := n + 1;
        s, rest := s + [c], rest[1..];
        c := stream.ReadByte();
      }
      if c < 0 {
        TextStopped(signed, all, s, rest, c, Rest());
        return Bad;
      }
      data[n] := 0;
      TextEnded(signed, all, s, rest, Rest());
      r := Ok(data[..n]);
    }

    /** Reads an integer and converts it to the host's byte order; other types report an error. */
    method ReadNumericField(t: FieldTypeId) returns (r: Parsed<Value>)
      requires Valid() && t != STRUCT && t != STRING
      modifies stream.Repr()
      ensures Valid()
      ensures Agrees(r, ReadScalar(AsMode(), t, old(Rest())), Rest())
      ensures r.Ok? ==> stream.taken - old(stream.taken) == |old(Rest())| - |Rest()|
    {
      if t == PTR {
        var ok, data := stream.ReadData(8);
        return Bad;
      }
      var w := WidthOf(t);
      var ok, data := stream.ReadData(w);
      if !ok {
        return Bad;
      }
      r := Ok(Num(t, ConvertToNative(host, endianness, Load(host, data), w)));
    }

    method ReadScalarField(t: FieldTypeId) returns (r: Parsed<Value>)
      requires Valid() && t != STRUCT
      modifies stream.Repr()
      ensures Valid()
      ensures Agrees(r, ReadScalar(AsMode(), t, old(Rest())), Rest())
      ensures r.Ok? ==> stream.taken - old(stream.taken) == |old(Rest())| - |Rest()|
    {
      if t == STRING {
        hide ReadChars;
        var s := ReadString();
        r := if s.Ok? then Ok(Str(s.value)) else Bad;
      } else {
        r := ReadNumericField(t);
      }
    }

    /** Decodes a base class and merges it into, or attaches it to, the event being read. */
    method ReadStruct(f: ParsedField, values: map<cstring, Value>, base: Event, seen: set<nat>)
      returns (r: Parsed<map<cstring, Value>>)
      requires Valid() && f.typeId == STRUCT
      modifies stream.Repr()
      ensures Valid()
      ensures Agrees(r, StructResult(AsMode(), register.View(), base, f, values, old(Rest()), seen), Rest())
      ensures r.Ok? ==> stream.taken - old(stream.taken) == |old(Rest())| - |Rest()|
      decreases |Rest()|, |register.klasses.Keys - seen|, 0
    {
      hide stream.Valid;
      hide stream.Rest;
      hide ReadFields;
      hide Merge;
      hide SetValue;
      hide GetKlassByName;
      if IsEventBase(f) {
        r := Ok(if flat then values else SetValue(values, f.name, Sub(base)));
        return;
      }
      var id := register.FindKlass(f.typeName);
      if id.None? || id.value !in register.klasses || id.value in seen {
        return Raised;
      }
      SeenGrows(register.View(), seen, id.value);
      var sub := ReadEvent(register.klasses[id.value].fields, base, seen + {id.value});
      if sub.Ok? {
        r := Ok(if flat then Merge(values, sub.value) else SetValue(values, f.name, Sub(Event(id.value, sub.value))));
      } else {
        r := sub;
      }
    }

    /** Decodes the fields of a class in order. */
    method ReadEvent(fields: seq<ParsedField>, base: Event, seen: set<nat>) returns (r: Parsed<map<cstring, Value>>)
      requires Valid()
      modifies stream.Repr()
      ensures Valid()
      ensures Agrees(r, ReadFields(AsMode(), register.View(), base, fields, map[], old(Rest()), seen), Rest())
      ensures r.Ok? ==> stream.taken - old(stream.taken) == |old(Rest())| - |Rest()|
      decreases |Rest()|, |register.klasses.Keys - seen|, 1
    {
      hide ReadFields;
      hide StructResult;
      hide ReadScalar;
      var values: map<cstring, Value> := map[];
      var open := seen;
      ghost var all := Rest();
      ghost var whole := ReadFields(AsMode(), register.View(), base, fields, map[], all, seen);
      assert fields[0..] == fields;
      for i := 0 to |fields|
        invariant Valid() && stream.taken - old(stream.taken) == |all| - |Rest()| && |Rest()| <= |all|
        invariant |Rest()| == |all| ==> open == seen
        invariant whole == ReadFields(AsMode(), register.View(), base, fields[i..], values, Rest(), open)
      {
        var f := fields[i];
        assert fields[i..][0] == f && fields[i..][1..] == fields[i + 1..];
        ghost var before := Rest();
        var start := stream.taken;
        if f.typeId != STRUCT {
          ScalarStep(AsMode(), register.View(), base, fields[i..], values, before, open);
          ScalarShrinks(AsMode(), f.typeId, before);
          var v := ReadScalarField(f.typeId);
          if !v.Ok? {
            return Bad;
          }
          values := SetValue(values, f.name, v.value);
          open := {};
        } else {
          StructStep(AsMode(), register.View(), base, fields[i..], values, before, open);
          StructShrinks(AsMode(), register.View(), base, f, values, before, open);
          var v := ReadStruct(f, values, base, open);
          if !v.Ok? {
            return v;
          }
          values := v.value;
          open := if stream.taken > start then {} else open;
        }
      }
      NothingLeft(AsMode(), register.View(), base, values, Rest(), open);
      r := Ok(values);
    }

    /** Hands an event to the register and to the callbacks. */
    method CallCallbacks(e: Event) returns (ok: bool)
      modifies this`delivered, register
      ensures ok == Learn(old(register.View()), e).Some?
      ensures ok ==> register.View() == Learn(old(register.View()), e).value && delivered == old(delivered) + [e]
      ensures !ok ==> register.View() == old(register.View()) && delivered == old(delivered)
    {
      ok := register.HandleRegisterEvents(e);
      if ok {
        delivered := delivered + [e];
      }
    }

    /** Updates the assumed byte order and delivers an event. */
    method DeliverEvent(e: Event) returns (result: Turn)
      requires Valid()
      modifies this`delivered, this`endianness, register
      ensures Valid() && Follows(result, Deliver(host, old(AsState()), e, Rest()), old(AsState()), AsState(),
                                 old(delivered), delivered)
    {
      if e.klassId == ENDIANNESS_KLASS {
        var code := GetNum(e, ENDIANNESS);
        if code.None? {
          return Threw;
        }
        endianness := AssumedOrder(host, code.value);
      }
      var ok := CallCallbacks(e);
      result := if ok then Continue else Threw;
    }

    /** One turn of the reading loop. */
    method ReadNext() returns (result: Turn)
      requires Valid() && KnowsHeader(register.View())
      modifies this, register, stream.Repr()
      ensures Valid() && Follows(result, Step(host, flat, stream.Signed(), old(AsState())), old(AsState()), AsState(),
                                 old(delivered), delivered)
    {
      hide stream.Valid;
      hide stream.Rest;
      hide ReadFields;
      hide Deliver;
      hide EVENT_FIELDS;
      ghost var s := AsState();
      var h := ReadEvent(register.klasses[EVENT_KLASS].fields, Event(EVENT_KLASS, map[]), {EVENT_KLASS});
      if !h.Ok? {
        return if h.Bad? then Stop else Threw;
      }
      var header := Event(EVENT_KLASS, h.value);
      var id := GetNum(header, KLASS_ID);
      if id.None? {
        return Threw;
      }
      if id.value == EVENT_KLASS {
        DeliverIgnoresBytes(host, s, AsState(), header, Rest());
        result := DeliverEvent(header);
        return;
      }
      if id.value !in register.klasses {
        return Threw;
      }
      var b := ReadEvent(register.klasses[id.value].fields, header, {id.value});
      if !b.Ok? {
        return if b.Bad? then Stop else Threw;
      }
      var event := Event(id.value, if flat then Merge(b.value, header.values) else b.value);
      DeliverIgnoresBytes(host, s, AsState(), event, Rest());
      result := DeliverEvent(event);
    }

    /** The reading loop: runs until the stream ends or a callback throws. */
    method ReadEvents() returns (crashed: bool)
      requires Valid() && KnowsHeader(register.View())
      modifies this, register, stream.Repr()
      ensures Valid() && Consuming(Parser(host, flat, stream.Signed()))
      ensures var o := Run(Parser(host, flat, stream.Signed()), old(AsState()));
              && crashed == o.crashed
              && delivered == old(delivered) + o.events
              && (!crashed ==> register.View() == o.final.table && endianness == o.final.order)
    {
      ParserConsumes(host, flat, stream.Signed());
      hide stream.Valid;
      hide stream.Rest;
      hide Step;
      hide Consuming;
      ghost var parser := Parser(host, flat, stream.Signed());
      ghost var whole := Run(parser, AsState());
      ghost var done: seq<Event> := [];
      crashed := false;
      var running := true;
      while running
        invariant Valid() && KnowsHeader(register.View())
        invariant delivered == old(delivered) + done
        invariant running ==> !crashed && RunTail(parser, whole, done, AsState())
        invariant !running ==> done == whole.events && crashed == whole.crashed
        invariant !running && !crashed ==> register.View() == whole.final.table && endianness == whole.final.order
        decreases running, |Rest()|
      {
        ghost var s := AsState();
        ParserStep(host, flat, stream.Signed(), s);
        StepConsumes(host, flat, stream.Signed(), s);
        RunTailStep(parser, whole, done, s);
        var turn := ReadNext();
        if turn.Continue? {
          done := done + [parser(s).event];
        } else {
          running := false;
          crashed := turn.Threw?;
        }
      }
    }

    /** Stores a character and makes sure that there is room for the next. */
    static method Append(data: array<byte>, n: nat, c: byte) returns (buffer: array<byte>)
      requires n < data.Length
      modifies data
      ensures buffer == data || fresh(buffer)
      ensures n + 1 < buffer.Length && buffer[..n + 1] == old(data[..n]) + [c]
    {
      data[n] := c;
      buffer := data;
      if n + 1 == data.Length {
        buffer := new byte[2 * data.Length];
        for i := 0 to data.Length
          invariant forall j :: 0 <= j < i ==> buffer[j] == data[j]
          invariant data[..n] == old(data[..n]) && data[n] == c
        {
          buffer[i] := data[i];
        }
      }
    }
  }

  /** How a turn of the loop ends: another turn, the end of the stream, or an exception or crash. */
  datatype Turn = Continue | Stop | Threw

  /** A turn of the reader object does what the step on values says. */
  ghost predicate Follows(turn: Turn, r: StepResult, before: State, after: State,
                          earlier: seq<Event>, delivered: seq<Event>) {
    match r
    case Delivered(e, next) => turn.Continue? && after == next && delivered == earlier + [e]
    case Finished => turn.Stop? && delivered == earlier && after.table == before.table && after.order == before.order
    case Crashed => turn.Threw? && delivered == earlier && after.table == before.table
  }

  /** Delivering depends on the register and the byte order only. */
  lemma DeliverIgnoresBytes(host: Endianness, s: State, s': State, e: Event, rest: seq<byte>)
    requires s.table == s'.table && s.order == s'.order
    ensures Deliver(host, s, e, rest) == Deliver(host, s', e, rest)
  {
  }

  /** The events `done` have been delivered and the rest of the run starts at s. */
  ghost predicate RunTail(parser: State -> StepResult, whole: Outcome, done: seq<Event>, s: State)
    requires Consuming(parser) && KnowsHeader(s.table)
  {
    var o := Run(parser, s);
    whole == Outcome(done + o.events, o.final, o.crashed)
  }

  lemma RunTailStep(parser: State -> StepResult, whole: Outcome, done: seq<Event>, s: State)
    requires Consuming(parser) && KnowsHeader(s.table) && RunTail(parser, whole, done, s)
    ensures var r := parser(s);
            match r
            case Delivered(e, next) => KnowsHeader(next.table) && RunTail(parser, whole, done + [e], next)
            case Finished => whole == Outcome(done, s, false)
            case Crashed => whole == Outcome(done, s, true)
  {
    var r := parser(s);
    if r.Delivered? {
      var o := Run(parser, r.next);
      assert done + ([r.event] + o.events) == (done + [r.event]) + o.events;
    }
  }

  // The string loop.

  /** The bytes taken into the string so far, and those from the one just read on. */
  predicate SoFar(signed: bool, all: seq<byte>, s: seq<byte>, rest: seq<byte>) {
    (signed ==> SevenBit(s)) && 0 !in s && s + rest == all
  }

  lemma StartOfText(signed: bool, all: seq<byte>)
    ensures SoFar(signed, all, [], all)
  {
    assert [] + all == all;
  }

  lemma NextChar(signed: bool, all: seq<byte>, s: seq<byte>, rest: seq<byte>, c: int, after: seq<byte>)
    requires SoFar(signed, all, s, rest) && Seen(signed, rest, c, after) && c > 0
    ensures rest != [] && 0 < c < 256 && after == rest[1..] && SoFar(signed, all, s + [c], rest[1..])
  {
    assert rest == [rest[0]] + rest[1..];
    ConcatAssoc(s, [rest[0]], rest[1..]);
  }

  /** Text before the first zero byte is read as it is. */
  lemma {:induction false} TextAfter(s: seq<byte>, rest: seq<byte>)
    requires 0 !in s
    ensures var r := ReadText(rest);
            ReadText(s + rest) == if r.Got? then Got(s + r.value, r.rest) else r
  {
    if s == [] {
      assert s + rest == rest;
      assert ReadText(rest).Got? ==> [] + ReadText(rest).value == ReadText(rest).value;
    } else {
      TextAfter(s[1..], rest);
      assert (s + rest)[1..] == s[1..] + rest && (s + rest)[0] == s[0];
      assert s == [s[0]] + s[1..];
      if ReadText(rest).Got? {
        ConcatAssoc([s[0]], s[1..], ReadText(rest).value);
      }
    }
  }

  lemma TextEnded(signed: bool, all: seq<byte>, s: seq<byte>, rest: seq<byte>, after: seq<byte>)
    requires SoFar(signed, all, s, rest) && Seen(signed, rest, 0, after)
    ensures rest != [] && after == rest[1..] && 0 !in s && ReadChars(signed, all) == Got(s, rest[1..])
  {
    TextAfter(s, rest);
    assert s + [] == s;
  }

  /** A byte of 0x80 or more ahead means that a file would give another string, or none. */
  lemma TextStopped(signed: bool, all: seq<byte>, s: seq<byte>, rest: seq<byte>, c: int, after: seq<byte>)
    requires SoFar(signed, all, s, rest) && Seen(signed, rest, c, after) && c < 0
    ensures ReadChars(signed, all) == Fail
  {
    TextAfter(s, rest);
    var r, whole := ReadText(rest), ReadText(all);
    assert r.Got? ==> r.value != [] && r.value[0] == rest[0];
    assert r.Got? ==> whole.value[|s|] == rest[0];
  }
}
