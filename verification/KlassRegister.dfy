/**
 The parser's table of event classes, learned from the stream
 (parser/klass_register.cpp, parser/event_klass.cpp, parser/event.cpp).
 */
module KlassTable {
  import opened Bytes
  import opened Registry

  datatype FieldTypeId =
    | UINT8 | INT8 | UINT16 | INT16 | UINT32 | INT32 | UINT64 | INT64 | PTR | STRING | STRUCT

  predicate IsNumeric(t: FieldTypeId) {
    t != PTR && t != STRING && t != STRUCT
  }

  function WidthOf(t: FieldTypeId): (w: nat)
    requires IsNumeric(t)
    ensures IsWidth(w)
  {
    if t == UINT8 || t == INT8 then 1
    else if t == UINT16 || t == INT16 then 2
    else if t == UINT32 || t == INT32 then 4
    else 8
  }

  /** The type of a field of the given size and wire data type; None where the parser throws. */
  function GetTypeId(size: nat, dataType: nat): Option<FieldTypeId> {
    if dataType == TYPE_PTR then Some(PTR)
    else if dataType == TYPE_STRING then Some(STRING)
    else if dataType == TYPE_UNSIGNED_INTEGER then
      if size == 1 then Some(UINT8) else if size == 2 then Some(UINT16)
      else if size == 4 then Some(UINT32) else if size == 8 then Some(UINT64) else None
    else if dataType == TYPE_INTEGER then
      if size == 1 then Some(INT8) else if size == 2 then Some(INT16)
      else if size == 4 then Some(INT32) else if size == 8 then Some(INT64) else None
    else if dataType == TYPE_STRUCT then Some(STRUCT)
    else None
  }

  datatype ParsedField = ParsedField(name: cstring, typeName: cstring, typeId: FieldTypeId)

  datatype ParsedKlass = ParsedKlass(name: cstring, id: nat, fields: seq<ParsedField>)

  /** The value of a field of a decoded event, with the type it was decoded at. */
  datatype Value = Num(typeId: FieldTypeId, n: nat) | Str(s: cstring) | Sub(event: Event)

  datatype Event = Event(klassId: nat, values: map<cstring, Value>)

  /** Event::set_value keeps the value inserted first. */
  function SetValue(values: map<cstring, Value>, name: cstring, v: Value): map<cstring, Value> {
    if name in values then values else values[name := v]
  }

  /** Event::merge inserts every value of another event. */
  function Merge(values: map<cstring, Value>, other: map<cstring, Value>): (m: map<cstring, Value>)
    ensures m.Keys == values.Keys + other.Keys
    ensures forall name :: name in values ==> m[name] == values[name]
    ensures forall name :: name in other && name !in values ==> m[name] == other[name]
  {
    other + values
  }

  function GetNum(e: Event, name: cstring): Option<nat> {
    if name in e.values && e.values[name].Num? then Some(e.values[name].n) else None
  }

  function GetStr(e: Event, name: cstring): Option<cstring> {
    if name in e.values && e.values[name].Str? then Some(e.values[name].s) else None
  }

  /** The register: classes by identifier, and the order in which a search by name visits them. */
  datatype Table = Table(klasses: map<nat, ParsedKlass>, order: seq<nat>)

  ghost predicate ValidTable(t: Table) {
    forall i :: 0 <= i < |t.order| ==> t.order[i] in t.klasses
  }

  function FindName(t: Table, name: cstring, from: nat): (r: Option<nat>)
    requires from <= |t.order|
    decreases |t.order| - from
  {
    if from == |t.order| then None
    else if t.order[from] in t.klasses && t.klasses[t.order[from]].name == name then Some(t.order[from])
    else FindName(t, name, from + 1)
  }

  /** KlassRegister::get_klass by name. */
  function GetKlassByName(t: Table, name: cstring): Option<nat> {
    FindName(t, name, 0)
  }

  lemma {:induction false} FindNameFound(t: Table, name: cstring, from: nat)
    requires from <= |t.order|
    ensures var r := FindName(t, name, from);
            if r.Some? then r.value in t.order[from..] && r.value in t.klasses && t.klasses[r.value].name == name
            else forall i :: from <= i < |t.order| && t.order[i] in t.klasses ==> t.klasses[t.order[i]].name != name
    decreases |t.order| - from
  {
    if from < |t.order| {
      FindNameFound(t, name, from + 1);
      assert t.order[from..] == [t.order[from]] + t.order[from + 1..];
    }
  }

  /**
   The source searches a hash table: where no two classes share a name, every order of search finds the same
   class.
   */
  lemma SearchOrderIrrelevant(t: Table, order: seq<nat>, name: cstring)
    requires forall id :: id in order <==> id in t.order
    requires forall a, b :: a in t.klasses && b in t.klasses && t.klasses[a].name == t.klasses[b].name ==> a == b
    ensures GetKlassByName(t.(order := order), name) == GetKlassByName(t, name)
  {
    var t' := t.(order := order);
    FindNameFound(t, name, 0);
    FindNameFound(t', name, 0);
    assert t.order[0..] == t.order && t'.order[0..] == order;
    var r, r' := GetKlassByName(t, name), GetKlassByName(t', name);
    if r.Some? {
      var i :| 0 <= i < |order| && order[i] == r.value;
    }
    if r'.Some? {
      var i :| 0 <= i < |t.order| && t.order[i] == r'.value;
    }
  }

  function AddKlass(t: Table, k: ParsedKlass): (r: Table) {
    if k.id in t.klasses then t else Table(t.klasses[k.id := k], t.order + [k.id])
  }

  predicate HasField(fields: seq<ParsedField>, name: cstring) {
    exists i :: 0 <= i < |fields| && fields[i].name == name
  }

  /** EventKlass::add_field ignores a name the class already has. */
  function AddField(k: ParsedKlass, f: ParsedField): ParsedKlass {
    if HasField(k.fields, f.name) then k else k.(fields := k.fields + [f])
  }

  function AddKlassField(t: Table, id: nat, f: ParsedField): Option<Table> {
    if id in t.klasses then Some(t.(klasses := t.klasses[id := AddField(t.klasses[id], f)])) else None
  }

  predicate IsWellKnown(id: nat) {
    id == EVENT_KLASS || id == KLASS_INFO_KLASS || id == FIELD_INFO_KLASS
  }

  const EVENT_FIELDS: seq<ParsedField> :=
    [ParsedField(KLASS_ID, Ascii("uint32_t"), UINT32), ParsedField(TIMESTAMP, Ascii("uint64_t"), UINT64),
     ParsedField(ID, Ascii("uint64_t"), UINT64)]

  const ENDIANNESS_FIELDS: seq<ParsedField> := [ParsedField(ENDIANNESS, Ascii("uint8_t"), UINT8)]

  const KLASS_INFO_FIELDS: seq<ParsedField> :=
    [ParsedField(INFO_KLASS_ID, Ascii("uint32_t"), UINT32),
     ParsedField(EVENT_KLASS_NAME, Ascii("const char*"), STRING),
     ParsedField(FIELD_COUNT, Ascii("uint8_t"), UINT8)]

  const FIELD_INFO_FIELDS: seq<ParsedField> :=
    [ParsedField(INFO_KLASS_ID, Ascii("uint32_t"), UINT32),
     ParsedField(FIELD_TYPE, Ascii("const char*"), STRING),
     ParsedField(FIELD_NAME, Ascii("const char*"), STRING),
     ParsedField(SIZE, Ascii("uint64_t"), UINT64),
     ParsedField(DATA_TYPE, Ascii("uint8_t"), UINT8)]

  /** The register before any byte is read. */
  const INITIAL_TABLE: Table :=
    Table(map[EVENT_KLASS := ParsedKlass(HT_EVENT, EVENT_KLASS, EVENT_FIELDS),
              ENDIANNESS_KLASS := ParsedKlass(ENDIANNESS_INFO, ENDIANNESS_KLASS, ENDIANNESS_FIELDS),
              KLASS_INFO_KLASS := ParsedKlass(KLASS_INFO, KLASS_INFO_KLASS, KLASS_INFO_FIELDS),
              FIELD_INFO_KLASS := ParsedKlass(FIELD_INFO, FIELD_INFO_KLASS, FIELD_INFO_FIELDS)],
          [EVENT_KLASS, ENDIANNESS_KLASS, KLASS_INFO_KLASS, FIELD_INFO_KLASS])

  /** The effect of a HT_EventKlassInfoEvent; None where the parser throws. */
  function LearnKlass(t: Table, e: Event): Option<Table> {
    var id := GetNum(e, INFO_KLASS_ID);
    var name := GetStr(e, EVENT_KLASS_NAME);
    if id.None? || name.None? then None
    else Some(AddKlass(t, ParsedKlass(name.value, id.value, [])))
  }

  /** The effect of a HT_EventKlassFieldInfoEvent; None where the parser throws. */
  function LearnField(t: Table, e: Event): Option<Table> {
    var id := GetNum(e, INFO_KLASS_ID);
    if id.None? then None
    else if IsWellKnown(id.value) then Some(t)
    else
      var dataType := GetNum(e, DATA_TYPE);
      var typeName := GetStr(e, FIELD_TYPE);
      var name := GetStr(e, FIELD_NAME);
      var size := GetNum(e, SIZE);
      if dataType.None? || typeName.None? || name.None? || size.None? then None
      else
        var typeId := GetTypeId(size.value, dataType.value);
        if typeId.None? then None
        else AddKlassField(t, id.value, ParsedField(name.value, typeName.value, typeId.value))
  }

  /** KlassRegister::handle_register_events. */
  function Learn(t: Table, e: Event): Option<Table> {
    if e.klassId == KLASS_INFO_KLASS then LearnKlass(t, e)
    else if e.klassId == FIELD_INFO_KLASS then LearnField(t, e)
    else Some(t)
  }

  class KlassRegister {
    var klasses: map<nat, ParsedKlass>
    var order: seq<nat>

    function View(): Table
      reads this
    {
      Table(klasses, order)
    }

    constructor ()
      ensures View() == INITIAL_TABLE
    {
      klasses := map[];
      order := [];
      new;
      AddParsedKlass(ParsedKlass(HT_EVENT, EVENT_KLASS, EVENT_FIELDS));
      AddParsedKlass(ParsedKlass(ENDIANNESS_INFO, ENDIANNESS_KLASS, ENDIANNESS_FIELDS));
      AddParsedKlass(ParsedKlass(KLASS_INFO, KLASS_INFO_KLASS, KLASS_INFO_FIELDS));
      AddParsedKlass(ParsedKlass(FIELD_INFO, FIELD_INFO_KLASS, FIELD_INFO_FIELDS));
    }

    method AddParsedKlass(k: ParsedKlass)
      modifies this
      ensures View() == AddKlass(old(View()), k)
    {
      if k.id !in klasses {
        klasses := klasses[k.id := k];
        order := order + [k.id];
      }
    }

    /** EventKlass::_get_field without recursion: a search by name through the fields. */
    method HasFieldNamed(id: nat, name: cstring) returns (found: bool)
      requires id in klasses
      ensures found == HasField(klasses[id].fields, name)
    {
      var fields := klasses[id].fields;
      for i := 0 to |fields|
        invariant forall j :: 0 <= j < i ==> fields[j].name != name
      {
        if fields[i].name == name {
          return true;
        }
      }
      return false;
    }

    method AddFieldTo(id: nat, f: ParsedField) returns (ok: bool)
      modifies this
      ensures ok == AddKlassField(old(View()), id, f).Some?
      ensures View() == if ok then AddKlassField(old(View()), id, f).value else old(View())
    {
      if id !in klasses {
        return false;
      }
      var found := HasFieldNamed(id, f.name);
      if !found {
        var k := klasses[id];
        klasses := klasses[id := k.(fields := k.fields + [f])];
      } else {
        assert klasses == klasses[id := AddField(klasses[id], f)];
      }
      return true;
    }

    method FindKlass(name: cstring) returns (r: Option<nat>)
      ensures r == GetKlassByName(View(), name)
    {
      for i := 0 to |order|
        invariant GetKlassByName(View(), name) == FindName(View(), name, i)
      {
        if order[i] in klasses && klasses[order[i]].name == name {
          return Some(order[i]);
        }
      }
      return None;
    }

    method HandleRegisterEvents(e: Event) returns (ok: bool)
      modifies this
      ensures ok == Learn(old(View()), e).Some?
      ensures View() == if ok then Learn(old(View()), e).value else old(View())
    {
      if e.klassId == KLASS_INFO_KLASS {
        var id := GetNum(e, INFO_KLASS_ID);
        var name := GetStr(e, EVENT_KLASS_NAME);
        if id.None? || name.None? {
          return false;
        }
        AddParsedKlass(ParsedKlass(name.value, id.value, []));
        return true;
      }
      if e.klassId == FIELD_INFO_KLASS {
        var id := GetNum(e, INFO_KLASS_ID);
        if id.None? {
          return false;
        }
        if IsWellKnown(id.value) {
          return true;
        }
        var dataType := GetNum(e, DATA_TYPE);
        var typeName := GetStr(e, FIELD_TYPE);
        var name := GetStr(e, FIELD_NAME);
        var size := GetNum(e, SIZE);
        if dataType.None? || typeName.None? || name.None? || size.None? {
          return false;
        }
        var typeId := GetTypeId(size.value, dataType.value);
        if typeId.None? {
          return false;
        }
        ok := AddFieldTo(id.value, ParsedField(name.value, typeName.value, typeId.value));
        return;
      }
      return true;
    }
  }
}
