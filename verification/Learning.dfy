/**
 What the parser's register holds after each metadata event.
 */
module Learning {
  import opened Bytes
  import opened EventKlasses
  import opened Registry
  import opened KlassTable
  import opened ProtocolReader
  import opened Decoding

  // Values of the two metadata events.

  predicate RecordFits(rec: Record) {
    if rec.klassId == KLASS_INFO_KLASS then AllFit(rec.values, KLASS_INFO_EVENT.fields)
    else rec.klassId == FIELD_INFO_KLASS && AllFit(rec.values, FIELD_INFO_EVENT.fields)
  }

  function RecordFields(rec: Record): seq<FieldDecl> {
    if rec.klassId == KLASS_INFO_KLASS then KLASS_INFO_EVENT.fields else FIELD_INFO_EVENT.fields
  }

  /** The values the parser decodes from a metadata event. */
  function RecordValues(rec: Record): map<cstring, Value>
    requires RecordFits(rec)
  {
    FieldMap(RecordFields(rec), rec.values)
  }

  lemma RecordNames()
    ensures DistinctNames(KLASS_INFO_EVENT.fields) && DistinctNames(FIELD_INFO_EVENT.fields)
  {
    assert |INFO_KLASS_ID| == 13 && |EVENT_KLASS_NAME| == 16 && |FIELD_COUNT| == 11;
    assert |FIELD_TYPE| == 10 && |FIELD_NAME| == 10 && |SIZE| == 4 && |DATA_TYPE| == 9 && |BASE| == 4;
    assert FIELD_TYPE[6] != FIELD_NAME[6] && SIZE[0] != BASE[0];
  }

  lemma KlassRecordFits(i: nat, k: Klass)
    requires i < Capacity(4)
    ensures RecordFits(KlassRecord(i, k))
  {
  }

  lemma FieldRecordFits(i: nat, f: TypeField)
    requires i < Capacity(4) && f.size < Capacity(8) && f.dataType < 256
    ensures RecordFits(FieldRecord(i, f))
  {
  }

  /** What a class description teaches the parser, with or without the header merged in. */
  lemma LearnKlassRecord(t: Table, i: nat, k: Klass, e: Event)
    requires i < Capacity(4) && RecordFits(KlassRecord(i, k)) && e.klassId == KLASS_INFO_KLASS
    requires forall name :: name in RecordValues(KlassRecord(i, k)) ==>
                              name in e.values && e.values[name] == RecordValues(KlassRecord(i, k))[name]
    ensures Learn(t, e) == Some(AddKlass(t, ParsedKlass(Name(k), i, [])))
  {
    hide FieldMap;
    RecordNames();
    var rec := KlassRecord(i, k);
    FieldMapAt(KLASS_INFO_EVENT.fields, rec.values, 0);
    FieldMapAt(KLASS_INFO_EVENT.fields, rec.values, 1);
  }

  function LearnTypeField(t: Table, i: nat, f: TypeField): Option<Table> {
    if IsWellKnown(i) then Some(t)
    else
      var ty := GetTypeId(f.size, f.dataType);
      if ty.None? then None else AddKlassField(t, i, ParsedField(f.name, f.ctype, ty.value))
  }

  lemma FieldInfoShape()
    ensures FIELD_INFO_EVENT.Derived? && |FIELD_INFO_EVENT.fields| == 5
    ensures FIELD_INFO_EVENT.fields[0].name == INFO_KLASS_ID && FIELD_INFO_EVENT.fields[1].name == FIELD_TYPE
    ensures FIELD_INFO_EVENT.fields[2].name == FIELD_NAME && FIELD_INFO_EVENT.fields[3].name == SIZE
            && FIELD_INFO_EVENT.fields[4].name == DATA_TYPE
    ensures TypeIdOf(FIELD_INFO_EVENT.fields[0]) == UINT32 && TypeIdOf(FIELD_INFO_EVENT.fields[3]) == UINT64
    ensures TypeIdOf(FIELD_INFO_EVENT.fields[4]) == UINT8
    ensures FIELD_INFO_EVENT.fields[1].StringField? && FIELD_INFO_EVENT.fields[2].StringField?
    ensures FIELD_INFO_EVENT.fields[0].IntField? && FIELD_INFO_EVENT.fields[3].IntField?
            && FIELD_INFO_EVENT.fields[4].IntField?
  {
  }

  lemma FieldRecordValues(i: nat, f: TypeField)
    requires RecordFits(FieldRecord(i, f))
    ensures var m := RecordValues(FieldRecord(i, f));
            && INFO_KLASS_ID in m && m[INFO_KLASS_ID] == Num(UINT32, i)
            && FIELD_TYPE in m && m[FIELD_TYPE] == Str(f.ctype)
            && FIELD_NAME in m && m[FIELD_NAME] == Str(f.name)
            && SIZE in m && m[SIZE] == Num(UINT64, f.size)
            && DATA_TYPE in m && m[DATA_TYPE] == Num(UINT8, f.dataType)
  {
    RecordNames();
    FieldInfoShape();
    var values := FieldRecord(i, f).values;
    hide FieldMap;
    hide FIELD_INFO_EVENT;
    hide DistinctNames;
    FieldMapAt(FIELD_INFO_EVENT.fields, values, 0);
    FieldMapAt(FIELD_INFO_EVENT.fields, values, 1);
    FieldMapAt(FIELD_INFO_EVENT.fields, values, 2);
    FieldMapAt(FIELD_INFO_EVENT.fields, values, 3);
    FieldMapAt(FIELD_INFO_EVENT.fields, values, 4);
  }

  /** What a field description teaches the parser. */
  lemma LearnFieldRecord(t: Table, i: nat, f: TypeField, e: Event)
    requires RecordFits(FieldRecord(i, f)) && e.klassId == FIELD_INFO_KLASS
    requires forall name :: name in RecordValues(FieldRecord(i, f)) ==>
                              name in e.values && e.values[name] == RecordValues(FieldRecord(i, f))[name]
    ensures Learn(t, e) == LearnTypeField(t, i, f)
  {
    hide FieldMap;
    FieldRecordValues(i, f);
    assert GetNum(e, INFO_KLASS_ID) == Some(i) && GetNum(e, SIZE) == Some(f.size);
    assert GetStr(e, FIELD_TYPE) == Some(f.ctype) && GetStr(e, FIELD_NAME) == Some(f.name);
    assert GetNum(e, DATA_TYPE) == Some(f.dataType);
  }

  // The register while the classes are being described.

  /** The parser's field list for a class it learns from scratch. */
  function ScratchFields(k: Klass): seq<ParsedField>
    requires k.Derived?
  {
    [BaseField(k)] + ParsedFields(k.fields)
  }

  /** The register holds the first n classes, besides those built in. */
  ghost predicate Holds(t: Table, r: seq<Klass>, n: nat)
    requires FIELD_INFO_KLASS < |r| && n <= |r| && r[ENDIANNESS_KLASS].Derived?
  {
    && (forall i: nat :: i in t.klasses <==> i < n || i <= FIELD_INFO_KLASS)
    && (forall i: nat :: i in t.klasses ==> t.klasses[i].name == Name(r[i]))
    && t.klasses[EVENT_KLASS].fields == EVENT_FIELDS
    && t.klasses[KLASS_INFO_KLASS].fields == KLASS_INFO_FIELDS
    && t.klasses[FIELD_INFO_KLASS].fields == FIELD_INFO_FIELDS
    && t.klasses[ENDIANNESS_KLASS].fields
       == (if n == 0 then ENDIANNESS_FIELDS else ENDIANNESS_FIELDS + [BaseField(r[ENDIANNESS_KLASS])])
    && (forall i :: FIELD_INFO_KLASS < i < n ==> r[i].Derived? && t.klasses[i].fields == ScratchFields(r[i]))
    && |t.order| == (if n <= 4 then 4 else n)
    && t.order[..4] == [EVENT_KLASS, ENDIANNESS_KLASS, KLASS_INFO_KLASS, FIELD_INFO_KLASS]
    && (forall p :: 4 <= p < |t.order| ==> t.order[p] == p)
  }

  /** From the register holding n classes: what it holds once j fields of class n are described. */
  function Partial(t: Table, n: nat, k: Klass, j: nat): Table
    requires j <= |TypeFields(k)|
  {
    if IsWellKnown(n) || k.HTEvent? then t
    else if n == ENDIANNESS_KLASS && n in t.klasses then
      if j == 0 then t
      else t.(klasses := t.klasses[n := t.klasses[n].(fields := t.klasses[n].fields + [BaseField(k)])])
    else Table(t.klasses[n := ParsedKlass(Name(k), n, ScratchFields(k)[..j])], t.order + [n])
  }

  lemma ProgramKlass(r: seq<Klass>, n: nat)
    requires Reserved(r) && Coherent(r) && FIELD_INFO_KLASS < n < |r|
    ensures r[n].Derived? && WellFormed(r[n])
  {
    assert Name(r[n]) != Name(r[EVENT_KLASS]);
  }

  lemma PartialStart(t: Table, r: seq<Klass>, n: nat)
    requires Reserved(r) && Coherent(r) && n < |r| && Holds(t, r, n)
    ensures AddKlass(t, ParsedKlass(Name(r[n]), n, [])) == Partial(t, n, r[n], 0)
  {
    if n > FIELD_INFO_KLASS {
      ProgramKlass(r, n);
      assert ScratchFields(r[n])[..0] == [];
    }
  }

  /** The type the parser assigns to each field of a class. */
  lemma TypeFieldIds(k: Klass, j: nat)
    requires k.Derived? && WellFormed(k) && j < |TypeFields(k)|
    ensures var f := TypeFields(k)[j];
            GetTypeId(f.size, f.dataType).Some?
            && ParsedField(f.name, f.ctype, GetTypeId(f.size, f.dataType).value) == ScratchFields(k)[j]
  {
    hide *;
    TypeFieldsAt(k, j);
    ScratchFieldsAt(k, j);
    if j == 0 {
      StructTypeId(SizeOf(k.base));
      BaseFieldIs(k);
    } else {
      FieldTypeIdOf(k.fields[j - 1]);
    }
  }

  lemma TypeFieldsAt(k: Klass, j: nat)
    requires k.Derived? && WellFormed(k) && j < |TypeFields(k)|
    ensures j == 0 ==> TypeFields(k)[0] == TypeField(BASE, Name(k.base), SizeOf(k.base), TYPE_STRUCT)
    ensures j > 0 ==> j - 1 < |k.fields| && TypeFields(k)[j] == ToTypeField(k.fields[j - 1])
    ensures j > 0 ==> (k.fields[j - 1].IntField? ==> IsWidth(k.fields[j - 1].width))
  {
    hide Name;
    hide SizeOf;
    hide BASE;
    hide ToTypeField;
    hide IsWidth;
    hide DistinctNames;
  }

  lemma ScratchFieldsAt(k: Klass, j: nat)
    requires k.Derived? && j < |TypeFields(k)|
    ensures |ScratchFields(k)| == |TypeFields(k)|
    ensures j == 0 ==> ScratchFields(k)[0] == BaseField(k)
    ensures j > 0 ==> j - 1 < |k.fields|
                      && ScratchFields(k)[j]
                         == ParsedField(k.fields[j - 1].name, k.fields[j - 1].ctype, TypeIdOf(k.fields[j - 1]))
  {
    hide Name;
    hide SizeOf;
    hide BASE;
    hide ToTypeField;
    hide TypeIdOf;
    hide BaseField;
  }

  lemma StructTypeId(size: nat)
    ensures GetTypeId(size, TYPE_STRUCT) == Some(STRUCT)
  {
  }

  lemma BaseFieldIs(k: Klass)
    requires k.Derived?
    ensures BaseField(k) == ParsedField(BASE, Name(k.base), STRUCT)
  {
    hide Name;
    hide BASE;
  }

  lemma FieldTypeIdOf(f: FieldDecl)
    requires f.IntField? ==> IsWidth(f.width)
    ensures var tf := ToTypeField(f);
            tf.name == f.name && tf.ctype == f.ctype && GetTypeId(tf.size, tf.dataType) == Some(TypeIdOf(f))
  {
  }

  lemma ScratchNames(k: Klass, j: nat)
    requires k.Derived? && WellFormed(k) && j < |ScratchFields(k)|
    ensures !HasField(ScratchFields(k)[..j], ScratchFields(k)[j].name)
  {
    var fs := ScratchFields(k);
    forall i | 0 <= i < j
      ensures fs[i].name != fs[j].name
    {
      if i > 0 {
        assert fs[i].name == k.fields[i - 1].name && fs[j].name == k.fields[j - 1].name;
      } else {
        assert fs[j].name == k.fields[j - 1].name;
      }
    }
  }

  lemma AddNextField(t: Table, n: nat, name: cstring, fs: seq<ParsedField>, j: nat)
    requires j < |fs| && !HasField(fs[..j], fs[j].name)
    ensures AddKlassField(Table(t.klasses[n := ParsedKlass(name, n, fs[..j])], t.order + [n]), n, fs[j])
         == Some(Table(t.klasses[n := ParsedKlass(name, n, fs[..j + 1])], t.order + [n]))
  {
    assert fs[..j] + [fs[j]] == fs[..j + 1];
    var k, k' := ParsedKlass(name, n, fs[..j]), ParsedKlass(name, n, fs[..j + 1]);
    assert t.klasses[n := k][n := k'] == t.klasses[n := k'];
  }

  /** Describing one more field of a class that is not built in. */
  lemma ScratchStep(t: Table, n: nat, k: Klass, j: nat)
    requires n > FIELD_INFO_KLASS && k.Derived? && WellFormed(k) && j < |TypeFields(k)|
    ensures LearnTypeField(Partial(t, n, k, j), n, TypeFields(k)[j]) == Some(Partial(t, n, k, j + 1))
  {
    TypeFieldIds(k, j);
    ScratchNames(k, j);
    AddNextField(t, n, Name(k), ScratchFields(k), j);
    hide GetTypeId;
    hide ScratchFields;
  }

  lemma EndiannessTypeFields()
    ensures ENDIANNESS_INFO_EVENT.Derived? && WellFormed(ENDIANNESS_INFO_EVENT)
            && |TypeFields(ENDIANNESS_INFO_EVENT)| == 2
    ensures TypeFields(ENDIANNESS_INFO_EVENT)[1].name == ENDIANNESS != BASE
    ensures |ENDIANNESS_FIELDS| == 1 && ENDIANNESS_FIELDS[0].name == ENDIANNESS
  {
    assert |ENDIANNESS| == 10 && |BASE| == 4;
  }

  /** The built-in endianness class learns its `base` and ignores the field it already has. */
  lemma EndiannessStep(t: Table, j: nat)
    requires ENDIANNESS_KLASS in t.klasses && t.klasses[ENDIANNESS_KLASS].fields == ENDIANNESS_FIELDS
    requires j < |TypeFields(ENDIANNESS_INFO_EVENT)|
    ensures LearnTypeField(Partial(t, ENDIANNESS_KLASS, ENDIANNESS_INFO_EVENT, j), ENDIANNESS_KLASS,
                           TypeFields(ENDIANNESS_INFO_EVENT)[j])
         == Some(Partial(t, ENDIANNESS_KLASS, ENDIANNESS_INFO_EVENT, j + 1))
  {
    EndiannessTypeFields();
    TypeFieldIds(ENDIANNESS_INFO_EVENT, j);
    hide ENDIANNESS_INFO_EVENT;
    hide ENDIANNESS_FIELDS;
    hide TypeFields;
    hide GetTypeId;
    var t' := Partial(t, ENDIANNESS_KLASS, ENDIANNESS_INFO_EVENT, j);
    assert ScratchFields(ENDIANNESS_INFO_EVENT)[0].name == BASE;
    if j == 1 {
      assert t'.klasses[ENDIANNESS_KLASS].fields[0].name == ENDIANNESS;
      assert t'.klasses == t'.klasses[ENDIANNESS_KLASS := t'.klasses[ENDIANNESS_KLASS]];
    }
  }

  /** Describing one more field. */
  lemma PartialStep(t: Table, r: seq<Klass>, n: nat, j: nat)
    requires Reserved(r) && Coherent(r) && n < |r| && Holds(t, r, n) && j < |TypeFields(r[n])|
    ensures LearnTypeField(Partial(t, n, r[n], j), n, TypeFields(r[n])[j]) == Some(Partial(t, n, r[n], j + 1))
  {
    hide ENDIANNESS_INFO_EVENT;
    hide KLASS_INFO_EVENT;
    hide FIELD_INFO_EVENT;
    hide TypeFields;
    if n == ENDIANNESS_KLASS {
      EndiannessStep(t, j);
    } else if n > FIELD_INFO_KLASS {
      ProgramKlass(r, n);
      ScratchStep(t, n, r[n], j);
    }
  }

  lemma ScratchEnd(t: Table, r: seq<Klass>, n: nat)
    requires FIELD_INFO_KLASS < n < |r| && r[ENDIANNESS_KLASS].Derived? && r[n].Derived? && Holds(t, r, n)
    ensures Holds(Table(t.klasses[n := ParsedKlass(Name(r[n]), n, ScratchFields(r[n]))], t.order + [n]), r, n + 1)
  {
    hide EVENT_FIELDS;
    hide KLASS_INFO_FIELDS;
    hide FIELD_INFO_FIELDS;
    hide ENDIANNESS_FIELDS;
    hide ScratchFields;
    assert (t.order + [n])[..4] == t.order[..4];
  }

  lemma BuiltInEnd(t: Table, r: seq<Klass>, n: nat)
    requires Reserved(r) && n <= FIELD_INFO_KLASS && Holds(t, r, n)
    ensures Holds(Partial(t, n, r[n], |TypeFields(r[n])|), r, n + 1)
  {
    EndiannessTypeFields();
    hide ENDIANNESS_INFO_EVENT;
    hide KLASS_INFO_EVENT;
    hide FIELD_INFO_EVENT;
    hide TypeFields;
    hide EVENT_FIELDS;
    hide KLASS_INFO_FIELDS;
    hide FIELD_INFO_FIELDS;
    hide ENDIANNESS_FIELDS;
  }

  /** Describing all fields. */
  lemma PartialEnd(t: Table, r: seq<Klass>, n: nat)
    requires Reserved(r) && Coherent(r) && n < |r| && Holds(t, r, n)
    ensures Holds(Partial(t, n, r[n], |TypeFields(r[n])|), r, n + 1)
  {
    if n <= FIELD_INFO_KLASS {
      BuiltInEnd(t, r, n);
    } else {
      ProgramKlass(r, n);
      ScratchEnd(t, r, n);
      assert ScratchFields(r[n])[..|TypeFields(r[n])|] == ScratchFields(r[n]);
    }
  }

  lemma InitialHolds(r: seq<Klass>)
    requires Reserved(r)
    ensures Holds(INITIAL_TABLE, r, 0) && KnowsHeader(INITIAL_TABLE)
  {
  }

  lemma {:induction false} FindNameAt(t: Table, name: cstring, from: nat, p: nat)
    requires from <= p < |t.order| && t.order[p] in t.klasses && t.klasses[t.order[p]].name == name
    requires forall q :: from <= q < p ==> t.order[q] in t.klasses && t.klasses[t.order[q]].name != name
    ensures FindName(t, name, from) == Some(t.order[p])
    decreases p - from
  {
    if from < p {
      FindNameAt(t, name, from + 1, p);
    }
  }

  lemma FindDistinctName(t: Table, r: seq<Klass>, p: nat)
    requires forall q :: 0 <= q < |t.order| ==>
                           t.order[q] in t.klasses && t.order[q] < |r|
                           && t.klasses[t.order[q]].name == Name(r[t.order[q]])
    requires DistinctKlassNames(r)
    requires p < |t.order| && forall q :: 0 <= q < p ==> t.order[q] != t.order[p]
    ensures GetKlassByName(t, Name(r[t.order[p]])) == Some(t.order[p])
  {
    FindNameAt(t, Name(r[t.order[p]]), 0, p);
  }

  lemma HoldsOrder(t: Table, r: seq<Klass>)
    requires FIELD_INFO_KLASS < |r| && r[ENDIANNESS_KLASS].Derived? && Holds(t, r, |r|)
    ensures |t.order| == |r|
    ensures t.order[0] == EVENT_KLASS && t.order[1] == ENDIANNESS_KLASS
    ensures forall q :: 2 <= q < |r| ==> t.order[q] == q
    ensures forall i: nat :: i < |r| ==> i in t.klasses && t.klasses[i].name == Name(r[i])
  {
    hide EVENT_FIELDS;
    hide KLASS_INFO_FIELDS;
    hide FIELD_INFO_FIELDS;
    hide ENDIANNESS_FIELDS;
    hide ScratchFields;
    assert t.order[0] == t.order[..4][0] && t.order[1] == t.order[..4][1];
    assert t.order[2] == t.order[..4][2] && t.order[3] == t.order[..4][3];
  }

  /** Each class stands at one position of the order of insertion. */
  lemma PositionOf(t: Table, r: seq<Klass>, i: nat) returns (p: nat)
    requires FIELD_INFO_KLASS < |r| && r[ENDIANNESS_KLASS].Derived? && Holds(t, r, |r|) && i < |r|
    ensures p < |t.order| && t.order[p] == i && forall q :: 0 <= q < p ==> t.order[q] != t.order[p]
    ensures forall q :: 0 <= q < |t.order| ==>
                          t.order[q] in t.klasses && t.order[q] < |r|
                          && t.klasses[t.order[q]].name == Name(r[t.order[q]])
  {
    HoldsOrder(t, r);
    hide Holds;
    hide Name;
    p := if i == EVENT_KLASS then 0 else if i == ENDIANNESS_KLASS then 1 else i;
  }

  lemma CoherentNames(r: seq<Klass>)
    requires Coherent(r)
    ensures DistinctKlassNames(r)
  {
  }

  /** Searching by name finds the class of that name. */
  lemma HoldsFindsName(t: Table, r: seq<Klass>, i: nat)
    requires FIELD_INFO_KLASS < |r| && r[ENDIANNESS_KLASS].Derived? && Coherent(r) && Holds(t, r, |r|) && i < |r|
    ensures GetKlassByName(t, Name(r[i])) == Some(i)
  {
    hide *;
    var p := PositionOf(t, r, i);
    CoherentNames(r);
    FindDistinctName(t, r, p);
  }

  lemma BuiltInShapes()
    ensures HasShape(ENDIANNESS_FIELDS + [BaseField(ENDIANNESS_INFO_EVENT)], ENDIANNESS_INFO_EVENT, BaseLast)
    ensures HasShape(KLASS_INFO_FIELDS, KLASS_INFO_EVENT, NoBase)
            && HasShape(FIELD_INFO_FIELDS, FIELD_INFO_EVENT, NoBase)
  {
    var fs := ENDIANNESS_FIELDS + [BaseField(ENDIANNESS_INFO_EVENT)];
    assert fs[..|fs| - 1] == ENDIANNESS_FIELDS;
  }

  lemma ScratchShape(k: Klass)
    requires k.Derived?
    ensures HasShape(ScratchFields(k), k, BaseFirst)
  {
    assert ScratchFields(k)[1..] == ParsedFields(k.fields);
  }

  /** Once every class is described the parser can decode every class. */
  lemma HoldsKnowsAll(t: Table, r: seq<Klass>)
    requires Reserved(r) && Coherent(r) && Holds(t, r, |r|)
    ensures KnowsAll(t, r) && KnowsHeader(t)
  {
    hide EVENT_FIELDS;
    hide KLASS_INFO_FIELDS;
    hide FIELD_INFO_FIELDS;
    hide ENDIANNESS_FIELDS;
    hide ScratchFields;
    hide ENDIANNESS_INFO_EVENT;
    hide KLASS_INFO_EVENT;
    hide FIELD_INFO_EVENT;
    hide GetKlassByName;
    BuiltInShapes();
    forall i | 0 <= i < |r|
      ensures KnowsKlass(t, r, i)
    {
      HoldsFindsName(t, r, i);
      if i > FIELD_INFO_KLASS {
        ScratchShape(r[i]);
      }
    }
  }
}
