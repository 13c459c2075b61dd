/**
 Registering classes (lib/init.c, lib/registry.c): what every program registers meets every condition the
 stream needs, and registering further classes keeps them.
 */
module CoreRegistry {
  import opened Bytes
  import opened EventKlasses
  import opened Registry
  import opened Learning

  /** Tells the core classes apart: the length of the name and its fourth and fifth characters. */
  function Mark(k: Klass): (nat, nat, nat)
    requires |Name(k)| > 4
  {
    (|Name(k)|, Name(k)[3], Name(k)[4])
  }

  function CoreMark(i: nat): (nat, nat, nat) {
    if i == 0 then (22, 'E' as nat, 'n' as nat)
    else if i == 1 then (8, 'E' as nat, 'v' as nat)
    else if i == 2 then (22, 'E' as nat, 'v' as nat)
    else if i == 3 then (27, 'E' as nat, 'v' as nat)
    else if i == 4 then (21, 'C' as nat, 'a' as nat)
    else if i == 5 then (20, 'C' as nat, 'a' as nat)
    else if i == 6 then (23, 'C' as nat, 'a' as nat)
    else if i == 7 then (21, 'S' as nat, 't' as nat)
    else (18, 'S' as nat, 'y' as nat)
  }

  lemma CoreNames()
    ensures |CORE_KLASSES| == 9
    ensures forall i :: 0 <= i < 9 ==> |Name(CORE_KLASSES[i])| > 4 && Mark(CORE_KLASSES[i]) == CoreMark(i)
  {
  }

  lemma CoreNamesDistinct()
    ensures DistinctKlassNames(CORE_KLASSES)
  {
    CoreNames();
    forall i, j | 0 <= i < j < |CORE_KLASSES|
      ensures Name(CORE_KLASSES[i]) != Name(CORE_KLASSES[j])
    {
      MarksDiffer(i, j);
    }
  }

  lemma MarksDiffer(i: nat, j: nat)
    requires i < j < 9
    ensures CoreMark(i) != CoreMark(j)
  {
  }

  /** The fields of each core class have names of their own and integer widths of the machine. */
  lemma CoreFields()
    ensures WellFormed(ENDIANNESS_INFO_EVENT) && WellFormed(KLASS_INFO_EVENT) && WellFormed(FIELD_INFO_EVENT)
  {
    RecordNames();
    assert |ENDIANNESS| == 10 && |BASE| == 4;
    assert 64 < Capacity(1) <= Capacity(8) by {
      assert Capacity(1) == 256 * Capacity(0);
      Widths();
    }
  }

  lemma Widths()
    ensures Capacity(1) == 256 && Capacity(4) >= 256 && Capacity(8) >= 256
  {
    assert Capacity(2) == 256 * Capacity(1);
    assert Capacity(3) == 256 * Capacity(2);
    assert Capacity(4) == 256 * Capacity(3);
    assert Capacity(5) == 256 * Capacity(4);
    assert Capacity(6) == 256 * Capacity(5);
    assert Capacity(7) == 256 * Capacity(6);
  }

  lemma CallstackFields()
    ensures WellFormed(CALLSTACK_BASE_EVENT) && WellFormed(CALLSTACK_INT_EVENT) && WellFormed(CALLSTACK_STRING_EVENT)
  {
    Widths();
    assert |BASE| == 4;
    assert |CALLSTACK_BASE_EVENT.fields[0].name| == 8 && |CALLSTACK_BASE_EVENT.fields[1].name| == 9;
    assert |CALLSTACK_INT_EVENT.fields[0].name| == 5 && |CALLSTACK_STRING_EVENT.fields[0].name| == 5;
  }

  lemma OtherFields()
    ensures WellFormed(STRING_MAPPING_EVENT) && WellFormed(SYSTEM_INFO_EVENT)
  {
    Widths();
    assert |BASE| == 4;
    assert |STRING_MAPPING_EVENT.fields[0].name| == 10 && |STRING_MAPPING_EVENT.fields[1].name| == 5;
    var fs := SYSTEM_INFO_EVENT.fields;
    assert |fs[0].name| == 13 && |fs[1].name| == 13 && |fs[2].name| == 13;
    assert fs[0].name[9] == 'a' as int && fs[1].name[9] == 'i' as int;
    assert fs[0].name[8] == 'm' as int && fs[1].name[8] == 'm' as int && fs[2].name[8] == 'p' as int;
  }

  lemma CoreBases()
    ensures forall i :: 0 <= i < |CORE_KLASSES| ==> BaseRegistered(CORE_KLASSES, i)
  {
    assert CORE_KLASSES[1] == HTEvent && CORE_KLASSES[4] == CALLSTACK_BASE_EVENT;
    hide Ascii;
  }

  /** What ht_init registers is a registry every result about streams applies to. */
  lemma CoreRegistryIsValid()
    ensures ValidRegistry(CORE_KLASSES)
  {
    CoreFields();
    CallstackFields();
    OtherFields();
    CoreNamesDistinct();
    CoreBases();
    Widths();
    CoreNames();
    hide WellFormed;
    hide DistinctKlassNames;
    hide BaseRegistered;
    hide Capacity;
    assert WellFormed(HTEvent) by {
      EventWellFormed();
    }
    assert CORE_KLASSES
           == [ENDIANNESS_INFO_EVENT, HTEvent, KLASS_INFO_EVENT, FIELD_INFO_EVENT, CALLSTACK_BASE_EVENT,
               CALLSTACK_INT_EVENT, CALLSTACK_STRING_EVENT, STRING_MAPPING_EVENT, SYSTEM_INFO_EVENT];
  }

  lemma EventWellFormed()
    ensures WellFormed(HTEvent)
  {
  }

  /** A class a program may add: well formed, of a new name, with a registered base. */
  predicate Addable(r: seq<Klass>, k: Klass) {
    && WellFormed(k) && k.Derived? && k.base in r && |r| + 1 < Capacity(4)
    && forall i :: 0 <= i < |r| ==> Name(r[i]) != Name(k)
  }

  /** Registering such a class keeps the registry valid and leaves every identifier as it was. */
  lemma RegisterKeepsValid(r: seq<Klass>, k: Klass)
    requires ValidRegistry(r) && Addable(r, k)
    ensures ValidRegistry(r + [k]) && (r + [k])[|r|] == k && r <= r + [k]
  {
    hide WellFormed;
    hide Name;
    hide CORE_KLASSES;
    var r' := r + [k];
    forall i | 0 <= i < |r'|
      ensures BaseRegistered(r', i)
    {
      assert i < |r| ==> BaseRegistered(r, i);
    }
  }

  class EventKlassRegistry {
    var klasses: seq<Klass>

    constructor ()
      ensures klasses == CORE_KLASSES && ValidRegistry(klasses)
    {
      klasses := CORE_KLASSES;
      new;
      CoreRegistryIsValid();
    }

    /** ht_registry_register_event_klass: a class without an identifier gets the next one, if memory allows. */
    method Register(k: Klass, id: Option<nat>, ok: bool) returns (id': Option<nat>)
      modifies this
      ensures id.Some? ==> id' == id && klasses == old(klasses)
      ensures id.None? ==> klasses == old(klasses) + (if ok then [k] else []) && id'.Some? == ok
      ensures id.None? && ok ==> id' == Some(|old(klasses)|) && klasses[|old(klasses)|] == k
      ensures old(ValidRegistry(klasses) && Addable(klasses, k)) ==> ValidRegistry(klasses)
    {
      id' := id;
      if id.None? && ok {
        if ValidRegistry(klasses) && Addable(klasses, k) {
          RegisterKeepsValid(klasses, k);
        }
        klasses := klasses + [k];
        id' := Some(|klasses| - 1);
      }
    }
  }
}
