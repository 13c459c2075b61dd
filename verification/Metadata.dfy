/**
 Pushing the metadata to a listener (lib/registry.c, lib/timeline_listener.c, lib/system_info.c).
 The listener callback is modelled by the sequence of byte blocks it is called with.
 */
module Metadata {
  import opened Bytes
  import opened EventKlasses
  import opened Registry
  import opened WireFormat

  const REGISTRY_LISTENER_BUFF_SIZE := 4096

  /** Names short enough for every metadata event to fit the push buffer. */
  predicate ShortNames(k: Klass) {
    && |Name(k)| + 26 <= REGISTRY_LISTENER_BUFF_SIZE
    && forall j :: 0 <= j < |TypeFields(k)| ==>
                     |TypeFields(k)[j].ctype| + |TypeFields(k)[j].name| + 35 <= REGISTRY_LISTENER_BUFF_SIZE
  }

  ghost predicate GroupsMatch(order: Endianness, r: seq<Klass>, groups: seq<seq<Item>>, blocks: seq<seq<byte>>) {
    && |groups| == |blocks|
    && forall i :: 0 <= i < |groups| ==> ValidItems(r, groups[i]) && blocks[i] == StreamBytes(order, r, groups[i])
  }

  /** Blocks of whole events concatenate to the bytes of all the events. */
  lemma {:induction false} GroupsBytes(order: Endianness, r: seq<Klass>, groups: seq<seq<Item>>, blocks: seq<seq<byte>>)
    requires GroupsMatch(order, r, groups, blocks)
    ensures ValidItems(r, Concat(groups))
    ensures Concat(blocks) == StreamBytes(order, r, Concat(groups))
    decreases |groups|
  {
    hide StreamBytes;
    hide ValidItem;
    if groups == [] {
      assert StreamBytes(order, r, []) == [] by {
        EmptyStream(order, r);
      }
    } else {
      GroupsBytes(order, r, groups[1..], blocks[1..]);
      StreamAppend(order, r, groups[0], Concat(groups[1..]));
    }
  }

  lemma EmptyStream(order: Endianness, r: seq<Klass>)
    ensures StreamBytes(order, r, []) == []
  {
  }

  lemma StreamSnoc(order: Endianness, r: seq<Klass>, items: seq<Item>, it: Item)
    requires ValidItems(r, items) && ValidItem(r, it)
    ensures ValidItems(r, items + [it])
    ensures StreamBytes(order, r, items + [it]) == StreamBytes(order, r, items) + ItemBytes(order, r, it)
  {
    StreamAppend(order, r, items, [it]);
    StreamCons(order, r, [it]);
    EmptyStream(order, r);
    assert [it][1..] == [];
    hide StreamBytes;
    hide ItemBytes;
  }

  lemma CarrySnoc(items: seq<Item>, recs: seq<Record>, n: nat, it: Item)
    requires n < |recs| && CarryAll(items, recs[..n]) && Carries(it, recs[n])
    ensures CarryAll(items + [it], recs[..n + 1])
  {
  }

  lemma AppendAssoc<T>(a: seq<T>, b: seq<T>, x: T)
    ensures a + b + [x] == a + (b + [x])
  {
  }

  // Where the blocks end.

  /** A block that could not have taken the event behind it as well. */
  predicate Full(order: Endianness, r: seq<Klass>, block: seq<byte>, next: Item)
    requires ValidItem(r, next)
  {
    |block| + |ItemBytes(order, r, next)| > 4096
  }

  /** No block is larger than the buffer, and none was handed over before the next event did not fit. */
  ghost predicate Packed(order: Endianness, r: seq<Klass>, groups: seq<seq<Item>>, blocks: seq<seq<byte>>)
    requires GroupsMatch(order, r, groups, blocks)
  {
    && (forall i :: 0 <= i < |blocks| ==> |blocks[i]| <= 4096 && groups[i] != [])
    && (forall i, j :: 0 <= i < j < |blocks| && j == i + 1 ==> Full(order, r, blocks[i], groups[j][0]))
  }

  /** The last block handed over had no room for the first event in the buffer. */
  ghost predicate LastFull(order: Endianness, r: seq<Klass>, blocks: seq<seq<byte>>, open: seq<Item>)
    requires ValidItems(r, open)
  {
    blocks != [] ==> open != [] && Full(order, r, blocks[|blocks| - 1], open[0])
  }

  lemma PackedSnoc(order: Endianness, r: seq<Klass>, groups: seq<seq<Item>>, blocks: seq<seq<byte>>, open: seq<Item>,
                   block: seq<byte>)
    requires GroupsMatch(order, r, groups, blocks) && Packed(order, r, groups, blocks)
    requires ValidItems(r, open) && open != [] && block == StreamBytes(order, r, open) && |block| <= 4096
    requires LastFull(order, r, blocks, open)
    ensures GroupsMatch(order, r, groups + [open], blocks + [block])
    ensures Packed(order, r, groups + [open], blocks + [block])
  {
    hide StreamBytes;
    hide Full;
    hide ValidItem;
  }

  class MetadataPusher {
    const order: Endianness
    const r: seq<Klass>
    const data: array<byte>
    var dataPos: nat
    var blocks: seq<seq<byte>>
    ghost var groups: seq<seq<Item>>
    ghost var open: seq<Item>

    ghost predicate Valid()
      reads this, data
    {
      && data.Length == REGISTRY_LISTENER_BUFF_SIZE && dataPos <= data.Length
      && GroupsMatch(order, r, groups, blocks)
      && ValidItems(r, open) && data[..dataPos] == StreamBytes(order, r, open)
    }

    /** The blocks so far end where they must. */
    ghost predicate Snug()
      requires Valid()
      reads this, data
    {
      Packed(order, r, groups, blocks) && LastFull(order, r, blocks, open)
    }

    /** The events pushed so far, in order. */
    ghost function Pushed(): seq<Item>
      reads this
    {
      Concat(groups) + open
    }

    constructor (order: Endianness, r: seq<Klass>)
      ensures Valid() && fresh(data) && this.order == order && this.r == r && Pushed() == [] && Snug()
    {
      this.order := order;
      this.r := r;
      data := new byte[REGISTRY_LISTENER_BUFF_SIZE];
      dataPos := 0;
      blocks := [];
      groups := [];
      open := [];
      new;
      EmptyStream(order, r);
    }

    /** Calls the listener with the filled part of the buffer. */
    method Callback()
      requires Valid()
      modifies this
      ensures Valid() && dataPos == 0 && open == [] && Pushed() == old(Pushed())
      ensures blocks == old(blocks) + [old(data[..dataPos])] && groups == old(groups) + [old(open)]
    {
      hide StreamBytes;
      EmptyStream(order, r);
      blocks := blocks + [data[..dataPos]];
      ConcatSnoc(groups, open);
      groups := groups + [open];
      open := [];
      dataPos := 0;
    }

    /** Serialises one event behind the ones already in the buffer. */
    method Append(it: Item)
      requires Valid() && ValidItem(r, it) && dataPos + |ItemBytes(order, r, it)| <= data.Length
      modifies this`dataPos, this`open, data
      ensures Valid() && open == old(open) + [it]
    {
      hide StreamBytes;
      StreamSnoc(order, r, open, it);
      var n := SerializeBehind(order, it.klassId, r[it.klassId], it.ev, data, dataPos);
      dataPos := dataPos + n;
      open := open + [it];
    }

    /** Serialises one event, calling the listener first when the event does not fit the buffer any more. */
    method PushItem(it: Item)
      requires Valid() && Snug() && ValidItem(r, it) && |ItemBytes(order, r, it)| <= data.Length
      modifies this, data
      ensures Valid() && Snug() && Pushed() == old(Pushed()) + [it]
      ensures var full := old(dataPos) + |ItemBytes(order, r, it)| > 4096;
              && blocks == old(blocks) + (if full then [old(data[..dataPos])] else [])
              && open == (if full then [] else old(open)) + [it]
    {
      hide ItemBytes;
      hide StreamBytes;
      hide ValidItem;
      if |ItemBytes(order, r, it)| > data.Length - dataPos {
        NonEmpty(order, r, open);
        PackedSnoc(order, r, groups, blocks, open, data[..dataPos]);
        Callback();
      }
      Append(it);
    }

    ghost predicate Ready(i: nat)
      reads this, data
    {
      Valid() && Snug() && i < |r| < Capacity(4) && Reserved(r) && WellFormed(r[i]) && ShortNames(r[i])
    }

    /** Pushes the event announcing class i, under the current time and the next event id. */
    method PushKlassInfo(i: nat) returns (ghost it: Item)
      requires Ready(i)
      modifies this, data
      ensures Valid() && Snug() && Pushed() == old(Pushed()) + [it] && Carries(it, KlassRecord(i, r[i]))
    {
      var h := Stamp();
      KlassRecordSize(order, r, i, h);
      hide Reserved;
      hide ItemBytes;
      hide StreamBytes;
      hide ValidItem;
      var event := Item(KLASS_INFO_KLASS, Extended(h, KlassRecord(i, r[i]).values));
      PushItem(event);
      it := event;
    }

    /** Pushes the event describing field j of class i. */
    method PushFieldInfo(i: nat, j: nat) returns (ghost it: Item)
      requires Ready(i) && j < |TypeFields(r[i])|
      modifies this, data
      ensures Valid() && Snug() && Pushed() == old(Pushed()) + [it]
      ensures Carries(it, FieldRecord(i, TypeFields(r[i])[j]))
    {
      var h := Stamp();
      FieldRecordSize(order, r, i, j, h);
      hide Reserved;
      hide ItemBytes;
      hide StreamBytes;
      hide ValidItem;
      hide ShortNames;
      var event := Item(FIELD_INFO_KLASS, Extended(h, FieldRecord(i, TypeFields(r[i])[j]).values));
      hide TypeFields;
      PushItem(event);
      it := event;
    }

    /** Pushes the description of class i. */
    method PushKlass(i: nat) returns (ghost items: seq<Item>)
      requires Ready(i)
      modifies this, data
      ensures Valid() && Snug() && Pushed() == old(Pushed()) + items && CarryAll(items, KlassRecords(i, r[i]))
    {
      hide Reserved;
      hide StreamBytes;
      hide ValidItem;
      hide ShortNames;
      hide WellFormed;
      hide TypeFields;
      hide KlassRecord;
      hide FieldRecord;
      hide Concat;
      ghost var recs := KlassRecords(i, r[i]);
      ghost var it := PushKlassInfo(i);
      items := [it];
      var fs := TypeFields(r[i]);
      assert recs[..|fs| + 1] == recs;
      for j := 0 to |fs|
        invariant Valid() && Snug() && Pushed() == old(Pushed()) + items
        invariant CarryAll(items, recs[..j + 1])
      {
        it := PushFieldInfo(i, j);
        CarrySnoc(items, recs, j + 1, it);
        AppendAssoc(old(Pushed()), items, it);
        items := items + [it];
      }
    }

    /** Pushes every registered class and hands over what is left in the buffer. */
    method PushRegistry() returns (ghost items: seq<Item>)
      requires Valid() && Snug() && |r| < Capacity(4) && Reserved(r) && Pushed() == []
      requires forall i :: 0 <= i < |r| ==> WellFormed(r[i]) && ShortNames(r[i])
      modifies this, data
      ensures Valid() && open == [] && Concat(groups) == items && CarryAll(items, RegistryRecords(r, |r|))
      ensures Packed(order, r, groups, blocks)
    {
      hide Reserved;
      hide ShortNames;
      hide WellFormed;
      hide KlassRecords;
      hide StreamBytes;
      hide ValidItem;
      items := [];
      for i := 0 to |r|
        invariant Valid() && Snug() && Pushed() == items && CarryAll(items, RegistryRecords(r, i))
      {
        ghost var more := PushKlass(i);
        items := items + more;
      }
      if dataPos > 0 {
        NonEmpty(order, r, open);
        PackedSnoc(order, r, groups, blocks, open, data[..dataPos]);
        Callback();
      } else {
        EmptyPrefix(order, r, open);
      }
      assert Concat(groups) + [] == Concat(groups);
    }
  }

  lemma NonEmpty(order: Endianness, r: seq<Klass>, items: seq<Item>)
    requires ValidItems(r, items) && StreamBytes(order, r, items) != []
    ensures items != []
  {
  }

  /** Any timestamp and any event id. */
  method Stamp() returns (h: EventData)
    ensures InstanceOf(h, HTEvent)
  {
    var timestamp: nat, id: nat := *, *;
    h := Header(timestamp % Capacity(8), id % Capacity(8));
  }

  /** No bytes means no events: every event has a header. */
  lemma EmptyPrefix(order: Endianness, r: seq<Klass>, items: seq<Item>)
    requires ValidItems(r, items) && StreamBytes(order, r, items) == []
    ensures items == []
  {
    if items != [] {
      StreamCons(order, r, items);
    }
  }

  lemma KlassRecordSize(order: Endianness, r: seq<Klass>, i: nat, h: EventData)
    requires Reserved(r) && i < |r| < Capacity(4) && ShortNames(r[i]) && InstanceOf(h, HTEvent)
    ensures var it := Item(KLASS_INFO_KLASS, Extended(h, KlassRecord(i, r[i]).values));
            ValidItem(r, it) && |ItemBytes(order, r, it)| <= REGISTRY_LISTENER_BUFF_SIZE
  {
    var values := KlassRecord(i, r[i]).values;
    var fs := KLASS_INFO_EVENT.fields;
    assert fs[1..][1..][1..] == [];
    assert FieldsSize(fs[1..][1..], values[1..][1..]) == 1;
  }

  lemma FieldRecordSize(order: Endianness, r: seq<Klass>, i: nat, j: nat, h: EventData)
    requires Reserved(r) && i < |r| < Capacity(4) && ShortNames(r[i]) && WellFormed(r[i]) && InstanceOf(h, HTEvent)
    requires j < |TypeFields(r[i])|
    ensures var it := Item(FIELD_INFO_KLASS, Extended(h, FieldRecord(i, TypeFields(r[i])[j]).values));
            ValidItem(r, it) && |ItemBytes(order, r, it)| <= REGISTRY_LISTENER_BUFF_SIZE
  {
    hide *;
    var f := TypeFields(r[i])[j];
    ShortField(r[i], j);
    FieldInfoSize(i, f, h);
    FieldInfoItem(order, r, Extended(h, FieldRecord(i, f).values));
  }

  lemma ShortField(k: Klass, j: nat)
    requires ShortNames(k) && WellFormed(k) && j < |TypeFields(k)|
    ensures var f := TypeFields(k)[j];
            f.size < Capacity(8) && f.dataType < 256 && 35 + |f.ctype| + |f.name| <= REGISTRY_LISTENER_BUFF_SIZE
  {
    TypeFieldFits(k, j);
    hide TypeFields;
    hide WellFormed;
    hide Name;
    hide Capacity;
  }

  lemma FieldInfoItem(order: Endianness, r: seq<Klass>, ev: EventData)
    requires Reserved(r) && InstanceOf(ev, FIELD_INFO_EVENT)
    ensures ValidItem(r, Item(FIELD_INFO_KLASS, ev))
    ensures |ItemBytes(order, r, Item(FIELD_INFO_KLASS, ev))| == GetSize(FIELD_INFO_EVENT, ev)
  {
    hide FIELD_INFO_EVENT;
    hide GetSize;
    hide InstanceOf;
  }

  lemma FieldInfoSize(i: nat, f: TypeField, h: EventData)
    requires i < Capacity(4) && f.size < Capacity(8) && f.dataType < 256 && InstanceOf(h, HTEvent)
    ensures var ev := Extended(h, FieldRecord(i, f).values);
            InstanceOf(ev, FIELD_INFO_EVENT) && GetSize(FIELD_INFO_EVENT, ev) == 35 + |f.ctype| + |f.name|
  {
    var vs := FieldRecord(i, f).values;
    SizeOfFive(U32(INFO_KLASS_ID, Ascii("HT_EventKlassId")), Text(FIELD_TYPE), Text(FIELD_NAME),
               U64(SIZE, Ascii("uint64_t")), U8(DATA_TYPE), vs[0], vs[1], vs[2], vs[3], vs[4]);
    hide FieldsSize;
  }

  lemma NoFieldsSize()
    ensures AllFit([], []) && FieldsSize([], []) == 0
  {
  }

  lemma SizeOfFive(f0: FieldDecl, f1: FieldDecl, f2: FieldDecl, f3: FieldDecl, f4: FieldDecl,
                   v0: FieldValue, v1: FieldValue, v2: FieldValue, v3: FieldValue, v4: FieldValue)
    requires Fits(v0, f0) && Fits(v1, f1) && Fits(v2, f2) && Fits(v3, f3) && Fits(v4, f4)
    ensures AllFit([v0, v1, v2, v3, v4], [f0, f1, f2, f3, f4])
    ensures FieldsSize([f0, f1, f2, f3, f4], [v0, v1, v2, v3, v4])
         == FieldSize(f0, v0) + FieldSize(f1, v1) + FieldSize(f2, v2) + FieldSize(f3, v3) + FieldSize(f4, v4)
  {
    hide Fits;
    hide FieldSize;
    hide FieldsSize;
    hide AllFit;
    NoFieldsSize();
    assert [f4] + [] == [f4] && [v4] + [] == [v4];
    assert [f3] + [f4] == [f3, f4] && [v3] + [v4] == [v3, v4];
    assert [f2] + [f3, f4] == [f2, f3, f4] && [v2] + [v3, v4] == [v2, v3, v4];
    assert [f1] + [f2, f3, f4] == [f1, f2, f3, f4] && [v1] + [v2, v3, v4] == [v1, v2, v3, v4];
    assert [f0] + [f1, f2, f3, f4] == [f0, f1, f2, f3, f4] && [v0] + [v1, v2, v3, v4] == [v0, v1, v2, v3, v4];
    SizeCons(f4, [], v4, []);
    SizeCons(f3, [f4], v3, [v4]);
    SizeCons(f2, [f3, f4], v2, [v3, v4]);
    SizeCons(f1, [f2, f3, f4], v1, [v2, v3, v4]);
    SizeCons(f0, [f1, f2, f3, f4], v0, [v1, v2, v3, v4]);
  }

  /** Serialises one event into a 64-byte buffer of its own. */
  method SerializeSmall(order: Endianness, r: seq<Klass>, it: Item) returns (block: seq<byte>)
    requires ValidItem(r, it) && |ItemBytes(order, r, it)| <= 64
    ensures block == ItemBytes(order, r, it)
  {
    var buffer := new byte[64];
    var n := Serialize(order, it.klassId, r[it.klassId], it.ev, buffer, 0);
    block := buffer[0..n];
  }

  lemma SmallItems(order: Endianness, r: seq<Klass>, major: byte, minor: byte, patch: byte)
    requires Reserved(r)
    ensures ValidItem(r, EndiannessItem(order)) && |ItemBytes(order, r, EndiannessItem(order))| <= 64
    ensures var it := SystemInfoItem(major, minor, patch);
            ValidItem(r, it) && |ItemBytes(order, r, it)| <= 64
  {
    var vs := EndiannessItem(order).ev.values;
    assert ENDIANNESS_INFO_EVENT.fields[1..] == [];
    assert FieldsSize(ENDIANNESS_INFO_EVENT.fields, vs) == 1;
    var fs, ws := SYSTEM_INFO_EVENT.fields, SystemInfoItem(major, minor, patch).ev.values;
    assert fs[1..][1..][1..] == [];
    assert FieldsSize(fs[1..][1..], ws[1..][1..]) == 1;
  }

  /** One event is a block of whole events. */
  lemma SingleGroup(order: Endianness, r: seq<Klass>, it: Item)
    requires ValidItem(r, it)
    ensures ValidItems(r, [it]) && StreamBytes(order, r, [it]) == ItemBytes(order, r, it)
  {
    StreamCons(order, r, [it]);
    EmptyStream(order, r);
    assert [it][1..] == [];
    hide StreamBytes;
    hide ItemBytes;
  }

  /**
   The blocks hold, event by event, the byte order, `meta`, which describes every class, and the version;
   `groups` are the events of each block.
   */
  ghost predicate IsMetadata(order: Endianness, r: seq<Klass>, version: Item, meta: seq<Item>, groups: seq<seq<Item>>,
                             blocks: seq<seq<byte>>)
  {
    && CarryAll(meta, RegistryRecords(r, |r|)) && GroupsMatch(order, r, groups, blocks)
    && Concat(groups) == [EndiannessItem(order)] + meta + [version]
  }

  lemma IsMetadataFromParts(order: Endianness, r: seq<Klass>, version: Item, meta: seq<Item>, groups: seq<seq<Item>>,
                            blocks: seq<seq<byte>>)
    requires CarryAll(meta, RegistryRecords(r, |r|)) && GroupsMatch(order, r, groups, blocks)
    requires Concat(groups) == [EndiannessItem(order)] + meta + [version]
    ensures IsMetadata(order, r, version, meta, groups, blocks)
  {
  }

  /** The three pushes, one after the other. */
  method PushParts(order: Endianness, r: seq<Klass>, first: Item, last: Item)
    returns (blocks: seq<seq<byte>>)
    requires ValidRegistry(r) && Reserved(r) && forall i :: 0 <= i < |r| ==> ShortNames(r[i])
    requires first == EndiannessItem(order) && ValidItem(r, first) && |ItemBytes(order, r, first)| <= 64
    requires ValidItem(r, last) && |ItemBytes(order, r, last)| <= 64
    ensures exists meta, groups :: IsMetadata(order, r, last, meta, groups, blocks)
    ensures |blocks| >= 2 && blocks[0] == ItemBytes(order, r, first)
    ensures blocks[|blocks| - 1] == ItemBytes(order, r, last)
    ensures exists groups :: ClassesPacked(order, r, groups, blocks)
  {
    hide CORE_KLASSES;
    hide Reserved;
    hide ShortNames;
    hide ItemBytes;
    hide StreamBytes;
    hide ValidItem;
    hide RegistryRecords;
    hide IsMetadata;
    hide GroupsMatch;
    hide CarryAll;
    var head := SerializeSmall(order, r, first);
    var pusher := new MetadataPusher(order, r);
    ghost var meta := pusher.PushRegistry();
    var tail := SerializeSmall(order, r, last);
    blocks := [head] + pusher.blocks + [tail];
    ghost var groups := [[first]] + pusher.groups + [[last]];
    EnclosedGroups(order, r, first, pusher.groups, last, pusher.blocks);
    IsMetadataFromParts(order, r, last, meta, groups, blocks);
    assert blocks[1..|blocks| - 1] == pusher.blocks;
    assert ClassesPacked(order, r, pusher.groups, blocks);
  }

  /** Between the first block and the last, blocks of whole events, each as full as the buffer allows. */
  ghost predicate ClassesPacked(order: Endianness, r: seq<Klass>, groups: seq<seq<Item>>, blocks: seq<seq<byte>>) {
    && |blocks| >= 2
    && GroupsMatch(order, r, groups, blocks[1..|blocks| - 1]) && Packed(order, r, groups, blocks[1..|blocks| - 1])
  }

  /**
   ht_timeline_listener_push_metadata: the byte order, the classes, the library version.  The
   listener receives blocks of whole events.
   */
  method PushMetadata(order: Endianness, r: seq<Klass>, major: byte, minor: byte, patch: byte)
    returns (blocks: seq<seq<byte>>)
    requires ValidRegistry(r) && forall i :: 0 <= i < |r| ==> ShortNames(r[i])
    ensures exists meta, groups :: IsMetadata(order, r, SystemInfoItem(major, minor, patch), meta, groups, blocks)
    ensures |blocks| >= 2 && blocks[0] == Zeros(20) + [if order == Little then 0 else 1]
    ensures blocks[|blocks| - 1]
         == (if order == Little then [8, 0, 0, 0] else [0, 0, 0, 8]) + Zeros(16) + [major, minor, patch]
    ensures exists groups :: ClassesPacked(order, r, groups, blocks)
  {
    hide *;
    CoreIsReserved(r);
    EndiannessBytes(order, r);
    SystemInfoBytes(order, r, major, minor, patch);
    SmallItems(order, r, major, minor, patch);
    blocks := PushParts(order, r, EndiannessItem(order), SystemInfoItem(major, minor, patch));
  }

  lemma EnclosedGroups(order: Endianness, r: seq<Klass>, first: Item, groups: seq<seq<Item>>, last: Item,
                       blocks: seq<seq<byte>>)
    requires ValidItem(r, first) && ValidItem(r, last) && GroupsMatch(order, r, groups, blocks)
    ensures GroupsMatch(order, r, [[first]] + groups + [[last]],
                        [ItemBytes(order, r, first)] + blocks + [ItemBytes(order, r, last)])
    ensures Concat([[first]] + groups + [[last]]) == [first] + Concat(groups) + [last]
  {
    hide ItemBytes;
    hide StreamBytes;
    hide ValidItems;
    SingleGroup(order, r, first);
    SingleGroup(order, r, last);
    ConcatSnoc([[first]] + groups, [last]);
    ConcatAppend([[first]], groups);
    assert Concat([[first]]) == [first];
  }
}
