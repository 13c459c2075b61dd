/**
 Cached strings (feature_cached_string.c): labels are announced to the timeline as (identifier, label)
 events, and later events carry only the identifier.
 */
module CachedStrings {
  import opened Bytes
  import opened Hashing
  import opened HashMaps
  import opened HashMapObjects

  /** Why a mapping event was pushed: a label was added to one of the maps, or a whole map was pushed. */
  datatype Source = Static | Dynamic | MapDump

  datatype Mapping = Mapping(id: nat, text: cstring, source: Source)

  datatype Feature = Feature(statics: seq<Bucket<cstring>>, dynamics: seq<Bucket<cstring>>, events: seq<Mapping>)

  datatype Op =
    | AddMapping(address: nat, text: cstring, alloc: Alloc)
    | AddDynamic(text: cstring, alloc: Alloc)
    | PushMap

  ghost predicate Valid(f: Feature) {
    ValidTable(f.statics) && ValidTable(f.dynamics)
  }

  /** A map after add_mapping_, whether it failed, and the events it pushes: one if the key is new. */
  datatype Added = Added(table: seq<Bucket<cstring>>, failed: bool, events: seq<Mapping>)

  ghost function AddTo(m: seq<Bucket<cstring>>, key: nat, text: cstring, alloc: Alloc, source: Source): Added
    requires ValidTable(m)
  {
    var r := InsertIn(m, InsertOp(key, text, alloc));
    Added(m[Slot(key) := r.bucket], r.failed, if !r.failed && r.prev.None? then [Mapping(key, text, source)] else [])
  }

  function Dumped(ps: seq<(nat, cstring)>): (es: seq<Mapping>)
    ensures |es| == |ps| && forall i :: 0 <= i < |ps| ==> es[i] == Mapping(ps[i].0, ps[i].1, MapDump)
  {
    seq(|ps|, i requires 0 <= i < |ps| => Mapping(ps[i].0, ps[i].1, MapDump))
  }

  /** The feature after an operation, and the identifier returned: zero stands for failure. */
  datatype Done = Done(feature: Feature, id: nat)

  ghost function Do(f: Feature, op: Op): Done
    requires Valid(f)
  {
    match op
    case AddMapping(address, text, alloc) =>
      var a := AddTo(f.statics, address, text, alloc, Static);
      Done(f.(statics := a.table, events := f.events + a.events), if a.failed then 0 else address)
    case AddDynamic(text, alloc) =>
      var hash := Djb2(text);
      if LookupIn(f.dynamics, hash).Some? then Done(f, hash)
      else
        var a := AddTo(f.dynamics, hash, text, alloc, Dynamic);
        Done(f.(dynamics := a.table, events := f.events + a.events), hash)
    case PushMap =>
      var es := Dumped(Pairs(f.statics, |f.statics|)) + Dumped(Pairs(f.dynamics, |f.dynamics|));
      Done(f.(events := f.events + es), 0)
  }

  // What every operation keeps.

  /** The identifiers announced for one reason, in order. */
  function Ids(events: seq<Mapping>, source: Source): seq<nat> {
    if events == [] then []
    else
      Ids(events[..|events| - 1], source)
      + (if events[|events| - 1].source == source then [events[|events| - 1].id] else [])
  }

  /** The keys of a map are those it announced, each once. */
  ghost predicate AnnouncedOnce(m: seq<Bucket<cstring>>, contents: map<nat, cstring>, events: seq<Mapping>,
                                source: Source) {
    && Represents(m, contents)
    && Distinct(Ids(events, source)) && forall k: nat :: k in Ids(events, source) <==> k in contents
  }

  ghost predicate Inv(f: Feature, statics: map<nat, cstring>, dynamics: map<nat, cstring>) {
    AnnouncedOnce(f.statics, statics, f.events, Static) && AnnouncedOnce(f.dynamics, dynamics, f.events, Dynamic)
  }

  lemma IdsSnoc(a: seq<Mapping>, e: Mapping, source: Source)
    ensures Ids(a + [e], source) == Ids(a, source) + (if e.source == source then [e.id] else [])
  {
    assert (a + [e])[..|a|] == a;
  }

  lemma {:induction false} OtherIds(a: seq<Mapping>, b: seq<Mapping>, source: Source)
    requires forall i :: 0 <= i < |b| ==> b[i].source != source
    ensures Ids(a + b, source) == Ids(a, source)
    decreases |b|
  {
    if b == [] {
      assert a + b == a;
    } else {
      var n := |b| - 1;
      OtherIds(a, b[..n], source);
      IdsSnoc(a + b[..n], b[n], source);
      assert (a + b[..n]) + [b[n]] == a + b;
      hide Ids;
      assert Ids(a, source) + [] == Ids(a, source);
    }
  }

  lemma OtherEvents(m: seq<Bucket<cstring>>, contents: map<nat, cstring>, events: seq<Mapping>, source: Source,
                    more: seq<Mapping>)
    requires AnnouncedOnce(m, contents, events, source) && forall i :: 0 <= i < |more| ==> more[i].source != source
    ensures AnnouncedOnce(m, contents, events + more, source)
  {
    OtherIds(events, more, source);
  }

  /** Announcing a new key. */
  lemma NewKey(m: seq<Bucket<cstring>>, contents: map<nat, cstring>, events: seq<Mapping>, source: Source, key: nat,
               text: cstring, m': seq<Bucket<cstring>>)
    requires AnnouncedOnce(m, contents, events, source) && key !in contents && Represents(m', contents[key := text])
    ensures AnnouncedOnce(m', contents[key := text], events + [Mapping(key, text, source)], source)
  {
    hide Represents;
    IdsSnoc(events, Mapping(key, text, source), source);
    hide Ids;
    var ids, ids' := Ids(events, source), Ids(events + [Mapping(key, text, source)], source);
    assert ids' == ids + [key];
    assert key !in ids;
  }

  lemma KnownKey(m: seq<Bucket<cstring>>, contents: map<nat, cstring>, events: seq<Mapping>, source: Source, key: nat,
                 text: cstring, m': seq<Bucket<cstring>>)
    requires AnnouncedOnce(m, contents, events, source) && key in contents && Represents(m', contents[key := text])
    ensures AnnouncedOnce(m', contents[key := text], events, source)
  {
  }

  /** Adding a label keeps the keys announced once; the key is announced unless the insertion failed. */
  lemma AddKeeps(m: seq<Bucket<cstring>>, contents: map<nat, cstring>, events: seq<Mapping>, key: nat, text: cstring,
                 alloc: Alloc, source: Source)
    returns (contents': map<nat, cstring>)
    requires AnnouncedOnce(m, contents, events, source)
    ensures ValidTable(m)
    ensures var a := AddTo(m, key, text, alloc, source);
            && AnnouncedOnce(a.table, contents', events + a.events, source)
            && contents' == (if a.failed then contents else contents[key := text])
            && (forall i :: 0 <= i < |a.events| ==> a.events[i].source == source)
  {
    var a := AddTo(m, key, text, alloc, source);
    InsertRefines(m, contents, InsertOp(key, text, alloc));
    hide Represents;
    hide InsertIn;
    contents' := if a.failed then contents else contents[key := text];
    if a.failed {
      assert events + a.events == events;
    } else if key in contents {
      KnownKey(m, contents, events, source, key, text, a.table);
      assert events + a.events == events;
    } else {
      NewKey(m, contents, events, source, key, text, a.table);
    }
  }

  lemma DoKeepsInv(f: Feature, statics: map<nat, cstring>, dynamics: map<nat, cstring>, op: Op)
    returns (statics': map<nat, cstring>, dynamics': map<nat, cstring>)
    requires Inv(f, statics, dynamics)
    ensures Valid(f) && Inv(Do(f, op).feature, statics', dynamics')
  {
    hide Represents;
    hide AddTo;
    hide Djb2;
    hide AnnouncedOnce;
    InvParts(f, statics, dynamics);
    statics', dynamics' := statics, dynamics;
    var f' := Do(f, op).feature;
    match op {
      case AddMapping(address, text, alloc) =>
        var a := AddTo(f.statics, address, text, alloc, Static);
        statics' := AddKeeps(f.statics, statics, f.events, address, text, alloc, Static);
        OtherEvents(f.dynamics, dynamics, f.events, Dynamic, a.events);
      case AddDynamic(text, alloc) =>
        var hash := Djb2(text);
        if LookupIn(f.dynamics, hash).None? {
          var a := AddTo(f.dynamics, hash, text, alloc, Dynamic);
          dynamics' := AddKeeps(f.dynamics, dynamics, f.events, hash, text, alloc, Dynamic);
          OtherEvents(f.statics, statics, f.events, Static, a.events);
        }
      case PushMap =>
        var es := Dumped(Pairs(f.statics, |f.statics|)) + Dumped(Pairs(f.dynamics, |f.dynamics|));
        OtherEvents(f.statics, statics, f.events, Static, es);
        OtherEvents(f.dynamics, dynamics, f.events, Dynamic, es);
    }
  }

  // Whole runs.

  ghost function Empty(): Feature {
    Feature(NewTable(), NewTable(), [])
  }

  lemma EmptyInv()
    ensures Inv(Empty(), map[], map[])
  {
    NewTableEmpty<cstring>();
  }

  /** The feature after a sequence of operations. */
  ghost function Run(ops: seq<Op>): (f: Feature)
    ensures exists statics, dynamics :: Inv(f, statics, dynamics)
  {
    if ops == [] then
      EmptyInv();
      Empty()
    else
      var f := Run(ops[..|ops| - 1]);
      StepInv(f, ops[|ops| - 1]);
      Do(f, ops[|ops| - 1]).feature
  }

  lemma StepInv(f: Feature, op: Op)
    requires exists statics, dynamics :: Inv(f, statics, dynamics)
    ensures Valid(f) && exists statics, dynamics :: Inv(Do(f, op).feature, statics, dynamics)
  {
    var statics, dynamics :| Inv(f, statics, dynamics);
    var statics', dynamics' := DoKeepsInv(f, statics, dynamics, op);
    assert Inv(Do(f, op).feature, statics', dynamics');
  }

  /** The map an operation adds to. */
  function TableOf(f: Feature, op: Op): seq<Bucket<cstring>>
    requires !op.PushMap?
  {
    if op.AddMapping? then f.statics else f.dynamics
  }

  function Announcement(op: Op): Mapping
    requires !op.PushMap?
  {
    if op.AddMapping? then Mapping(op.address, op.text, Static) else Mapping(Djb2(op.text), op.text, Dynamic)
  }

  /** The key of a label is in its map already. */
  ghost predicate Stored(f: Feature, op: Op)
    requires Valid(f) && !op.PushMap?
  {
    LookupIn(TableOf(f, op), Announcement(op).id).Some?
  }

  /** Both bags of a bucket have room or can grow. */
  predicate HasRoom(b: Bucket<cstring>, alloc: Alloc) {
    && (|b.keys.items| < b.keys.capacity || alloc.keys)
    && (|b.values.items| < b.values.capacity || alloc.values)
  }

  ghost predicate Fitting(f: Feature, op: Op)
    requires Valid(f) && !op.PushMap?
  {
    HasRoom(TableOf(f, op)[Slot(Announcement(op).id)], op.alloc)
  }

  lemma LookedUp(m: seq<Bucket<cstring>>, contents: map<nat, cstring>, k: nat)
    requires Represents(m, contents)
    ensures ValidTable(m) && (LookupIn(m, k).Some? <==> k in contents)
  {
  }

  /** An addition fails, and an event is pushed, as the sizes and the allocations say. */
  lemma AddsWhen(m: seq<Bucket<cstring>>, key: nat, text: cstring, alloc: Alloc, source: Source)
    requires ValidTable(m)
    ensures var a := AddTo(m, key, text, alloc, source);
            var stored, room := LookupIn(m, key).Some?, HasRoom(m[Slot(key)], alloc);
            && (a.failed <==> !stored && !room)
            && a.events == if !stored && room then [Mapping(key, text, source)] else []
  {
    assert InPlace(m, Slot(key));
    InsertMaps(m[Slot(key)], key, text, alloc);
    InsertFailsWhen(m[Slot(key)], key, text, alloc);
    hide InsertBucket;
  }

  /** After an addition the key is among those its map announced exactly when it was stored or there was room. */
  lemma KeyAnnounced(m: seq<Bucket<cstring>>, contents: map<nat, cstring>, events: seq<Mapping>, key: nat,
                     text: cstring, alloc: Alloc, source: Source)
    requires AnnouncedOnce(m, contents, events, source)
    ensures ValidTable(m)
    ensures key in Ids(events + AddTo(m, key, text, alloc, source).events, source)
       <==> LookupIn(m, key).Some? || HasRoom(m[Slot(key)], alloc)
    ensures key in Ids(events, source) <==> LookupIn(m, key).Some?
  {
    OnceParts(m, contents, events, source, key);
    hide *;
    AddsWhen(m, key, text, alloc, source);
    LookedUp(m, contents, key);
    var contents' := AddKeeps(m, contents, events, key, text, alloc, source);
    var a := AddTo(m, key, text, alloc, source);
    OnceParts(a.table, contents', events + a.events, source, key);
  }

  lemma OnceParts(m: seq<Bucket<cstring>>, contents: map<nat, cstring>, events: seq<Mapping>, source: Source, key: nat)
    requires AnnouncedOnce(m, contents, events, source)
    ensures Represents(m, contents) && (key in Ids(events, source) <==> key in contents)
  {
    hide Represents;
  }

  /**
   In every run: after a label is added its identifier is among those its map has announced if and only if it
   was stored already or both bags of its bucket have room or can grow; the event is pushed exactly when it is
   new.  When it is not announced, add_mapping returns zero, but add_mapping_dynamic returns it all the same.
   */
  lemma AnnouncedBeforeUse(ops: seq<Op>, op: Op)
    requires !op.PushMap?
    ensures Valid(Run(ops))
    ensures var f := Run(ops);
            var d, e := Do(f, op), Announcement(op);
            && (e.id in Ids(d.feature.events, e.source) <==> Stored(f, op) || Fitting(f, op))
            && d.feature.events == f.events + (if !Stored(f, op) && Fitting(f, op) then [e] else [])
            && d.id == (if op.AddDynamic? || Stored(f, op) || Fitting(f, op) then e.id else 0)
  {
    var f := Run(ops);
    var statics, dynamics :| Inv(f, statics, dynamics);
    hide *;
    InvParts(f, statics, dynamics);
    if op.AddMapping? {
      StaticAnnounced(f, statics, op);
    } else {
      DynamicAnnounced(f, dynamics, op);
    }
  }

  lemma InvParts(f: Feature, statics: map<nat, cstring>, dynamics: map<nat, cstring>)
    requires Inv(f, statics, dynamics)
    ensures Valid(f) && AnnouncedOnce(f.statics, statics, f.events, Static)
    ensures AnnouncedOnce(f.dynamics, dynamics, f.events, Dynamic)
  {
  }

  lemma StaticAnnounced(f: Feature, statics: map<nat, cstring>, op: Op)
    requires Valid(f) && AnnouncedOnce(f.statics, statics, f.events, Static) && op.AddMapping?
    ensures var d, e := Do(f, op), Announcement(op);
            && (e.id in Ids(d.feature.events, e.source) <==> Stored(f, op) || Fitting(f, op))
            && d.feature.events == f.events + (if !Stored(f, op) && Fitting(f, op) then [e] else [])
            && d.id == (if Stored(f, op) || Fitting(f, op) then e.id else 0)
  {
    KeyAnnounced(f.statics, statics, f.events, op.address, op.text, op.alloc, Static);
    AddsWhen(f.statics, op.address, op.text, op.alloc, Static);
    hide AddTo;
    hide AnnouncedOnce;
    hide LookupIn;
    hide HasRoom;
    hide Ids;
  }

  lemma DynamicAnnounced(f: Feature, dynamics: map<nat, cstring>, op: Op)
    requires Valid(f) && AnnouncedOnce(f.dynamics, dynamics, f.events, Dynamic) && op.AddDynamic?
    ensures var d, e := Do(f, op), Announcement(op);
            && (e.id in Ids(d.feature.events, e.source) <==> Stored(f, op) || Fitting(f, op))
            && d.feature.events == f.events + (if !Stored(f, op) && Fitting(f, op) then [e] else [])
            && d.id == e.id
  {
    KeyAnnounced(f.dynamics, dynamics, f.events, Djb2(op.text), op.text, op.alloc, Dynamic);
    AddsWhen(f.dynamics, Djb2(op.text), op.text, op.alloc, Dynamic);
    hide AddTo;
    hide AnnouncedOnce;
    hide LookupIn;
    hide HasRoom;
    hide Ids;
    assert f.events + [] == f.events;
  }

  /** Pushing the maps announces each stored pair exactly once. */
  lemma PushMapAnnouncesAll(f: Feature, statics: map<nat, cstring>, dynamics: map<nat, cstring>)
    requires Inv(f, statics, dynamics)
    ensures Valid(f)
    ensures var ps, qs := Pairs(f.statics, |f.statics|), Pairs(f.dynamics, |f.dynamics|);
            && Do(f, PushMap).feature.events == f.events + (Dumped(ps) + Dumped(qs))
            && KeysOnce(ps) && (forall k: nat, v :: (k, v) in ps <==> k in statics && statics[k] == v)
            && KeysOnce(qs) && (forall k: nat, v :: (k, v) in qs <==> k in dynamics && dynamics[k] == v)
  {
    ForEachVisitsOnce(f.statics, statics);
    ForEachVisitsOnce(f.dynamics, dynamics);
  }

  /**
   What the maps hold after a label is added: the new text under its key, where it was stored, and all else as
   before.
   */
  lemma StoresText(f: Feature, statics: map<nat, cstring>, dynamics: map<nat, cstring>, op: Op, k: nat)
    requires Inv(f, statics, dynamics) && !op.PushMap?
    ensures Valid(f) && Valid(Do(f, op).feature)
    ensures var f', room, stored := Do(f, op).feature, Fitting(f, op), Stored(f, op);
            && LookupIn(f'.statics, k)
               == (if op.AddMapping? && k == op.address && (stored || room) then Some(op.text)
                   else LookupIn(f.statics, k))
            && LookupIn(f'.dynamics, k)
               == (if op.AddDynamic? && k == Djb2(op.text) && !stored && room then Some(op.text)
                   else LookupIn(f.dynamics, k))
  {
    InvParts(f, statics, dynamics);
    if op.AddMapping? {
      AddsText(f.statics, statics, f.events, op.address, op.text, op.alloc, Static, k);
    } else if LookupIn(f.dynamics, Djb2(op.text)).None? {
      AddsText(f.dynamics, dynamics, f.events, Djb2(op.text), op.text, op.alloc, Dynamic, k);
    }
    hide AddTo;
    hide LookupIn;
    hide ValidTable;
    hide AnnouncedOnce;
    hide Djb2;
    hide HasRoom;
  }

  lemma AddsText(m: seq<Bucket<cstring>>, contents: map<nat, cstring>, events: seq<Mapping>, key: nat, text: cstring,
                 alloc: Alloc, source: Source, k: nat)
    requires AnnouncedOnce(m, contents, events, source)
    ensures ValidTable(m) && ValidTable(AddTo(m, key, text, alloc, source).table)
    ensures LookupIn(AddTo(m, key, text, alloc, source).table, k)
         == if k == key && (LookupIn(m, key).Some? || HasRoom(m[Slot(key)], alloc)) then Some(text) else LookupIn(m, k)
  {
    hide *;
    var contents' := AddKeeps(m, contents, events, key, text, alloc, source);
    AddsWhen(m, key, text, alloc, source);
    var a := AddTo(m, key, text, alloc, source);
    OnceParts(m, contents, events, source, k);
    OnceParts(a.table, contents', events + a.events, source, k);
    LooksUp(m, contents, k);
    LooksUp(a.table, contents', k);
  }

  lemma LooksUp(m: seq<Bucket<cstring>>, contents: map<nat, cstring>, k: nat)
    requires Represents(m, contents)
    ensures ValidTable(m) && LookupIn(m, k) == if k in contents then Some(contents[k]) else None
  {
  }

  // What a dynamic identifier stands for.

  /** The label first stored under a hash. */
  ghost function FirstStored(ops: seq<Op>, hash: nat): Option<cstring> {
    if ops == [] then None
    else
      var before, op := ops[..|ops| - 1], ops[|ops| - 1];
      RunIsValid(before);
      if FirstStored(before, hash).Some? then FirstStored(before, hash)
      else if op.AddDynamic? && Djb2(op.text) == hash && Fitting(Run(before), op) then Some(op.text)
      else None
  }

  lemma RunIsValid(ops: seq<Op>)
    ensures Valid(Run(ops))
  {
    var statics, dynamics :| Inv(Run(ops), statics, dynamics);
  }

  predicate Announces(events: seq<Mapping>, e: Mapping) {
    e in events
  }

  lemma {:induction false} IdsAnnounce(events: seq<Mapping>, source: Source, id: nat)
    ensures id in Ids(events, source) <==> exists text :: Announces(events, Mapping(id, text, source))
  {
    if events != [] {
      var n := |events| - 1;
      var before, e := events[..n], events[n];
      IdsAnnounce(before, source, id);
      assert events == before + [e];
      if id in Ids(events, source) {
        if id in Ids(before, source) {
          var text :| Announces(before, Mapping(id, text, source));
          assert Announces(events, Mapping(id, text, source));
        } else {
          assert Announces(events, Mapping(id, e.text, source));
        }
      }
      if text :| Announces(events, Mapping(id, text, source)) && !Announces(before, Mapping(id, text, source)) {
        assert e == Mapping(id, text, source);
      }
      if text :| Announces(before, Mapping(id, text, source)) {
        assert id in Ids(before, source);
      }
    }
  }

  lemma StoredIsAnnounced(ops: seq<Op>, op: Op)
    requires op.AddDynamic?
    ensures Valid(Run(ops)) && (Stored(Run(ops), op) <==> Djb2(op.text) in Ids(Run(ops).events, Dynamic))
  {
    var f := Run(ops);
    var statics, dynamics :| Inv(f, statics, dynamics);
    KeyAnnounced(f.dynamics, dynamics, f.events, Djb2(op.text), op.text, op.alloc, Dynamic);
    hide Run;
    hide LookupIn;
    hide AddTo;
    hide Represents;
  }

  /** Only adding a dynamic label announces one. */
  lemma OtherOps(ops: seq<Op>, op: Op, e: Mapping)
    requires !op.AddDynamic? && e.source.Dynamic?
    ensures Announces(Run(ops + [op]).events, e) <==> Announces(Run(ops).events, e)
  {
    hide *;
    RunSnoc(ops, op);
    var more := OtherOpEvents(Run(ops), op);
    assert forall i :: 0 <= i < |more| ==> more[i] != e;
    NotAmong(Run(ops).events, more, e);
  }

  lemma OtherOpEvents(f: Feature, op: Op) returns (more: seq<Mapping>)
    requires Valid(f) && !op.AddDynamic?
    ensures Do(f, op).feature.events == f.events + more
    ensures forall i :: 0 <= i < |more| ==> !more[i].source.Dynamic?
  {
    if op.AddMapping? {
      more := AddTo(f.statics, op.address, op.text, op.alloc, Static).events;
    } else {
      more := Dumped(Pairs(f.statics, |f.statics|)) + Dumped(Pairs(f.dynamics, |f.dynamics|));
    }
    hide InsertIn;
    hide Pairs;
  }

  lemma NotAmong(events: seq<Mapping>, more: seq<Mapping>, e: Mapping)
    requires forall i :: 0 <= i < |more| ==> more[i] != e
    ensures Announces(events + more, e) <==> Announces(events, e)
  {
  }

  /** The last operation adds this dynamic label. */
  lemma DynamicOp(ops: seq<Op>, op: Op, e: Mapping)
    requires op.AddDynamic? && e.source.Dynamic?
    ensures Valid(Run(ops))
    ensures Announces(Run(ops + [op]).events, e)
       <==> Announces(Run(ops).events, e)
            || (e == Announcement(op) && Djb2(op.text) !in Ids(Run(ops).events, Dynamic) && Fitting(Run(ops), op))
  {
    hide *;
    RunSnoc(ops, op);
    AnnouncedBeforeUse(ops, op);
    StoredIsAnnounced(ops, op);
    AnnouncesSnoc(Run(ops).events, Announcement(op), e);
    AnnouncementOf(op);
    assert Run(ops).events + [] == Run(ops).events;
  }

  lemma AnnouncesSnoc(events: seq<Mapping>, e: Mapping, x: Mapping)
    ensures Announces(events + [e], x) <==> Announces(events, x) || x == e
  {
  }

  lemma AnnouncementOf(op: Op)
    requires op.AddDynamic?
    ensures Announcement(op) == Mapping(Djb2(op.text), op.text, Dynamic)
  {
  }

  /** In every run a dynamic identifier has been announced for the label first stored under it, and for no other. */
  lemma {:induction false} StandsForFirst(ops: seq<Op>, hash: nat, text: cstring)
    ensures Announces(Run(ops).events, Mapping(hash, text, Dynamic)) <==> FirstStored(ops, hash) == Some(text)
  {
    if ops != [] {
      var before, op := ops[..|ops| - 1], ops[|ops| - 1];
      assert ops == before + [op];
      forall t
        ensures Announces(Run(before).events, Mapping(hash, t, Dynamic)) <==> FirstStored(before, hash) == Some(t)
      {
        StandsForFirst(before, hash, t);
      }
      FirstStep(ops, hash);
      hide *;
      if op.AddDynamic? {
        AnnouncementOf(op);
        DynamicOp(before, op, Mapping(hash, text, Dynamic));
        IdsAnnounce(Run(before).events, Dynamic, hash);
      } else {
        OtherOps(before, op, Mapping(hash, text, Dynamic));
      }
    }
  }

  lemma FirstStep(ops: seq<Op>, hash: nat)
    requires ops != []
    ensures var before, op := ops[..|ops| - 1], ops[|ops| - 1];
            && Valid(Run(before))
            && FirstStored(ops, hash)
               == if FirstStored(before, hash).Some? then FirstStored(before, hash)
                  else if op.AddDynamic? && Djb2(op.text) == hash && Fitting(Run(before), op) then Some(op.text)
                  else None
  {
    RunIsValid(ops[..|ops| - 1]);
  }

  /**
   The identifier returned for a dynamic label leads back to that label if and only if it is the label first
   stored under its hash: the one announced before, or this one if none was and there is room.
   */
  lemma LeadsBack(ops: seq<Op>, op: Op)
    requires op.AddDynamic?
    ensures Valid(Run(ops))
    ensures var f := Run(ops);
            var d := Do(f, op);
            Announces(d.feature.events, Mapping(d.id, op.text, Dynamic))
            <==> FirstStored(ops, d.id) == Some(op.text) || (FirstStored(ops, d.id).None? && Fitting(f, op))
  {
    AnnouncedBeforeUse(ops, op);
    RunSnoc(ops, op);
    AnnouncementOf(op);
    StandsForFirst(ops + [op], Djb2(op.text), op.text);
    FirstStep(ops + [op], Djb2(op.text));
    hide *;
    assert (ops + [op])[..|ops|] == ops;
  }

  /** Two labels with one hash: the second is returned the identifier that was announced for the first. */
  lemma CollidingLabels(alloc: Alloc)
    ensures var first, second := AddDynamic([0x61, 0x62], alloc), AddDynamic([0x62, 0x41], alloc);
            && Valid(Run([])) && Valid(Run([first]))
            && Do(Run([]), first).id == Do(Run([first]), second).id
            && !Announces(Do(Run([first]), second).feature.events,
                          Mapping(Do(Run([first]), second).id, second.text, Dynamic))
  {
    hide Djb2;
    hide Run;
    hide Do;
    hide Valid;
    hide Ids;
    hide Fitting;
    hide Stored;
    hide Announces;
    var first, second := AddDynamic([0x61, 0x62], alloc), AddDynamic([0x62, 0x41], alloc);
    TwoCharacters(0x61, 0x62);
    TwoCharacters(0x62, 0x41);
    EmptyFits(first);
    AnnouncedBeforeUse([], first);
    AnnouncementOf(first);
    AnnouncementOf(second);
    AnnouncedBeforeUse([first], second);
    LeadsBack([first], second);
    FirstStep([first], Djb2(first.text));
    assert [first][..0] == [];
    assert FirstStored([], Djb2(first.text)) == None;
    assert first.text[1] != second.text[1];
  }

  lemma EmptyFits(op: Op)
    requires !op.PushMap?
    ensures Valid(Run([])) && Fitting(Run([]), op)
  {
    NewTableEmpty<cstring>();
  }

  // An identifier that is never announced.

  /** Five labels of one bucket: "00", "?A", "NR", "]c" and "lt". */
  const LABELS: seq<cstring> := [[0x30, 0x30], [0x3F, 0x41], [0x4E, 0x52], [0x5D, 0x63], [0x6C, 0x74]]

  /** The hash of the first of them. */
  const FIRST_HASH := 5861541

  lemma LabelHashes(i: nat)
    requires i < |LABELS|
    ensures Djb2(LABELS[i]) == FIRST_HASH + i * BUCKET_COUNT && Slot(Djb2(LABELS[i])) == Slot(FIRST_HASH)
  {
    hide Djb2;
    LabelAt(i);
    TwoCharacters(0x30 + 15 * i, 0x30 + 17 * i);
  }

  lemma LabelAt(i: nat)
    requires i < |LABELS|
    ensures LABELS[i] == [0x30 + 15 * i, 0x30 + 17 * i] && |LABELS| == 5
  {
  }

  /** The first n of them are added. */
  function Fillers(n: nat, alloc: Alloc): (ops: seq<Op>)
    requires n <= |LABELS|
    ensures |ops| == n && forall i :: 0 <= i < n ==> ops[i] == AddDynamic(LABELS[i], alloc)
  {
    seq(n, i requires 0 <= i < n => AddDynamic(LABELS[i], alloc))
  }

  /** The bucket of those labels holds the first n of them, and has not grown. */
  ghost predicate Filled(f: Feature, n: nat) {
    && Valid(f)
    && var b := f.dynamics[Slot(FIRST_HASH)];
       && |b.keys.items| == |b.values.items| == n && b.keys.capacity == b.values.capacity == MIN_CAPACITY
       && forall i :: 0 <= i < n ==> b.keys.items[i] == FIRST_HASH + i * BUCKET_COUNT
  }

  lemma FillStep(f: Feature, n: nat, alloc: Alloc)
    requires Filled(f, n) && n < MIN_CAPACITY
    ensures Filled(Do(f, AddDynamic(LABELS[n], alloc)).feature, n + 1)
  {
    LabelHashes(n);
    var hash, text := Djb2(LABELS[n]), LABELS[n];
    hide Djb2;
    hide LABELS;
    assert InPlace(f.dynamics, Slot(hash));
    assert hash !in f.dynamics[Slot(hash)].keys.items;
    InsertKeepsPlaces(f.dynamics, InsertOp(hash, text, alloc));
  }

  lemma FilledNone()
    ensures Filled(Run([]), 0)
  {
    NewTableEmpty<cstring>();
  }

  lemma RunSnoc(ops: seq<Op>, op: Op)
    ensures Valid(Run(ops)) && Run(ops + [op]) == Do(Run(ops), op).feature
  {
    assert (ops + [op])[..|ops|] == ops;
    StepInv(Run(ops), op);
  }

  lemma {:induction false} FillersFill(n: nat, alloc: Alloc)
    requires n <= MIN_CAPACITY < |LABELS|
    ensures Filled(Run(Fillers(n, alloc)), n)
  {
    hide *;
    if n == 0 {
      FilledNone();
      assert Fillers(0, alloc) == [];
    } else {
      FillersFill(n - 1, alloc);
      assert Fillers(n, alloc) == Fillers(n - 1, alloc) + [AddDynamic(LABELS[n - 1], alloc)];
      RunSnoc(Fillers(n - 1, alloc), AddDynamic(LABELS[n - 1], alloc));
      FillStep(Run(Fillers(n - 1, alloc)), n - 1, alloc);
    }
  }

  lemma FullBucket(f: Feature, alloc: Alloc)
    requires Filled(f, MIN_CAPACITY) && MIN_CAPACITY < |LABELS| && !alloc.keys
    ensures var op := AddDynamic(LABELS[MIN_CAPACITY], alloc); !Stored(f, op) && !Fitting(f, op)
  {
    LabelHashes(MIN_CAPACITY);
    hide Djb2;
    hide LABELS;
    assert InPlace(f.dynamics, Slot(FIRST_HASH));
  }

  /**
   Five labels of one bucket are added while memory cannot grow: the last one gets an identifier, the hash of its
   own text like all of them, that its map has not announced.
   */
  lemma UnannouncedIdentifier()
    ensures var alloc := Alloc(false, false, false);
            && MIN_CAPACITY < |LABELS|
            && var ops, op := Fillers(MIN_CAPACITY, alloc), AddDynamic(LABELS[MIN_CAPACITY], alloc);
               && Valid(Run(ops)) && Do(Run(ops), op).id == Djb2(op.text)
               && Djb2(op.text) !in Ids(Do(Run(ops), op).feature.events, Dynamic)
  {
    var alloc := Alloc(false, false, false);
    assert |LABELS| == MIN_CAPACITY + 1;
    hide *;
    var ops, op := Fillers(MIN_CAPACITY, alloc), AddDynamic(LABELS[MIN_CAPACITY], alloc);
    AnnouncementOf(op);
    FillersFill(MIN_CAPACITY, alloc);
    FullBucket(Run(ops), alloc);
    AnnouncedBeforeUse(ops, op);
  }

  lemma NeverStops(ps: seq<(nat, cstring)>, visited: seq<(nat, cstring)>, stopped: bool)
    requires Visits(ps, (k, v) => true, visited, stopped)
    ensures !stopped && visited == ps
  {
  }

  // The feature object.

  class CachedStringFeature {
    const staticHashes: HashMap<cstring>
    const dynamicHashes: HashMap<cstring>
    var pushed: seq<Mapping>

    ghost function View(): Feature
      reads this, staticHashes, dynamicHashes
    {
      Feature(staticHashes.buckets, dynamicHashes.buckets, pushed)
    }

    ghost predicate Valid()
      reads this, staticHashes, staticHashes.Repr, dynamicHashes, dynamicHashes.Repr
    {
      && staticHashes.Valid() && dynamicHashes.Valid() && staticHashes.Repr !! dynamicHashes.Repr
      && this !in staticHashes.Repr + dynamicHashes.Repr
    }

    constructor ()
      ensures Valid() && Inv(View(), map[], map[]) && fresh(staticHashes.Repr) && fresh(dynamicHashes.Repr)
    {
      staticHashes := new HashMap();
      dynamicHashes := new HashMap();
      pushed := [];
    }

    /** ht_feature_cached_string_add_mapping_: pushes an event when the key was not stored before. */
    method AddMappingTo(hashes: HashMap<cstring>, hash: nat, text: cstring, alloc: Alloc, source: Source)
      returns (id: nat)
      requires Valid() && (hashes == staticHashes || hashes == dynamicHashes)
      modifies this, hashes.Repr
      ensures Valid() && fresh(hashes.Repr - old(hashes.Repr))
      ensures var a := AddTo(old(hashes.buckets), hash, text, alloc, source);
              hashes.buckets == a.table && pushed == old(pushed) + a.events && id == if a.failed then 0 else hash
    {
      var prev, failed := hashes.Insert(hash, text, alloc);
      if failed {
        return 0;
      }
      if prev.None? {
        pushed := pushed + [Mapping(hash, text, source)];
      }
      id := hash;
    }

    method AddMapping(address: nat, text: cstring, alloc: Alloc) returns (id: nat)
      requires Valid()
      modifies this, staticHashes.Repr
      ensures Valid() && Done(View(), id) == Do(old(View()), Op.AddMapping(address, text, alloc))
      ensures id == 0 || id == address
      ensures pushed == old(pushed) || (pushed == old(pushed) + [Mapping(address, text, Static)] && id == address)
    {
      id := AddMappingTo(staticHashes, address, text, alloc, Static);
    }

    method AddMappingDynamic(text: cstring, alloc: Alloc) returns (id: nat)
      requires Valid()
      modifies this, dynamicHashes.Repr
      ensures Valid() && Done(View(), id) == Do(old(View()), AddDynamic(text, alloc))
      ensures id == Djb2(text) && (pushed == old(pushed) || pushed == old(pushed) + [Mapping(id, text, Dynamic)])
    {
      var hash := Djb2Hash(text);
      var known := dynamicHashes.GetValue(hash);
      if known.None? {
        var _ := AddMappingTo(dynamicHashes, hash, text, alloc, Dynamic);
      }
      id := hash;
    }

    method PushMap()
      requires Valid()
      modifies this
      ensures Valid() && View() == Do(old(View()), Op.PushMap).feature
    {
      var statics := PushAll(staticHashes);
      var dynamics := PushAll(dynamicHashes);
      pushed := pushed + (statics + dynamics);
    }

    /** The events for every pair of a map; the callback never refuses. */
    method PushAll(hashes: HashMap<cstring>) returns (es: seq<Mapping>)
      requires hashes.Valid()
      ensures es == Dumped(Pairs(hashes.buckets, |hashes.buckets|))
    {
      var visited, stopped := hashes.ForEach((k, v) => true);
      NeverStops(Pairs(hashes.buckets, |hashes.buckets|), visited, stopped);
      es := Dumped(visited);
    }
  }
}
