/**
 The hash map object (hash_map.c): bags in arrays, buckets in a fixed table.  Its methods do what the
 functions on buckets say.
 */
module HashMapObjects {
  import opened Bytes
  import opened Bags
  import opened HashMaps

  predicate Apart(a: object, b: object) {
    a != b
  }

  class HashBucket<V(0)> {
    const keyBag: ArrayBag<nat>
    const valueBag: ArrayBag<V>

    ghost function Repr(): set<object>
      reads this, keyBag, valueBag
    {
      {this, keyBag, keyBag.data, valueBag, valueBag.data}
    }

    ghost predicate Separate()
      reads this, keyBag, keyBag.data, valueBag, valueBag.data
    {
      keyBag.Valid() && valueBag.Valid() && Apart(keyBag.data, valueBag.data) && Apart(keyBag, valueBag)
    }

    ghost predicate Valid()
      reads this, keyBag, keyBag.data, valueBag, valueBag.data
    {
      Separate() && ValidBucket(View())
    }

    ghost function View(): Bucket<V>
      requires keyBag.Valid() && valueBag.Valid()
      reads this, keyBag, keyBag.data, valueBag, valueBag.data
    {
      Bucket(keyBag.View(), valueBag.View())
    }

    constructor ()
      ensures Valid() && View() == NewBucket<V>() && fresh(Repr())
    {
      valueBag := new ArrayBag(MIN_CAPACITY);
      keyBag := new ArrayBag(MIN_CAPACITY);
    }

    method FindValue(key: nat) returns (i: nat)
      requires Valid()
      ensures i == Find(View().keys.items, key)
    {
      i := FindKey(keyBag.data[..keyBag.size], key);
    }

    method SetValue(i: nat, value: V)
      requires Separate() && i < valueBag.size
      modifies valueBag.data
      ensures Separate() && keyBag.View() == old(keyBag.View())
      ensures valueBag.View() == old(valueBag.View()).(items := old(valueBag.View()).items[i := value])
    {
      valueBag.data[i] := value;
      assert valueBag.data[..valueBag.size] == old(valueBag.data[..valueBag.size])[i := value];
    }

    method AddKey(key: nat, ok: bool) returns (added: bool)
      requires Separate()
      modifies keyBag, keyBag.data
      ensures Separate() && fresh(Repr() - old(Repr())) && valueBag.View() == old(valueBag.View())
      ensures added == CanAdd(old(keyBag.View()), ok) && keyBag.View() == AddTo(old(keyBag.View()), key, ok)
    {
      hide ValidBag;
      hide AddTo;
      added := keyBag.Add(key, ok);
    }

    method AddValue(value: V, ok: bool) returns (added: bool)
      requires Separate()
      modifies valueBag, valueBag.data
      ensures Separate() && fresh(Repr() - old(Repr())) && keyBag.View() == old(keyBag.View())
      ensures added == CanAdd(old(valueBag.View()), ok) && valueBag.View() == AddTo(old(valueBag.View()), value, ok)
    {
      hide ValidBag;
      hide AddTo;
      added := valueBag.Add(value, ok);
    }

    /** Takes the last key out, by naming the position behind it. */
    method DropKey(ok: bool)
      requires Separate() && 0 < keyBag.size < keyBag.data.Length
      modifies keyBag, keyBag.data
      ensures Separate() && fresh(Repr() - old(Repr())) && valueBag.View() == old(valueBag.View())
      ensures keyBag.View() == RemoveNth(old(keyBag.View()), |old(keyBag.View()).items|, ok)
    {
      hide ValidBag;
      hide RemoveNth;
      keyBag.Remove(keyBag.size, ok);
    }

    /** Adds a key and its value; when the value cannot be added the key is taken out again. */
    method AddNewPair(key: nat, value: V, alloc: Alloc) returns (failed: bool)
      requires Valid()
      modifies Repr()
      ensures Separate() && fresh(Repr() - old(Repr()))
      ensures Inserted(View(), None, failed) == AddPair(old(View()), key, value, alloc)
    {
      ghost var before := View();
      if CanAdd(before.keys, alloc.keys) && !CanAdd(before.values, alloc.values) {
        RollbackRoom(before, key, alloc);
      }
      hide ValidBucket;
      hide ValidBag;
      hide AddTo;
      hide CanAdd;
      hide RemoveNth;
      failed := true;
      var added := AddKey(key, alloc.keys);
      if !added {
        FailedAdd(before.keys, key, alloc.keys);
        return;
      }
      added := AddValue(value, alloc.values);
      if !added {
        FailedAdd(before.values, value, alloc.values);
        DropKey(alloc.shrink);
        return;
      }
      failed := false;
    }

    method Insert(key: nat, value: V, alloc: Alloc) returns (prev: Option<V>, failed: bool)
      requires Valid()
      modifies Repr()
      ensures Valid() && fresh(Repr() - old(Repr()))
      ensures Inserted(View(), prev, failed) == InsertBucket(old(View()), key, value, alloc)
    {
      BucketStaysValid(View(), key, value, alloc);
      var index := FindValue(key);
      hide ValidBucket;
      hide ValidBag;
      hide AddPair;
      if index < keyBag.size {
        prev, failed := Some(valueBag.data[index]), false;
        SetValue(index, value);
      } else {
        prev := None;
        failed := AddNewPair(key, value, alloc);
      }
    }

    /** ht_hash_bucket_for_each: the pairs in order, until the callback refuses one. */
    method ForEach(callback: (nat, V) -> bool) returns (visited: seq<(nat, V)>, stopped: bool)
      requires Valid()
      ensures Visits(BucketPairs(View()), callback, visited, stopped)
    {
      visited, stopped := [], false;
      ghost var ps := BucketPairs(View());
      for i := 0 to keyBag.size
        invariant visited == ps[..i]
        invariant forall k :: 0 <= k < i ==> callback(ps[k].0, ps[k].1)
      {
        assert ps[..i + 1] == ps[..i] + [ps[i]];
        visited := visited + [(keyBag.data[i], valueBag.data[i])];
        if !callback(keyBag.data[i], valueBag.data[i]) {
          return visited, true;
        }
      }
    }
  }

  lemma BucketStaysValid<V>(b: Bucket<V>, key: nat, value: V, alloc: Alloc)
    requires ValidBucket(b)
    ensures ValidBucket(InsertBucket(b, key, value, alloc).bucket)
  {
    if key !in b.keys.items && CanAdd(b.keys, alloc.keys) {
      if CanAdd(b.values, alloc.values) {
        AddKeepsValid(b.keys, key, alloc.keys);
        AddKeepsValid(b.values, value, alloc.values);
        GrownCapacities(b, key, value, alloc);
      } else {
        RolledBack(b, key, alloc);
      }
    }
  }

  /** The visits of for_each: pairs in order, up to the first one the callback refuses. */
  ghost predicate Visits<V>(ps: seq<(nat, V)>, callback: (nat, V) -> bool, visited: seq<(nat, V)>, stopped: bool) {
    && visited <= ps && (!stopped ==> visited == ps)
    && (stopped ==> visited != [] && !callback(visited[|visited| - 1].0, visited[|visited| - 1].1))
    && forall i :: 0 <= i < |visited| ==> callback(visited[i].0, visited[i].1) == !(stopped && i == |visited| - 1)
  }

  /** The bucket is made of these objects and holds this. */
  ghost predicate Holds<V(0)>(b: HashBucket<V>, view: Bucket<V>, part: set<object>)
    reads part
  {
    && {b, b.keyBag, b.valueBag} <= part && {b.keyBag.data, b.valueBag.data} <= part
    && b.Repr() == part && b.Valid() && b.View() == view
  }

  /** No two buckets share an object. */
  ghost predicate Disjoint(parts: seq<set<object>>) {
    forall i, j :: 0 <= i < |parts| && 0 <= j < |parts| && i != j ==> parts[i] !! parts[j]
  }

  /** The table of buckets. */
  class HashMap<V(!new, 0)> {
    const table: seq<HashBucket<V>>
    ghost var buckets: seq<Bucket<V>>
    ghost var parts: seq<set<object>>
    ghost var Repr: set<object>

    ghost predicate Owned(i: nat)
      requires i < |table| && i < |buckets| && i < |parts|
      reads this, Repr
    {
      parts[i] <= Repr && this !in parts[i] && Holds(table[i], buckets[i], parts[i])
    }

    ghost predicate Valid()
      reads this, Repr
    {
      && this in Repr && |table| == |buckets| == |parts| == BUCKET_COUNT
      && (forall i :: 0 <= i < |table| ==> Owned(i))
      && Disjoint(parts) && ValidTable(buckets)
    }

    constructor ()
      ensures Valid() && fresh(Repr) && buckets == NewTable() && Represents(buckets, map[])
      ensures |table| == 512
    {
      hide Holds;
      var bs: seq<HashBucket<V>> := [];
      ghost var owned: seq<set<object>>, all: set<object> := [], {};
      for i := 0 to BUCKET_COUNT
        invariant |bs| == |owned| == i && fresh(all)
        invariant forall j :: 0 <= j < i ==> owned[j] <= all && Holds(bs[j], NewBucket(), owned[j])
        invariant Disjoint(owned)
      {
        var b, part := MakeBucket<V>();
        bs := bs + [b];
        owned := owned + [part];
        all := all + part;
      }
      table := bs;
      buckets := NewTable();
      parts := owned;
      Repr := all + {this};
      new;
      NewTableEmpty<V>();
    }

    /**
     ht_hash_map_insert: whatever finite map the table stood for, it then stands for that map updated at the
     key, or for the same map when the insertion failed; the value the key had before is returned.
     */
    method Insert(key: nat, value: V, alloc: Alloc) returns (prev: Option<V>, failed: bool)
      requires Valid()
      modifies Repr
      ensures Valid() && fresh(Repr - old(Repr))
      ensures forall contents :: old(Represents(buckets, contents)) ==>
                && Represents(buckets, if failed then contents else contents[key := value])
                && prev == (if !failed && key in contents then Some(contents[key]) else None)
      ensures old(buckets)[Slot(key) := InsertIn(old(buckets), InsertOp(key, value, alloc)).bucket] == buckets
      ensures var r := InsertIn(old(buckets), InsertOp(key, value, alloc)); prev == r.prev && failed == r.failed
      ensures forall i :: 0 <= i < 512 && i != key % 512 ==> buckets[i] == old(buckets)[i]
    {
      hide Holds;
      hide InsertBucket;
      hide ValidTable;
      hide ValidBucket;
      var i := key % BUCKET_COUNT;
      InPlaceAt(buckets, i);
      InsertKeepsPlaces(buckets, InsertOp(key, value, alloc));
      assert Owned(i);
      ghost var part;
      prev, failed, part := InsertInto(table[i], key, value, alloc, buckets[i], parts[i]);
      Repr := Repr + part;
      parts := parts[i := part];
      buckets := buckets[i := InsertBucket(buckets[i], key, value, alloc).bucket];
      assert ValidTable(buckets) && Disjoint(parts) && Owned(i);
      forall j | 0 <= j < |table| && j != i ensures Owned(j) { assert old(Owned(j)); }
      forall contents | old(Represents(buckets, contents))
        ensures Represents(buckets, if failed then contents else contents[key := value])
        ensures prev == (if !failed && key in contents then Some(contents[key]) else None)
      {
        InsertRefines(old(buckets), contents, InsertOp(key, value, alloc));
        FailedGivesNone(old(buckets)[i], key, value, alloc);
      }
    }

    method GetValue(key: nat) returns (value: Option<V>)
      requires Valid()
      ensures value == LookupIn(buckets, key)
    {
      var i := key % BUCKET_COUNT;
      assert Owned(i) && InPlace(buckets, i);
      var b := table[i];
      var n := b.FindValue(key);
      value := if n < b.keyBag.size then Some(b.valueBag.data[n]) else None;
    }

    method ForEach(callback: (nat, V) -> bool) returns (visited: seq<(nat, V)>, stopped: bool)
      requires Valid()
      ensures Visits(Pairs(buckets, |buckets|), callback, visited, stopped)
    {
      visited, stopped := [], false;
      hide Visits;
      VisitsNothing(callback);
      for i := 0 to |table|
        invariant Visits(Pairs(buckets, i), callback, visited, false)
      {
        assert Owned(i) && InPlace(buckets, i);
        var more;
        more, stopped := table[i].ForEach(callback);
        PairsStep(buckets, i);
        VisitsAppend(Pairs(buckets, i), BucketPairs(buckets[i]), callback, visited, more, stopped);
        visited := visited + more;
        if stopped {
          PairsPrefix(buckets, i + 1);
          VisitsPrefix(Pairs(buckets, i + 1), Pairs(buckets, |buckets|), callback, visited);
          return;
        }
      }
      stopped := false;
    }
  }

  lemma FailedGivesNone<V>(b: Bucket<V>, key: nat, value: V, alloc: Alloc)
    requires ValidBucket(b)
    ensures var r := InsertBucket(b, key, value, alloc); r.failed ==> r.prev == None
  {
  }

  lemma InPlaceAt<V>(m: seq<Bucket<V>>, i: nat)
    requires ValidTable(m) && i < |m|
    ensures ValidBucket(m[i])
  {
    assert InPlace(m, i);
  }

  method MakeBucket<V(0)>() returns (b: HashBucket<V>, ghost part: set<object>)
    ensures Holds(b, NewBucket(), part) && fresh(part)
  {
    b := new HashBucket<V>();
    part := b.Repr();
  }

  method InsertInto<V(0)>(b: HashBucket<V>, key: nat, value: V, alloc: Alloc, ghost view: Bucket<V>,
                          ghost part: set<object>)
    returns (prev: Option<V>, failed: bool, ghost part': set<object>)
    requires Holds(b, view, part) && ValidBucket(view)
    modifies part
    ensures var r := InsertBucket(view, key, value, alloc);
            Holds(b, r.bucket, part') && fresh(part' - part) && prev == r.prev && failed == r.failed
  {
    hide InsertBucket;
    hide ValidBucket;
    prev, failed := b.Insert(key, value, alloc);
    part' := b.Repr();
  }

  /** The position of a key, by linear search. */
  method FindKey(keys: seq<nat>, key: nat) returns (i: nat)
    ensures i == Find(keys, key)
  {
    i := 0;
    assert keys[0..] == keys;
    while i < |keys| && keys[i] != key
      invariant 0 <= i <= |keys|
      invariant Find(keys, key) == i + Find(keys[i..], key)
    {
      assert keys[i..][1..] == keys[i + 1..];
      i := i + 1;
    }
  }

  lemma VisitsNothing<V>(callback: (nat, V) -> bool)
    ensures Visits([], callback, [], false)
  {
  }

  lemma VisitsAppend<V>(ps: seq<(nat, V)>, qs: seq<(nat, V)>, callback: (nat, V) -> bool, visited: seq<(nat, V)>,
                        more: seq<(nat, V)>, stopped: bool)
    requires Visits(ps, callback, visited, false) && Visits(qs, callback, more, stopped)
    ensures Visits(ps + qs, callback, visited + more, stopped)
  {
  }

  lemma VisitsPrefix<V>(ps: seq<(nat, V)>, all: seq<(nat, V)>, callback: (nat, V) -> bool, visited: seq<(nat, V)>)
    requires Visits(ps, callback, visited, true) && ps <= all
    ensures Visits(all, callback, visited, true)
  {
  }

  lemma PairsStep<V>(m: seq<Bucket<V>>, n: nat)
    requires ValidTable(m) && n < |m| && ValidBucket(m[n])
    ensures Pairs(m, n + 1) == Pairs(m, n) + BucketPairs(m[n])
  {
  }

  lemma {:induction false} PairsPrefix<V>(m: seq<Bucket<V>>, n: nat)
    requires ValidTable(m) && n <= |m|
    ensures Pairs(m, n) <= Pairs(m, |m|)
    decreases |m| - n
  {
    if n < |m| {
      PairsPrefix(m, n + 1);
    }
  }
}
