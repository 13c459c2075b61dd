/**
 The hash map (hash_map.c): 512 buckets, each a bag of keys beside a bag of values.  Every allocation may
 fail; an insertion whose value does not fit takes its key out again.
 */
module HashMaps {
  import opened Bytes
  import opened Bags

  const BUCKET_COUNT := 512
  const MIN_CAPACITY := 4

  datatype Bucket<V> = Bucket(keys: Bag<nat>, values: Bag<V>)

  /** Which of the reallocations an insertion may ask for would succeed. */
  datatype Alloc = Alloc(keys: bool, values: bool, shrink: bool)

  predicate Distinct(keys: seq<nat>) {
    forall i, j :: 0 <= i < j < |keys| ==> keys[i] != keys[j]
  }

  /** The key bag is never smaller than the value bag, and at most one doubling ahead of it. */
  predicate ValidBucket<V>(b: Bucket<V>) {
    && ValidBag(b.keys) && ValidBag(b.values) && b.keys.min == MIN_CAPACITY == b.values.min
    && |b.keys.items| == |b.values.items| && Distinct(b.keys.items)
    && b.values.capacity <= b.keys.capacity <= 2 * b.values.capacity
  }

  function NewBucket<V>(): Bucket<V> {
    Bucket(EmptyBag(MIN_CAPACITY), EmptyBag(MIN_CAPACITY))
  }

  /** The position of a key, or the number of keys. */
  function Find(keys: seq<nat>, key: nat): (i: nat)
    ensures i <= |keys| && (i < |keys| ==> keys[i] == key) && (i == |keys| <==> key !in keys)
  {
    if keys == [] then 0 else if keys[0] == key then 0 else 1 + Find(keys[1..], key)
  }

  function Lookup<V>(b: Bucket<V>, key: nat): Option<V>
    requires |b.keys.items| == |b.values.items|
  {
    var i := Find(b.keys.items, key);
    if i < |b.keys.items| then Some(b.values.items[i]) else None
  }

  /** When a value cannot be added, the key bag has room past the key just added. */
  lemma RollbackRoom<V>(b: Bucket<V>, key: nat, alloc: Alloc)
    requires ValidBucket(b) && CanAdd(b.keys, alloc.keys) && !CanAdd(b.values, alloc.values)
    ensures 0 < |AddTo(b.keys, key, alloc.keys).items| < AddTo(b.keys, key, alloc.keys).capacity
  {
    DoubledTwice(MIN_CAPACITY, b.values.capacity);
    if |b.keys.items| < b.keys.capacity {
      DoubledGap(MIN_CAPACITY, b.values.capacity, b.keys.capacity);
    }
  }

  datatype Inserted<V> = Inserted(bucket: Bucket<V>, prev: Option<V>, failed: bool)

  /** Adds a key and its value, or neither. */
  function AddPair<V>(b: Bucket<V>, key: nat, value: V, alloc: Alloc): Inserted<V>
    requires ValidBucket(b)
  {
    if !CanAdd(b.keys, alloc.keys) then Inserted(b, None, true)
    else
      var keys := AddTo(b.keys, key, alloc.keys);
      if !CanAdd(b.values, alloc.values) then
        RollbackRoom(b, key, alloc);
        Inserted(b.(keys := RemoveNth(keys, |keys.items|, alloc.shrink)), None, true)
      else Inserted(Bucket(keys, AddTo(b.values, value, alloc.values)), None, false)
  }

  /** ht_hash_map_insert, within the bucket of the key. */
  function InsertBucket<V>(b: Bucket<V>, key: nat, value: V, alloc: Alloc): Inserted<V>
    requires ValidBucket(b)
  {
    var i := Find(b.keys.items, key);
    if i < |b.keys.items| then
      Inserted(b.(values := b.values.(items := b.values.items[i := value])), Some(b.values.items[i]), false)
    else AddPair(b, key, value, alloc)
  }

  /** What an insertion does to the keys and values of a bucket, seen as a finite map. */
  ghost predicate Maps<V(!new)>(b: Bucket<V>, r: Inserted<V>, key: nat, value: V)
    requires ValidBucket(b)
  {
    && ValidBucket(r.bucket)
    && r.prev == (if r.failed then None else Lookup(b, key))
    && forall k :: Lookup(r.bucket, k) == if k == key && !r.failed then Some(value) else Lookup(b, k)
  }

  lemma {:induction false} FindAt(keys: seq<nat>, i: nat)
    requires i < |keys| && Distinct(keys)
    ensures Find(keys, keys[i]) == i
  {
  }

  lemma LookupAt<V>(b: Bucket<V>, i: nat)
    requires ValidBucket(b) && i < |b.keys.items|
    ensures Lookup(b, b.keys.items[i]) == Some(b.values.items[i])
  {
    FindAt(b.keys.items, i);
  }

  lemma ReplacedValue<V(!new)>(b: Bucket<V>, key: nat, value: V, alloc: Alloc)
    requires ValidBucket(b) && key in b.keys.items
    ensures Maps(b, InsertBucket(b, key, value, alloc), key, value)
  {
    var r := InsertBucket(b, key, value, alloc);
    var i := Find(b.keys.items, key);
    forall k
      ensures Lookup(r.bucket, k) == if k == key then Some(value) else Lookup(b, k)
    {
      assert k != key && Find(b.keys.items, k) < |b.keys.items| ==> Find(b.keys.items, k) != i;
    }
  }

  lemma AddedPair<V(!new)>(b: Bucket<V>, key: nat, value: V, b': Bucket<V>)
    requires ValidBucket(b) && key !in b.keys.items
    requires b'.keys.items == b.keys.items + [key] && b'.values.items == b.values.items + [value]
    ensures Distinct(b'.keys.items)
    ensures forall k :: Lookup(b', k) == if k == key then Some(value) else Lookup(b, k)
  {
    forall k
      ensures Lookup(b', k) == if k == key then Some(value) else Lookup(b, k)
    {
      FindSnoc(b.keys.items, key, k);
    }
  }

  lemma {:induction false} FindSnoc(keys: seq<nat>, key: nat, k: nat)
    ensures Find(keys + [key], k) == if k in keys || k == key then Find(keys, k) else |keys| + 1
  {
    if keys == [] {
      assert keys + [key] == [key];
    } else {
      assert (keys + [key])[1..] == keys[1..] + [key];
      FindSnoc(keys[1..], key, k);
    }
  }

  lemma GrownCapacities<V>(b: Bucket<V>, key: nat, value: V, alloc: Alloc)
    requires ValidBucket(b) && CanAdd(b.keys, alloc.keys) && CanAdd(b.values, alloc.values)
    ensures var keys, values := AddTo(b.keys, key, alloc.keys), AddTo(b.values, value, alloc.values);
            values.capacity <= keys.capacity <= 2 * values.capacity
  {
    if |b.keys.items| < b.keys.capacity && |b.values.items| == b.values.capacity {
      DoubledGap(MIN_CAPACITY, b.values.capacity, b.keys.capacity);
    }
  }

  /** The rollback takes out the new key and nothing else, and does not shrink the bag. */
  lemma RolledBack<V>(b: Bucket<V>, key: nat, alloc: Alloc)
    requires ValidBucket(b) && CanAdd(b.keys, alloc.keys) && !CanAdd(b.values, alloc.values)
    ensures var keys := AddTo(b.keys, key, alloc.keys);
            |keys.items| < keys.capacity
            && RemoveNth(keys, |keys.items|, alloc.shrink) == keys.(items := b.keys.items)
            && ValidBag(keys) && b.values.capacity <= keys.capacity <= 2 * b.values.capacity
  {
    RollbackRoom(b, key, alloc);
    AddKeepsValid(b.keys, key, alloc.keys);
    var keys := AddTo(b.keys, key, alloc.keys);
    assert keys.items[..|b.keys.items|] == b.keys.items;
  }

  /** Whatever allocations fail, an insertion updates the map at its key or leaves it unchanged. */
  lemma InsertMaps<V(!new)>(b: Bucket<V>, key: nat, value: V, alloc: Alloc)
    requires ValidBucket(b)
    ensures Maps(b, InsertBucket(b, key, value, alloc), key, value)
    ensures InsertBucket(b, key, value, alloc).failed ==>
              InsertBucket(b, key, value, alloc).bucket.keys.items == b.keys.items
              && InsertBucket(b, key, value, alloc).bucket.values == b.values
  {
    if key in b.keys.items {
      ReplacedValue(b, key, value, alloc);
    } else if CanAdd(b.keys, alloc.keys) {
      if CanAdd(b.values, alloc.values) {
        AddKeepsValid(b.keys, key, alloc.keys);
        AddKeepsValid(b.values, value, alloc.values);
        GrownCapacities(b, key, value, alloc);
        AddedPair(b, key, value, InsertBucket(b, key, value, alloc).bucket);
      } else {
        RolledBack(b, key, alloc);
      }
    }
  }

  /** An insertion fails exactly when its key is new and a bag that is full cannot grow. */
  lemma InsertFailsWhen<V>(b: Bucket<V>, key: nat, value: V, alloc: Alloc)
    requires ValidBucket(b)
    ensures InsertBucket(b, key, value, alloc).failed <==>
              key !in b.keys.items
              && ((|b.keys.items| == b.keys.capacity && !alloc.keys)
                  || (|b.values.items| == b.values.capacity && !alloc.values))
  {
  }

  /** Where an insertion puts its pair: over the old value, or behind the other pairs, or nowhere. */
  lemma InsertPlaces<V(!new)>(b: Bucket<V>, key: nat, value: V, alloc: Alloc)
    requires ValidBucket(b)
    ensures var r := InsertBucket(b, key, value, alloc);
            var ks, vs := r.bucket.keys.items, r.bucket.values.items;
            if r.failed then ks == b.keys.items && vs == b.values.items
            else if key in b.keys.items then
              && ks == b.keys.items && |vs| == |ks|
              && forall i :: 0 <= i < |ks| ==> vs[i] == if ks[i] == key then value else b.values.items[i]
            else ks == b.keys.items + [key] && vs == b.values.items + [value]
  {
    InsertMaps(b, key, value, alloc);
  }

  // The whole table.

  predicate InPlace<V>(m: seq<Bucket<V>>, i: nat)
    requires i < |m|
  {
    ValidBucket(m[i]) && forall j :: 0 <= j < |m[i].keys.items| ==> m[i].keys.items[j] % BUCKET_COUNT == i
  }

  ghost predicate ValidTable<V>(m: seq<Bucket<V>>) {
    |m| == BUCKET_COUNT && forall i :: 0 <= i < |m| ==> InPlace(m, i)
  }

  function Slot(key: nat): (i: nat)
    ensures i < BUCKET_COUNT
  {
    key % BUCKET_COUNT
  }

  ghost function LookupIn<V>(m: seq<Bucket<V>>, key: nat): Option<V>
    requires ValidTable(m)
  {
    assert InPlace(m, Slot(key));
    Lookup(m[Slot(key)], key)
  }

  datatype InsertOp<V> = InsertOp(key: nat, value: V, alloc: Alloc)

  ghost function InsertIn<V>(m: seq<Bucket<V>>, op: InsertOp<V>): Inserted<V>
    requires ValidTable(m)
  {
    assert InPlace(m, Slot(op.key));
    InsertBucket(m[Slot(op.key)], op.key, op.value, op.alloc)
  }

  function NewTable<V>(): seq<Bucket<V>> {
    seq(BUCKET_COUNT, i => NewBucket())
  }

  lemma InsertKeepsPlaces<V(!new)>(m: seq<Bucket<V>>, op: InsertOp<V>)
    requires ValidTable(m)
    ensures ValidTable(m[Slot(op.key) := InsertIn(m, op).bucket])
  {
    var i, b := Slot(op.key), InsertIn(m, op).bucket;
    assert InPlace(m, i);
    InsertMaps(m[i], op.key, op.value, op.alloc);
    var m' := m[i := b];
    forall j | 0 <= j < |m'|
      ensures InPlace(m', j)
    {
      assert InPlace(m, j);
      if j == i {
        forall k | 0 <= k < |b.keys.items|
          ensures b.keys.items[k] % BUCKET_COUNT == i
        {
          KeyOrigin(m[i], op, k);
        }
      }
    }
  }

  /** The keys of a bucket after an insertion are those before, and possibly the new one. */
  lemma KeyOrigin<V(!new)>(b: Bucket<V>, op: InsertOp<V>, k: nat)
    requires ValidBucket(b)
    requires var r := InsertBucket(b, op.key, op.value, op.alloc); k < |r.bucket.keys.items|
    ensures var r := InsertBucket(b, op.key, op.value, op.alloc);
            if k < |b.keys.items| then r.bucket.keys.items[k] == b.keys.items[k] else r.bucket.keys.items[k] == op.key
  {
    InsertMaps(b, op.key, op.value, op.alloc);
  }

  /** A table as the finite map it stands for. */
  ghost predicate Represents<V(!new)>(m: seq<Bucket<V>>, contents: map<nat, V>) {
    ValidTable(m) && forall k :: LookupIn(m, k) == if k in contents then Some(contents[k]) else None
  }

  /** One insertion is an update of the map, or no change at all when it fails. */
  lemma InsertRefines<V(!new)>(m: seq<Bucket<V>>, contents: map<nat, V>, op: InsertOp<V>)
    requires Represents(m, contents)
    ensures var r := InsertIn(m, op);
            && Represents(m[Slot(op.key) := r.bucket], if r.failed then contents else contents[op.key := op.value])
            && (!r.failed ==> r.prev == if op.key in contents then Some(contents[op.key]) else None)
  {
    var r, i := InsertIn(m, op), Slot(op.key);
    InsertKeepsPlaces(m, op);
    assert InPlace(m, i);
    InsertMaps(m[i], op.key, op.value, op.alloc);
    assert LookupIn(m, op.key) == Lookup(m[i], op.key);
    var m', contents' := m[i := r.bucket], if r.failed then contents else contents[op.key := op.value];
    hide InsertBucket;
    hide ValidTable;
    forall k
      ensures LookupIn(m', k) == if k in contents' then Some(contents'[k]) else None
    {
      SlotLookup(m, m', i, k);
      assert LookupIn(m, k) == if k in contents then Some(contents[k]) else None;
    }
  }

  lemma SlotLookup<V>(m: seq<Bucket<V>>, m': seq<Bucket<V>>, i: nat, k: nat)
    requires ValidTable(m) && ValidTable(m') && i < |m| && m' == m[i := m'[i]]
    ensures |m'[Slot(k)].keys.items| == |m'[Slot(k)].values.items| && LookupIn(m', k) == Lookup(m'[Slot(k)], k)
    ensures Slot(k) != i ==> LookupIn(m', k) == LookupIn(m, k)
    ensures |m[Slot(k)].keys.items| == |m[Slot(k)].values.items| && LookupIn(m, k) == Lookup(m[Slot(k)], k)
  {
    assert InPlace(m, Slot(k)) && InPlace(m', Slot(k));
  }

  /** The table after a sequence of insertions, each under its own pattern of allocation failures. */
  ghost function RunInserts<V(!new)>(ops: seq<InsertOp<V>>): (m: seq<Bucket<V>>)
    ensures ValidTable(m)
  {
    if ops == [] then NewTable()
    else
      var m, op := RunInserts(ops[..|ops| - 1]), ops[|ops| - 1];
      InsertKeepsPlaces(m, op);
      m[Slot(op.key) := InsertIn(m, op).bucket]
  }

  /** The last successful insertion for each key. */
  ghost function LastInserts<V(!new)>(ops: seq<InsertOp<V>>): map<nat, V> {
    if ops == [] then map[]
    else
      var before, op := ops[..|ops| - 1], ops[|ops| - 1];
      if InsertIn(RunInserts(before), op).failed then LastInserts(before) else LastInserts(before)[op.key := op.value]
  }

  /** Under any pattern of allocation failures, looking a key up gives the last value successfully inserted. */
  lemma {:induction false} HashMapRefinesMap<V(!new)>(ops: seq<InsertOp<V>>)
    ensures Represents(RunInserts(ops), LastInserts(ops))
  {
    if ops == [] {
      NewTableEmpty<V>();
    } else {
      var before, op := ops[..|ops| - 1], ops[|ops| - 1];
      HashMapRefinesMap(before);
      InsertRefines(RunInserts(before), LastInserts(before), op);
    }
  }

  /** A new table: 512 empty buckets with room for four pairs; a key belongs to the bucket of its remainder. */
  lemma TableShape<V>(key: nat)
    ensures |NewTable<V>()| == 512 && Slot(key) == key % 512
    ensures forall i :: 0 <= i < 512 ==>
              var b := NewTable<V>()[i];
              b.keys.items == [] && b.values.items == [] && b.keys.capacity == b.values.capacity == 4
  {
  }

  lemma NewTableEmpty<V(!new)>()
    ensures Represents<V>(NewTable<V>(), map[])
  {
    var m := NewTable<V>();
    forall i | 0 <= i < |m| ensures InPlace(m, i) {}
  }

  // Visiting every pair.

  function BucketPairs<V>(b: Bucket<V>): (ps: seq<(nat, V)>)
    requires |b.keys.items| == |b.values.items|
    ensures |ps| == |b.keys.items| && forall i :: 0 <= i < |ps| ==> ps[i] == (b.keys.items[i], b.values.items[i])
  {
    seq(|b.keys.items|, i requires 0 <= i < |b.keys.items| => (b.keys.items[i], b.values.items[i]))
  }

  ghost function Pairs<V>(m: seq<Bucket<V>>, n: nat): seq<(nat, V)>
    requires ValidTable(m) && n <= |m|
  {
    if n == 0 then []
    else
      assert InPlace(m, n - 1);
      Pairs(m, n - 1) + BucketPairs(m[n - 1])
  }

  predicate KeysOnce<V>(ps: seq<(nat, V)>) {
    forall i, j :: 0 <= i < j < |ps| ==> ps[i].0 != ps[j].0
  }

  ghost predicate PairOf<V>(m: seq<Bucket<V>>, p: (nat, V))
    requires ValidTable(m)
  {
    LookupIn(m, p.0) == Some(p.1)
  }

  lemma BucketPairsSound<V>(m: seq<Bucket<V>>, n: nat)
    requires ValidTable(m) && n < |m| && ValidBucket(m[n])
    ensures var ps := BucketPairs(m[n]);
            KeysOnce(ps) && forall i :: 0 <= i < |ps| ==> Slot(ps[i].0) == n && PairOf(m, ps[i])
  {
    assert InPlace(m, n);
    var ps := BucketPairs(m[n]);
    forall i | 0 <= i < |ps|
      ensures Slot(ps[i].0) == n && PairOf(m, ps[i])
    {
      LookupAt(m[n], i);
    }
  }

  lemma {:induction false} PairsSound<V>(m: seq<Bucket<V>>, n: nat)
    requires ValidTable(m) && n <= |m|
    ensures KeysOnce(Pairs(m, n))
    ensures forall i :: 0 <= i < |Pairs(m, n)| ==> Slot(Pairs(m, n)[i].0) < n && PairOf(m, Pairs(m, n)[i])
  {
    if n > 0 {
      PairsSound(m, n - 1);
      assert InPlace(m, n - 1);
      BucketPairsSound(m, n - 1);
      hide PairOf;
      hide Slot;
      hide ValidTable;
    }
  }

  lemma {:induction false} PairsComplete<V>(m: seq<Bucket<V>>, n: nat, k: nat)
    requires ValidTable(m) && n <= |m| && Slot(k) < n && LookupIn(m, k).Some?
    ensures (k, LookupIn(m, k).value) in Pairs(m, n)
  {
    assert InPlace(m, n - 1);
    if Slot(k) == n - 1 {
      assert BucketPairs(m[n - 1])[Find(m[n - 1].keys.items, k)] == (k, LookupIn(m, k).value);
    } else {
      PairsComplete(m, n - 1, k);
    }
  }

  /** Pair p is visited before pair q: its bucket comes first, or it was stored first in the same bucket. */
  ghost predicate Earlier<V>(m: seq<Bucket<V>>, p: nat, q: nat)
    requires ValidTable(m)
  {
    || p % 512 < q % 512
    || (p % 512 == q % 512 && Find(m[p % 512].keys.items, p) < Find(m[p % 512].keys.items, q))
  }

  /** Pairs are visited bucket by bucket, and in a bucket in the order in which their keys were stored. */
  lemma {:induction false} PairsInOrder<V>(m: seq<Bucket<V>>, n: nat)
    requires ValidTable(m) && n <= |m|
    ensures forall i, j :: 0 <= i < j < |Pairs(m, n)| ==> Earlier(m, Pairs(m, n)[i].0, Pairs(m, n)[j].0)
  {
    if n > 0 {
      assert InPlace(m, n - 1);
      PairsInOrder(m, n - 1);
      PairsSound(m, n - 1);
      BucketPairsSound(m, n - 1);
      var before, ps, keys := Pairs(m, n - 1), BucketPairs(m[n - 1]), m[n - 1].keys.items;
      forall i | 0 <= i < |ps| ensures Find(keys, ps[i].0) == i && ps[i].0 % 512 == n - 1 {
        FindAt(keys, i);
      }
      forall i | 0 <= i < |before| ensures before[i].0 % 512 < n - 1 {
        assert Slot(before[i].0) < n - 1;
      }
      hide Find;
      hide PairOf;
      hide BucketPairs;
    }
  }

  /** Visiting the buckets in order reaches every pair of the map exactly once. */
  lemma ForEachVisitsOnce<V(!new)>(m: seq<Bucket<V>>, contents: map<nat, V>)
    requires Represents(m, contents)
    ensures KeysOnce(Pairs(m, |m|))
    ensures forall k: nat, v :: (k, v) in Pairs(m, |m|) <==> k in contents && contents[k] == v
  {
    PairsSound(m, |m|);
    forall k: nat, v
      ensures (k, v) in Pairs(m, |m|) <==> k in contents && contents[k] == v
    {
      assert LookupIn(m, k) == if k in contents then Some(contents[k]) else None;
      if LookupIn(m, k).Some? {
        PairsComplete(m, |m|, k);
      }
      assert (k, v) in Pairs(m, |m|) ==> PairOf(m, (k, v));
    }
  }
}
