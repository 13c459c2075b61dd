/**
 The growable bag (internal/bag.h): adding doubles a full bag, removing moves the last element into the
 gap and halves a bag that is less than a quarter full.  Whether a reallocation succeeds is a parameter.
 */
module Bags {

  datatype Bag<T> = Bag(min: nat, capacity: nat, items: seq<T>)

  /** A capacity reached from min by doubling. */
  predicate Doubled(min: nat, capacity: nat) {
    capacity == min || (0 < min < capacity && capacity % 2 == 0 && Doubled(min, capacity / 2))
  }

  predicate ValidBag<T>(b: Bag<T>) {
    b.min > 0 && |b.items| <= b.capacity && Doubled(b.min, b.capacity)
  }

  function EmptyBag<T>(min: nat): Bag<T> {
    Bag(min, min, [])
  }

  function Resize<T>(b: Bag<T>, capacity: nat, ok: bool): Bag<T> {
    if ok then b.(capacity := capacity) else b
  }

  /** Adding fails only when the bag is full and cannot grow. */
  predicate CanAdd<T>(b: Bag<T>, ok: bool) {
    |b.items| < b.capacity || ok
  }

  function AddTo<T>(b: Bag<T>, x: T, ok: bool): Bag<T> {
    if !CanAdd(b, ok) then b
    else
      var grown := if |b.items| == b.capacity then Resize(b, 2 * b.capacity, true) else b;
      grown.(items := b.items + [x])
  }

  /** Without the last element, which takes the place of the n-th unless that is past the rest. */
  function SwapOut<T>(items: seq<T>, n: nat): seq<T>
    requires items != []
  {
    var last := |items| - 1;
    if n < last then items[..last][n := items[last]] else items[..last]
  }

  /** Position n may lie past the elements, but not past the capacity unless the bag becomes empty. */
  function RemoveNth<T>(b: Bag<T>, n: nat, ok: bool): Bag<T>
    requires b.items != [] && (|b.items| > 1 ==> n < b.capacity)
  {
    var rest := b.(items := SwapOut(b.items, n));
    if b.capacity > b.min && |rest.items| < b.capacity / 4 then Resize(rest, b.capacity / 2, ok) else rest
  }

  function Clear<T>(b: Bag<T>, ok: bool): Bag<T> {
    Resize(b, b.min, ok).(items := [])
  }

  lemma {:induction false} DoubledTwice(min: nat, capacity: nat)
    requires min > 0 && Doubled(min, capacity)
    ensures capacity >= min && Doubled(min, 2 * capacity)
    decreases capacity
  {
    if capacity != min {
      DoubledTwice(min, capacity / 2);
    }
    assert (2 * capacity) / 2 == capacity;
  }

  /** Of two different capacities over the same minimum, the larger is at least twice the smaller. */
  lemma {:induction false} DoubledGap(min: nat, a: nat, b: nat)
    requires min > 0 && Doubled(min, a) && Doubled(min, b) && a < b
    ensures 2 * a <= b
    decreases a
  {
    DoubledTwice(min, a);
    DoubledTwice(min, b);
    if a != min {
      DoubledGap(min, a / 2, b / 2);
    } else {
      DoubledTwice(min, b / 2);
    }
  }

  lemma FailedAdd<T>(b: Bag<T>, x: T, ok: bool)
    requires !CanAdd(b, ok)
    ensures AddTo(b, x, ok) == b
  {
  }

  lemma AddKeepsValid<T>(b: Bag<T>, x: T, ok: bool)
    requires ValidBag(b)
    ensures ValidBag(AddTo(b, x, ok))
    ensures AddTo(b, x, ok).items == if CanAdd(b, ok) then b.items + [x] else b.items
  {
    DoubledTwice(b.min, b.capacity);
  }

  lemma RemoveKeepsValid<T>(b: Bag<T>, n: nat, ok: bool)
    requires ValidBag(b) && b.items != [] && (|b.items| > 1 ==> n < b.capacity)
    ensures ValidBag(RemoveNth(b, n, ok)) && RemoveNth(b, n, ok).items == SwapOut(b.items, n)
  {
    if b.capacity != b.min {
      DoubledTwice(b.min, b.capacity / 2);
    }
  }

  /** When the bag grows, shrinks, and falls back to its minimum. */
  lemma Capacities<T>(b: Bag<T>, x: T, n: nat, ok: bool)
    requires ValidBag(b)
    ensures AddTo(b, x, ok).capacity == if |b.items| == b.capacity && ok then 2 * b.capacity else b.capacity
    ensures b.items != [] && (|b.items| > 1 ==> n < b.capacity) ==>
              RemoveNth(b, n, ok).capacity
              == if b.capacity > b.min && |b.items| - 1 < b.capacity / 4 && ok then b.capacity / 2 else b.capacity
    ensures Clear(b, ok).items == [] && Clear(b, ok).capacity == if ok then b.min else b.capacity
  {
  }

  /**
   Removing takes out exactly one element: the last one takes its place and no other moves; removing past the end
   drops the last one.
   */
  lemma SwapOutItems<T>(items: seq<T>, n: nat)
    requires items != []
    ensures n < |items| ==> multiset(SwapOut(items, n)) == multiset(items) - multiset{items[n]}
    ensures n >= |items| - 1 ==> SwapOut(items, n) == items[..|items| - 1]
    ensures |SwapOut(items, n)| == |items| - 1
    ensures forall i :: 0 <= i < |items| - 1 ==> SwapOut(items, n)[i] == if i == n then items[|items| - 1] else items[i]
  {
    if n < |items| {
      SwapOutMultiset(items, n);
    }
  }

  lemma SwapOutMultiset<T>(items: seq<T>, n: nat)
    requires n < |items|
    ensures multiset(SwapOut(items, n)) == multiset(items) - multiset{items[n]}
  {
    var last := |items| - 1;
    SplitLast(items);
    if n < last {
      SwapMultiset(items[..last], n, items[last]);
    }
  }

  lemma SplitLast<T>(items: seq<T>)
    requires items != []
    ensures multiset(items) == multiset(items[..|items| - 1]) + multiset{items[|items| - 1]}
  {
    assert items == items[..|items| - 1] + [items[|items| - 1]];
  }

  lemma SwapMultiset<T>(items: seq<T>, n: nat, x: T)
    requires n < |items|
    ensures multiset(items[n := x]) == multiset(items) - multiset{items[n]} + multiset{x}
  {
  }

  class ArrayBag<T(0)> {
    const minCapacity: nat
    var size: nat
    var data: array<T>

    ghost predicate Valid()
      reads this, data
    {
      size <= data.Length && ValidBag(View())
    }

    ghost function View(): Bag<T>
      requires size <= data.Length
      reads this, data
    {
      Bag(minCapacity, data.Length, data[..size])
    }

    constructor (minCapacity: nat)
      requires minCapacity > 0
      ensures Valid() && View() == EmptyBag(minCapacity) && fresh(data)
      ensures this.minCapacity == minCapacity == data.Length && size == 0
    {
      this.minCapacity := minCapacity;
      size := 0;
      data := new T[minCapacity];
    }

    /** Reallocates the array; on failure nothing changes. */
    method Realloc(capacity: nat, ok: bool)
      requires size <= data.Length && size <= capacity
      modifies this`data
      ensures size <= data.Length && View() == Resize(old(View()), capacity, ok)
      ensures data == old(data) || fresh(data)
    {
      if ok {
        var moved := new T[capacity];
        forall i | 0 <= i < size {
          moved[i] := data[i];
        }
        data := moved;
      }
    }

    method Add(x: T, ok: bool) returns (added: bool)
      requires Valid()
      modifies this, data
      ensures Valid() && added == CanAdd(old(View()), ok) && View() == AddTo(old(View()), x, ok)
      ensures added <==> old(size < data.Length) || ok
      ensures data[..size] == if added then old(data[..size]) + [x] else old(data[..size])
      ensures data.Length == if old(size == data.Length) && ok then 2 * old(data.Length) else old(data.Length)
      ensures data == old(data) || fresh(data)
    {
      AddKeepsValid(View(), x, ok);
      if data.Length == size {
        Realloc(data.Length * 2, ok);
        if !ok {
          return false;
        }
      }
      data[size] := x;
      size := size + 1;
      added := true;
    }

    /** Moves the last element into the gap. */
    method FillGap(n: nat)
      requires 0 < size <= data.Length && (size > 1 ==> n < data.Length)
      modifies this`size, data
      ensures size == old(size) - 1 && data[..size] == SwapOut(old(data[..size]), n)
    {
      ghost var items := data[..size];
      size := size - 1;
      if size > 0 {
        data[n] := data[size];
      }
      assert forall i :: 0 <= i < size ==> data[i] == if i == n then items[size] else items[i];
    }

    method Remove(n: nat, ok: bool)
      requires Valid() && size > 0 && (size > 1 ==> n < data.Length)
      modifies this, data
      ensures Valid() && View() == RemoveNth(old(View()), n, ok) && size == old(size) - 1
      ensures forall i :: 0 <= i < size ==> data[i] == if i == n then old(data[size - 1]) else old(data[i])
      ensures data.Length == if old(data.Length) > minCapacity && size < old(data.Length) / 4 && ok
                             then old(data.Length) / 2 else old(data.Length)
      ensures data == old(data) || fresh(data)
    {
      RemoveKeepsValid(View(), n, ok);
      hide SwapOut;
      hide ValidBag;
      FillGap(n);
      if data.Length > minCapacity && size < data.Length / 4 {
        Realloc(data.Length / 2, ok);
      }
    }

    method RemoveAll(ok: bool)
      requires Valid()
      modifies this, data
      ensures Valid() && View() == Clear(old(View()), ok)
      ensures size == 0 && data.Length == if ok then minCapacity else old(data.Length)
      ensures data == old(data) || fresh(data)
    {
      size := 0;
      Realloc(minCapacity, ok);
    }
  }
}
