/**
 The stack of variable-sized blocks (stack.c): blocks lie one behind the other in one memory area that
 doubles and halves, and a bag remembers where each begins.
 */
module StackObject {
  import opened Bytes
  import opened Bags

  /** The capacity after growing: doubled until the need is met. */
  function Grown(capacity: nat, need: nat): (c: nat)
    requires capacity > 0
    ensures need <= c && 2 * capacity <= c && (c == 2 * capacity || c / 2 < need)
    decreases need - capacity
  {
    if need <= 2 * capacity then 2 * capacity else Grown(2 * capacity, need)
  }

  lemma GrownStep(capacity: nat, need: nat)
    requires capacity > 0
    ensures Grown(capacity, need) == if need <= 2 * capacity then 2 * capacity else Grown(2 * capacity, need)
  {
  }

  lemma {:induction false} GrownIsDoubled(min: nat, capacity: nat, need: nat)
    requires min > 0 && Doubled(min, capacity) && capacity > 0
    ensures Doubled(min, Grown(capacity, need))
    decreases need - capacity
  {
    DoubledTwice(min, capacity);
    if need > 2 * capacity {
      GrownIsDoubled(min, 2 * capacity, need);
    }
  }

  /** The capacity after room for n bytes was asked for. */
  function Reserved(capacity: nat, size: nat, n: nat, ok: bool): nat
    requires capacity > 0
  {
    if capacity - size >= n || !ok then capacity else Grown(capacity, size + n)
  }

  /** The capacity after a removal that leaves `size` bytes. */
  function Released(capacity: nat, min: nat, size: nat, ok: bool): nat {
    if capacity > min && size < capacity / 4 && ok then capacity / 2 else capacity
  }

  // What the stack does to its memory.

  /** The memory of a stack: its capacities, the bytes in use, and the bag of offsets. */
  datatype Memory = Memory(min: nat, capacity: nat, size: nat, bag: Bag<nat>)

  predicate ValidMemory(m: Memory) {
    m.min > 0 && m.capacity > 0 && Doubled(m.min, m.capacity) && ValidBag(m.bag)
  }

  function NewMemory(capacity: nat, nCapacity: nat): Memory {
    Memory(capacity, capacity, 0, EmptyBag(nCapacity))
  }

  /** A block of n bytes can be pushed: there is room for it or the area can grow, and the same for its offset. */
  predicate CanPush(m: Memory, n: nat, grows: bool, bagGrows: bool) {
    (m.capacity - m.size >= n || grows) && CanAdd(m.bag, bagGrows)
  }

  /** The memory after a push; an area that has grown stays so even if the offset cannot be added. */
  function PushMemory(m: Memory, n: nat, grows: bool, bagGrows: bool): Memory
    requires ValidMemory(m)
  {
    var capacity := Reserved(m.capacity, m.size, n, grows);
    if CanPush(m, n, grows, bagGrows) then Memory(m.min, capacity, m.size + n, AddTo(m.bag, m.size, bagGrows))
    else m.(capacity := capacity)
  }

  function PopMemory(m: Memory, bagShrinks: bool, shrinks: bool): Memory
    requires ValidMemory(m) && m.bag.items != []
  {
    var last := |m.bag.items| - 1;
    var size := m.bag.items[last];
    Memory(m.min, Released(m.capacity, m.min, size, shrinks), size, RemoveNth(m.bag, last, bagShrinks))
  }

  lemma PushKeepsMemory(m: Memory, n: nat, grows: bool, bagGrows: bool)
    requires ValidMemory(m)
    ensures ValidMemory(PushMemory(m, n, grows, bagGrows))
  {
    GrownIsDoubled(m.min, m.capacity, m.size + n);
    AddKeepsValid(m.bag, m.size, bagGrows);
    hide Grown;
    hide Doubled;
  }

  lemma PopKeepsMemory(m: Memory, bagShrinks: bool, shrinks: bool)
    requires ValidMemory(m) && m.bag.items != []
    ensures ValidMemory(PopMemory(m, bagShrinks, shrinks))
  {
    RemoveKeepsValid(m.bag, |m.bag.items| - 1, bagShrinks);
    if m.capacity > m.min {
      DoubledTwice(m.min, m.capacity / 2);
    }
    hide RemoveNth;
  }

  /** Where each block begins. */
  function Offsets(blocks: seq<seq<byte>>): (os: seq<nat>)
    ensures |os| == |blocks| && forall i :: 0 <= i < |os| ==> os[i] == |Concat(blocks[..i])|
  {
    seq(|blocks|, i requires 0 <= i < |blocks| => |Concat(blocks[..i])|)
  }

  lemma OffsetsSnoc(blocks: seq<seq<byte>>, b: seq<byte>)
    ensures Offsets(blocks + [b]) == Offsets(blocks) + [|Concat(blocks)|]
    ensures Concat(blocks + [b]) == Concat(blocks) + b
  {
    ConcatSnoc(blocks, b);
    assert (blocks + [b])[..|blocks|] == blocks;
    forall i | 0 <= i < |blocks| ensures (blocks + [b])[..i] == blocks[..i] {}
  }

  function ReplaceTop(blocks: seq<seq<byte>>, block: seq<byte>): seq<seq<byte>>
    requires blocks != []
  {
    blocks[..|blocks| - 1] + [block]
  }

  /** A block with a piece of it overwritten. */
  function Patch(block: seq<byte>, at: nat, piece: seq<byte>): (r: seq<byte>)
    requires at + |piece| <= |block|
    ensures |r| == |block|
  {
    block[..at] + piece + block[at + |piece|..]
  }

  class Stack {
    const minCapacity: nat
    const offsets: ArrayBag<nat>
    var data: array<byte>
    var size: nat
    ghost var blocks: seq<seq<byte>>

    ghost predicate Valid()
      reads this, data, offsets, offsets.data
    {
      && minCapacity > 0 && Doubled(minCapacity, data.Length) && size <= data.Length
      && offsets.Valid() && offsets.data as object != data as object
      && data[..size] == Concat(blocks) && offsets.View().items == Offsets(blocks)
    }

    ghost function View(): Memory
      requires Valid()
      reads this, data, offsets, offsets.data
    {
      Memory(minCapacity, data.Length, size, offsets.View())
    }

    ghost function Repr(): set<object>
      reads this, offsets
    {
      {this, data, offsets, offsets.data}
    }

    constructor (capacity: nat, nCapacity: nat)
      requires capacity > 0 && nCapacity > 0
      ensures Valid() && View() == NewMemory(capacity, nCapacity) && blocks == [] && fresh(Repr())
    {
      minCapacity := capacity;
      data := new byte[capacity];
      offsets := new ArrayBag(nCapacity);
      size := 0;
      blocks := [];
    }

    /** Moves the bytes in use to a new area; on failure nothing changes. */
    method Realloc(capacity: nat, ok: bool)
      requires size <= data.Length && size <= capacity
      modifies this`data
      ensures if ok then data.Length == capacity && fresh(data) else data == old(data)
      ensures data[..size] == old(data[..size])
    {
      if ok {
        var moved := new byte[capacity];
        forall i | 0 <= i < size {
          moved[i] := data[i];
        }
        data := moved;
      }
    }

    /** The growth loop: the smallest doubling with room for n more bytes. */
    static method NewCapacity(capacity: nat, size: nat, n: nat) returns (grown: nat)
      requires 0 < capacity && capacity - size < n
      ensures grown == Grown(capacity, size + n)
    {
      hide Grown;
      grown := capacity * 2;
      ghost var half := capacity;
      while grown - size < n
        invariant grown == 2 * half && half > 0 && Grown(half, size + n) == Grown(capacity, size + n)
        decreases size + n - grown
      {
        GrownStep(half, size + n);
        half := grown;
        grown := grown * 2;
      }
      GrownStep(half, size + n);
    }

    /** Makes room for n more bytes. */
    method Reserve(n: nat, ok: bool) returns (done: bool)
      requires Valid()
      modifies this`data
      ensures Valid() && (data == old(data) || fresh(data))
      ensures done == (old(data.Length) - size >= n || ok) && (done ==> data.Length - size >= n)
      ensures data.Length == Reserved(old(data.Length), size, n, ok)
      ensures old(data.Length) - size >= n || !ok ==> data.Length == old(data.Length)
      ensures old(data.Length) - size < n && ok ==>
                && data.Length >= 2 * old(data.Length) && data.Length >= size + n
                && (data.Length == 2 * old(data.Length) || data.Length / 2 < size + n)
    {
      if data.Length - size < n {
        GrownIsDoubled(minCapacity, data.Length, size + n);
        var capacity := NewCapacity(data.Length, size, n);
        Realloc(capacity, ok);
        return ok;
      }
      done := true;
    }

    /** Pushes a block; a failed allocation leaves the blocks as they were. */
    method Push(block: seq<byte>, grows: bool, bagGrows: bool) returns (ok: bool)
      requires Valid()
      modifies Repr()
      ensures Valid() && fresh(Repr() - old(Repr()))
      ensures ValidMemory(old(View())) && ok == CanPush(old(View()), |block|, grows, bagGrows)
      ensures ok <==> && (old(data.Length - size) >= |block| || grows)
                      && (old(offsets.size < offsets.data.Length) || bagGrows)
      ensures old(data.Length - size) >= |block| || !grows ==> data.Length == old(data.Length)
      ensures old(data.Length - size) < |block| && grows ==>
                && data.Length >= 2 * old(data.Length) && data.Length >= old(size) + |block|
                && (data.Length == 2 * old(data.Length) || data.Length / 2 < old(size) + |block|)
      ensures blocks == if ok then old(blocks) + [block] else old(blocks)
      ensures View() == PushMemory(old(View()), |block|, grows, bagGrows)
    {
      assert ValidMemory(View());
      hide Grown;
      hide Reserved;
      hide Doubled;
      hide Offsets;
      var done := Reserve(|block|, grows);
      if !done {
        return false;
      }
      hide Valid;
      ok := AppendBlock(block, bagGrows);
    }

    /** Adds the offset of a block there is room for, and then the block. */
    method AppendBlock(block: seq<byte>, bagGrows: bool) returns (ok: bool)
      requires Valid() && data.Length - size >= |block|
      modifies this`size, this`blocks, data, offsets, offsets.data
      ensures Valid() && (offsets.data == old(offsets.data) || fresh(offsets.data))
      ensures ok == CanAdd(old(offsets.View()), bagGrows)
      ensures blocks == if ok then old(blocks) + [block] else old(blocks)
      ensures View() == if ok then Memory(minCapacity, data.Length, old(size) + |block|,
                                          AddTo(old(offsets.View()), old(size), bagGrows)) else old(View())
    {
      AddKeepsValid(offsets.View(), size, bagGrows);
      OffsetsSnoc(blocks, block);
      hide Offsets;
      hide Doubled;
      ok := offsets.Add(size, bagGrows);
      if ok {
        Write(block);
        blocks := blocks + [block];
      }
    }

    /** Copies bytes behind those in use. */
    method Write(block: seq<byte>)
      requires size + |block| <= data.Length
      modifies this`size, data
      ensures size == old(size) + |block| && data[..size] == old(data[..size]) + block
    {
      forall i | 0 <= i < |block| {
        data[size + i] := block[i];
      }
      size := size + |block|;
    }

    /** Where the block on top begins. */
    method Top() returns (top: nat)
      requires Valid() && blocks != []
      ensures top <= size && data[top..size] == blocks[|blocks| - 1]
      ensures data[..top] == Concat(blocks[..|blocks| - 1])
    {
      top := offsets.data[offsets.size - 1];
      var n := |blocks| - 1;
      assert offsets.View().items[n] == top;
      LastBlock(blocks);
      assert data[..top] == data[..size][..top] && data[top..size] == data[..size][top..];
    }

    /** Overwrites part of the bytes in use, in place. */
    method Overwrite(at: nat, piece: seq<byte>)
      requires at + |piece| <= size <= data.Length
      modifies data
      ensures data[..size] == Patch(old(data[..size]), at, piece)
    {
      forall i | 0 <= i < |piece| {
        data[at + i] := piece[i];
      }
    }

    /** Overwrites part of the block on top, in place. */
    method SetTop(at: nat, piece: seq<byte>)
      requires Valid() && blocks != [] && at + |piece| <= |blocks[|blocks| - 1]|
      modifies this`blocks, data
      ensures Valid() && View() == old(View())
              && blocks == ReplaceTop(old(blocks), Patch(old(blocks)[|old(blocks)| - 1], at, piece))
    {
      hide Patch;
      hide Offsets;
      hide Concat;
      hide Doubled;
      hide offsets.Valid;
      hide offsets.View;
      var top := Top();
      ghost var rest, block := blocks[..|blocks| - 1], blocks[|blocks| - 1];
      LastBlock(blocks);
      OffsetsSnoc(rest, block);
      OffsetsSnoc(rest, Patch(block, at, piece));
      PatchBehind(Concat(rest), block, at, piece);
      Overwrite(top + at, piece);
      blocks := rest + [Patch(block, at, piece)];
    }

    method TopBlock() returns (block: seq<byte>)
      requires Valid() && blocks != []
      ensures block == blocks[|blocks| - 1]
    {
      var top := Top();
      block := data[top..size];
    }

    /** Removes the block on top; a failed reallocation only leaves the area larger than it need be. */
    method Pop(bagShrinks: bool, shrinks: bool)
      requires Valid() && blocks != []
      modifies Repr()
      ensures Valid() && fresh(Repr() - old(Repr())) && blocks == old(blocks)[..|old(blocks)| - 1]
      ensures ValidMemory(old(View())) && old(View()).bag.items != []
      ensures View() == PopMemory(old(View()), bagShrinks, shrinks)
      ensures size == |Concat(blocks)|
      ensures data.Length == if old(data.Length) > minCapacity && size < old(data.Length) / 4 && shrinks
                             then old(data.Length) / 2 else old(data.Length)
    {
      hide RemoveNth;
      hide Offsets;
      hide Concat;
      var top := Top();
      assert offsets.View().items[|blocks| - 1] == top by { LastBlock(blocks); }
      size := top;
      Forget(bagShrinks);
      blocks := blocks[..|blocks| - 1];
      if data.Length > minCapacity && size < data.Length / 4 {
        DoubledTwice(minCapacity, data.Length / 2);
        Realloc(data.Length / 2, shrinks);
      }
    }

    /** Takes the last offset out of the bag. */
    method Forget(bagShrinks: bool)
      requires offsets.Valid() && offsets.data as object != data as object
      requires blocks != [] && offsets.View().items == Offsets(blocks)
      modifies offsets, offsets.data
      ensures offsets.Valid() && (offsets.data == old(offsets.data) || fresh(offsets.data))
      ensures offsets.View().items == Offsets(blocks[..|blocks| - 1])
      ensures offsets.View() == RemoveNth(old(offsets.View()), old(offsets.size) - 1, bagShrinks)
    {
      var n := offsets.size - 1;
      RemoveKeepsValid(offsets.View(), n, bagShrinks);
      SwapOutItems(offsets.View().items, n);
      var rest := blocks[..|blocks| - 1];
      LastBlock(blocks);
      OffsetsSnoc(rest, blocks[|blocks| - 1]);
      assert Offsets(blocks)[..n] == Offsets(rest);
      offsets.Remove(n, bagShrinks);
    }
  }

  lemma PatchBehind(a: seq<byte>, b: seq<byte>, at: nat, piece: seq<byte>)
    requires at + |piece| <= |b|
    ensures Patch(a + b, |a| + at, piece) == a + Patch(b, at, piece)
  {
  }

  lemma ReplacedTwice(blocks: seq<seq<byte>>, x: seq<byte>, y: seq<byte>)
    requires blocks != []
    ensures ReplaceTop(blocks, x) != [] && ReplaceTop(blocks, x)[|ReplaceTop(blocks, x)| - 1] == x
    ensures ReplaceTop(ReplaceTop(blocks, x), y) == ReplaceTop(blocks, y)
  {
  }

  lemma LastBlock(blocks: seq<seq<byte>>)
    requires blocks != []
    ensures blocks == blocks[..|blocks| - 1] + [blocks[|blocks| - 1]]
    ensures Concat(blocks) == Concat(blocks[..|blocks| - 1]) + blocks[|blocks| - 1]
    ensures Offsets(blocks)[|blocks| - 1] == |Concat(blocks[..|blocks| - 1])|
  {
    ConcatSnoc(blocks[..|blocks| - 1], blocks[|blocks| - 1]);
  }
}
