/**
 Bytes, C strings and fixed-width unsigned integers in a given byte order.
 */
module Bytes {

  type byte = x: int | 0 <= x < 256

  /** The characters of a C string, without the terminating zero. */
  type cstring = s: seq<byte> | 0 !in s

  /** A byte as a plain char, which is signed. */
  function SignedChar(b: byte): int {
    if b < 0x80 then b else b - 0x100
  }

  datatype Endianness = Little | Big

  datatype Option<+T> = None | Some(value: T)

  /** A machine integer has one of these widths, in bytes. */
  predicate IsWidth(w: int) {
    w == 1 || w == 2 || w == 4 || w == 8
  }

  /** The number of values a w-byte integer can take. */
  function Capacity(w: nat): (c: nat)
    ensures c > 0
  {
    if w == 0 then 1 else 256 * Capacity(w - 1)
  }

  function Reverse<T>(s: seq<T>): (r: seq<T>)
    ensures |r| == |s|
    ensures forall i :: 0 <= i < |s| ==> r[i] == s[|s| - 1 - i]
  {
    if s == [] then [] else Reverse(s[1..]) + [s[0]]
  }

  lemma ReverseTwice<T>(s: seq<T>)
    ensures Reverse(Reverse(s)) == s
  {
  }

  /** The w bytes of n, least significant first; bits beyond the width are dropped. */
  function ToLittle(n: nat, w: nat): (bs: seq<byte>)
    ensures |bs| == w
  {
    if w == 0 then [] else [n % 256] + ToLittle(n / 256, w - 1)
  }

  function FromLittle(bs: seq<byte>): (n: nat)
    ensures n < Capacity(|bs|)
  {
    if bs == [] then 0 else bs[0] + 256 * FromLittle(bs[1..])
  }

  /** The memory image of a w-byte integer on a machine of the given byte order. */
  function Store(order: Endianness, n: nat, w: nat): (bs: seq<byte>)
    ensures |bs| == w
  {
    if order.Little? then ToLittle(n, w) else Reverse(ToLittle(n, w))
  }

  /** The integer a machine of the given byte order reads from a memory image. */
  function Load(order: Endianness, bs: seq<byte>): (n: nat)
    ensures n < Capacity(|bs|)
  {
    if order.Little? then FromLittle(bs) else FromLittle(Reverse(bs))
  }

  lemma {:induction false} FromToLittle(n: nat, w: nat)
    requires n < Capacity(w)
    ensures FromLittle(ToLittle(n, w)) == n
  {
    if w > 0 {
      FromToLittle(n / 256, w - 1);
    }
  }

  lemma LoadStore(order: Endianness, n: nat, w: nat)
    requires n < Capacity(w)
    ensures Load(order, Store(order, n, w)) == n
  {
    FromToLittle(n, w);
    ReverseTwice(ToLittle(n, w));
  }

  lemma {:induction false} ZeroImage(w: nat)
    ensures forall i :: 0 <= i < w ==> ToLittle(0, w)[i] == 0
  {
    if w > 0 {
      ZeroImage(w - 1);
    }
  }

  /** Zero has the same image in both byte orders. */
  lemma ZeroHasNoOrder(a: Endianness, b: Endianness, w: nat)
    ensures Store(a, 0, w) == Store(b, 0, w)
    ensures Load(a, Store(b, 0, w)) == 0
  {
    ZeroImage(w);
    assert Reverse(ToLittle(0, w)) == ToLittle(0, w);
    assert Capacity(w) > 0;
    FromToLittle(0, w);
  }

  lemma ConcatAssoc<T>(a: seq<T>, b: seq<T>, c: seq<T>)
    ensures a + b + c == a + (b + c)
  {
  }

  /** Concatenation of a sequence of sequences. */
  function Concat<T>(parts: seq<seq<T>>): (all: seq<T>)
  {
    if parts == [] then [] else parts[0] + Concat(parts[1..])
  }

  lemma {:induction false} ConcatAppend<T>(a: seq<seq<T>>, b: seq<seq<T>>)
    ensures Concat(a + b) == Concat(a) + Concat(b)
  {
    if a == [] {
      assert a + b == b;
    } else {
      assert (a + b)[1..] == a[1..] + b;
      ConcatAppend(a[1..], b);
    }
  }

  lemma ConcatSnoc<T>(a: seq<seq<T>>, x: seq<T>)
    ensures Concat(a + [x]) == Concat(a) + x
  {
    ConcatAppend(a, [x]);
    assert Concat([x]) == x + Concat<T>([]) == x;
  }

  /** The bytes of a string literal. */
  function Ascii(s: string): (bs: cstring)
    requires forall i :: 0 <= i < |s| ==> 0 < s[i] as int < 128
    ensures |bs| == |s|
    ensures forall i :: 0 <= i < |s| ==> bs[i] == s[i] as int
  {
    seq(|s|, i requires 0 <= i < |s| => s[i] as int)
  }
}
