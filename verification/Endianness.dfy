/**
 Byte-order conversion of integers (parser/include/hawktracer/parser/endianness_convert.hpp).

 The conversion functions are the source's shift-and-mask expressions on machine words.  The
 stream layer works with the numbers those words denote; a word and its number share their bytes.
 */
module EndiannessConvert {
  import opened Bytes

  function Swap16(x: bv16): bv16 {
    (x << 8) | (x >> 8)
  }

  function Swap32(x: bv32): bv32 {
    var tmp := (x << 16) | (x >> 16);
    ((tmp << 8) & 0xff00ff00) | ((tmp >> 8) & 0x00ff00ff)
  }

  function Swap64(x: bv64): bv64 {
    var tmp1 := (x << 32) | (x >> 32);
    var tmp2 := ((tmp1 & 0x0000FFFF0000FFFF) << 16) | ((tmp1 & 0xFFFF0000FFFF0000) >> 16);
    ((tmp2 & 0x00FF00FF00FF00FF) << 8) | ((tmp2 & 0xFF00FF00FF00FF00) >> 8)
  }

  // Words assembled from bytes, least significant first, and the bytes of a word.

  function Word16(b0: bv8, b1: bv8): bv16 {
    (b0 as bv16) | ((b1 as bv16) << 8)
  }

  function Word32(b0: bv8, b1: bv8, b2: bv8, b3: bv8): bv32 {
    (b0 as bv32) | ((b1 as bv32) << 8) | ((b2 as bv32) << 16) | ((b3 as bv32) << 24)
  }

  function Word64(b0: bv8, b1: bv8, b2: bv8, b3: bv8, b4: bv8, b5: bv8, b6: bv8, b7: bv8): bv64 {
    (b0 as bv64) | ((b1 as bv64) << 8) | ((b2 as bv64) << 16) | ((b3 as bv64) << 24)
    | ((b4 as bv64) << 32) | ((b5 as bv64) << 40) | ((b6 as bv64) << 48) | ((b7 as bv64) << 56)
  }

  function ByteOf16(x: bv16, k: bv16): bv8
    requires k < 16
  {
    ((x >> k) & 0xff) as bv8
  }

  function ByteOf32(x: bv32, k: bv32): bv8
    requires k < 32
  {
    ((x >> k) & 0xff) as bv8
  }

  function ByteOf64(x: bv64, k: bv64): bv8
    requires k < 64
  {
    ((x >> k) & 0xff) as bv8
  }

  lemma SwapReversesBytes16(b0: bv8, b1: bv8)
    ensures Swap16(Word16(b0, b1)) == Word16(b1, b0)
    ensures ByteOf16(Word16(b0, b1), 0) == b0 && ByteOf16(Word16(b0, b1), 8) == b1
  {
  }

  lemma SwapReversesBytes32(b0: bv8, b1: bv8, b2: bv8, b3: bv8)
    ensures Swap32(Word32(b0, b1, b2, b3)) == Word32(b3, b2, b1, b0)
    ensures ByteOf32(Word32(b0, b1, b2, b3), 0) == b0 && ByteOf32(Word32(b0, b1, b2, b3), 8) == b1
    ensures ByteOf32(Word32(b0, b1, b2, b3), 16) == b2 && ByteOf32(Word32(b0, b1, b2, b3), 24) == b3
  {
  }

  lemma SwapReversesBytes64(b0: bv8, b1: bv8, b2: bv8, b3: bv8, b4: bv8, b5: bv8, b6: bv8, b7: bv8)
    ensures var x := Word64(b0, b1, b2, b3, b4, b5, b6, b7);
            && Swap64(x) == Word64(b7, b6, b5, b4, b3, b2, b1, b0)
            && ByteOf64(x, 0) == b0 && ByteOf64(x, 8) == b1 && ByteOf64(x, 16) == b2 && ByteOf64(x, 24) == b3
            && ByteOf64(x, 32) == b4 && ByteOf64(x, 40) == b5 && ByteOf64(x, 48) == b6 && ByteOf64(x, 56) == b7
  {
  }

  // The number a machine byte holds and the machine byte holding a number, half a byte at a time.

  datatype Nibble = Nibble(b3: bool, b2: bool, b1: bool, b0: bool)

  function Weight(n: Nibble): (w: int)
    ensures 0 <= w < 16
  {
    (if n.b3 then 8 else 0) + (if n.b2 then 4 else 0) + (if n.b1 then 2 else 0) + (if n.b0 then 1 else 0)
  }

  function Binary(x: int): (n: Nibble)
    requires 0 <= x < 16
    ensures Weight(n) == x
  {
    var x2 := if x >= 8 then x - 8 else x;
    var x1 := if x2 >= 4 then x2 - 4 else x2;
    var x0 := if x1 >= 2 then x1 - 2 else x1;
    Nibble(x >= 8, x2 >= 4, x1 >= 2, x0 >= 1)
  }

  function Pack(hi: Nibble, lo: Nibble): bv8 {
    (if hi.b3 then 0x80 else 0) | (if hi.b2 then 0x40 else 0)
    | (if hi.b1 then 0x20 else 0) | (if hi.b0 then 0x10 else 0)
    | (if lo.b3 then 0x08 else 0) | (if lo.b2 then 0x04 else 0)
    | (if lo.b1 then 0x02 else 0) | (if lo.b0 then 0x01 else 0)
  }

  function High(b: bv8): Nibble {
    Nibble(b & 0x80 != 0, b & 0x40 != 0, b & 0x20 != 0, b & 0x10 != 0)
  }

  function Low(b: bv8): Nibble {
    Nibble(b & 0x08 != 0, b & 0x04 != 0, b & 0x02 != 0, b & 0x01 != 0)
  }

  lemma UnpackPack(hi: Nibble, lo: Nibble)
    ensures High(Pack(hi, lo)) == hi && Low(Pack(hi, lo)) == lo
  {
  }

  function Bits(x: byte): (b: bv8)
    ensures Number(b) == x
  {
    UnpackPack(Binary(x / 16), Binary(x % 16));
    Pack(Binary(x / 16), Binary(x % 16))
  }

  function Number(b: bv8): byte {
    16 * Weight(High(b)) + Weight(Low(b))
  }

  function ToBits(bs: seq<byte>): (b: seq<bv8>)
    ensures |b| == |bs|
    ensures forall i :: 0 <= i < |bs| ==> b[i] == Bits(bs[i])
  {
    seq(|bs|, i requires 0 <= i < |bs| => Bits(bs[i]))
  }

  function ToNumbers(b: seq<bv8>): (bs: seq<byte>)
    ensures |bs| == |b|
    ensures forall i :: 0 <= i < |b| ==> bs[i] == Number(b[i])
  {
    seq(|b|, i requires 0 <= i < |b| => Number(b[i]))
  }

  // The bytes of the swapped word, given the bytes of the word.

  function Swapped16(b: seq<bv8>): seq<bv8>
    requires |b| == 2
  {
    var x := Swap16(Word16(b[0], b[1]));
    [ByteOf16(x, 0), ByteOf16(x, 8)]
  }

  function Swapped32(b: seq<bv8>): seq<bv8>
    requires |b| == 4
  {
    var x := Swap32(Word32(b[0], b[1], b[2], b[3]));
    [ByteOf32(x, 0), ByteOf32(x, 8), ByteOf32(x, 16), ByteOf32(x, 24)]
  }

  function Swapped64(b: seq<bv8>): seq<bv8>
    requires |b| == 8
  {
    var x := Swap64(Word64(b[0], b[1], b[2], b[3], b[4], b[5], b[6], b[7]));
    [ByteOf64(x, 0), ByteOf64(x, 8), ByteOf64(x, 16), ByteOf64(x, 24),
     ByteOf64(x, 32), ByteOf64(x, 40), ByteOf64(x, 48), ByteOf64(x, 56)]
  }

  function SwappedBytes(b: seq<bv8>): (r: seq<bv8>)
    requires IsWidth(|b|)
  {
    if |b| == 1 then b
    else if |b| == 2 then Swapped16(b)
    else if |b| == 4 then Swapped32(b)
    else Swapped64(b)
  }

  /** The swap applied to a w-byte integer. */
  function Swap(n: nat, w: nat): nat
    requires IsWidth(w)
  {
    FromLittle(ToNumbers(SwappedBytes(ToBits(ToLittle(n, w)))))
  }

  /** Converts an integer read on `host` from data written in the byte order `from`. */
  function ConvertToNative(host: Endianness, from: Endianness, n: nat, w: nat): nat
    requires IsWidth(w)
  {
    if w == 1 || host == from then n else Swap(n, w)
  }

  lemma {:induction false} ToFromLittle(bs: seq<byte>)
    ensures ToLittle(FromLittle(bs), |bs|) == bs
  {
    if bs != [] {
      ToFromLittle(bs[1..]);
    }
  }

  lemma Swapped16IsReverse(b: seq<bv8>)
    requires |b| == 2
    ensures Swapped16(b) == Reverse(b)
  {
    SwapReversesBytes16(b[0], b[1]);
    SwapReversesBytes16(b[1], b[0]);
    assert Swapped16(b) == [b[1], b[0]];
  }

  lemma Swapped32IsReverse(b: seq<bv8>)
    requires |b| == 4
    ensures Swapped32(b) == Reverse(b)
  {
    SwapReversesBytes32(b[0], b[1], b[2], b[3]);
    SwapReversesBytes32(b[3], b[2], b[1], b[0]);
    assert Swapped32(b) == [b[3], b[2], b[1], b[0]];
  }

  lemma Swapped64IsReverse(b: seq<bv8>)
    requires |b| == 8
    ensures Swapped64(b) == Reverse(b)
  {
    SwapReversesBytes64(b[0], b[1], b[2], b[3], b[4], b[5], b[6], b[7]);
    SwapReversesBytes64(b[7], b[6], b[5], b[4], b[3], b[2], b[1], b[0]);
    assert Swapped64(b) == [b[7], b[6], b[5], b[4], b[3], b[2], b[1], b[0]];
  }

  lemma SwapReversesBytes(b: seq<bv8>)
    requires IsWidth(|b|)
    ensures SwappedBytes(b) == Reverse(b)
  {
    if |b| == 1 {
      assert Reverse(b) == b;
    } else if |b| == 2 {
      Swapped16IsReverse(b);
    } else if |b| == 4 {
      Swapped32IsReverse(b);
    } else {
      Swapped64IsReverse(b);
    }
  }

  lemma ReversedNumbers(bs: seq<byte>, b: seq<bv8>)
    requires b == Reverse(ToBits(bs))
    ensures ToNumbers(b) == Reverse(bs)
  {
  }

  lemma SwapIsByteReversal(bs: seq<byte>)
    requires IsWidth(|bs|)
    ensures Swap(FromLittle(bs), |bs|) == FromLittle(Reverse(bs))
  {
    ToFromLittle(bs);
    SwapReversesBytes(ToBits(bs));
    ReversedNumbers(bs, SwappedBytes(ToBits(bs)));
  }

  /**
   Whatever the reading host, loading a memory image natively and converting it gives the integer
   that the image denotes in the byte order it was written in.
   */
  lemma ConversionReadsForeignOrder(host: Endianness, from: Endianness, bs: seq<byte>)
    requires IsWidth(|bs|)
    ensures ConvertToNative(host, from, Load(host, bs), |bs|) == Load(from, bs)
  {
    if |bs| == 1 {
      assert Reverse(bs) == bs;
    } else if host != from {
      if host.Little? {
        SwapIsByteReversal(bs);
      } else {
        SwapIsByteReversal(Reverse(bs));
        ReverseTwice(bs);
      }
    }
  }
}
