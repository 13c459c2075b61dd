/**
 The hash of a label (internal/hash.h), in 32-bit unsigned arithmetic.
 */
module Hashing {
  import opened Bytes

  const UINT32_RANGE := 0x1_0000_0000

  /** A character is signed, and widened to an unsigned integer. */
  function Widened(c: byte): (n: nat)
    ensures n < UINT32_RANGE
  {
    SignedChar(c) % UINT32_RANGE
  }

  /** The label as a number in base 33, behind the digits already in `hash`. */
  function Djb2From(hash: nat, text: cstring): nat
    decreases |text|
  {
    if text == [] then hash else Djb2From(33 * hash + Widened(text[0]), text[1..])
  }

  function Djb2(text: cstring): (hash: nat)
    ensures hash < UINT32_RANGE
  {
    Djb2From(5381, text) % UINT32_RANGE
  }

  lemma DigitWraps(a: nat, b: nat, c: nat)
    requires a % UINT32_RANGE == b % UINT32_RANGE
    ensures (33 * a + c) % UINT32_RANGE == (33 * b + c) % UINT32_RANGE
  {
    var p, q, r := a / UINT32_RANGE, b / UINT32_RANGE, a % UINT32_RANGE;
    Multiple(33 * p, 33 * r + c);
    Multiple(33 * q, 33 * r + c);
    assert 33 * a + c == UINT32_RANGE * (33 * p) + (33 * r + c);
    assert 33 * b + c == UINT32_RANGE * (33 * q) + (33 * r + c);
  }

  lemma Multiple(k: nat, r: nat)
    ensures (UINT32_RANGE * k + r) % UINT32_RANGE == r % UINT32_RANGE
  {
  }

  lemma {:induction false} Djb2Wraps(a: nat, b: nat, text: cstring)
    requires a % UINT32_RANGE == b % UINT32_RANGE
    ensures Djb2From(a, text) % UINT32_RANGE == Djb2From(b, text) % UINT32_RANGE
    decreases |text|
  {
    if text != [] {
      DigitWraps(a, b, Widened(text[0]));
      hide Widened;
      Djb2Wraps(33 * a + Widened(text[0]), 33 * b + Widened(text[0]), text[1..]);
    }
  }

  /** One turn of the loop: a shift and two additions, each of which wraps. */
  lemma ShiftAndAdd(hash: nat, c: nat)
    ensures ((hash * 32 % UINT32_RANGE + hash) % UINT32_RANGE + c) % UINT32_RANGE == (33 * hash + c) % UINT32_RANGE
  {
    SumWraps(32 * hash, hash);
    SumWraps(33 * hash, c);
  }

  lemma SumWraps(a: nat, c: nat)
    ensures (a % UINT32_RANGE + c) % UINT32_RANGE == (a + c) % UINT32_RANGE
  {
    Multiple(a / UINT32_RANGE, a % UINT32_RANGE + c);
  }

  /** djb2_hash: the loop that wraps at every step computes the wrapped number. */
  method Djb2Hash(text: cstring) returns (hash: nat)
    ensures hash == Djb2(text)
  {
    hide Widened;
    hide Djb2From;
    hash := 5381;
    assert text[0..] == text;
    for i := 0 to |text|
      invariant hash < UINT32_RANGE
      invariant Djb2(text) == Djb2From(hash, text[i..]) % UINT32_RANGE
    {
      var c := Widened(text[i]);
      ghost var rest: cstring := text[i + 1..];
      NextDigit(hash, text, i);
      ShiftAndAdd(hash, c);
      Djb2Wraps(((hash * 32 % UINT32_RANGE + hash) % UINT32_RANGE + c) % UINT32_RANGE, 33 * hash + c, rest);
      hash := ((hash * 32 % UINT32_RANGE + hash) % UINT32_RANGE + c) % UINT32_RANGE;
    }
    NoDigits(hash);
    assert text[|text|..] == [];
  }

  lemma NextDigit(hash: nat, text: cstring, i: nat)
    requires i < |text|
    ensures Djb2From(hash, text[i..]) == Djb2From(33 * hash + Widened(text[i]), text[i + 1..])
  {
    assert text[i..][0] == text[i] && text[i..][1..] == text[i + 1..];
  }

  lemma NoDigits(hash: nat)
    ensures Djb2From(hash, []) == hash
  {
  }

  /** A label of two characters; those from 0x80 on count as negative. */
  lemma TwoCharacters(a: byte, b: byte)
    requires 0 < a && 0 < b
    ensures Djb2([]) == 5381
    ensures Djb2([a, b])
         == 5381 * 33 * 33 + 33 * (if a < 0x80 then a else a - 256) + (if b < 0x80 then b else b - 256)
  {
    var text: cstring := [a, b];
    var rest: cstring := text[1..];
    assert rest == [b] && rest[1..] == [];
    var x, y := Widened(a), Widened(b);
    assert x == (if a < 0x80 then a else a - 256 + UINT32_RANGE) && y == if b < 0x80 then b else b - 256 + UINT32_RANGE;
    assert Djb2From(5381, text) == Djb2From(33 * 5381 + x, rest) == 33 * (33 * 5381 + x) + y;
    var plain := 5381 * 33 * 33 + 33 * (if a < 0x80 then a else a - 256) + (if b < 0x80 then b else b - 256);
    Multiple((if a < 0x80 then 0 else 33) + (if b < 0x80 then 0 else 1), plain);
  }
}
