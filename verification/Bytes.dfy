// Bytes, exclusive or, and little-endian integers: what the wire carries.
module Bytes {
  type byte = x: int | 0 <= x < 256

  // ---------------------------------------------------------------------------
  // Exclusive or
  // ---------------------------------------------------------------------------

  function Power2(n: nat): nat {
    if n == 0 then 1 else 2 * Power2(n - 1)
  }

  // Bit by bit, over the n low bits.
  function XorBits(x: nat, k: nat, n: nat): (r: nat)
    ensures r < Power2(n)
  {
    if n == 0 then 0
    else (if x % 2 == k % 2 then 0 else 1) + 2 * XorBits(x / 2, k / 2, n - 1)
  }

  function Xor(x: byte, k: byte): byte {
    assert Power2(8) == 256;
    XorBits(x, k, 8)
  }

  function Bit(x: nat, i: nat): nat {
    if i == 0 then x % 2 else Bit(x / 2, i - 1)
  }

  lemma {:induction false} XorBitByBit(x: nat, k: nat, n: nat, i: nat)
    requires i < n
    ensures Bit(XorBits(x, k, n), i) == if Bit(x, i) == Bit(k, i) then 0 else 1
    decreases n
  {
    var low, high := if x % 2 == k % 2 then 0 else 1, XorBits(x / 2, k / 2, n - 1);
    HalveLow(low, high);
    if i > 0 {
      XorBitByBit(x / 2, k / 2, n - 1, i - 1);
    }
  }

  // Exclusive or of two bytes, bit by bit.
  lemma BitOfXor(x: byte, k: byte, i: nat)
    requires i < 8
    ensures Bit(Xor(x, k), i) == if Bit(x, i) == Bit(k, i) then 0 else 1
  {
    XorBitByBit(x, k, 8, i);
  }

  lemma {:induction false} XorBitsTwice(x: nat, k: nat, n: nat)
    requires x < Power2(n) && k < Power2(n)
    ensures XorBits(XorBits(x, k, n), k, n) == x
    ensures XorBits(x, XorBits(x, k, n), n) == k
    decreases n
  {
    if n > 0 {
      var low, high := if x % 2 == k % 2 then 0 else 1, XorBits(x / 2, k / 2, n - 1);
      HalveLow(low, high);
      XorBitsTwice(x / 2, k / 2, n - 1);
    }
  }

  lemma HalveLow(low: nat, high: nat)
    requires low < 2
    ensures (low + 2 * high) % 2 == low && (low + 2 * high) / 2 == high
  {}

  lemma XorTwice(x: byte, k: byte)
    ensures Xor(Xor(x, k), k) == x
    ensures Xor(x, Xor(x, k)) == k
  {
    assert Power2(8) == 256;
    XorBitsTwice(x, k, 8);
  }

  // ---------------------------------------------------------------------------
  // Little-endian integers
  // ---------------------------------------------------------------------------

  function Power256(n: nat): nat {
    if n == 0 then 1 else 256 * Power256(n - 1)
  }

  // The n low bytes of v, lowest first.
  function Encode(v: nat, n: nat): (r: seq<byte>)
    ensures |r| == n
  {
    if n == 0 then [] else [v % 256] + Encode(v / 256, n - 1)
  }

  function Decode(data: seq<byte>): nat {
    if data == [] then 0 else data[0] + 256 * Decode(data[1..])
  }

  lemma {:induction false} DecodeEncode(v: nat, n: nat)
    requires v < Power256(n)
    ensures Decode(Encode(v, n)) == v
    decreases n
  {
    if n > 0 {
      DecodeEncode(v / 256, n - 1);
      assert Encode(v, n)[1..] == Encode(v / 256, n - 1);
    }
  }

  lemma {:induction false} EncodeDecode(data: seq<byte>)
    ensures Encode(Decode(data), |data|) == data && Decode(data) < Power256(|data|)
  {
    if data != [] {
      EncodeDecode(data[1..]);
      assert data == [data[0]] + data[1..];
    }
  }

  // Two's complement, for a signed field of n bytes.
  function EncodeSigned(v: int, n: nat): seq<byte>
    requires 0 <= v + Power256(n)
  {
    Encode(if v < 0 then v + Power256(n) else v, n)
  }

  function DecodeSigned(data: seq<byte>): int {
    var v := Decode(data);
    if 2 * v < Power256(|data|) then v else v - Power256(|data|)
  }

  lemma SignedRoundTrip(v: int, n: nat)
    requires 0 <= 2 * v + Power256(n) < 2 * Power256(n)
    ensures DecodeSigned(EncodeSigned(v, n)) == v
  {
    DecodeEncode(if v < 0 then v + Power256(n) else v, n);
  }
}
