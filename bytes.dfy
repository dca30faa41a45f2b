/**
 * Fixed-width integers and their little-endian byte encoding, as produced and
 * consumed by Go's encoding/binary with binary.LittleEndian.
 */
module Bytes {

  type byte = x: int | 0 <= x < 0x100
  type int16 = x: int | -0x8000 <= x < 0x8000
  type int32 = x: int | -0x8000_0000 <= x < 0x8000_0000
  type uint32 = x: int | 0 <= x < 0x1_0000_0000

  /** 256 to the power n: the number of distinct values n bytes can hold. */
  function Pow256(n: nat): (r: nat)
    ensures r >= 1
    ensures n > 0 ==> r % 0x100 == 0 && r >= 0x100
  {
    if n == 0 then 1 else 0x100 * Pow256(n - 1)
  }

  lemma Pow256Values()
    ensures Pow256(2) == 0x1_0000
    ensures Pow256(4) == 0x1_0000_0000
  {
    assert Pow256(1) == 0x100;
    assert Pow256(3) == 0x100_0000;
  }

  /** The unsigned value u written in exactly `width` bytes, least significant byte first. */
  function EncodeLE(u: nat, width: nat): (r: seq<byte>)
    requires u < Pow256(width)
    ensures |r| == width
    decreases width
  {
    if width == 0 then []
    else
      assert u / 0x100 < Pow256(width - 1) by { DivBound(u, Pow256(width - 1)); }
      [u % 0x100] + EncodeLE(u / 0x100, width - 1)
  }

  /** The unsigned value of a little-endian byte string. */
  function DecodeLE(s: seq<byte>): (u: nat)
    ensures u < Pow256(|s|)
  {
    if s == [] then 0
    else
      var rest := DecodeLE(s[1..]);
      assert s[0] + 0x100 * rest < 0x100 * Pow256(|s| - 1) by { MulBound(s[0], rest, Pow256(|s| - 1)); }
      s[0] + 0x100 * rest
  }

  lemma DivBound(u: nat, p: nat)
    requires u < 0x100 * p
    ensures u / 0x100 < p
  {
  }

  lemma MulBound(b: byte, rest: nat, p: nat)
    requires rest < p
    ensures b + 0x100 * rest < 0x100 * p
  {
  }

  /** Decoding undoes encoding: the value survives a trip through its bytes. */
  lemma {:induction false} DecodeEncodeLE(u: nat, width: nat)
    requires u < Pow256(width)
    ensures DecodeLE(EncodeLE(u, width)) == u
    decreases width
  {
    if width > 0 {
      var r := EncodeLE(u, width);
      assert r[1..] == EncodeLE(u / 0x100, width - 1);
      DecodeEncodeLE(u / 0x100, width - 1);
    }
  }

  /** Encoding undoes decoding: every byte string is the encoding of its value. */
  lemma {:induction false} EncodeDecodeLE(s: seq<byte>)
    ensures EncodeLE(DecodeLE(s), |s|) == s
  {
    if s != [] {
      var u := DecodeLE(s);
      assert u % 0x100 == s[0] && u / 0x100 == DecodeLE(s[1..]);
      EncodeDecodeLE(s[1..]);
    }
  }

  /** The unsigned value of x's two's-complement pattern in `width` bytes. */
  function ToUnsigned(x: int, width: nat): (u: nat)
    requires width > 0 && -(Pow256(width) / 2) <= x < Pow256(width) / 2
    ensures u < Pow256(width)
    ensures u == x || u == x + Pow256(width)
  {
    if x < 0 then x + Pow256(width) else x
  }

  /** The signed value whose two's-complement pattern in `width` bytes is u. */
  function ToSigned(u: nat, width: nat): (x: int)
    requires width > 0 && u < Pow256(width)
    ensures -(Pow256(width) / 2) <= x < Pow256(width) / 2
    ensures ToUnsigned(x, width) == u
  {
    Pow256Halves(width);
    if u >= Pow256(width) / 2 then u - Pow256(width) else u
  }

  lemma Pow256Halves(width: nat)
    requires width > 0
    ensures Pow256(width) == 2 * (Pow256(width) / 2)
  {
    var q := Pow256(width - 1);
    assert Pow256(width) == 2 * (0x80 * q);
  }

  /** Reading back a two's-complement pattern gives the signed value it was made from. */
  lemma SignedRoundTrip(x: int, width: nat)
    requires width > 0 && -(Pow256(width) / 2) <= x < Pow256(width) / 2
    ensures ToSigned(ToUnsigned(x, width), width) == x
  {
  }
}
