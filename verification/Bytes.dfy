/** Fixed-width big-endian integers and two's complement. */
module Bytes {
  import opened Base

  function Power256(n: nat): (r: nat)
    ensures r > 0
  {
    if n == 0 then 1 else 256 * Power256(n - 1)
  }

  /** The `width` low bytes of `x`, most significant first. */
  function BigEndian(x: nat, width: nat): (b: seq<Byte>)
    ensures |b| == width
  {
    if width == 0 then [] else BigEndian(x / 256, width - 1) + [x % 256]
  }

  function FromBigEndian(b: seq<Byte>): (x: nat) {
    if b == [] then 0 else 256 * FromBigEndian(b[..|b| - 1]) + b[|b| - 1]
  }

  lemma {:induction false} FromBigEndianBound(b: seq<Byte>)
    ensures FromBigEndian(b) < Power256(|b|)
  {
    if b != [] {
      FromBigEndianBound(b[..|b| - 1]);
    }
  }

  lemma {:induction false} ReadsBack(x: nat, width: nat)
    requires x < Power256(width)
    ensures FromBigEndian(BigEndian(x, width)) == x
  {
    if width > 0 {
      var b := BigEndian(x, width);
      assert b[..width - 1] == BigEndian(x / 256, width - 1);
      ReadsBack(x / 256, width - 1);
    }
  }

  lemma {:induction false} WritesBack(b: seq<Byte>)
    ensures BigEndian(FromBigEndian(b), |b|) == b
  {
    if b != [] {
      var n := |b| - 1;
      WritesBack(b[..n]);
      var x := FromBigEndian(b);
      assert x / 256 == FromBigEndian(b[..n]) && x % 256 == b[n];
      assert b == b[..n] + [b[n]];
    }
  }

  lemma Widths()
    ensures Power256(4) == U32_MAX + 1 && Power256(8) == U64_MAX + 1
  {
    assert Power256(1) == 256 && Power256(2) == 0x1_0000 && Power256(3) == 0x100_0000;
    assert Power256(4) == 0x1_0000_0000 && Power256(5) == 0x100_0000_0000;
    assert Power256(6) == 0x1_0000_0000_0000 && Power256(7) == 0x100_0000_0000_0000;
  }

  type I64 = x: int | -0x8000_0000_0000_0000 <= x <= 0x7FFF_FFFF_FFFF_FFFF

  /** The two's complement bit pattern of a signed 64-bit integer. */
  function ToPattern(x: I64): U64 {
    if x < 0 then x + 0x1_0000_0000_0000_0000 else x
  }

  function FromPattern(x: U64): I64 {
    if x >= 0x8000_0000_0000_0000 then x - 0x1_0000_0000_0000_0000 else x
  }

  lemma PatternRoundTrips(x: I64, y: U64)
    ensures FromPattern(ToPattern(x)) == x && ToPattern(FromPattern(y)) == y
  {
  }
}
