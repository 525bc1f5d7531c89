/** UTF-8 as section 4 of RFC 3629 defines it: shortest forms only, no surrogates. */
module Utf8 {
  import opened Base

  predicate IsTail(b: Byte) {
    0x80 <= b <= 0xBF
  }

  function EncodeChar(c: char): (b: seq<Byte>)
    ensures 1 <= |b| <= 4
  {
    var x := c as int;
    var y := x / 0x40;
    var z := y / 0x40;
    if x < 0x80 then [x]
    else if x < 0x800 then [0xC0 + y, 0x80 + x % 0x40]
    else if x < 0x1_0000 then [0xE0 + z, 0x80 + y % 0x40, 0x80 + x % 0x40]
    else [0xF0 + z / 0x40, 0x80 + z % 0x40, 0x80 + y % 0x40, 0x80 + x % 0x40]
  }

  /**
   * The encoding of a character in the terms of section 3 of RFC 3629: its length by range, the
   * marker of its first byte, tails after it, and the payload bits read together.
   */
  lemma CharLayout(c: char)
    ensures var x, b := c as int, EncodeChar(c);
            && (x <= 0x7F ==> b == [x])
            && (0x80 <= x <= 0x7FF ==>
                  && |b| == 2 && 0xC0 <= b[0] <= 0xDF && IsTail(b[1])
                  && x == (b[0] as int - 0xC0) * 64 + (b[1] as int - 0x80))
            && (0x800 <= x <= 0xFFFF ==>
                  && |b| == 3 && 0xE0 <= b[0] <= 0xEF && IsTail(b[1]) && IsTail(b[2])
                  && x == (b[0] as int - 0xE0) * 4096 + (b[1] as int - 0x80) * 64 + (b[2] as int - 0x80))
            && (0x1_0000 <= x ==>
                  && |b| == 4 && 0xF0 <= b[0] <= 0xF4 && IsTail(b[1]) && IsTail(b[2]) && IsTail(b[3])
                  && x == (b[0] as int - 0xF0) * 262144 + (b[1] as int - 0x80) * 4096 + (b[2] as int - 0x80) * 64 + (b[3] as int - 0x80))
  {
  }

  /** The two-byte forms C2-DF, tail. */
  predicate TwoBytes(b: seq<Byte>) {
    |b| >= 2 && 0xC2 <= b[0] <= 0xDF && IsTail(b[1])
  }

  /** The three-byte forms: E0 with A0-BF, ED with 80-9F, and the others with any tail. */
  predicate ThreeBytes(b: seq<Byte>) {
    && |b| >= 3 && 0xE0 <= b[0] <= 0xEF && IsTail(b[1]) && IsTail(b[2])
    && (b[0] == 0xE0 ==> 0xA0 <= b[1])
    && (b[0] == 0xED ==> b[1] <= 0x9F)
  }

  /** The four-byte forms: F0 with 90-BF, F4 with 80-8F, and F1-F3 with any tail. */
  predicate FourBytes(b: seq<Byte>) {
    && |b| >= 4 && 0xF0 <= b[0] <= 0xF4 && IsTail(b[1]) && IsTail(b[2]) && IsTail(b[3])
    && (b[0] == 0xF0 ==> 0x90 <= b[1])
    && (b[0] == 0xF4 ==> b[1] <= 0x8F)
  }

  function Two(b: seq<Byte>): (x: int)
    requires TwoBytes(b)
    ensures 0x80 <= x < 0x800
  {
    var l: int, p: int := b[0], b[1];
    (l - 0xC0) * 0x40 + (p - 0x80)
  }

  function Three(b: seq<Byte>): (x: int)
    requires ThreeBytes(b)
    ensures 0x800 <= x < 0xD800 || 0xE000 <= x < 0x1_0000
  {
    var l: int, p: int, q: int := b[0], b[1], b[2];
    ((l - 0xE0) * 0x40 + (p - 0x80)) * 0x40 + (q - 0x80)
  }

  function Four(b: seq<Byte>): (x: int)
    requires FourBytes(b)
    ensures 0x1_0000 <= x < 0x11_0000
  {
    var l: int, p: int, q: int, r: int := b[0], b[1], b[2], b[3];
    (((l - 0xF0) * 0x40 + (p - 0x80)) * 0x40 + (q - 0x80)) * 0x40 + (r - 0x80)
  }

  /** One character at the start of `b`, with the number of bytes it takes. */
  function DecodeChar(b: seq<Byte>): (r: Option<(char, nat)>)
    ensures r.Some? ==> 1 <= r.value.1 <= |b|
  {
    if b == [] then None
    else if b[0] <= 0x7F then Some((b[0] as char, 1))
    else if TwoBytes(b) then Some((Two(b) as char, 2))
    else if ThreeBytes(b) then Some((Three(b) as char, 3))
    else if FourBytes(b) then Some((Four(b) as char, 4))
    else None
  }

  lemma CharReadsBack(c: char, rest: seq<Byte>)
    ensures DecodeChar(EncodeChar(c) + rest) == Some((c, |EncodeChar(c)|))
  {
    var x, b := c as int, EncodeChar(c) + rest;
    if x < 0x80 {
    } else if x < 0x800 {
      assert TwoBytes(b) && Two(b) == x;
    } else if x < 0x1_0000 {
      assert ThreeBytes(b) && Three(b) == x;
    } else {
      assert FourBytes(b) && Four(b) == x;
    }
  }

  lemma TwoWriteBack(b: seq<Byte>)
    requires TwoBytes(b)
    ensures EncodeChar(Two(b) as char) == [b[0], b[1]]
  {
  }

  lemma ThreeWriteBack(b: seq<Byte>)
    requires ThreeBytes(b)
    ensures EncodeChar(Three(b) as char) == [b[0], b[1], b[2]]
  {
  }

  lemma FourWriteBack(b: seq<Byte>)
    requires FourBytes(b)
    ensures EncodeChar(Four(b) as char) == [b[0], b[1], b[2], b[3]]
  {
    var l: int, p: int, q: int, r: int := b[0] - 0xF0, b[1] - 0x80, b[2] - 0x80, b[3] - 0x80;
    LastDigit((l * 0x40 + p) * 0x40 + q, r);
    LastDigit(l * 0x40 + p, q);
    LastDigit(l, p);
  }

  lemma LastDigit(a: nat, d: nat)
    requires d < 0x40
    ensures (a * 0x40 + d) / 0x40 == a && (a * 0x40 + d) % 0x40 == d
  {
  }

  lemma CharWritesBack(b: seq<Byte>)
    requires DecodeChar(b).Some?
    ensures EncodeChar(DecodeChar(b).value.0) == b[..DecodeChar(b).value.1]
  {
    if b[0] <= 0x7F {
      assert b[..1] == [b[0]];
    } else if TwoBytes(b) {
      TwoWriteBack(b);
      assert b[..2] == [b[0], b[1]];
    } else if ThreeBytes(b) {
      ThreeWriteBack(b);
      assert b[..3] == [b[0], b[1], b[2]];
    } else {
      FourWriteBack(b);
      assert b[..4] == [b[0], b[1], b[2], b[3]];
    }
  }

  function Encode(s: string): (b: seq<Byte>) {
    if s == [] then [] else EncodeChar(s[0]) + Encode(s[1..])
  }

  function Decode(b: seq<Byte>): (r: Option<string>)
    decreases |b|
  {
    if b == [] then Some([])
    else
      match DecodeChar(b)
      case None => None
      case Some((c, n)) =>
        match Decode(b[n..])
        case None => None
        case Some(rest) => Some([c] + rest)
  }

  lemma {:induction false} TextReadsBack(s: string)
    ensures Decode(Encode(s)) == Some(s)
  {
    if s != [] {
      var first, rest := EncodeChar(s[0]), Encode(s[1..]);
      CharReadsBack(s[0], rest);
      TextReadsBack(s[1..]);
      assert Encode(s) == first + rest && (first + rest)[|first|..] == rest;
      assert [s[0]] + s[1..] == s;
    }
  }

  lemma EncodeFirst(c: char, rest: string)
    ensures Encode([c] + rest) == EncodeChar(c) + Encode(rest)
  {
    assert ([c] + rest)[1..] == rest;
  }

  /** Text is encoded character by character, in order. */
  lemma {:induction false} EncodeJoins(s: string, t: string)
    ensures Encode(s + t) == Encode(s) + Encode(t)
  {
    if s == [] {
      assert s + t == t;
    } else {
      assert (s + t)[1..] == s[1..] + t;
      EncodeJoins(s[1..], t);
    }
  }

  lemma FirstWritesBack(b: seq<Byte>, n: nat, c: char, rest: string)
    requires n <= |b| && EncodeChar(c) == b[..n] && Encode(rest) == b[n..]
    ensures Encode([c] + rest) == b
  {
    EncodeFirst(c, rest);
    assert b[..n] + b[n..] == b;
  }

  lemma {:induction false} TextWritesBack(b: seq<Byte>, s: string)
    requires Decode(b) == Some(s)
    ensures Encode(s) == b
    decreases |b|
  {
    if b != [] {
      var (c, n) := DecodeChar(b).value;
      var rest := Decode(b[n..]).value;
      CharWritesBack(b);
      TextWritesBack(b[n..], rest);
      FirstWritesBack(b, n, c, rest);
    }
  }
}
