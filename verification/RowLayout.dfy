/** The bytes of encoded values and rows, one by one, and what the decoder makes of each tag. */
module RowLayout {
  import opened Base
  import opened Bytes
  import opened Division
  import opened RowCodec

  // ---------- digits ----------

  /** Byte `i` of a big-endian number is its base-256 digit `i`, counted from the top. */
  lemma {:induction false} DigitFromTop(x: nat, width: nat, i: nat)
    requires i < width
    ensures BigEndian(x, width)[i] == x / Power256(width - 1 - i) % 256
    decreases width
  {
    if i < width - 1 {
      DigitFromTop(x / 256, width - 1, i);
      DivideAgain(x, Power256(width - 2 - i));
      assert Power256(width - 1 - i) == 256 * Power256(width - 2 - i);
    }
  }

  /** A number in four bytes, the most significant first. */
  function FourBytes(n: nat): seq<Byte> {
    [n / 0x100_0000 % 256, n / 0x1_0000 % 256, n / 0x100 % 256, n % 256]
  }

  lemma FourDigits(x: nat)
    ensures BigEndian(x, 4) == FourBytes(x)
  {
    Powers();
    DigitFromTop(x, 4, 0);
    DigitFromTop(x, 4, 1);
    DigitFromTop(x, 4, 2);
    DigitFromTop(x, 4, 3);
  }

  lemma Powers()
    ensures Power256(0) == 1 && Power256(1) == 0x100 && Power256(2) == 0x1_0000 && Power256(3) == 0x100_0000
    ensures Power256(4) == 0x1_0000_0000 && Power256(5) == 0x100_0000_0000
    ensures Power256(6) == 0x1_0000_0000_0000 && Power256(7) == 0x100_0000_0000_0000
  {
  }

  // ---------- values ----------

  /** NULL is one zero byte; a Boolean is 3 and then 1 or 0. */
  lemma SmallValues()
    ensures ValueBytes(Null) == Some([0x00])
    ensures ValueBytes(Bool(true)) == Some([0x03, 0x01]) && ValueBytes(Bool(false)) == Some([0x03, 0x00])
  {
  }

  /** A number is 1 and the eight bytes of its two's complement pattern, the most significant first. */
  lemma IntLayout(number: I64)
    ensures ValueBytes(Int(number)).Some?
    ensures var b := ValueBytes(Int(number)).value;
            var pattern: int := if number < 0 then number + 0x1_0000_0000_0000_0000 else number;
            && |b| == 9
            && b[0] == 0x01
            && b[1] == pattern / 0x100_0000_0000_0000 % 256
            && b[2] == pattern / 0x1_0000_0000_0000 % 256
            && b[3] == pattern / 0x100_0000_0000 % 256
            && b[4] == pattern / 0x1_0000_0000 % 256
            && b[5] == pattern / 0x100_0000 % 256
            && b[6] == pattern / 0x1_0000 % 256
            && b[7] == pattern / 0x100 % 256
            && b[8] == pattern % 256
  {
    var pattern := ToPattern(number);
    Powers();
    var digits := BigEndian(pattern, 8);
    DigitFromTop(pattern, 8, 0);
    DigitFromTop(pattern, 8, 1);
    DigitFromTop(pattern, 8, 2);
    DigitFromTop(pattern, 8, 3);
    DigitFromTop(pattern, 8, 4);
    DigitFromTop(pattern, 8, 5);
    DigitFromTop(pattern, 8, 6);
    DigitFromTop(pattern, 8, 7);
    assert ValueBytes(Int(number)).value == [0x01] + digits;
  }

  /** Text is 2, its length in four bytes, and its UTF-8 bytes; too long a text has no encoding. */
  lemma TextLayout(text: string)
    ensures ValueBytes(Text(text)).None? <==> |Utf8.Encode(text)| > 0xFFFF_FFFF
    ensures ValueBytes(Text(text)).Some? ==>
              ValueBytes(Text(text)).value == [0x02] + FourBytes(|Utf8.Encode(text)|) + Utf8.Encode(text)
  {
    FourDigits(|Utf8.Encode(text)|);
  }

  // ---------- rows ----------

  /** A row is 1, its number of values in four bytes, and the values in order. */
  lemma RowLayout(row: Row)
    ensures RowBytes(row).None? <==> |row| > 0xFFFF_FFFF || Parsing.PrintAll(ValueBytes, row).None?
    ensures RowBytes(row).Some? ==>
              RowBytes(row).value == [0x01] + FourBytes(|row|) + Parsing.PrintAll(ValueBytes, row).value
  {
    FourDigits(|row|);
  }

  /** The values of a row are printed in order and without anything between them. */
  lemma {:induction false} BodyJoins(a: Row, b: Row)
    ensures Parsing.PrintAll(ValueBytes, a + b)
         == match (Parsing.PrintAll(ValueBytes, a), Parsing.PrintAll(ValueBytes, b))
            case (Some(x), Some(y)) => Some(x + y)
            case _ => None
    decreases |a|
  {
    if a == [] {
      assert a + b == b;
      var y := Parsing.PrintAll(ValueBytes, b);
      assert y.Some? ==> [] + y.value == y.value;
    } else {
      assert (a + b)[1..] == a[1..] + b;
      BodyJoins(a[1..], b);
      var v, x, y := ValueBytes(a[0]), Parsing.PrintAll(ValueBytes, a[1..]), Parsing.PrintAll(ValueBytes, b);
      if v.Some? && x.Some? && y.Some? {
        assert v.value + (x.value + y.value) == v.value + x.value + y.value;
      }
    }
  }

  lemma OneValueBody(v: Value)
    ensures Parsing.PrintAll(ValueBytes, [v]) == ValueBytes(v)
  {
    assert [v][1..] == [];
    var b := ValueBytes(v);
    assert b.Some? ==> b.value + [] == b.value;
  }

  // ---------- the decoder ----------

  /** What the decoder answers on each first byte. */
  lemma DecoderByTag(b: seq<Byte>)
    ensures b == [] ==> TakeValue(b) == None
    ensures b != [] && b[0] == 0x00 ==> TakeValue(b) == Some((Null, 1))
    ensures b != [] && b[0] == 0x01 ==> (TakeValue(b).None? <==> |b| < 9)
    ensures |b| >= 9 && b[0] == 0x01 ==> TakeValue(b).value.0.Int? && TakeValue(b).value.1 == 9
    ensures b != [] && b[0] == 0x02 && TakeValue(b).Some? ==>
              |b| >= 5 && TakeValue(b).value.0.Text? && TakeValue(b).value.1 == 5 + FromBigEndian(b[1..5])
    ensures b != [] && b[0] == 0x03 ==>
              TakeValue(b) == if |b| >= 2 && b[1] == 0x00 then Some((Bool(false), 2))
                              else if |b| >= 2 && b[1] == 0x01 then Some((Bool(true), 2))
                              else None
    ensures b != [] && b[0] > 0x03 ==> TakeValue(b) == None
  {
  }

  /** The number that four length bytes say. */
  lemma LengthBytes(a: Byte, b: Byte, c: Byte, d: Byte)
    ensures FromBigEndian([a, b, c, d]) == a as int * 0x100_0000 + b as int * 0x1_0000 + c as int * 0x100 + d as int
  {
    assert [a, b, c, d][..3] == [a, b, c] && [a, b, c][..2] == [a, b] && [a, b][..1] == [a] && [a][..0] == [];
    assert FromBigEndian([a]) == a;
    assert FromBigEndian([a, b]) == 256 * FromBigEndian([a]) + b;
    assert FromBigEndian([a, b, c]) == 256 * FromBigEndian([a, b]) + c;
  }

  /** Only rows of version 1 with a complete header are read at all. */
  lemma DecoderNeedsVersion(b: seq<Byte>)
    ensures |b| < 5 || b[0] != 0x01 ==> ParseRow(b) == None
  {
  }
}
