/** The canonical storage encoding of SQL rows: a printer and a cursor parser that are exact inverses. */
module RowCodec {
  import opened Base
  import opened Bytes
  import Parsing
  import Utf8

  datatype Value = Null | Int(number: I64) | Text(text: string) | Bool(flag: bool)

  type Row = seq<Value>

  const ROW_FORMAT_VERSION: Byte := 1
  const TAG_NULL: Byte := 0x00
  const TAG_INT: Byte := 0x01
  const TAG_TEXT: Byte := 0x02
  const TAG_BOOL: Byte := 0x03

  // ---------- the format ----------

  /** The encoding of one value; None when a text is longer than its length field can say. */
  function ValueBytes(v: Value): (r: Option<seq<Byte>>)
    ensures r.Some? ==> |r.value| >= 1
  {
    match v
    case Null => Some([TAG_NULL])
    case Int(number) => Some([TAG_INT] + BigEndian(ToPattern(number), 8))
    case Text(text) =>
      var b := Utf8.Encode(text);
      if |b| > U32_MAX then None else Some([TAG_TEXT] + BigEndian(|b|, 4) + b)
    case Bool(flag) => Some([TAG_BOOL, if flag then 1 else 0])
  }

  /** One value at the start of `b`, with the number of bytes it takes. */
  function TakeValue(b: seq<Byte>): (r: Option<(Value, nat)>)
    ensures r.Some? ==> 1 <= r.value.1 <= |b|
  {
    if b == [] then None
    else if b[0] == TAG_NULL then Some((Null, 1))
    else if b[0] == TAG_INT then
      if |b| < 9 then None else Some((Int(FromPattern(Pattern(b[1..9]))), 9))
    else if b[0] == TAG_TEXT then
      if |b| < 5 then None
      else
        var n := FromBigEndian(b[1..5]);
        if |b| < 5 + n then None
        else
          match Utf8.Decode(b[5..5 + n])
          case None => None
          case Some(text) => Some((Text(text), 5 + n))
    else if b[0] == TAG_BOOL then
      if |b| < 2 || b[1] > 1 then None else Some((Bool(b[1] == 1), 2))
    else None
  }

  function Pattern(b: seq<Byte>): (x: U64)
    requires |b| == 8
  {
    FromBigEndianBound(b);
    Widths();
    FromBigEndian(b)
  }

  function RowBytes(row: Row): Option<seq<Byte>> {
    if |row| > U32_MAX then None
    else
      match Parsing.PrintAll(ValueBytes, row)
      case None => None
      case Some(b) => Some([ROW_FORMAT_VERSION] + BigEndian(|row|, 4) + b)
  }

  /** Decoding without the early check on the value count. */
  function ParseUnchecked(b: seq<Byte>): Option<Row> {
    if |b| < 5 || b[0] != ROW_FORMAT_VERSION then None
    else
      match Parsing.TakeAll(TakeValue, b[5..], FromBigEndian(b[1..5]))
      case None => None
      case Some((row, n)) => if n == |b| - 5 then Some(row) else None
  }

  function ParseRow(b: seq<Byte>): Option<Row> {
    if |b| < 5 || b[0] != ROW_FORMAT_VERSION then None
    else if FromBigEndian(b[1..5]) > |b| - 5 then None
    else ParseUnchecked(b)
  }

  // ---------- values ----------

  lemma IntReadsBack(number: I64, rest: seq<Byte>)
    ensures TakeValue([TAG_INT] + BigEndian(ToPattern(number), 8) + rest) == Some((Int(number), 9))
  {
    var b := [TAG_INT] + BigEndian(ToPattern(number), 8) + rest;
    assert b[1..9] == BigEndian(ToPattern(number), 8);
    Widths();
    ReadsBack(ToPattern(number), 8);
    PatternRoundTrips(number, 0);
  }

  lemma TextReadsBack(text: string, rest: seq<Byte>)
    requires |Utf8.Encode(text)| <= U32_MAX
    ensures var t := Utf8.Encode(text);
            TakeValue([TAG_TEXT] + BigEndian(|t|, 4) + t + rest) == Some((Text(text), 5 + |t|))
  {
    var t := Utf8.Encode(text);
    var b := [TAG_TEXT] + BigEndian(|t|, 4) + t + rest;
    assert b[1..5] == BigEndian(|t|, 4);
    Widths();
    ReadsBack(|t|, 4);
    assert b[5..5 + |t|] == t;
    Utf8.TextReadsBack(text);
  }

  /** A printed value parses back whatever follows it. */
  lemma ValueReadsBack(v: Value, b: seq<Byte>, rest: seq<Byte>)
    requires ValueBytes(v) == Some(b)
    ensures TakeValue(b + rest) == Some((v, |b|))
  {
    match v
    case Null =>
    case Int(number) => IntReadsBack(number, rest);
    case Text(text) => TextReadsBack(text, rest);
    case Bool(_) =>
  }

  lemma IntWritesBack(b: seq<Byte>)
    requires |b| >= 9 && b[0] == TAG_INT
    ensures ValueBytes(Int(FromPattern(Pattern(b[1..9])))) == Some(b[..9])
  {
    PatternRoundTrips(0, Pattern(b[1..9]));
    WritesBack(b[1..9]);
    assert b[..9] == [b[0]] + b[1..9];
  }

  lemma TextWritesBack(b: seq<Byte>, n: nat, text: string)
    requires |b| >= 5 + n && b[0] == TAG_TEXT && n == FromBigEndian(b[1..5])
    requires Utf8.Decode(b[5..5 + n]) == Some(text)
    ensures ValueBytes(Text(text)) == Some(b[..5 + n])
  {
    Utf8.TextWritesBack(b[5..5 + n], text);
    FromBigEndianBound(b[1..5]);
    Widths();
    WritesBack(b[1..5]);
    assert b[..5 + n] == [b[0]] + b[1..5] + b[5..5 + n];
  }

  /** A parsed value prints exactly the bytes it was parsed from. */
  lemma ValueWritesBack(b: seq<Byte>, v: Value, n: nat)
    requires TakeValue(b) == Some((v, n))
    ensures ValueBytes(v) == Some(b[..n])
  {
    if b[0] == TAG_INT {
      IntWritesBack(b);
    } else if b[0] == TAG_TEXT {
      TextWritesBack(b, n - 5, v.text);
    } else if b[0] == TAG_BOOL {
      assert b[..2] == [b[0], b[1]] == [TAG_BOOL, if b[1] == 1 then 1 else 0];
    } else {
      assert b[..1] == [b[0]];
    }
  }

  lemma ValuesReadBack()
    ensures Parsing.ReadsBack(ValueBytes, TakeValue)
  {
    forall v, rest | ValueBytes(v).Some? ensures Parsing.ItemReadsBack(ValueBytes, TakeValue, v, rest) {
      ValueReadsBack(v, ValueBytes(v).value, rest);
    }
  }

  lemma ValuesWriteBack()
    ensures Parsing.WritesBack(ValueBytes, TakeValue)
  {
    forall b | TakeValue(b).Some? ensures Parsing.ItemWritesBack(ValueBytes, TakeValue, b) {
      ValueWritesBack(b, TakeValue(b).value.0, TakeValue(b).value.1);
    }
  }

  /** No value's encoding is a prefix of another's. */
  lemma ValuesArePrefixFree(v: Value, w: Value, a: seq<Byte>, b: seq<Byte>)
    requires ValueBytes(v) == Some(a) && ValueBytes(w) == Some(b) && a <= b
    ensures v == w
  {
    ValuesReadBack();
    Parsing.PrefixFree(ValueBytes, TakeValue, v, w, a, b);
  }

  // ---------- rows ----------

  lemma HeaderReadsBack(count: nat, body: seq<Byte>)
    requires count <= U32_MAX
    ensures var b := [ROW_FORMAT_VERSION] + BigEndian(count, 4) + body;
            FromBigEndian(b[1..5]) == count && b[5..] == body
  {
    var b := [ROW_FORMAT_VERSION] + BigEndian(count, 4) + body;
    assert b[1..5] == BigEndian(count, 4);
    Widths();
    Bytes.ReadsBack(count, 4);
  }

  lemma HeaderWritesBack(b: seq<Byte>)
    requires |b| >= 5 && b[0] == ROW_FORMAT_VERSION
    ensures FromBigEndian(b[1..5]) <= U32_MAX
    ensures [ROW_FORMAT_VERSION] + BigEndian(FromBigEndian(b[1..5]), 4) + b[5..] == b
  {
    FromBigEndianBound(b[1..5]);
    Widths();
    Bytes.WritesBack(b[1..5]);
    assert b == [b[0]] + b[1..5] + b[5..];
  }

  /** Decoding an encoded row gives the row back. */
  lemma RowReadsBack(row: Row, b: seq<Byte>)
    requires RowBytes(row) == Some(b)
    ensures ParseRow(b) == Some(row)
  {
    var body := Parsing.PrintAll(ValueBytes, row).value;
    HeaderReadsBack(|row|, body);
    ValuesReadBack();
    Parsing.AllReadBack(ValueBytes, TakeValue, row, body, []);
    assert body + [] == body;
  }

  lemma UncheckedWritesBack(b: seq<Byte>, row: Row)
    requires ParseUnchecked(b) == Some(row)
    ensures RowBytes(row) == Some(b) && |row| == FromBigEndian(b[1..5]) <= |b| - 5
  {
    var body := b[5..];
    ValuesWriteBack();
    Parsing.AllWriteBack(ValueBytes, TakeValue, body, row, |body|);
    HeaderWritesBack(b);
    assert body[..|body|] == body;
  }

  /** Whatever decodes is exactly the encoding of what it decodes to. */
  lemma RowWritesBack(b: seq<Byte>, row: Row)
    requires ParseRow(b) == Some(row)
    ensures RowBytes(row) == Some(b)
  {
    UncheckedWritesBack(b, row);
  }

  /** The early count check rejects nothing that the rest of the decoder would accept. */
  lemma CountCheckIsRedundant(b: seq<Byte>)
    ensures ParseRow(b) == ParseUnchecked(b)
  {
    if ParseUnchecked(b).Some? {
      UncheckedWritesBack(b, ParseUnchecked(b).value);
    }
  }

  /** The accepted byte strings are exactly the encodings of encodable rows. */
  lemma AcceptedExactly(b: seq<Byte>)
    ensures ParseRow(b).Some? <==> exists row :: RowBytes(row) == Some(b)
  {
    if ParseRow(b).Some? {
      RowWritesBack(b, ParseRow(b).value);
    }
    if row :| RowBytes(row) == Some(b) {
      RowReadsBack(row, b);
    }
  }

  // ---------- the cursor and the loops ----------

  /** Bounds-checked cursor over the encoded bytes. */
  class Decoder {
    const bytes: seq<Byte>
    var position: nat

    ghost predicate Valid()
      reads this
    {
      position <= |bytes|
    }

    /** The unread bytes. */
    ghost function Unread(): seq<Byte>
      requires Valid()
      reads this
    {
      bytes[position..]
    }

    constructor (input: seq<Byte>)
      ensures Valid() && bytes == input && Unread() == input
    {
      bytes, position := input, 0;
    }

    method ReadExact(length: nat) returns (r: Option<seq<Byte>>)
      requires Valid()
      modifies this`position
      ensures Valid()
      ensures r.Some? <==> length <= |old(Unread())|
      ensures r.Some? ==> old(Unread()) == r.value + Unread() && |r.value| == length
      ensures r.None? ==> Unread() == old(Unread())
    {
      var end := position + length;
      if end > |bytes| {
        return None;
      }
      r := Some(bytes[position..end]);
      position := end;
    }

    method ReadU8() returns (r: Option<Byte>)
      requires Valid()
      modifies this`position
      ensures Valid()
      ensures r.Some? <==> old(Unread()) != []
      ensures r.Some? ==> old(Unread()) == [r.value] + Unread()
    {
      var b := ReadExact(1);
      match b
      case None => r := None;
      case Some(one) => r := Some(one[0]);
    }

    method ReadU32() returns (r: Option<nat>)
      requires Valid()
      modifies this`position
      ensures Valid()
      ensures r.Some? <==> |old(Unread())| >= 4
      ensures r.Some? ==> r.value == FromBigEndian(old(Unread())[..4]) && Unread() == old(Unread())[4..]
    {
      var b := ReadExact(4);
      match b
      case None => r := None;
      case Some(four) => r := Some(FromBigEndian(four));
    }

    /** One value at the cursor; on success the cursor stands right behind it. */
    method DecodeValue() returns (r: Option<Value>)
      requires Valid()
      modifies this`position
      ensures Valid()
      ensures r.Some? <==> TakeValue(old(Unread())).Some?
      ensures r.Some? ==>
                var (v, n) := TakeValue(old(Unread())).value;
                r.value == v && Unread() == old(Unread())[n..]
    {
      ghost var start := Unread();
      var tag := ReadU8();
      if tag.None? {
        return None;
      }
      assert Unread() == start[1..];
      if tag.value == TAG_NULL {
        r := Some(Null);
      } else if tag.value == TAG_INT {
        var b := ReadExact(8);
        if b.None? {
          return None;
        }
        assert b.value == start[1..9] && Unread() == start[9..];
        r := Some(Int(FromPattern(Pattern(b.value))));
      } else if tag.value == TAG_TEXT {
        var length := ReadU32();
        if length.None? {
          return None;
        }
        assert start[1..][..4] == start[1..5] && Unread() == start[5..];
        var b := ReadExact(length.value);
        if b.None? {
          return None;
        }
        assert b.value == start[5..5 + length.value] && Unread() == start[5 + length.value..];
        var text := Utf8.Decode(b.value);
        r := if text.Some? then Some(Text(text.value)) else None;
      } else if tag.value == TAG_BOOL {
        var b := ReadU8();
        if b.None? || b.value > 1 {
          return None;
        }
        assert b.value == start[1] && Unread() == start[2..];
        r := Some(Bool(b.value == 1));
      } else {
        r := None;
      }
    }
  }

  /** Append one value to the output. */
  method EncodeValueInto(v: Value, output: seq<Byte>) returns (r: Option<seq<Byte>>)
    ensures r == match ValueBytes(v) case None => None case Some(b) => Some(output + b)
  {
    match v
    case Null => r := Some(output + [TAG_NULL]);
    case Int(number) =>
      var out := output + [TAG_INT];
      out := out + BigEndian(ToPattern(number), 8);
      assert out == output + ([TAG_INT] + BigEndian(ToPattern(number), 8));
      r := Some(out);
    case Text(text) =>
      var b := Utf8.Encode(text);
      if |b| > U32_MAX {
        return None;
      }
      var out := output + [TAG_TEXT];
      out := out + BigEndian(|b|, 4);
      out := out + b;
      assert out == output + ([TAG_TEXT] + BigEndian(|b|, 4) + b);
      r := Some(out);
    case Bool(flag) =>
      var out := output + [TAG_BOOL];
      out := out + [if flag then 1 else 0];
      assert out == output + [TAG_BOOL, if flag then 1 else 0];
      r := Some(out);
  }

  /** What the encoder will have produced once the remaining values follow `output`. */
  ghost function Finished(output: seq<Byte>, rest: Row): Option<seq<Byte>> {
    match Parsing.PrintAll(ValueBytes, rest)
    case None => None
    case Some(b) => Some(output + b)
  }

  lemma FinishedStep(output: seq<Byte>, rest: Row)
    requires rest != []
    ensures Finished(output, rest)
         == match ValueBytes(rest[0]) case None => None case Some(b) => Finished(output + b, rest[1..])
  {
    if ValueBytes(rest[0]).Some? && Parsing.PrintAll(ValueBytes, rest[1..]).Some? {
      var b, c := ValueBytes(rest[0]).value, Parsing.PrintAll(ValueBytes, rest[1..]).value;
      assert output + (b + c) == output + b + c;
    }
  }

  method EncodeRow(row: Row) returns (r: Option<seq<Byte>>)
    ensures r == RowBytes(row)
  {
    if |row| > U32_MAX {
      return None;
    }
    var output := [ROW_FORMAT_VERSION];
    output := output + BigEndian(|row|, 4);
    for i := 0 to |row|
      invariant RowBytes(row) == Finished(output, row[i..])
    {
      FinishedStep(output, row[i..]);
      assert row[i..][1..] == row[i + 1..];
      var out := EncodeValueInto(row[i], output);
      if out.None? {
        return None;
      }
      output := out.value;
    }
    assert output + [] == output;
    r := Some(output);
  }

  /** What the decoder will have read once `count` more values follow those in `values`. */
  ghost function Remaining(values: Row, b: seq<Byte>, count: nat): Option<Row> {
    match Parsing.TakeAll(TakeValue, b, count)
    case None => None
    case Some((vs, n)) => if n == |b| then Some(values + vs) else None
  }

  lemma RemainingStep(values: Row, b: seq<Byte>, count: nat)
    requires count > 0
    ensures Remaining(values, b, count)
         == match TakeValue(b) case None => None case Some((v, n)) => Remaining(values + [v], b[n..], count - 1)
  {
    if TakeValue(b).Some? {
      var (v, n) := TakeValue(b).value;
      var rest := Parsing.TakeAll(TakeValue, b[n..], count - 1);
      if rest.Some? {
        assert values + ([v] + rest.value.0) == values + [v] + rest.value.0;
      }
    }
  }

  /** Read `count` values and require that nothing is left. */
  method DecodeValues(decoder: Decoder, count: nat) returns (r: Option<Row>)
    requires decoder.Valid()
    modifies decoder`position
    ensures r == Remaining([], old(decoder.Unread()), count)
  {
    var values: Row := [];
    for i := 0 to count
      invariant decoder.Valid()
      invariant Remaining([], old(decoder.Unread()), count) == Remaining(values, decoder.Unread(), count - i)
    {
      RemainingStep(values, decoder.Unread(), count - i);
      var v := decoder.DecodeValue();
      if v.None? {
        return None;
      }
      values := values + [v.value];
    }
    if decoder.position != |decoder.bytes| {
      return None;
    }
    assert values + [] == values;
    r := Some(values);
  }

  /** The value count in a row header of the supported version. */
  function HeaderCount(b: seq<Byte>): Option<nat> {
    if |b| < 5 || b[0] != ROW_FORMAT_VERSION then None else Some(FromBigEndian(b[1..5]))
  }

  lemma RowIsRemaining(b: seq<Byte>)
    ensures ParseRow(b)
         == match HeaderCount(b)
            case None => None
            case Some(count) => if count > |b| - 5 then None else Remaining([], b[5..], count)
  {
    if HeaderCount(b).Some? {
      var r := Parsing.TakeAll(TakeValue, b[5..], HeaderCount(b).value);
      if r.Some? {
        assert [] + r.value.0 == r.value.0;
      }
    }
  }

  method ReadHeader(decoder: Decoder) returns (r: Option<nat>)
    requires decoder.Valid()
    modifies decoder`position
    ensures decoder.Valid() && r == HeaderCount(old(decoder.Unread()))
    ensures r.Some? ==> decoder.Unread() == old(decoder.Unread())[5..]
  {
    ghost var start := decoder.Unread();
    var version := decoder.ReadU8();
    if version.None? || version.value != ROW_FORMAT_VERSION {
      return None;
    }
    assert decoder.Unread() == start[1..];
    r := decoder.ReadU32();
    assert r.Some? ==> start[1..][..4] == start[1..5] && start[1..][4..] == start[5..];
  }

  method DecodeRow(bytes: seq<Byte>) returns (r: Option<Row>)
    ensures r == ParseRow(bytes)
  {
    RowIsRemaining(bytes);
    var decoder := new Decoder(bytes);
    var count := ReadHeader(decoder);
    if count.None? || count.value > |decoder.bytes| - decoder.position {
      return None;
    }
    r := DecodeValues(decoder, count.value);
  }
}
