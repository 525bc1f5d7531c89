/** The lexicographic order of byte strings, as slices of `u8` compare. */
module ByteOrder {
  import opened Base

  type Key = seq<Byte>

  predicate Less(a: Key, b: Key) {
    |b| > 0 && (|a| == 0 || a[0] < b[0] || (a[0] == b[0] && Less(a[1..], b[1..])))
  }

  predicate Leq(a: Key, b: Key) {
    a == b || Less(a, b)
  }

  lemma LessIrreflexive(a: Key)
    ensures !Less(a, a)
  {
  }

  lemma {:induction false} LessTransitive(a: Key, b: Key, c: Key)
    requires Less(a, b) && Less(b, c)
    ensures Less(a, c)
  {
    if |a| > 0 && a[0] == b[0] == c[0] {
      LessTransitive(a[1..], b[1..], c[1..]);
    }
  }

  lemma {:induction false} LessTotal(a: Key, b: Key)
    ensures Less(a, b) || a == b || Less(b, a)
  {
    if |a| > 0 && |b| > 0 && a[0] == b[0] {
      LessTotal(a[1..], b[1..]);
      if a[1..] == b[1..] {
        assert a == [a[0]] + a[1..] == [b[0]] + b[1..] == b;
      }
    }
  }

  lemma LessLeqTransitive(a: Key, b: Key, c: Key)
    requires Less(a, b) && Leq(b, c)
    ensures Less(a, c)
  {
    if b != c {
      LessTransitive(a, b, c);
    }
  }

  /** Strictly below and at-or-above are complementary. */
  lemma LessOrGeq(a: Key, b: Key)
    ensures Less(a, b) <==> !Leq(b, a)
  {
    LessTotal(a, b);
    LessIrreflexive(a);
    if Less(a, b) && Less(b, a) {
      LessTransitive(a, b, a);
    }
  }

  /** The keys agree before position `i`, where `a` has ended or has the smaller byte. */
  predicate DiffersAt(a: Key, b: Key, i: nat) {
    && i <= |a| && i < |b|
    && a[..i] == b[..i]
    && (i == |a| || a[i] < b[i])
  }

  /** The recursive comparison is the lexicographic order with prefixes first. */
  lemma {:induction false} LessIsLexicographic(a: Key, b: Key)
    ensures Less(a, b) <==> exists i: nat :: DiffersAt(a, b, i)
  {
    if |a| > 0 && |b| > 0 && a[0] == b[0] {
      LessIsLexicographic(a[1..], b[1..]);
      if i: nat :| DiffersAt(a[1..], b[1..], i) {
        assert a[..i + 1] == [a[0]] + a[1..][..i] && b[..i + 1] == [b[0]] + b[1..][..i];
        assert DiffersAt(a, b, i + 1);
      }
      if i: nat :| DiffersAt(a, b, i) {
        assert a[1..][..i - 1] == a[..i][1..] && b[1..][..i - 1] == b[..i][1..];
        assert DiffersAt(a[1..], b[1..], i - 1);
      }
    } else if |b| > 0 && (|a| == 0 || a[0] < b[0]) {
      assert DiffersAt(a, b, 0);
    }
  }
}
