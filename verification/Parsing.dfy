/** Lists of self-delimiting items: if one item prints and parses back exactly, so does a list. */
module Parsing {
  import opened Base

  type Printer<!V> = V -> Option<seq<Byte>>
  type Parser<!V> = seq<Byte> -> Option<(V, nat)>

  function PrintAll<V>(show: Printer<V>, vs: seq<V>): Option<seq<Byte>> {
    if vs == [] then Some([])
    else
      match show(vs[0])
      case None => None
      case Some(first) =>
        match PrintAll(show, vs[1..])
        case None => None
        case Some(rest) => Some(first + rest)
  }

  /** `count` items at the start of `b`, with the number of bytes they take. */
  function TakeAll<V>(take: Parser<V>, b: seq<Byte>, count: nat): (r: Option<(seq<V>, nat)>)
    ensures r.Some? ==> |r.value.0| == count && r.value.1 <= |b|
    decreases count
  {
    if count == 0 then Some(([], 0))
    else
      match take(b)
      case None => None
      case Some((v, n)) =>
        if n > |b| then None
        else
          match TakeAll(take, b[n..], count - 1)
          case None => None
          case Some((vs, m)) => Some(([v] + vs, n + m))
  }

  /** The printed item is non-empty and parses back whatever follows. */
  ghost predicate ItemReadsBack<V>(show: Printer<V>, take: Parser<V>, v: V, rest: seq<Byte>)
    requires show(v).Some?
  {
    |show(v).value| > 0 && take(show(v).value + rest) == Some((v, |show(v).value|))
  }

  ghost predicate ReadsBack<V(!new)>(show: Printer<V>, take: Parser<V>) {
    forall v, rest | show(v).Some? :: ItemReadsBack(show, take, v, rest)
  }

  /** The parsed item consumes at least one byte and prints exactly what it consumed. */
  ghost predicate ItemWritesBack<V>(show: Printer<V>, take: Parser<V>, b: seq<Byte>)
    requires take(b).Some?
  {
    var (v, n) := take(b).value;
    0 < n <= |b| && show(v) == Some(b[..n])
  }

  ghost predicate WritesBack<V(!new)>(show: Printer<V>, take: Parser<V>) {
    forall b | take(b).Some? :: ItemWritesBack(show, take, b)
  }

  lemma {:induction false} AllReadBack<V(!new)>(show: Printer<V>, take: Parser<V>, vs: seq<V>, b: seq<Byte>, rest: seq<Byte>)
    requires ReadsBack(show, take) && PrintAll(show, vs) == Some(b)
    ensures |vs| <= |b| && TakeAll(take, b + rest, |vs|) == Some((vs, |b|))
    decreases |vs|
  {
    if vs != [] {
      var first, tail := show(vs[0]).value, PrintAll(show, vs[1..]).value;
      AllReadBack(show, take, vs[1..], tail, rest);
      assert ItemReadsBack(show, take, vs[0], tail + rest);
      assert b + rest == first + (tail + rest) && (first + (tail + rest))[|first|..] == tail + rest;
      assert [vs[0]] + vs[1..] == vs;
    }
  }

  lemma {:induction false} AllWriteBack<V(!new)>(show: Printer<V>, take: Parser<V>, b: seq<Byte>, vs: seq<V>, n: nat)
    requires WritesBack(show, take) && TakeAll(take, b, |vs|) == Some((vs, n))
    ensures |vs| <= n && PrintAll(show, vs) == Some(b[..n])
    decreases |vs|
  {
    if vs != [] {
      var (v, k) := take(b).value;
      var (rest, m) := TakeAll(take, b[k..], |vs| - 1).value;
      assert ItemWritesBack(show, take, b);
      AllWriteBack(show, take, b[k..], rest, m);
      assert vs[0] == v && vs[1..] == rest;
      assert b[..k] + b[k..][..m] == b[..k + m];
    }
  }

  /** Encodings of distinct items are never prefixes of each other. */
  lemma PrefixFree<V(!new)>(show: Printer<V>, take: Parser<V>, v: V, w: V, a: seq<Byte>, b: seq<Byte>)
    requires ReadsBack(show, take) && show(v) == Some(a) && show(w) == Some(b) && a <= b
    ensures v == w
  {
    assert ItemReadsBack(show, take, v, b[|a|..]) && ItemReadsBack(show, take, w, []);
    assert a + b[|a|..] == b + [];
  }
}
