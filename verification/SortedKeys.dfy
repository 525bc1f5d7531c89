/** Canonical key order of the ordered maps: keys ranked by an injective integer rank. */
module SortedKeys {
  import opened Base

  ghost predicate Injective<K(!new)>(rank: K -> int) {
    forall a, b :: rank(a) == rank(b) ==> a == b
  }

  predicate Ascending<K>(ks: seq<K>, rank: K -> int) {
    forall i, j | 0 <= i < j < |ks| :: rank(ks[i]) < rank(ks[j])
  }

  lemma LeastExists<K>(s: set<K>, rank: K -> int) returns (k: K)
    requires s != {}
    ensures k in s && forall j | j in s :: rank(k) <= rank(j)
  {
    k :| k in s;
    var rest := s - {k};
    if rest != {} {
      var m := LeastExists(rest, rank);
      if rank(m) < rank(k) {
        k := m;
      }
    }
  }

  function Least<K(==, !new)>(s: set<K>, rank: K -> int): (k: K)
    requires s != {} && Injective(rank)
    ensures k in s && forall j | j in s :: rank(k) <= rank(j)
  {
    assert exists k :: k in s && forall j | j in s :: rank(k) <= rank(j) by {
      var m := LeastExists(s, rank);
    }
    var k :| k in s && forall j | j in s :: rank(k) <= rank(j);
    k
  }

  /** The elements of `s` in ascending rank order, each exactly once. */
  function Sorted<K(==, !new)>(s: set<K>, rank: K -> int): (ks: seq<K>)
    requires Injective(rank)
    ensures Ascending(ks, rank)
    ensures forall k :: k in ks <==> k in s
    ensures |ks| == |s|
  {
    if s == {} then []
    else
      var k := Least(s, rank);
      [k] + Sorted(s - {k}, rank)
  }

  /** The values of `m` in ascending key order. */
  function Values<K(==, !new), V>(m: map<K, V>, rank: K -> int): (vs: seq<V>)
    requires Injective(rank)
    ensures |vs| == |m|
  {
    var ks := Sorted(m.Keys, rank);
    seq(|ks|, i requires 0 <= i < |ks| => assert ks[i] in m.Keys; m[ks[i]])
  }

  /** `ks` lists the keys of `m` in ascending order, and `vs` the values in the same order. */
  ghost predicate IsListing<K, V>(m: map<K, V>, rank: K -> int, ks: seq<K>, vs: seq<V>) {
    && Lists(ks, m)
    && Ascending(ks, rank)
    && |vs| == |ks|
    && forall i | 0 <= i < |ks| :: vs[i] == m[ks[i]]
  }

  lemma Listing<K(!new), V>(m: map<K, V>, rank: K -> int) returns (ks: seq<K>)
    requires Injective(rank)
    ensures IsListing(m, rank, ks, Values(m, rank))
  {
    ks := Sorted(m.Keys, rank);
    SortedLists(m, rank);
  }

  /** `ks` lists the keys of `m`, each exactly once. */
  ghost predicate Lists<K, V>(ks: seq<K>, m: map<K, V>) {
    && (forall i, j | 0 <= i < j < |ks| :: ks[i] != ks[j])
    && (forall i | 0 <= i < |ks| :: ks[i] in m)
    && (forall k | k in m :: k in ks)
  }

  lemma SortedLists<K(!new), V>(m: map<K, V>, rank: K -> int)
    requires Injective(rank)
    ensures Lists(Sorted(m.Keys, rank), m)
  {
    var ks := Sorted(m.Keys, rank);
    forall i | 0 <= i < |ks| ensures ks[i] in m {
      assert ks[i] in m.Keys;
    }
  }

  /** The part of `m` whose keys are among the first `n` of `ks`. */
  ghost function FirstKeys<K, V>(m: map<K, V>, ks: seq<K>, n: nat): (p: map<K, V>)
    requires n <= |ks|
  {
    map k | k in m && k in ks[..n] :: m[k]
  }

  lemma FirstKeysGrows<K, V>(m: map<K, V>, ks: seq<K>, n: nat)
    requires Lists(ks, m) && n < |ks|
    ensures ks[n] in m && ks[n] !in FirstKeys(m, ks, n)
    ensures FirstKeys(m, ks, n + 1) == FirstKeys(m, ks, n)[ks[n] := m[ks[n]]]
  {
    assert ks[..n + 1] == ks[..n] + [ks[n]];
  }

  lemma FirstKeysBounds<K, V>(m: map<K, V>, ks: seq<K>)
    requires Lists(ks, m)
    ensures FirstKeys(m, ks, 0) == map[]
    ensures FirstKeys(m, ks, |ks|) == m
  {
    assert ks[..|ks|] == ks;
  }

  /** The keys of a map keyed by identity, in ascending order. */
  function IdKeys<V>(m: map<U64, V>): (ks: seq<U64>)
    ensures forall i, j | 0 <= i < j < |ks| :: ks[i] < ks[j]
    ensures Lists(ks, m)
  {
    SortedLists(m, (id: U64) => id);
    Sorted(m.Keys, (id: U64) => id)
  }

  lemma ValuesAre<K(!new), V(!new)>(m: map<K, V>, rank: K -> int, ok: V -> bool)
    requires Injective(rank)
    ensures (forall k | k in m :: ok(m[k])) <==> forall i | 0 <= i < |Values(m, rank)| :: ok(Values(m, rank)[i])
  {
    var ks := Listing(m, rank);
    var vs := Values(m, rank);
    if forall i | 0 <= i < |vs| :: ok(vs[i]) {
      forall k | k in m ensures ok(m[k]) {
        var i :| 0 <= i < |ks| && ks[i] == k;
        assert ok(vs[i]);
      }
    }
  }

  lemma ValuesAscend<K(!new), V(!new)>(m: map<K, V>, rank: K -> int, key: V -> int)
    requires Injective(rank) && forall k | k in m :: key(m[k]) == rank(k)
    ensures var vs := Values(m, rank);
            forall i | 0 <= i < |vs| - 1 :: key(vs[i]) < key(vs[i + 1])
  {
    var _ := Listing(m, rank);
  }

  /** Walk the keys of an ordered map. */
  method OrderedKeys<V>(m: map<U64, V>) returns (ks: seq<U64>)
    ensures Lists(ks, m)
    ensures forall i, j | 0 <= i < j < |ks| :: ks[i] < ks[j]
  {
    ks := IdKeys(m);
  }

  function IdRank(id: U64): int {
    id
  }

  lemma AscendingIds(ks: seq<U64>)
    requires Ascending(ks, IdRank)
    ensures forall i, j | 0 <= i < j < |ks| :: ks[i] < ks[j]
  {
    forall i, j | 0 <= i < j < |ks| ensures ks[i] < ks[j] {
      assert IdRank(ks[i]) < IdRank(ks[j]);
    }
  }

  /** A listing of a map keyed by identity, in the form that inductions over prefixes use. */
  lemma IdListing<V>(m: map<U64, V>, ks: seq<U64>, vs: seq<V>)
    requires IsListing(m, IdRank, ks, vs)
    ensures vs[0..] == vs && FirstKeys(m, ks, 0) == map[]
    ensures forall i, j | 0 <= i < j < |ks| :: ks[i] < ks[j]
  {
    FirstKeysBounds(m, ks);
    AscendingIds(ks);
  }
}
