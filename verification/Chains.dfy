/** The successive values one key takes while a map changes. */
module Chains {

  function Changes<K, V(==)>(ms: seq<map<K, V>>, k: K): seq<V> {
    if ms == [] then []
    else
      var n := |ms| - 1;
      var earlier := Changes(ms[..n], k);
      if k in ms[n] && (n == 0 || k !in ms[n - 1] || ms[n - 1][k] != ms[n][k])
      then earlier + [ms[n][k]]
      else earlier
  }

  /** A key, once present, stays; its value changes only by `next` and starts with `first`. */
  ghost predicate Follows<K, V(!new)>(a: map<K, V>, b: map<K, V>, k: K, first: V -> bool, next: (V, V) -> bool) {
    && (k in a ==> k in b && (b[k] == a[k] || next(a[k], b[k])))
    && (k !in a && k in b ==> first(b[k]))
  }

  ghost predicate IsChain<V(!new)>(vs: seq<V>, first: V -> bool, next: (V, V) -> bool) {
    && (vs != [] ==> first(vs[0]))
    && (forall i | 0 <= i < |vs| - 1 :: next(vs[i], vs[i + 1]))
  }

  lemma {:induction false} ChangesAreChain<K, V(!new)>(ms: seq<map<K, V>>, k: K, first: V -> bool, next: (V, V) -> bool)
    requires ms != [] && k !in ms[0]
    requires forall i | 0 <= i < |ms| - 1 :: Follows(ms[i], ms[i + 1], k, first, next)
    ensures IsChain(Changes(ms, k), first, next)
    ensures Changes(ms, k) == [] <==> k !in ms[|ms| - 1]
    ensures k in ms[|ms| - 1] ==> Changes(ms, k)[|Changes(ms, k)| - 1] == ms[|ms| - 1][k]
  {
    var n := |ms| - 1;
    if n == 0 {
      assert ms[..0] == [];
    } else {
      var earlier := ms[..n];
      forall i | 0 <= i < |earlier| - 1 ensures Follows(earlier[i], earlier[i + 1], k, first, next) {
        assert Follows(ms[i], ms[i + 1], k, first, next);
      }
      ChangesAreChain(earlier, k, first, next);
      assert earlier[n - 1] == ms[n - 1];
      assert Follows(ms[n - 1], ms[n - 1 + 1], k, first, next);
    }
  }
}
