/** Facts about sequences that enumerate a finite set, used wherever a `HashMap` is
    iterated (its iteration order is unspecified) or a range is filtered. */
module Collections {

  /** No element occurs twice in `s`. */
  predicate Distinct<T(==)>(s: seq<T>) {
    forall i, j :: 0 <= i < j < |s| ==> s[i] != s[j]
  }

  /** `order` lists every element of `keys` exactly once: one possible iteration
      order of a hash map whose key set is `keys`. */
  predicate Enumerates<T(==)>(order: seq<T>, keys: set<T>) {
    && Distinct(order)
    && (forall k :: k in order ==> k in keys)
    && (forall k :: k in keys ==> k in order)
  }

  /** Strictly ascending sequence of numbers. */
  predicate StrictlyIncreasing(s: seq<nat>) {
    forall i, j :: 0 <= i < j < |s| ==> s[i] < s[j]
  }

  /** An enumeration has exactly as many elements as the set it enumerates. */
  lemma {:induction false} EnumerationSize<T>(order: seq<T>, keys: set<T>)
    requires Enumerates(order, keys)
    ensures |order| == |keys|
  {
    if order != [] {
      var k := order[0];
      var rest := keys - {k};
      forall x | x in order[1..] ensures x in rest {
        var i :| 1 <= i < |order| && order[i] == x;
        assert order[0] != order[i];
      }
      forall x | x in rest ensures x in order[1..] {
        assert x in order && x != order[0];
      }
      EnumerationSize(order[1..], rest);
    }
  }

  /** Two maps with the same keys and the same value at every key are equal. */
  lemma MapsAgree<K, V>(m1: map<K, V>, m2: map<K, V>)
    requires m1.Keys == m2.Keys
    requires forall k :: k in m2 ==> m1[k] == m2[k]
    ensures m1 == m2
  {
  }

  /** A strictly increasing sequence has no repeated element. */
  lemma StrictlyIncreasingIsDistinct(s: seq<nat>)
    requires StrictlyIncreasing(s)
    ensures Distinct(s)
  {
  }
}
