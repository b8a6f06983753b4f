/** Putting the keys of a map in order of their values. */
module Ordering {
  import opened Prelude

  ghost predicate InKeyOrder<K>(keys: map<K, int>, order: seq<K>) {
    && (forall id <- order :: id in keys)
    && (forall i, j :: 0 <= i < j < |order| ==> order[i] != order[j] && keys[order[i]] <= keys[order[j]])
  }

  /** Every key once, smallest value first. */
  method InOrder<K(==)>(keys: map<K, int>) returns (order: seq<K>)
    ensures InKeyOrder(keys, order)
    ensures forall id <- keys :: id in order
  {
    order := [];
    var left := keys.Keys;
    while left != {}
      invariant left <= keys.Keys && InKeyOrder(keys, order)
      invariant forall id <- keys :: id in order <==> id !in left
      invariant forall i, id :: 0 <= i < |order| && id in left ==> keys[order[i]] <= keys[id]
      decreases |left|
    {
      var first := Smallest(keys, left);
      order := order + [first];
      left := left - {first};
    }
  }

  method Smallest<K(==)>(keys: map<K, int>, ids: set<K>) returns (first: K)
    requires ids != {} && ids <= keys.Keys
    ensures first in ids && forall id <- ids :: keys[first] <= keys[id]
  {
    first := Pick(ids);
    var rest := ids - {first};
    while rest != {}
      invariant rest <= ids && first in ids
      invariant forall id :: id in ids && id !in rest ==> keys[first] <= keys[id]
      decreases |rest|
    {
      var id := Pick(rest);
      if keys[id] < keys[first] {
        first := id;
      }
      rest := rest - {id};
    }
  }
}
