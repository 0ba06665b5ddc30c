/**
 * A JavaScript `Map`: the map from key to value together with the keys in
 * insertion order, which is the order `values()` walks. `set` on a key that
 * is present keeps its place; `delete` takes the key out of the order.
 */
module OrderedMaps {

  /** No key occurs twice. */
  predicate Distinct<K(==)>(keys: seq<K>) {
    forall i, j :: 0 <= i < j < |keys| ==> keys[i] != keys[j]
  }

  /** `order` lists every key of `m` exactly once. */
  predicate Keyed<K(==), V>(order: seq<K>, m: map<K, V>) {
    && Distinct(order)
    && (forall k :: k in order ==> k in m)
    && (forall k :: k in m ==> k in order)
  }

  /** Distinct keys are as many as the set they make up. */
  lemma {:induction false} DistinctSize<K>(keys: seq<K>)
    requires Distinct(keys)
    ensures |set k | k in keys| == |keys|
  {
    if keys != [] {
      var rest := keys[1..];
      assert Distinct(rest);
      DistinctSize(rest);
      assert keys[0] !in rest by {
        forall j | 0 <= j < |rest| ensures rest[j] != keys[0] {
          assert rest[j] == keys[j + 1];
        }
      }
      assert (set k | k in keys) == (set k | k in rest) + {keys[0]};
    }
  }

  /** `map.size` is the length of the order. */
  lemma KeyedSize<K, V>(order: seq<K>, m: map<K, V>)
    requires Keyed(order, m)
    ensures |order| == |m|
  {
    DistinctSize(order);
    assert (set k | k in order) == m.Keys;
  }

  /** The order after `map.set(k, v)`: a new key goes last, a present one stays where it is. */
  function Inserted<K(==), V>(order: seq<K>, m: map<K, V>, k: K): seq<K> {
    if k in m then order else order + [k]
  }

  /** Setting a key keeps the order matching the map. */
  lemma InsertedKeyed<K, V>(order: seq<K>, m: map<K, V>, k: K, v: V)
    requires Keyed(order, m)
    ensures Keyed(Inserted(order, m, k), m[k := v])
  {
  }

  /** `keys` without `k`, the others in the same order. */
  function Without<K(==, !new)>(keys: seq<K>, k: K): (r: seq<K>)
    ensures forall x :: x in r <==> x in keys && x != k
    ensures |r| <= |keys|
  {
    if keys == [] then []
    else if keys[0] == k then Without(keys[1..], k)
    else [keys[0]] + Without(keys[1..], k)
  }

  /**
   * Removal keeps the others in their order: it works key by key
   * (`WithoutOne` says what it does to one key).
   */
  lemma {:induction false} WithoutAppend<K(!new)>(a: seq<K>, b: seq<K>, k: K)
    ensures Without(a + b, k) == Without(a, k) + Without(b, k)
    decreases |a|
  {
    if a == [] {
      assert a + b == b;
    } else {
      var t := a[1..];
      assert (a + b)[0] == a[0] && (a + b)[1..] == t + b;
      WithoutAppend(t, b, k);
    }
  }

  /** Only `k` itself is dropped. */
  lemma WithoutOne<K(!new)>(x: K, k: K)
    ensures Without([x], k) == if x == k then [] else [x]
  {
    assert [x][1..] == [];
  }

  /** Removing a key that is not there changes nothing. */
  lemma {:induction false} WithoutAbsent<K(!new)>(keys: seq<K>, k: K)
    requires k !in keys
    ensures Without(keys, k) == keys
  {
    if keys != [] {
      WithoutAbsent(keys[1..], k);
    }
  }

  /** Removing a key keeps the keys distinct. */
  lemma {:induction false} WithoutDistinct<K(!new)>(keys: seq<K>, k: K)
    requires Distinct(keys)
    ensures Distinct(Without(keys, k))
  {
    if keys != [] {
      assert Distinct(keys[1..]);
      WithoutDistinct(keys[1..], k);
      if keys[0] != k {
        var rest := Without(keys[1..], k);
        assert keys[0] !in rest;
        assert forall j :: 0 <= j < |rest| ==> rest[j] in rest;
      }
    }
  }

  /** `map.delete(k)` keeps the order matching the map, present or not. */
  lemma DeletedKeyed<K(!new), V>(order: seq<K>, m: map<K, V>, k: K)
    requires Keyed(order, m)
    ensures Keyed(Without(order, k), m - {k})
  {
    WithoutDistinct(order, k);
  }

  /** `map.delete(k)` of a key that is not there changes nothing. */
  lemma DeletedAbsent<K(!new), V>(order: seq<K>, m: map<K, V>, k: K)
    requires Keyed(order, m) && k !in m
    ensures Without(order, k) == order && m - {k} == m
  {
    WithoutAbsent(order, k);
  }

  /** `Array.from(map.values())`: the values under `keys`, in the same order. */
  function Values<K(==), V>(keys: seq<K>, m: map<K, V>): (r: seq<V>)
    requires forall k :: k in keys ==> k in m
    ensures |r| == |keys|
    ensures forall i :: 0 <= i < |keys| ==> r[i] == m[keys[i]]
  {
    if keys == [] then [] else [m[keys[0]]] + Values(keys[1..], m)
  }

  /**
   * When every value records its own key (`idOf`), the values of the map in
   * order are exactly its values, and their keys are distinct.
   */
  lemma ValuesOfKeyed<K, V>(order: seq<K>, m: map<K, V>, idOf: V -> K)
    requires Keyed(order, m)
    requires forall k :: k in m ==> idOf(m[k]) == k
    ensures var vs := Values(order, m);
      && (forall i, j :: 0 <= i < j < |vs| ==> idOf(vs[i]) != idOf(vs[j]))
      && (forall v :: v in vs <==> idOf(v) in m && m[idOf(v)] == v)
  {
    var vs := Values(order, m);
    forall v | idOf(v) in m && m[idOf(v)] == v ensures v in vs {
      var i :| 0 <= i < |order| && order[i] == idOf(v);
      assert vs[i] == v;
    }
    forall v | v in vs ensures idOf(v) in m && m[idOf(v)] == v {
      var i :| 0 <= i < |vs| && vs[i] == v;
    }
  }
}
