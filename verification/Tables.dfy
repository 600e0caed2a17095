/** Tables as maps: tabulating a function, and keeping or changing the rows a condition selects. */
module Tables {

  /** The table that gives each key in `keys` its value under `f`. */
  ghost function MapOf<K(!new), V(!new)>(keys: set<K>, f: K -> V): (m: map<K, V>)
    ensures m.Keys == keys
    ensures forall k | k in keys :: m[k] == f(k)
  {
    MapExists(keys, f);
    var m: map<K, V> :| m.Keys == keys && forall k | k in keys :: m[k] == f(k);
    m
  }

  lemma {:induction false} MapExists<K(!new), V(!new)>(keys: set<K>, f: K -> V)
    ensures exists m: map<K, V> :: m.Keys == keys && forall k | k in keys :: m[k] == f(k)
  {
    if keys == {} {
      var m: map<K, V> := map[];
      assert m.Keys == keys;
    } else {
      var k :| k in keys;
      MapExists(keys - {k}, f);
      var rest: map<K, V> :| rest.Keys == keys - {k} && forall j | j in keys - {k} :: rest[j] == f(j);
      var m := rest[k := f(k)];
      assert m.Keys == keys && forall j | j in keys :: m[j] == f(j);
    }
  }

  /** Computes `MapOf`. */
  method Tabulate<K(==, !new), V(!new)>(keys: set<K>, f: K -> V) returns (m: map<K, V>)
    ensures m == MapOf(keys, f)
  {
    m := map[];
    var rest := keys;
    while rest != {}
      invariant rest <= keys && m.Keys == keys - rest
      invariant forall k | k in m :: m[k] == f(k)
      decreases rest
    {
      var k :| k in rest;
      m, rest := m[k := f(k)], rest - {k};
    }
  }

  /** The rows under the given keys. */
  function Keep<K, V>(m: map<K, V>, keys: set<K>): (kept: map<K, V>)
    ensures kept.Keys == m.Keys * keys
    ensures forall k | k in kept :: kept[k] == m[k]
  {
    m - (m.Keys - keys)
  }
}
