/**
 * An ECMAScript `Map`: a dictionary that remembers the order in which its
 * keys were first inserted. `set` on a present key updates the value in
 * place and keeps the key's position; on a new key it appends the key.
 */
module OrderedMaps {
  import opened Seqs

  datatype OrderedMap<K(==), V> = OrderedMap(keys: seq<K>, values: map<K, V>) {

    /** Keys listed once each, and exactly the keys of the dictionary. */
    ghost predicate Valid() {
      && NoDup(keys)
      && (forall k :: k in values ==> k in keys)
      && (forall i :: 0 <= i < |keys| ==> keys[i] in values)
    }

    /** `Map.prototype.set`. */
    function Set(k: K, v: V): (m: OrderedMap<K, V>)
      ensures m.values == values[k := v]
      ensures m.keys == if k in values then keys else keys + [k]
      ensures Valid() ==> m.Valid()
    {
      if k in values then OrderedMap(keys, values[k := v])
      else OrderedMap(keys + [k], values[k := v])
    }

    /** `Array.from(map.values())`: the values in key insertion order. */
    function Values(): (vs: seq<V>)
      requires Valid()
      ensures |vs| == |keys|
      ensures forall i :: 0 <= i < |keys| ==> vs[i] == values[keys[i]]
    {
      seq(|keys|, i requires 0 <= i < |keys| => values[keys[i]])
    }
  }

  /** Setting a key twice is setting it once, to the second value. */
  lemma SetTwice<K, V>(m: OrderedMap<K, V>, k: K, v: V, w: V)
    ensures m.Set(k, v).Set(k, w) == m.Set(k, w)
  {
    assert m.values[k := v][k := w] == m.values[k := w];
  }

  /** `new Map()`. */
  function Empty<K(==), V>(): (m: OrderedMap<K, V>)
    ensures m.Valid() && m.keys == [] && m.values == map[]
  {
    OrderedMap([], map[])
  }
}
