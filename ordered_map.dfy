/** A Python dict: a map together with its keys in insertion order.
    Assigning to a key that is present keeps the key's position;
    a new key goes last. */
module OrderedMaps {

  predicate Distinct<T(==)>(s: seq<T>) {
    forall i, j :: 0 <= i < j < |s| ==> s[i] != s[j]
  }

  lemma {:induction false} DistinctTail<T>(s: seq<T>)
    requires Distinct(s) && s != []
    ensures Distinct(s[1..]) && s[0] !in s[1..]
  {
    assert forall i :: 0 <= i < |s| - 1 ==> s[1..][i] == s[i + 1];
  }

  datatype OrderedMap<K(==), V> = OrderedMap(items: map<K, V>, keys: seq<K>) {

    /** The key list lists each key of the map exactly once */
    predicate Valid() {
      && Distinct(keys)
      && (forall k :: k in items ==> k in keys)
      && (forall i :: 0 <= i < |keys| ==> keys[i] in items)
    }

    /** d[k] = v */
    function Put(k: K, v: V): (m: OrderedMap<K, V>)
      ensures Valid() ==> m.Valid()
      ensures m.items == items[k := v]
      ensures k in items ==> m.keys == keys
      ensures k !in items ==> m.keys == keys + [k]
    {
      OrderedMap(items[k := v], if k in items then keys else keys + [k])
    }
  }

  function Empty<K(==), V>(): (m: OrderedMap<K, V>)
    ensures m.Valid() && m.keys == []
  {
    OrderedMap(map[], [])
  }
}
