/**
 * The JavaScript `Map` that `getAllStates` fills: entries keyed by equality and
 * iterated in the order in which their keys were first inserted. Setting a key
 * that is already present replaces its value and keeps its position.
 */
module OrderedMaps {

  datatype OrderedMap<K(==), V> = OrderedMap(keys: seq<K>, entries: map<K, V>)
  {
    /** The keys are listed once each, and they are exactly the keys of the entries. */
    ghost predicate Valid()
    {
      && Distinct(keys)
      && (forall k :: k in entries ==> k in keys)
      && (forall i :: 0 <= i < |keys| ==> keys[i] in entries)
    }

    /** `Map.prototype.has`. */
    predicate Has(k: K)
    {
      k in entries
    }

    /** `Map.prototype.get` of a present key. */
    function Get(k: K): V
      requires Has(k)
    {
      entries[k]
    }

    /** `Map.prototype.set`: a new key goes last, a present key keeps its place. */
    function Set(k: K, v: V): OrderedMap<K, V>
    {
      OrderedMap(if k in entries then keys else keys + [k], entries[k := v])
    }

    /** `Array.from(map.values())`: the values in key-insertion order. */
    function Values(): (r: seq<V>)
      requires Valid()
      ensures |r| == |keys| && forall i :: 0 <= i < |keys| ==> r[i] == entries[keys[i]]
    {
      seq(|keys|, i requires 0 <= i < |keys| && Valid() => entries[keys[i]])
    }
  }

  /** A sequence without repeats. */
  predicate Distinct<T(==)>(s: seq<T>)
  {
    forall i, j :: 0 <= i < j < |s| ==> s[i] != s[j]
  }

  /** Setting a key keeps every key once and every key with its entry. */
  lemma SetValid<K, V>(m: OrderedMap<K, V>, k: K, v: V)
    requires m.Valid()
    ensures m.Set(k, v).Valid()
    ensures k in m.keys ==> m.Set(k, v).keys == m.keys
    ensures k !in m.keys ==> m.Set(k, v).keys == m.keys + [k]
  {
  }

  /** `new Map()`. */
  function Empty<K(==), V>(): (m: OrderedMap<K, V>)
    ensures m.Valid() && m.keys == []
  {
    OrderedMap([], map[])
  }
}
