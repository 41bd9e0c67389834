/** A JavaScript `Map`: a finite map that remembers the order in which its
    keys were first inserted, which is the order its iteration visits them. */
module OrderedMaps {

  datatype OrderedMap<K(!new), V> = OrderedMap(keys: seq<K>, entries: map<K, V>)
  {
    /** Every key occurs once in the order and the order lists exactly the
        keys of the map. */
    ghost predicate Valid() {
      (forall i, j :: 0 <= i < j < |keys| ==> keys[i] != keys[j]) &&
      (forall k :: k in entries <==> k in keys)
    }

    function Size(): nat { |keys| }

    predicate Has(k: K) { k in entries }

    function Get(k: K): V
      requires Has(k)
    {
      entries[k]
    }

    /** The values, in insertion order (`[...m.values()]`). */
    function Values(): (vs: seq<V>)
      requires Valid()
      ensures |vs| == |keys|
      ensures forall i :: 0 <= i < |keys| ==> vs[i] == entries[keys[i]]
    {
      seq(|keys|, i requires 0 <= i < |keys| && keys[i] in entries => entries[keys[i]])
    }

    /** `m.set(k, v)`: an existing key keeps its place, a new one goes last. */
    function Set(k: K, v: V): (m: OrderedMap<K, V>)
      requires Valid()
      ensures m.Valid()
      ensures m.entries == entries[k := v]
      ensures k in keys ==> m.keys == keys
      ensures k !in keys ==> m.keys == keys + [k]
    {
      if k in entries then OrderedMap(keys, entries[k := v])
      else OrderedMap(keys + [k], entries[k := v])
    }
  }

  /** Setting a key twice leaves the second value, with the key where the
      first `set` put it. */
  lemma SetTwice<K(!new), V>(m: OrderedMap<K, V>, k: K, a: V, b: V)
    requires m.Valid()
    ensures m.Set(k, a).Set(k, b) == m.Set(k, b)
  {
    assert m.entries[k := a][k := b] == m.entries[k := b];
  }

  /** `m.delete(k)`: the key leaves the map and the order. */
  function Remove<K(!new), V>(m: OrderedMap<K, V>, k: K): (r: OrderedMap<K, V>)
    requires m.Valid()
    ensures r.Valid()
    ensures r.entries == m.entries - {k}
    ensures forall i :: 0 <= i < |r.keys| ==> r.keys[i] in m.keys
    ensures k !in m.entries ==> r == m
  {
    if k !in m.entries then m
    else
      var ks := RemoveKey(m.keys, k);
      OrderedMap(ks, m.entries - {k})
  }

  function RemoveKey<K(==,!new)>(keys: seq<K>, k: K): (r: seq<K>)
    requires forall i, j :: 0 <= i < j < |keys| ==> keys[i] != keys[j]
    ensures forall i, j :: 0 <= i < j < |r| ==> r[i] != r[j]
    ensures forall x :: x in r <==> x in keys && x != k
    decreases |keys|
  {
    if keys == [] then []
    else if keys[0] == k then RemoveKey(keys[1..], k)
    else
      var rest := RemoveKey(keys[1..], k);
      assert keys[0] !in rest;
      [keys[0]] + rest
  }

  function Empty<K(!new), V>(): (m: OrderedMap<K, V>)
    ensures m.Valid() && m.Size() == 0
  {
    OrderedMap([], map[])
  }

  /** A valid map has as many keys in its order as in its domain. */
  lemma SizeIsCardinality<K(!new), V>(m: OrderedMap<K, V>)
    requires m.Valid()
    ensures m.Size() == |m.entries.Keys|
  {
    DistinctCardinality(m.keys);
    assert m.entries.Keys == set k | k in m.keys;
  }

  lemma {:induction false} DistinctCardinality<K>(s: seq<K>)
    requires forall i, j :: 0 <= i < j < |s| ==> s[i] != s[j]
    ensures |set k | k in s| == |s|
    decreases |s|
  {
    if s != [] {
      var t := s[..|s| - 1];
      DistinctCardinality(t);
      assert (set k | k in s) == (set k | k in t) + {s[|s| - 1]};
      assert s[|s| - 1] !in t;
    }
  }
}
