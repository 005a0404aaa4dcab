/** A dictionary that remembers insertion order; overwriting a key keeps its place. */
module OrderedDicts {
  import opened Sequences

  datatype RawDict<K(==), V> = RawDict(keys: seq<K>, at: map<K, V>) {
    ghost predicate Valid() {
      Distinct(keys) && at.Keys == Elems(keys)
    }
  }

  type Dict<K(==), V> = d: RawDict<K, V> | d.Valid() witness RawDict([], map[])

  function Empty<K(==), V>(): (d: Dict<K, V>)
    ensures d.at == map[]
  {
    RawDict([], map[])
  }

  function Put<K(==), V>(d: Dict<K, V>, key: K, value: V): (r: Dict<K, V>)
    ensures r.at == d.at[key := value]
    ensures r.keys == if key in d.at then d.keys else d.keys + [key]
  {
    DistinctAppend(d.keys, key);
    RawDict(if key in d.at then d.keys else d.keys + [key], d.at[key := value])
  }

  function Values<K(==), V>(d: Dict<K, V>): (vs: seq<V>)
    ensures |vs| == |d.keys|
    ensures forall i :: 0 <= i < |vs| ==> d.keys[i] in d.at && vs[i] == d.at[d.keys[i]]
  {
    seq(|d.keys|, i requires 0 <= i < |d.keys| => d.at[d.keys[i]])
  }

  lemma ValuesHolds<K, V>(d: Dict<K, V>, key: K)
    requires key in d.at
    ensures d.at[key] in Values(d)
  {
    assert key in Elems(d.keys);
    var i :| 0 <= i < |d.keys| && d.keys[i] == key;
    assert Values(d)[i] == d.at[key];
  }
}
