/**
 * PHP's ordered arrays, as far as the query builder uses them: a dictionary
 * that remembers the order in which its keys were first inserted.
 * Assigning to an existing key (`$a[$k] = $v`) keeps the key's position;
 * assigning to a new key appends it.  `implode` and `foreach` walk the
 * values in that order.
 */
module PhpArray {

  datatype OMap<K, V> = OMap(keys: seq<K>, vals: map<K, V>)

  /** The keys are listed once each, and exactly the keys of the map are listed. */
  ghost predicate Valid<K(!new), V>(m: OMap<K, V>) {
    && (forall i, j :: 0 <= i < j < |m.keys| ==> m.keys[i] != m.keys[j])
    && (forall k :: k in m.vals <==> k in m.keys)
  }

  function Empty<K(!new), V>(): (r: OMap<K, V>)
    ensures Valid(r) && r.keys == [] && r.vals == map[]
  {
    OMap([], map[])
  }

  /** `$m[$k] = $v` */
  function Put<K(!new), V>(m: OMap<K, V>, k: K, v: V): (r: OMap<K, V>)
    requires Valid(m)
    ensures Valid(r)
    ensures r.vals == m.vals[k := v]
    ensures k in m.vals ==> r.keys == m.keys
    ensures k !in m.vals ==> r.keys == m.keys + [k]
  {
    OMap(if k in m.vals then m.keys else m.keys + [k], m.vals[k := v])
  }

  /** The value under `k`, or `default` when `k` is not set. */
  function Get<K, V>(m: OMap<K, V>, k: K, default: V): V {
    if k in m.vals then m.vals[k] else default
  }

  /** The values in key-insertion order, as `implode` and `foreach` see them. */
  function Values<K(!new), V>(m: OMap<K, V>): (r: seq<V>)
    requires Valid(m)
    ensures |r| == |m.keys|
    ensures forall i :: 0 <= i < |m.keys| ==> r[i] == m.vals[m.keys[i]]
  {
    seq(|m.keys|, i requires 0 <= i < |m.keys| => m.vals[m.keys[i]])
  }

  /** Putting a new key appends its value at the end of the value order. */
  lemma ValuesPutNew<K(!new), V>(m: OMap<K, V>, k: K, v: V)
    requires Valid(m) && k !in m.vals
    ensures Values(Put(m, k, v)) == Values(m) + [v]
  {
    var r := Put(m, k, v);
    assert forall i :: 0 <= i < |m.keys| ==> m.keys[i] != k;
    assert Values(r) == Values(m) + [v];
  }

  /** Putting an existing key replaces its value in place and moves nothing. */
  lemma ValuesPutExisting<K(!new), V>(m: OMap<K, V>, k: K, v: V)
    requires Valid(m) && k in m.vals
    ensures |Values(Put(m, k, v))| == |Values(m)|
    ensures forall i :: 0 <= i < |m.keys| ==>
      Values(Put(m, k, v))[i] == if m.keys[i] == k then v else Values(m)[i]
  {
  }
}
