/**
 * A JavaScript `Map` (or a plain object with string keys): a value per key,
 * and the keys in the order they were first inserted, which is the order
 * `for … of`, `Object.keys` and `Object.values` visit them in.
 */
module OrderedMap {
  import opened Wrappers

  datatype OMap<K(==,!new), V> = OMap(keys: seq<K>, values: map<K, V>)
  {
    /** Keys are listed once each, and exactly the mapped keys are listed. */
    ghost predicate Valid()
    {
      (forall i, j :: 0 <= i < j < |keys| ==> keys[i] != keys[j]) &&
      (forall k :: k in values <==> k in keys)
    }

    /** `m.get(k)` / `obj[k]`. */
    function Get(k: K): Option<V>
    {
      if k in values then Some(values[k]) else None
    }

    /** `m.set(k, v)` / `obj[k] = v`: a new key goes last, an existing key keeps its place. */
    function Put(k: K, v: V): (r: OMap<K, V>)
      requires Valid()
      ensures r.Valid()
      ensures r.Get(k) == Some(v)
      ensures forall k' :: k' != k ==> r.Get(k') == Get(k')
      ensures k in values ==> r.keys == keys
      ensures k !in values ==> r.keys == keys + [k]
    {
      if k in values then OMap(keys, values[k := v]) else OMap(keys + [k], values[k := v])
    }

    /** `delete obj[k]`: the key leaves the order, the others keep theirs. */
    function Remove(k: K): (r: OMap<K, V>)
      requires Valid()
      ensures r.Valid()
      ensures r.Get(k) == None
      ensures forall k' :: k' != k ==> r.Get(k') == Get(k')
      ensures forall k' :: k' in r.keys <==> k' in keys && k' != k
    {
      OMap(Without(keys, k), values - {k})
    }

    /** `Object.values(obj)`: the values in key order. */
    function Values(): (r: seq<V>)
      requires Valid()
      ensures |r| == |keys|
      ensures forall i :: 0 <= i < |keys| ==> r[i] == values[keys[i]]
    {
      seq(|keys|, i requires 0 <= i < |keys| => values[keys[i]])
    }
  }

  /** `new Map()` / `{}`. */
  function Empty<K(!new), V>(): (r: OMap<K, V>)
    ensures r.Valid() && r.keys == [] && forall k :: r.Get(k) == None
  {
    OMap([], map[])
  }

  /** `s` without the occurrences of `x`, order kept. */
  function Without<K(==,!new)>(s: seq<K>, x: K): (r: seq<K>)
    ensures forall y :: y in r <==> y in s && y != x
    ensures |r| <= |s|
    ensures (forall i, j :: 0 <= i < j < |s| ==> s[i] != s[j]) ==> (forall i, j :: 0 <= i < j < |r| ==> r[i] != r[j])
  {
    if s == [] then []
    else if s[0] == x then Without(s[1..], x)
    else
      assert forall i, j :: 0 <= i < j < |s[1..]| ==> s[1..][i] == s[i + 1] && s[1..][j] == s[j + 1];
      assert (forall i, j :: 0 <= i < j < |s| ==> s[i] != s[j]) ==> s[0] !in s[1..];
      [s[0]] + Without(s[1..], x)
  }
}
