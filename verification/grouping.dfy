/**
 * Grouping a list into a JavaScript `Map` from key to accumulator, the loop
 * `const a = m.get(key(x)) || zero; ...; m.set(key(x), add(a, x))`. A `Map`
 * lists its keys in first-insertion order; that order is held as a list
 * beside the key-to-accumulator map.
 */
module Grouping {
  import opened Seqs

  /** What the group of key `k` accumulates: `add` over its elements, in list order. */
  function GroupFold<T, K(==), A>(s: seq<T>, key: T -> K, k: K, zero: A, add: (A, T) -> A): A
  {
    if s == [] then zero
    else
      var a := GroupFold(s[..|s| - 1], key, k, zero, add);
      if key(s[|s| - 1]) == k then add(a, s[|s| - 1]) else a
  }

  /** `order` and `m` are the `Map` that grouping `s` by `key` builds. */
  ghost predicate Grouped<T, K(!new), A>(order: seq<K>, m: map<K, A>, s: seq<T>, key: T -> K, zero: A, add: (A, T) -> A)
  {
    GroupedKeys(order, m, MapSeq(s, key)) && GroupedValues(m, s, key, zero, add)
  }

  /** The keys in first-seen order, and the map holds exactly them. */
  ghost predicate GroupedKeys<K(!new), A>(order: seq<K>, m: map<K, A>, ks: seq<K>)
  {
    order == Dedup(ks) && (forall k :: k in m <==> k in ks)
  }

  /** Each key holds its group's accumulator. */
  ghost predicate GroupedValues<T, K(!new), A>(m: map<K, A>, s: seq<T>, key: T -> K, zero: A, add: (A, T) -> A)
  {
    forall k :: k in m ==> m[k] == GroupFold(s, key, k, zero, add)
  }

  /** A key no element has keeps the starting accumulator. */
  lemma {:induction false} GroupFoldAbsent<T, K(!new), A>(s: seq<T>, key: T -> K, k: K, zero: A, add: (A, T) -> A)
    requires k !in MapSeq(s, key)
    ensures GroupFold(s, key, k, zero, add) == zero
  {
    if s != [] {
      var t := s[..|s| - 1];
      assert s == t + [s[|s| - 1]];
      MapSeqPush(t, s[|s| - 1], key);
      GroupFoldAbsent(t, key, k, zero, add);
    }
  }

  /** One more element changes only its own group's accumulator. */
  lemma GroupFoldSnoc<T, K(!new), A>(s: seq<T>, key: T -> K, zero: A, add: (A, T) -> A, x: T)
    ensures forall k {:trigger GroupFold(s + [x], key, k, zero, add)} ::
      var a := GroupFold(s, key, k, zero, add);
      GroupFold(s + [x], key, k, zero, add) == if key(x) == k then add(a, x) else a
  {
    assert (s + [x])[..|s|] == s;
  }

  /** The keys part of a grouping step: the key is appended the first time it is seen. */
  lemma GroupKeysStep<K(!new), A>(order: seq<K>, m: map<K, A>, ks: seq<K>, k: K, a: A)
    requires GroupedKeys(order, m, ks)
    ensures GroupedKeys(if k in m then order else order + [k], m[k := a], ks + [k])
  {
    DedupSnoc(ks, k);
  }

  /** The values part of a grouping step: only the element's own group takes it in. */
  lemma GroupValuesStep<T, K(!new), A>(m: map<K, A>, s: seq<T>, key: T -> K, zero: A, add: (A, T) -> A, x: T)
    requires GroupedKeys(Dedup(MapSeq(s, key)), m, MapSeq(s, key))
    requires GroupedValues(m, s, key, zero, add)
    ensures GroupedValues(m[key(x) := add(if key(x) in m then m[key(x)] else zero, x)], s + [x], key, zero, add)
  {
    GroupFoldSnoc(s, key, zero, add, x);
    if key(x) !in m {
      GroupFoldAbsent(s, key, key(x), zero, add);
    }
  }

  /** One turn of the grouping loop keeps the map equal to the grouping of the prefix. */
  lemma GroupStep<T, K(!new), A>(order: seq<K>, m: map<K, A>, s: seq<T>, key: T -> K, zero: A, add: (A, T) -> A, x: T)
    requires Grouped(order, m, s, key, zero, add)
    ensures Grouped(if key(x) in m then order else order + [key(x)],
                    m[key(x) := add(if key(x) in m then m[key(x)] else zero, x)],
                    s + [x], key, zero, add)
  {
    MapSeqPush(s, x, key);
    GroupKeysStep(order, m, MapSeq(s, key), key(x), add(if key(x) in m then m[key(x)] else zero, x));
    GroupValuesStep(m, s, key, zero, add, x);
  }

  /** The grouping loop: every element is added to its key's accumulator, in list order. */
  method GroupBy<T, K(!new), A>(s: seq<T>, key: T -> K, zero: A, add: (A, T) -> A) returns (order: seq<K>, m: map<K, A>)
    ensures Grouped(order, m, s, key, zero, add)
  {
    order, m := [], map[];
    for i := 0 to |s|
      invariant Grouped(order, m, s[..i], key, zero, add)
    {
      var k := key(s[i]);
      var a := if k in m then m[k] else zero;
      GroupStep(order, m, s[..i], key, zero, add, s[i]);
      if k !in m {
        order := order + [k];
      }
      m := m[k := add(a, s[i])];
      assert s[..i + 1] == s[..i] + [s[i]];
    }
    assert s[..|s|] == s;
  }

  /** `[...m.entries()].map(([k, a]) => row(k, a))`, reading the map. */
  function RowFrom<K, A, R>(m: map<K, A>, zero: A, row: (K, A) -> R): K -> R
  {
    k => row(k, if k in m then m[k] else zero)
  }

  /** The same rows, read from the grouping itself. */
  function RowFold<T, K(==), A, R>(s: seq<T>, key: T -> K, zero: A, add: (A, T) -> A, row: (K, A) -> R): K -> R
  {
    k => row(k, GroupFold(s, key, k, zero, add))
  }

  /** The rows of a grouped map are the rows of the grouping, one per distinct key in first-seen order. */
  lemma GroupRows<T, K(!new), A, R>(order: seq<K>, m: map<K, A>, s: seq<T>, key: T -> K, zero: A, add: (A, T) -> A, row: (K, A) -> R)
    requires Grouped(order, m, s, key, zero, add)
    ensures MapSeq(order, RowFrom(m, zero, row)) == MapSeq(Dedup(MapSeq(s, key)), RowFold(s, key, zero, add, row))
  {
    forall i | 0 <= i < |order|
      ensures RowFrom(m, zero, row)(order[i]) == RowFold(s, key, zero, add, row)(order[i])
    {
      assert order[i] in MapSeq(s, key);
    }
    MapSeqExt(order, RowFrom(m, zero, row), RowFold(s, key, zero, add, row));
  }

  /** An accumulator that counts: a group's count is the number of its elements. */
  lemma {:induction false} GroupFoldCount<T, K(!new), A>(s: seq<T>, key: T -> K, k: K, zero: A, add: (A, T) -> A, count: A -> int)
    requires count(zero) == 0
    requires forall a, x :: count(add(a, x)) == count(a) + 1
    ensures count(GroupFold(s, key, k, zero, add)) == multiset(MapSeq(s, key))[k]
  {
    if s != [] {
      var t := s[..|s| - 1];
      var x := s[|s| - 1];
      assert s == t + [x];
      GroupFoldCount(t, key, k, zero, add, count);
      MapSeqPush(t, x, key);
      assert multiset(MapSeq(t, key) + [key(x)]) == multiset(MapSeq(t, key)) + multiset{key(x)};
    }
  }

  /** The weight `w` on the elements with key `k`, zero elsewhere. */
  function KeyWeight<T, K(==)>(key: T -> K, k: K, w: T -> real): T -> real
  {
    x => if key(x) == k then w(x) else 0.0
  }

  /** Elements with key `k`. */
  function HasKey<T, K(==)>(key: T -> K, k: K): T -> bool
  {
    x => key(x) == k
  }

  /** An accumulator that sums `w`: a group's sum is the sum of `w` over its elements. */
  lemma {:induction false} GroupFoldSum<T(!new), K(!new), A>(s: seq<T>, key: T -> K, k: K, zero: A, add: (A, T) -> A, sum: A -> real, w: T -> real)
    requires sum(zero) == 0.0
    requires forall a, x :: sum(add(a, x)) == sum(a) + w(x)
    ensures sum(GroupFold(s, key, k, zero, add)) == RealSumOf(Filter(s, HasKey(key, k)), w)
  {
    GroupFoldWeight(s, key, k, zero, add, sum, w);
    RealSumOfFilter(s, HasKey(key, k), w, KeyWeight(key, k, w));
  }

  lemma {:induction false} GroupFoldWeight<T, K(!new), A>(s: seq<T>, key: T -> K, k: K, zero: A, add: (A, T) -> A, sum: A -> real, w: T -> real)
    requires sum(zero) == 0.0
    requires forall a, x :: sum(add(a, x)) == sum(a) + w(x)
    ensures sum(GroupFold(s, key, k, zero, add)) == RealSumOf(s, KeyWeight(key, k, w))
  {
    if s != [] {
      var t := s[..|s| - 1];
      var x := s[|s| - 1];
      assert s == t + [x];
      GroupFoldWeight(t, key, k, zero, add, sum, w);
      RealSumOfSnoc(t, x, KeyWeight(key, k, w));
    }
  }
}
