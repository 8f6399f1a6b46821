/**
 * `Array.prototype.sort(cmp)`, which is stable: modelled as insertion sort,
 * the stable sort that places each element before every later element it
 * does not compare greater than.
 */
module Sorting {
  import Strings
  import opened Seqs

  /** `cmp` is a comparator `sort` can rely on: sign-antisymmetric and transitive. */
  ghost predicate Consistent<T(!new)>(cmp: (T, T) -> int)
  {
    (forall a, b :: cmp(a, b) < 0 <==> cmp(b, a) > 0) &&
    (forall a, b, c :: cmp(a, b) <= 0 && cmp(b, c) <= 0 ==> cmp(a, c) <= 0)
  }

  /** Every element compares at most equal to every element after it. */
  ghost predicate Sorted<T>(s: seq<T>, cmp: (T, T) -> int)
  {
    forall i, j :: 0 <= i < j < |s| ==> cmp(s[i], s[j]) <= 0
  }

  /** Puts `x` before the first element of `s` that is not smaller than it. */
  function Insert<T(==)>(x: T, s: seq<T>, cmp: (T, T) -> int): (r: seq<T>)
    ensures multiset(r) == multiset(s) + multiset{x}
  {
    if s == [] || cmp(s[0], x) >= 0 then [x] + s
    else
      assert s == [s[0]] + s[1..];
      [s[0]] + Insert(x, s[1..], cmp)
  }

  /** `s.slice().sort(cmp)`: a permutation of `s`. */
  function Sort<T(==)>(s: seq<T>, cmp: (T, T) -> int): (r: seq<T>)
    ensures multiset(r) == multiset(s)
    ensures |r| == |s|
  {
    if s == [] then []
    else
      assert s == [s[0]] + s[1..];
      var r := Insert(s[0], Sort(s[1..], cmp), cmp);
      assert |r| == |multiset(r)|;
      r
  }

  lemma {:induction false} InsertSorted<T(!new)>(x: T, s: seq<T>, cmp: (T, T) -> int)
    requires Consistent(cmp) && Sorted(s, cmp)
    ensures Sorted(Insert(x, s, cmp), cmp)
  {
    if s == [] {
    } else if cmp(s[0], x) >= 0 {
      assert cmp(x, s[0]) <= 0;
      forall y | y in s ensures cmp(x, y) <= 0 {
        SortedHeadLeast(s, cmp, y);
      }
      SortedCons(x, s, cmp);
    } else {
      var t := Insert(x, s[1..], cmp);
      SortedTail(s, cmp);
      InsertSorted(x, s[1..], cmp);
      forall y | y in t ensures cmp(s[0], y) <= 0 {
        assert y in multiset(t);
        if y != x {
          assert y in multiset(s[1..]);
          SortedHeadLeast(s, cmp, y);
        }
      }
      SortedCons(s[0], t, cmp);
      assert Insert(x, s, cmp) == [s[0]] + t;
    }
  }

  /** A head at most equal to every element of a sorted tail keeps it sorted. */
  lemma SortedCons<T>(x: T, rest: seq<T>, cmp: (T, T) -> int)
    requires Sorted(rest, cmp)
    requires forall y :: y in rest ==> cmp(x, y) <= 0
    ensures Sorted([x] + rest, cmp)
  {
    var r := [x] + rest;
    forall i, j | 0 <= i < j < |r| ensures cmp(r[i], r[j]) <= 0 {
      assert r[j] == rest[j - 1] && r[j] in rest;
      if i > 0 {
        assert r[i] == rest[i - 1];
      }
    }
  }

  /** With a consistent comparator the result is in order. */
  lemma {:induction false} SortSorted<T(!new)>(s: seq<T>, cmp: (T, T) -> int)
    requires Consistent(cmp)
    ensures Sorted(Sort(s, cmp), cmp)
  {
    if s != [] {
      SortSorted(s[1..], cmp);
      InsertSorted(s[0], Sort(s[1..], cmp), cmp);
    }
  }

  /** Stability at work: a sequence that is already in order is left as it is. */
  lemma {:induction false} SortKeepsSorted<T(!new)>(s: seq<T>, cmp: (T, T) -> int)
    requires Consistent(cmp) && Sorted(s, cmp)
    ensures Sort(s, cmp) == s
  {
    if s != [] {
      SortedTail(s, cmp);
      SortKeepsSorted(s[1..], cmp);
      if |s| > 1 {
        assert cmp(s[0], s[1]) <= 0;
        assert cmp(s[1], s[0]) >= 0;
        assert s[1..][0] == s[1];
      }
    }
  }

  lemma SortedTail<T>(s: seq<T>, cmp: (T, T) -> int)
    requires s != [] && Sorted(s, cmp)
    ensures Sorted(s[1..], cmp)
  {
    forall p, q | 0 <= p < q < |s[1..]| ensures cmp(s[1..][p], s[1..][q]) <= 0 {
      assert s[1..][p] == s[p + 1] && s[1..][q] == s[q + 1];
    }
  }

  /** Dropping elements from a sorted sequence leaves it sorted. */
  lemma {:induction false} FilterSorted<T(!new)>(s: seq<T>, p: T -> bool, cmp: (T, T) -> int)
    requires Sorted(s, cmp)
    ensures Sorted(Filter(s, p), cmp)
  {
    if s != [] {
      var rest := Filter(s[1..], p);
      SortedTail(s, cmp);
      FilterSorted(s[1..], p, cmp);
      forall k | 0 <= k < |rest| ensures cmp(s[0], rest[k]) <= 0 {
        assert rest[k] in rest;
        var j :| 0 <= j < |s[1..]| && s[1..][j] == rest[k];
        assert s[j + 1] == rest[k];
      }
      if p(s[0]) {
        var r := [s[0]] + rest;
        assert Filter(s, p) == r;
        forall i, j | 0 <= i < j < |r| ensures cmp(r[i], r[j]) <= 0 {
          assert r[j] == rest[j - 1];
          if i > 0 {
            assert r[i] == rest[i - 1];
          }
        }
      } else {
        assert Filter(s, p) == rest;
      }
    }
  }

  /** The first element of a sorted sequence compares at most equal to every element of it. */
  lemma SortedHeadLeast<T(!new)>(s: seq<T>, cmp: (T, T) -> int, x: T)
    requires Consistent(cmp) && s != [] && Sorted(s, cmp) && x in s
    ensures cmp(s[0], x) <= 0
  {
    var i :| 0 <= i < |s| && s[i] == x;
    assert cmp(x, x) < 0 <==> cmp(x, x) > 0;
  }

  lemma TailMultiset<T>(a: seq<T>, b: seq<T>)
    requires a != [] && b != [] && a[0] == b[0] && multiset(a) == multiset(b)
    ensures multiset(a[1..]) == multiset(b[1..])
  {
    assert a == [a[0]] + a[1..] && b == [b[0]] + b[1..];
    assert multiset(a) == multiset{a[0]} + multiset(a[1..]);
    assert multiset(b) == multiset{a[0]} + multiset(b[1..]);
    forall y ensures multiset(a[1..])[y] == multiset(b[1..])[y] {
      assert multiset(a)[y] == multiset{a[0]}[y] + multiset(a[1..])[y];
      assert multiset(b)[y] == multiset{a[0]}[y] + multiset(b[1..])[y];
    }
  }

  /** Two sorted permutations are equal when the comparator only ties equal values. */
  lemma {:induction false} SortedUnique<T(!new)>(a: seq<T>, b: seq<T>, cmp: (T, T) -> int)
    requires Consistent(cmp)
    requires forall x, y :: cmp(x, y) == 0 ==> x == y
    requires Sorted(a, cmp) && Sorted(b, cmp) && multiset(a) == multiset(b)
    ensures a == b
  {
    if a != [] {
      assert |b| == |multiset(b)| == |multiset(a)| == |a|;
      assert a[0] in multiset(b) && b[0] in multiset(a);
      SortedHeadLeast(b, cmp, a[0]);
      SortedHeadLeast(a, cmp, b[0]);
      assert a[0] == b[0];
      TailMultiset(a, b);
      SortedTail(a, cmp);
      SortedTail(b, cmp);
      SortedUnique(a[1..], b[1..], cmp);
    }
  }
  /** No two elements of `s` share a key. */
  ghost predicate DistinctKeys<T, K>(s: seq<T>, key: T -> K)
  {
    forall i, j :: 0 <= i < j < |s| ==> key(s[i]) != key(s[j])
  }

  lemma {:induction false} InsertDistinct<T, K>(x: T, s: seq<T>, cmp: (T, T) -> int, key: T -> K)
    requires DistinctKeys(s, key) && forall y :: y in s ==> key(y) != key(x)
    ensures DistinctKeys(Insert(x, s, cmp), key)
  {
    if s != [] && cmp(s[0], x) < 0 {
      var t := Insert(x, s[1..], cmp);
      assert DistinctKeys(s[1..], key) by {
        forall i, j | 0 <= i < j < |s[1..]| ensures key(s[1..][i]) != key(s[1..][j]) {
          assert s[1..][i] == s[i + 1] && s[1..][j] == s[j + 1];
        }
      }
      InsertDistinct(x, s[1..], cmp, key);
      forall j | 0 <= j < |t| ensures key(t[j]) != key(s[0]) {
        assert t[j] in multiset(t);
        if t[j] != x {
          assert t[j] in multiset(s[1..]);
          var k :| 0 <= k < |s[1..]| && s[1..][k] == t[j];
          assert s[k + 1] == t[j];
        }
      }
      assert Insert(x, s, cmp) == [s[0]] + t;
    }
  }

  /** Sorting never makes two elements share a key: it only reorders them. */
  lemma {:induction false} SortDistinct<T, K>(s: seq<T>, cmp: (T, T) -> int, key: T -> K)
    requires DistinctKeys(s, key)
    ensures DistinctKeys(Sort(s, cmp), key)
  {
    if s != [] {
      var r := Sort(s[1..], cmp);
      assert DistinctKeys(s[1..], key) by {
        forall i, j | 0 <= i < j < |s[1..]| ensures key(s[1..][i]) != key(s[1..][j]) {
          assert s[1..][i] == s[i + 1] && s[1..][j] == s[j + 1];
        }
      }
      SortDistinct(s[1..], cmp, key);
      forall y | y in r ensures key(y) != key(s[0]) {
        assert y in multiset(r);
        var k :| 0 <= k < |s[1..]| && s[1..][k] == y;
        assert s[k + 1] == y;
      }
      InsertDistinct(s[0], r, cmp, key);
    }
  }
  /** Each element of `s` has a place in the sorted copy. */
  lemma SortHas<T>(s: seq<T>, cmp: (T, T) -> int, j: nat) returns (k: nat)
    requires j < |s|
    ensures k < |Sort(s, cmp)| && Sort(s, cmp)[k] == s[j]
  {
    assert s[j] in multiset(Sort(s, cmp));
    k :| 0 <= k < |Sort(s, cmp)| && Sort(s, cmp)[k] == s[j];
  }

  /** Each element of the sorted copy comes from `s`. */
  lemma SortFrom<T>(s: seq<T>, cmp: (T, T) -> int, k: nat) returns (j: nat)
    requires k < |Sort(s, cmp)|
    ensures j < |s| && s[j] == Sort(s, cmp)[k]
  {
    assert Sort(s, cmp)[k] in multiset(s);
    j :| 0 <= j < |s| && s[j] == Sort(s, cmp)[k];
  }

  /** Filtering keeps keys distinct. */
  lemma {:induction false} FilterDistinctKeys<T(!new), K>(s: seq<T>, p: T -> bool, key: T -> K)
    requires DistinctKeys(s, key)
    ensures DistinctKeys(Filter(s, p), key)
  {
    if s != [] {
      var rest := Filter(s[1..], p);
      DistinctTail(s, key);
      FilterDistinctKeys(s[1..], p, key);
      if p(s[0]) {
        assert Filter(s, p) == [s[0]] + rest;
        DistinctCons(s[0], rest, key);
      } else {
        assert Filter(s, p) == rest;
      }
    }
  }

  /** The tail of a list with distinct keys has distinct keys, none of them the head's. */
  lemma DistinctTail<T, K>(s: seq<T>, key: T -> K)
    requires s != [] && DistinctKeys(s, key)
    ensures DistinctKeys(s[1..], key)
    ensures forall y :: y in s[1..] ==> key(y) != key(s[0])
  {
    var t := s[1..];
    forall i, j | 0 <= i < j < |t| ensures key(t[i]) != key(t[j]) {
      assert t[i] == s[i + 1] && t[j] == s[j + 1];
    }
    forall y | y in t ensures key(y) != key(s[0]) {
      var j :| 0 <= j < |t| && t[j] == y;
      assert s[j + 1] == y;
    }
  }

  /** A head whose key no element of the tail has keeps the keys distinct. */
  lemma DistinctCons<T, K>(x: T, rest: seq<T>, key: T -> K)
    requires DistinctKeys(rest, key)
    requires forall y :: y in rest ==> key(y) != key(x)
    ensures DistinctKeys([x] + rest, key)
  {
    var r := [x] + rest;
    forall i, j | 0 <= i < j < |r| ensures key(r[i]) != key(r[j]) {
      assert r[j] == rest[j - 1] && r[j] in rest;
      if i > 0 {
        assert r[i] == rest[i - 1];
      }
    }
  }

  /** The set of the elements' keys. */
  function KeySet<T(==), K>(s: seq<T>, key: T -> K): set<K>
  {
    set x | x in s :: key(x)
  }

  /** The keys of elements with distinct keys are as many as the elements. */
  lemma {:induction false} KeySetSize<T, K>(s: seq<T>, key: T -> K)
    requires DistinctKeys(s, key)
    ensures |KeySet(s, key)| == |s|
  {
    if s != [] {
      var t := s[1..];
      assert DistinctKeys(t, key) by {
        forall i, j | 0 <= i < j < |t| ensures key(t[i]) != key(t[j]) {
          assert t[i] == s[i + 1] && t[j] == s[j + 1];
        }
      }
      KeySetSize(t, key);
      assert key(s[0]) !in KeySet(t, key) by {
        forall x | x in t ensures key(x) != key(s[0]) {
          var j :| 0 <= j < |t| && t[j] == x;
          assert s[j + 1] == x;
        }
      }
      assert s == [s[0]] + t;
      assert KeySet(s, key) == KeySet(t, key) + {key(s[0])};
    }
  }

  /** Sorting rows made from keys: every row comes from a key. */
  lemma SortMapSeqFrom<A, B>(keys: seq<A>, g: A -> B, cmp: (B, B) -> int, i: nat) returns (k: nat)
    requires i < |Sort(MapSeq(keys, g), cmp)|
    ensures k < |keys| && Sort(MapSeq(keys, g), cmp)[i] == g(keys[k])
  {
    k := SortFrom(MapSeq(keys, g), cmp, i);
    MapSeqAt(keys, g, k);
  }

  /** Sorting rows made from keys: every key has its row. */
  lemma SortMapSeqHas<A, B>(keys: seq<A>, g: A -> B, cmp: (B, B) -> int, k: nat) returns (i: nat)
    requires k < |keys|
    ensures i < |Sort(MapSeq(keys, g), cmp)| && Sort(MapSeq(keys, g), cmp)[i] == g(keys[k])
  {
    MapSeqAt(keys, g, k);
    i := SortHas(MapSeq(keys, g), cmp, k);
  }

  /** Rows made from distinct keys, each row naming its key, keep distinct keys once sorted. */
  lemma SortMapSeqDistinct<A, B>(keys: seq<A>, g: A -> B, cmp: (B, B) -> int, key: B -> A)
    requires forall i, j :: 0 <= i < j < |keys| ==> keys[i] != keys[j]
    requires forall a :: key(g(a)) == a
    ensures DistinctKeys(Sort(MapSeq(keys, g), cmp), key)
  {
    var rows := MapSeq(keys, g);
    forall i, j | 0 <= i < j < |rows| ensures key(rows[i]) != key(rows[j]) {
      MapSeqAt(keys, g, i);
      MapSeqAt(keys, g, j);
    }
    SortDistinct(rows, cmp, key);
  }

  /** A sequence whose neighbours are in order is in order. */
  lemma {:induction false} AdjacentSorted<T(!new)>(s: seq<T>, cmp: (T, T) -> int)
    requires Consistent(cmp)
    requires forall i :: 0 <= i < |s| - 1 ==> cmp(s[i], s[i + 1]) <= 0
    ensures Sorted(s, cmp)
  {
    if |s| > 1 {
      var t := s[1..];
      assert forall i :: 0 <= i < |t| ==> t[i] == s[i + 1];
      AdjacentSorted(t, cmp);
      forall i, j | 0 <= i < j < |s| ensures cmp(s[i], s[j]) <= 0 {
        if i == 0 && j > 1 {
          assert cmp(t[0], t[j - 1]) <= 0;
        } else if i > 0 {
          assert cmp(t[i - 1], t[j - 1]) <= 0;
        }
      }
    }
  }

  /** Code-unit order on strings, the order of `sort()` without a comparator. */
  lemma CompareConsistent()
    ensures Consistent(Strings.Compare)
  {
    forall a, b ensures Strings.Compare(a, b) < 0 <==> Strings.Compare(b, a) > 0 {
      Strings.CompareAntisymmetric(a, b);
    }
    forall a, b, c | Strings.Compare(a, b) <= 0 && Strings.Compare(b, c) <= 0 ensures Strings.Compare(a, c) <= 0 {
      Strings.CompareTransitive(a, b, c);
    }
  }

  lemma {:induction false} InsertSumOf<T>(x: T, s: seq<T>, cmp: (T, T) -> int, w: T -> int)
    ensures SumOf(Insert(x, s, cmp), w) == w(x) + SumOf(s, w)
  {
    assert SumOf([x], w) == w(x) by {
      assert [x][..0] == [];
    }
    if s == [] || cmp(s[0], x) >= 0 {
      SumOfAppend([x], s, w);
    } else {
      assert SumOf([s[0]], w) == w(s[0]) by {
        assert [s[0]][..0] == [];
      }
      InsertSumOf(x, s[1..], cmp, w);
      SumOfAppend([s[0]], Insert(x, s[1..], cmp), w);
      assert s == [s[0]] + s[1..];
      SumOfAppend([s[0]], s[1..], w);
    }
  }

  /** Sorting keeps every sum over the elements. */
  lemma {:induction false} SortSumOf<T>(s: seq<T>, cmp: (T, T) -> int, w: T -> int)
    ensures SumOf(Sort(s, cmp), w) == SumOf(s, w)
  {
    if s != [] {
      SortSumOf(s[1..], cmp, w);
      InsertSumOf(s[0], Sort(s[1..], cmp), cmp, w);
      assert SumOf([s[0]], w) == w(s[0]) by {
        assert [s[0]][..0] == [];
      }
      assert s == [s[0]] + s[1..];
      SumOfAppend([s[0]], s[1..], w);
    }
  }
}
