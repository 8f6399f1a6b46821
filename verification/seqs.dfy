/** Small facts about prefixes, stated once so that loops can cite them. */
module Seqs {
  import opened Wrappers

  lemma PrefixSnoc<T>(s: seq<T>, i: nat)
    requires i < |s|
    ensures s[..i + 1] == s[..i] + [s[i]] && s[..i + 1][..i] == s[..i]
  {
  }

  lemma PrefixAll<T>(s: seq<T>)
    ensures s[..|s|] == s
  {
  }

  /** One more element counted. */
  lemma MultisetStep<T>(s: seq<T>, i: nat)
    requires i < |s|
    ensures multiset(s[..i + 1]) == multiset(s[..i]) + multiset{s[i]}
  {
    assert s[..i + 1] == s[..i] + [s[i]];
  }

  /** One more element counted, for one value. */
  lemma MultisetCountStep<T>(s: seq<T>, i: nat, x: T)
    requires i < |s|
    ensures multiset(s[..i + 1])[x] == multiset(s[..i])[x] + (if s[i] == x then 1 else 0)
  {
    MultisetStep(s, i);
  }

  /** `s.map(f)`. */
  function MapSeq<A, B>(s: seq<A>, f: A -> B): (r: seq<B>)
    ensures |r| == |s|
  {
    if s == [] then [] else MapSeq(s[..|s| - 1], f) + [f(s[|s| - 1])]
  }

  lemma {:induction false} MapSeqAt<A, B>(s: seq<A>, f: A -> B, i: nat)
    requires i < |s|
    ensures MapSeq(s, f)[i] == f(s[i])
  {
    var n := |s| - 1;
    if i < n {
      MapSeqAt(s[..n], f, i);
      assert s[..n][i] == s[i];
    }
  }

  /** One more element mapped. */
  lemma MapSeqSnoc<A, B>(s: seq<A>, f: A -> B, i: nat)
    requires i < |s|
    ensures MapSeq(s[..i + 1], f) == MapSeq(s[..i], f) + [f(s[i])]
  {
    assert s[..i + 1][..i] == s[..i];
  }

  /** `findIndex` from `from` on: the first index whose element satisfies `p`. */
  function FirstWhere<T>(s: seq<T>, p: T -> bool, from: nat): (r: Option<nat>)
    requires from <= |s|
    ensures r.Some? ==> (from <= r.value < |s| && p(s[r.value])
      && forall j :: from <= j < r.value ==> !p(s[j]))
    ensures r.None? ==> forall j :: from <= j < |s| ==> !p(s[j])
    decreases |s| - from
  {
    if from == |s| then None
    else if p(s[from]) then Some(from)
    else FirstWhere(s, p, from + 1)
  }

  /**
   * Trying the `ys` in order from `from` on, the first `y` some `x` hits,
   * with the first `x` that hits it.
   */
  function FirstMatch<A, B>(xs: seq<A>, ys: seq<B>, hit: (A, B) -> bool, from: nat): (r: Option<(nat, nat)>)
    requires from <= |ys|
    ensures r.Some? ==> var (k, j) := r.value;
      && from <= k < |ys| && j < |xs| && hit(xs[j], ys[k])
      && (forall j' :: 0 <= j' < j ==> !hit(xs[j'], ys[k]))
      && (forall k', j' :: from <= k' < k && 0 <= j' < |xs| ==> !hit(xs[j'], ys[k']))
    ensures r.None? ==> forall k, j :: from <= k < |ys| && 0 <= j < |xs| ==> !hit(xs[j], ys[k])
    decreases |ys| - from
  {
    if from == |ys| then None
    else
      match FirstWhere(xs, x => hit(x, ys[from]), 0)
      case Some(j) => Some((from, j))
      case None => FirstMatch(xs, ys, hit, from + 1)
  }

  /** The loop `for (const x of s) out.push(f(x))`. */
  method MapEach<A, B>(s: seq<A>, f: A -> B) returns (out: seq<B>)
    ensures out == MapSeq(s, f)
  {
    out := [];
    for i := 0 to |s|
      invariant out == MapSeq(s[..i], f)
    {
      MapSeqSnoc(s, f, i);
      out := out + [f(s[i])];
    }
    assert s[..|s|] == s;
  }

  /** A prefix of a suffix is an infix. */
  lemma PrefixOfSuffix<T>(s: seq<T>, k: nat, m: nat)
    requires k + m <= |s|
    ensures s[k..][..m] == s[k..k + m]
  {
  }

  /** The distinct elements of `s` in order of first appearance (the keys of a map filled from `s`). */
  function Dedup<T(==,!new)>(s: seq<T>): (r: seq<T>)
    ensures forall x :: x in r <==> x in s
    ensures forall i, j :: 0 <= i < j < |r| ==> r[i] != r[j]
  {
    if s == [] then []
    else
      var n := |s| - 1;
      assert s == s[..n] + [s[n]];
      var d := Dedup(s[..n]);
      if s[n] in d then d else d + [s[n]]
  }

  /** One more element: it is added at the end when it is new. */
  lemma DedupSnoc<T(!new)>(s: seq<T>, x: T)
    ensures Dedup(s + [x]) == if x in s then Dedup(s) else Dedup(s) + [x]
  {
    assert (s + [x])[..|s|] == s;
  }

  /** `s.filter(p)`: the elements that satisfy `p`, in their order. */
  function Filter<T(!new)>(s: seq<T>, p: T -> bool): (r: seq<T>)
    ensures |r| <= |s|
    ensures forall x :: x in r <==> x in s && p(x)
    ensures multiset(r) <= multiset(s)
  {
    if s == [] then []
    else
      assert s == [s[0]] + s[1..];
      (if p(s[0]) then [s[0]] else []) + Filter(s[1..], p)
  }

  /** Both predicates at once. */
  function Both<T>(p: T -> bool, q: T -> bool): T -> bool
  {
    x => p(x) && q(x)
  }

  /** Two filters in a row are one filter by their conjunction. */
  lemma {:induction false} FilterFilter<T(!new)>(s: seq<T>, p: T -> bool, q: T -> bool)
    ensures Filter(Filter(s, p), q) == Filter(s, Both(p, q))
  {
    if s != [] {
      FilterFilter(s[1..], p, q);
      var t := Filter(s, p);
      assert Both(p, q)(s[0]) == (p(s[0]) && q(s[0]));
      var rest := Filter(Filter(s[1..], p), q);
      if p(s[0]) {
        assert t[0] == s[0] && t[1..] == Filter(s[1..], p);
        assert Filter(t, q) == (if q(s[0]) then [s[0]] else []) + rest;
      } else {
        assert t == Filter(s[1..], p);
      }
    }
  }

  /** Filters that agree on every element give the same result. */
  lemma {:induction false} FilterExt<T(!new)>(s: seq<T>, p: T -> bool, q: T -> bool)
    requires forall x :: x in s ==> p(x) == q(x)
    ensures Filter(s, p) == Filter(s, q)
  {
    if s != [] {
      assert s[0] in s;
      assert forall x :: x in s[1..] ==> x in s;
      FilterExt(s[1..], p, q);
    }
  }

  /** A filter every element passes keeps the sequence as it is. */
  lemma {:induction false} FilterAll<T(!new)>(s: seq<T>, p: T -> bool)
    requires forall x :: x in s ==> p(x)
    ensures Filter(s, p) == s
  {
    if s != [] {
      assert s[0] in s;
      assert forall x :: x in s[1..] ==> x in s;
      FilterAll(s[1..], p);
    }
  }

  /** One more element mapped, for a sequence built by appending. */
  lemma MapSeqPush<A, B>(s: seq<A>, x: A, f: A -> B)
    ensures MapSeq(s + [x], f) == MapSeq(s, f) + [f(x)]
  {
    assert (s + [x])[..|s|] == s;
  }

  /** Functions that agree on every element map alike. */
  lemma {:induction false} MapSeqExt<A, B>(s: seq<A>, f: A -> B, g: A -> B)
    requires forall i :: 0 <= i < |s| ==> f(s[i]) == g(s[i])
    ensures MapSeq(s, f) == MapSeq(s, g)
  {
    if s != [] {
      var n := |s| - 1;
      assert forall i :: 0 <= i < n ==> s[..n][i] == s[i];
      MapSeqExt(s[..n], f, g);
    }
  }

  /** `s.reduce((n, x) => n + w(x), 0)`. */
  function SumOf<T>(s: seq<T>, w: T -> int): int
  {
    if s == [] then 0 else SumOf(s[..|s| - 1], w) + w(s[|s| - 1])
  }

  lemma {:induction false} SumOfAppend<T>(a: seq<T>, b: seq<T>, w: T -> int)
    ensures SumOf(a + b, w) == SumOf(a, w) + SumOf(b, w)
  {
    if b == [] {
      assert a + b == a;
    } else {
      var n := |b| - 1;
      assert (a + b)[..|a + b| - 1] == a + b[..n];
      assert (a + b)[|a + b| - 1] == b[n];
      SumOfAppend(a, b[..n], w);
    }
  }

  /** `.slice(0, n)`: the first `n` elements, or all of them when there are fewer. */
  function Take<T>(s: seq<T>, n: nat): (r: seq<T>)
    ensures |r| <= n && |r| <= |s|
    ensures |s| >= n ==> |r| == n
    ensures forall i :: 0 <= i < |r| ==> r[i] == s[i]
  {
    if |s| <= n then s else s[..n]
  }

  /** A sum of weights none of which is negative is not negative. */
  lemma {:induction false} SumOfNonNeg<T>(s: seq<T>, w: T -> int)
    requires forall x :: x in s ==> w(x) >= 0
    ensures SumOf(s, w) >= 0
  {
    if s != [] {
      SumOfNonNeg(s[..|s| - 1], w);
      assert s[|s| - 1] in s;
    }
  }

  /** The running sum of a loop: one more element adds its weight. */
  lemma {:induction false} RealSumOfSnoc<T>(s: seq<T>, x: T, w: T -> real)
    ensures RealSumOf(s + [x], w) == RealSumOf(s, w) + w(x)
  {
    if s != [] {
      assert (s + [x])[1..] == s[1..] + [x];
      RealSumOfSnoc(s[1..], x, w);
    }
  }

  /** The running sum over a prefix: one more element adds its weight. */
  lemma RealSumOfPrefix<T>(s: seq<T>, i: nat, w: T -> real)
    requires i < |s|
    ensures RealSumOf(s[..i + 1], w) == RealSumOf(s[..i], w) + w(s[i])
  {
    assert s[..i + 1] == s[..i] + [s[i]];
    RealSumOfSnoc(s[..i], s[i], w);
  }

  /** Sums of two weights add up to the sum of their total. */
  lemma {:induction false} SumOfAdd<T>(s: seq<T>, f: T -> int, g: T -> int, h: T -> int)
    requires forall x :: h(x) == f(x) + g(x)
    ensures SumOf(s, h) == SumOf(s, f) + SumOf(s, g)
  {
    if s != [] {
      SumOfAdd(s[..|s| - 1], f, g, h);
    }
  }

  /** The counts in `m` of the keys, added up. */
  function CountSum<K>(keys: seq<K>, m: multiset<K>): int
  {
    if keys == [] then 0 else CountSum(keys[..|keys| - 1], m) + m[keys[|keys| - 1]]
  }

  /** One more element counted adds one exactly when its key is listed. */
  lemma {:induction false} CountSumAdd<K>(keys: seq<K>, m: multiset<K>, x: K)
    requires forall i, j :: 0 <= i < j < |keys| ==> keys[i] != keys[j]
    ensures CountSum(keys, m + multiset{x}) == CountSum(keys, m) + (if x in keys then 1 else 0)
  {
    if keys != [] {
      var n := |keys| - 1;
      assert forall i, j :: 0 <= i < j < n ==> keys[..n][i] == keys[i] && keys[..n][j] == keys[j];
      CountSumAdd(keys[..n], m, x);
      assert keys == keys[..n] + [keys[n]];
      if x in keys[..n] {
        var j :| 0 <= j < n && keys[..n][j] == x;
        assert keys[j] == x;
      }
    }
  }

  /** Over the distinct elements of `s`, the counts of `s` add up to its length. */
  lemma {:induction false} DedupCountSum<K(!new)>(s: seq<K>)
    ensures CountSum(Dedup(s), multiset(s)) == |s|
  {
    if s != [] {
      var n := |s| - 1;
      var t, x := s[..n], s[n];
      assert s == t + [x];
      DedupCountSum(t);
      DedupSnoc(t, x);
      CountSumAdd(Dedup(t), multiset(t), x);
      if x !in t {
        assert (Dedup(t) + [x])[..|Dedup(t)|] == Dedup(t);
      }
    }
  }

  /** Summing a weight of the mapped elements is summing counts, when the weight is a count. */
  lemma {:induction false} SumOfMapSeq<A, B>(s: seq<A>, g: A -> B, w: B -> int, m: multiset<A>)
    requires forall x :: w(g(x)) == m[x]
    ensures SumOf(MapSeq(s, g), w) == CountSum(s, m)
  {
    if s != [] {
      var n := |s| - 1;
      SumOfMapSeq(s[..n], g, w, m);
      var t := MapSeq(s, g);
      assert t == MapSeq(s[..n], g) + [g(s[n])];
      assert t[..|t| - 1] == MapSeq(s[..n], g);
    }
  }

  /**
   * A JavaScript `Map` filled by counting `xs` — `m.set(x, (m.get(x) || 0) + 1)`
   * for each element — held as its keys in insertion order and its values by key.
   */
  ghost predicate Tallied<K(!new)>(order: seq<K>, m: map<K, int>, xs: seq<K>)
  {
    order == Dedup(xs) &&
    (forall k :: k in m <==> k in xs) &&
    (forall k :: k in m ==> m[k] == multiset(xs)[k])
  }

  /** Counting one more element: a new key goes last with count 1, a known key counts one more. */
  lemma TalliedStep<K(!new)>(order: seq<K>, m: map<K, int>, xs: seq<K>, x: K, order': seq<K>)
    requires Tallied(order, m, xs)
    requires order' == if x in m then order else order + [x]
    ensures Tallied(order', m[x := (if x in m then m[x] else 0) + 1], xs + [x])
  {
    DedupSnoc(xs, x);
    CountStep(m, xs, x);
  }

  lemma CountStep<K(!new)>(m: map<K, int>, xs: seq<K>, x: K)
    requires forall k :: k in m ==> m[k] == multiset(xs)[k]
    requires forall k :: k in m <==> k in xs
    ensures var m' := m[x := (if x in m then m[x] else 0) + 1];
      forall k :: k in m' ==> m'[k] == multiset(xs + [x])[k]
  {
    assert multiset(xs + [x]) == multiset(xs) + multiset{x};
  }

  /** `s.reduce((n, x) => n + w(x), 0)` on money. */
  function RealSumOf<T>(s: seq<T>, w: T -> real): real
  {
    if s == [] then 0.0 else w(s[0]) + RealSumOf(s[1..], w)
  }

  /** Summing over the filtered elements is summing a weight that is zero off the filter. */
  lemma {:induction false} RealSumOfFilter<T(!new)>(s: seq<T>, p: T -> bool, w: T -> real, v: T -> real)
    requires forall x :: v(x) == if p(x) then w(x) else 0.0
    ensures RealSumOf(Filter(s, p), w) == RealSumOf(s, v)
  {
    if s != [] {
      RealSumOfFilter(s[1..], p, w, v);
      var t := Filter(s, p);
      assert v(s[0]) == if p(s[0]) then w(s[0]) else 0.0;
      if p(s[0]) {
        assert t[0] == s[0] && t[1..] == Filter(s[1..], p);
        assert RealSumOf(t, w) == w(s[0]) + RealSumOf(Filter(s[1..], p), w);
      } else {
        assert t == Filter(s[1..], p);
      }
    }
  }

  /** Sums of two weights add up to the sum of their total. */
  lemma {:induction false} RealSumOfAdd<T>(s: seq<T>, f: T -> real, g: T -> real, h: T -> real)
    requires forall x :: h(x) == f(x) + g(x)
    ensures RealSumOf(s, h) == RealSumOf(s, f) + RealSumOf(s, g)
  {
    if s != [] {
      RealSumOfAdd(s[1..], f, g, h);
    }
  }
}
