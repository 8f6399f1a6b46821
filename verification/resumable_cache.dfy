/**
 * A cache filled key by key from a slow source and saved as it goes, so
 * that an interrupted run can be resumed: a run fetches only the keys the
 * cache lacks, and a key stored with an empty result counts as done.
 */
module ResumableCache {
  /** The keys the cache lacks, in order: `keys.filter(k => !(k in cache))`. */
  function Pending<V>(keys: seq<string>, cache: map<string, V>): (r: seq<string>)
    ensures forall k :: k in r <==> k in keys && k !in cache
    ensures |r| <= |keys|
  {
    if keys == [] then []
    else
      var n := |keys| - 1;
      assert keys == keys[..n] + [keys[n]];
      Pending(keys[..n], cache) + (if keys[n] !in cache then [keys[n]] else [])
  }

  /** The cache after each of `keys`, in order, has been stored with its fetched value. */
  function Filled<V>(cache: map<string, V>, keys: seq<string>, fetch: string -> V): map<string, V>
  {
    if keys == [] then cache
    else Filled(cache, keys[..|keys| - 1], fetch)[keys[|keys| - 1] := fetch(keys[|keys| - 1])]
  }

  /** One more key stored. */
  lemma FilledStep<V>(cache: map<string, V>, keys: seq<string>, fetch: string -> V, i: nat)
    requires i < |keys|
    ensures Filled(cache, keys[..i + 1], fetch) == Filled(cache, keys[..i], fetch)[keys[i] := fetch(keys[i])]
  {
    assert keys[..i + 1][..i] == keys[..i];
  }

  /** The caches a run has saved after its first `i` keys when it saves after every `every` keys. */
  function SavePoints<V>(cache: map<string, V>, keys: seq<string>, fetch: string -> V, every: nat, i: nat): (r: seq<map<string, V>>)
    requires 0 < every && i <= |keys|
    ensures |r| == i / every
  {
    seq(i / every, k requires 0 <= k < i / every => (DivBound(i, every, k); Filled(cache, keys[..every * (k + 1)], fetch)))
  }

  lemma DivBound(i: nat, every: nat, k: nat)
    requires 0 < every && k < i / every
    ensures every * (k + 1) <= i
  {
    assert every * (k + 1) <= every * (i / every);
  }

  /** One more key stored: a save is added when the count of stored keys reaches a multiple of `every`. */
  lemma SavePointsStep<V>(cache: map<string, V>, keys: seq<string>, fetch: string -> V, every: nat, i: nat)
    requires 0 < every && i < |keys|
    ensures SavePoints(cache, keys, fetch, every, i + 1) == SavePoints(cache, keys, fetch, every, i)
      + (if (i + 1) % every == 0 then [Filled(cache, keys[..i + 1], fetch)] else [])
  {
    var q, r := i / every, i % every;
    if r + 1 < every {
      DivModUnique(i + 1, every, q, r + 1);
    } else {
      DivModUnique(i + 1, every, q + 1, 0);
      var before := SavePoints(cache, keys, fetch, every, i);
      var after := SavePoints(cache, keys, fetch, every, i + 1);
      assert every * (q + 1) == i + 1;
      assert after[q] == Filled(cache, keys[..i + 1], fetch);
      assert after[..q] == before;
    }
  }

  /** The quotient and remainder of a division are the only ones that fit. */
  lemma DivModUnique(a: nat, d: nat, q: nat, r: nat)
    requires 0 < d && a == d * q + r && r < d
    ensures a / d == q && a % d == r
  {
    var q', r' := a / d, a % d;
    assert d * q' + r' == d * q + r;
    MulBetween(d, q - q');
  }

  lemma MulBetween(d: int, t: int)
    requires 0 < d && -d < d * t < d
    ensures t == 0
  {
  }

  /** A stored key holds its fetched value, and every other key keeps its cached value. */
  lemma {:induction false} FilledAt<V>(cache: map<string, V>, keys: seq<string>, fetch: string -> V, k: string)
    ensures k in Filled(cache, keys, fetch) <==> k in cache || k in keys
    ensures k in keys ==> Filled(cache, keys, fetch)[k] == fetch(k)
    ensures k !in keys && k in cache ==> Filled(cache, keys, fetch)[k] == cache[k]
  {
    if keys != [] {
      var n := |keys| - 1;
      FilledAt(cache, keys[..n], fetch, k);
      assert keys == keys[..n] + [keys[n]];
    }
  }

  /** After a run has fetched every pending key, nothing is pending: a rerun fetches nothing. */
  lemma NothingPending<V>(keys: seq<string>, cache: map<string, V>, fetch: string -> V)
    ensures Pending(keys, Filled(cache, Pending(keys, cache), fetch)) == []
  {
    var after := Filled(cache, Pending(keys, cache), fetch);
    var rest := Pending(keys, after);
    if rest != [] {
      FilledAt(cache, Pending(keys, cache), fetch, rest[0]);
    }
  }

  /**
   * A run that stops after any number of fetches, saving what it has, and
   * is then run again, ends with the same cache as a run that was never
   * interrupted.
   */
  lemma ResumeEquivalent<V>(keys: seq<string>, cache: map<string, V>, fetch: string -> V, j: nat)
    requires j <= |Pending(keys, cache)|
    ensures var saved := Filled(cache, Pending(keys, cache)[..j], fetch);
      Filled(saved, Pending(keys, saved), fetch) == Filled(cache, Pending(keys, cache), fetch)
  {
    var todo := Pending(keys, cache);
    var saved := Filled(cache, todo[..j], fetch);
    var resumed := Filled(saved, Pending(keys, saved), fetch);
    var whole := Filled(cache, todo, fetch);
    forall k | true
      ensures k in resumed <==> k in whole
      ensures k in resumed ==> resumed[k] == whole[k]
    {
      ResumeAt(keys, cache, fetch, j, k);
    }
  }

  /** The key-by-key half of `ResumeEquivalent`. */
  lemma ResumeAt<V>(keys: seq<string>, cache: map<string, V>, fetch: string -> V, j: nat, k: string)
    requires j <= |Pending(keys, cache)|
    ensures var saved := Filled(cache, Pending(keys, cache)[..j], fetch);
      var resumed := Filled(saved, Pending(keys, saved), fetch);
      var whole := Filled(cache, Pending(keys, cache), fetch);
      (k in resumed <==> k in whole) && (k in resumed ==> resumed[k] == whole[k])
  {
    var todo := Pending(keys, cache);
    var saved := Filled(cache, todo[..j], fetch);
    FilledAt(cache, todo[..j], fetch, k);
    FilledAt(saved, Pending(keys, saved), fetch, k);
    FilledAt(cache, todo, fetch, k);
    if k in todo[..j] {
      assert k in todo;
    }
  }
}
