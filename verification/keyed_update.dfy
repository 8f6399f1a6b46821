/**
 * A loop over a list of keys that replaces the value under each key by a
 * function of the key and of what it finds there (`m[k] = f(k, m[k])`),
 * writing nothing when the function gives no value. The price scripts are
 * all of this shape: they visit the catalog and rewrite `prices[item.id]`.
 */
module KeyedUpdate {
  import opened Wrappers

  /** `m[k]`, absent as `None`. */
  function Lookup<V>(m: map<string, V>, k: string): (r: Option<V>)
    ensures r.Some? <==> k in m
    ensures r.Some? ==> r.value == m[k]
  {
    if k in m then Some(m[k]) else None
  }

  /** What a step leaves under key `k` that held `o`: the value it writes, or `o` when it writes nothing. */
  function Effect<V>(f: (string, Option<V>) -> Option<V>, k: string, o: Option<V>): Option<V>
  {
    if f(k, o).Some? then f(k, o) else o
  }

  /** One step: store the value `f` computes from the key and what the map holds there, if any. */
  function Update<V>(m: map<string, V>, k: string, f: (string, Option<V>) -> Option<V>): map<string, V>
  {
    var o := f(k, Lookup(m, k));
    if o.Some? then m[k := o.value] else m
  }

  /** The loop: one step per key, in order. */
  function UpdateAll<V>(m: map<string, V>, keys: seq<string>, f: (string, Option<V>) -> Option<V>): map<string, V>
  {
    if keys == [] then m
    else Update(UpdateAll(m, keys[..|keys| - 1], f), keys[|keys| - 1], f)
  }

  lemma UpdateAllStep<V>(m: map<string, V>, keys: seq<string>, f: (string, Option<V>) -> Option<V>, i: nat)
    requires i < |keys|
    ensures UpdateAll(m, keys[..i + 1], f) == Update(UpdateAll(m, keys[..i], f), keys[i], f)
  {
    assert keys[..i + 1][..i] == keys[..i];
  }

  /** A step changes its own key as `Effect` says and no other key. */
  lemma UpdateAt<V>(m: map<string, V>, k: string, f: (string, Option<V>) -> Option<V>, j: string)
    ensures Lookup(Update(m, k, f), j) == if j == k then Effect(f, k, Lookup(m, k)) else Lookup(m, j)
  {
  }

  /** A step is stable when taking it a second time on its own result changes nothing. */
  ghost predicate Stable<V(!new)>(f: (string, Option<V>) -> Option<V>)
  {
    forall k, o :: Effect(f, k, Effect(f, k, o)) == Effect(f, k, o)
  }

  /**
   * With a stable step, the loop's result under each key depends only on
   * whether the key was visited: a visited key holds the step's effect on
   * its original value, however often it was visited, and every other key
   * is untouched.
   */
  lemma {:induction false} UpdateAllAt<V(!new)>(m: map<string, V>, keys: seq<string>, f: (string, Option<V>) -> Option<V>, k: string)
    requires Stable(f)
    ensures Lookup(UpdateAll(m, keys, f), k) == if k in keys then Effect(f, k, Lookup(m, k)) else Lookup(m, k)
  {
    if keys != [] {
      var n := |keys| - 1;
      UpdateAllAt(m, keys[..n], f, k);
      UpdateAt(UpdateAll(m, keys[..n], f), keys[n], f, k);
      assert keys == keys[..n] + [keys[n]];
    }
  }

  /** With a stable step, running the loop a second time changes nothing. */
  lemma UpdateAllTwice<V(!new)>(m: map<string, V>, keys: seq<string>, f: (string, Option<V>) -> Option<V>)
    requires Stable(f)
    ensures UpdateAll(UpdateAll(m, keys, f), keys, f) == UpdateAll(m, keys, f)
  {
    var once := UpdateAll(m, keys, f);
    var twice := UpdateAll(once, keys, f);
    forall k | true
      ensures k in twice <==> k in once
      ensures k in once ==> twice[k] == once[k]
    {
      UpdateAllAt(m, keys, f, k);
      UpdateAllAt(once, keys, f, k);
    }
  }

  /** What the step at position `i` finds under its key. */
  function Found<V>(m: map<string, V>, keys: seq<string>, f: (string, Option<V>) -> Option<V>, i: nat): Option<V>
    requires i < |keys|
  {
    Lookup(UpdateAll(m, keys[..i], f), keys[i])
  }

  /** With a stable step, the first visit of a key finds its original value, and a later one its first visit's effect. */
  lemma FoundAt<V(!new)>(m: map<string, V>, keys: seq<string>, f: (string, Option<V>) -> Option<V>, i: nat)
    requires Stable(f) && i < |keys|
    ensures Found(m, keys, f, i) == if keys[i] in keys[..i] then Effect(f, keys[i], Lookup(m, keys[i])) else Lookup(m, keys[i])
  {
    UpdateAllAt(m, keys[..i], f, keys[i]);
  }
}
