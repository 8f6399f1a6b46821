/**
 * Maps built by one pass over a list of keyed records: the last record per
 * key (`map.set` in a loop) and the records per key in order (a map of
 * arrays that each record is pushed onto).
 */
module KeyIndex {
  /** A map from each key to the last record listed under it. */
  function LastByKey<R>(keys: seq<string>, recs: seq<R>): map<string, R>
    requires |keys| == |recs|
  {
    if recs == [] then map[]
    else LastByKey(keys[..|keys| - 1], recs[..|recs| - 1])[keys[|keys| - 1] := recs[|recs| - 1]]
  }

  /** Each key maps to the last record listed under it, and only listed keys are mapped. */
  lemma {:induction false} LastByKeyLast<R>(keys: seq<string>, recs: seq<R>, k: string)
    requires |keys| == |recs|
    ensures k in LastByKey(keys, recs) <==> k in keys
    ensures k in LastByKey(keys, recs) ==>
      exists i :: 0 <= i < |recs| && keys[i] == k && LastByKey(keys, recs)[k] == recs[i] && k !in keys[i + 1..]
  {
    if recs != [] {
      var n := |recs| - 1;
      var before := LastByKey(keys[..n], recs[..n]);
      assert LastByKey(keys, recs) == before[keys[n] := recs[n]];
      LastByKeyLast(keys[..n], recs[..n], k);
      assert keys == keys[..n] + [keys[n]];
      if keys[n] == k {
        assert keys[n + 1..] == [];
        assert keys[n] == k && LastByKey(keys, recs)[k] == recs[n] && k !in keys[n + 1..];
      } else {
        assert k in keys <==> k in keys[..n];
        if k in before {
          var i :| 0 <= i < n && keys[..n][i] == k && before[k] == recs[..n][i] && k !in keys[..n][i + 1..];
          assert keys[i + 1..] == keys[..n][i + 1..] + [keys[n]];
          assert keys[i] == k && LastByKey(keys, recs)[k] == recs[i] && k !in keys[i + 1..];
        }
      }
    }
  }

  /** One more record listed: its key now maps to it. */
  lemma LastByKeyStep<R>(keys: seq<string>, recs: seq<R>, i: nat)
    requires |keys| == |recs| && i < |recs|
    ensures LastByKey(keys[..i + 1], recs[..i + 1]) == LastByKey(keys[..i], recs[..i])[keys[i] := recs[i]]
  {
    assert keys[..i + 1][..i] == keys[..i] && recs[..i + 1][..i] == recs[..i];
  }

  /** The records listed under `k`, in order. */
  function Group<R>(keys: seq<string>, recs: seq<R>, k: string): (r: seq<R>)
    requires |keys| == |recs|
    ensures forall x :: x in r ==> x in recs
    ensures r != [] <==> k in keys
  {
    if recs == [] then []
    else
      var n := |recs| - 1;
      assert keys == keys[..n] + [keys[n]];
      Group(keys[..n], recs[..n], k) + (if keys[n] == k then [recs[n]] else [])
  }

  /** A record listed under `k` is in the group of `k`. */
  lemma {:induction false} GroupHas<R>(keys: seq<string>, recs: seq<R>, k: string, i: nat)
    requires |keys| == |recs| && i < |recs| && keys[i] == k
    ensures recs[i] in Group(keys, recs, k)
  {
    var n := |recs| - 1;
    if i < n {
      GroupHas(keys[..n], recs[..n], k, i);
    }
  }

  /** Every member of the group of `k` is a record listed under `k`. */
  lemma {:induction false} GroupFrom<R>(keys: seq<string>, recs: seq<R>, k: string, x: R) returns (i: nat)
    requires |keys| == |recs| && x in Group(keys, recs, k)
    ensures i < |recs| && keys[i] == k && recs[i] == x
  {
    var n := |recs| - 1;
    var g := Group(keys[..n], recs[..n], k);
    if x in g {
      i := GroupFrom(keys[..n], recs[..n], k, x);
    } else {
      i := n;
    }
  }

  /** The group of `k` holds exactly the records listed under `k`. */
  lemma GroupMembers<R>(keys: seq<string>, recs: seq<R>, k: string, x: R)
    requires |keys| == |recs|
    ensures x in Group(keys, recs, k) <==> exists i :: 0 <= i < |recs| && keys[i] == k && recs[i] == x
  {
    if x in Group(keys, recs, k) {
      var i := GroupFrom(keys, recs, k, x);
    }
    if exists i :: 0 <= i < |recs| && keys[i] == k && recs[i] == x {
      var i :| 0 <= i < |recs| && keys[i] == k && recs[i] == x;
      GroupHas(keys, recs, k, i);
    }
  }

  /** Grouping keeps list order: the group of a concatenation is the groups of its parts, concatenated. */
  lemma {:induction false} GroupAppend<R>(k1: seq<string>, r1: seq<R>, k2: seq<string>, r2: seq<R>, k: string)
    requires |k1| == |r1| && |k2| == |r2|
    ensures Group(k1 + k2, r1 + r2, k) == Group(k1, r1, k) + Group(k2, r2, k)
  {
    if r2 == [] {
      assert k1 + k2 == k1 && r1 + r2 == r1;
    } else {
      var m := |r2| - 1;
      var n := |r1| + m;
      var last := if k2[m] == k then [r2[m]] else [];
      assert (k1 + k2)[..n] == k1 + k2[..m] && (r1 + r2)[..n] == r1 + r2[..m];
      assert (k1 + k2)[n] == k2[m] && (r1 + r2)[n] == r2[m];
      calc {
        Group(k1 + k2, r1 + r2, k);
        Group(k1 + k2[..m], r1 + r2[..m], k) + last;
        { GroupAppend(k1, r1, k2[..m], r2[..m], k); }
        Group(k1, r1, k) + Group(k2[..m], r2[..m], k) + last;
        Group(k1, r1, k) + Group(k2, r2, k);
      }
    }
  }

  /** A map from each key to the records listed under it, in order. */
  function GroupByKey<R>(keys: seq<string>, recs: seq<R>): map<string, seq<R>>
    requires |keys| == |recs|
  {
    if recs == [] then map[]
    else
      var n := |recs| - 1;
      var idx := GroupByKey(keys[..n], recs[..n]);
      idx[keys[n] := (if keys[n] in idx then idx[keys[n]] else []) + [recs[n]]]
  }

  /** One more record listed: it joins the end of its key's list. */
  lemma GroupByKeyStep<R>(keys: seq<string>, recs: seq<R>, i: nat)
    requires |keys| == |recs| && i < |recs|
    ensures var idx := GroupByKey(keys[..i], recs[..i]);
      GroupByKey(keys[..i + 1], recs[..i + 1]) == idx[keys[i] := (if keys[i] in idx then idx[keys[i]] else []) + [recs[i]]]
  {
    assert keys[..i + 1][..i] == keys[..i] && recs[..i + 1][..i] == recs[..i];
  }

  lemma {:induction false} GroupByKeyGroups<R>(keys: seq<string>, recs: seq<R>, k: string)
    requires |keys| == |recs|
    ensures k in GroupByKey(keys, recs) <==> k in keys
    ensures k in GroupByKey(keys, recs) ==> GroupByKey(keys, recs)[k] == Group(keys, recs, k)
  {
    if recs != [] {
      var n := |recs| - 1;
      GroupByKeyGroups(keys[..n], recs[..n], k);
      assert keys == keys[..n] + [keys[n]];
    }
  }
}
