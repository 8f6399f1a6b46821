/**
 * The price matcher of the Brickset price import: catalog names are matched
 * against scraped Brickset records by normalized name, by base name plus
 * word overlap, by a weighted similarity scan, and finally by edit distance
 * on short base names.
 */
module NameMatch {
  import opened Wrappers
  import opened Types
  import opened Seqs
  import opened Similarity
  import opened EditDistances
  import opened KeyIndex

  // ---------------------------------------------------------------------
  // Indexes over the scraped pool
  // ---------------------------------------------------------------------

  /** A scraped Brickset record. */
  datatype BricksetMinifig = BricksetMinifig(bricklinkId: string, name: string, valueNew: Option<real>, valueUsed: Option<real>)


  function NameKeys(pool: seq<BricksetMinifig>): (r: seq<string>)
    ensures |r| == |pool|
  {
    seq(|pool|, i requires 0 <= i < |pool| => Normalize(pool[i].name))
  }

  function BaseKeys(pool: seq<BricksetMinifig>): (r: seq<string>)
    ensures |r| == |pool|
  {
    seq(|pool|, i requires 0 <= i < |pool| => BaseName(pool[i].name))
  }

  /** `byExactName`: normalized name to record, a later record replacing an earlier one. */
  function ExactIndex(pool: seq<BricksetMinifig>): map<string, BricksetMinifig>
  {
    LastByKey(NameKeys(pool), pool)
  }

  /** `byBaseName`: base name to the records with that base name, in pool order. */
  function BaseIndex(pool: seq<BricksetMinifig>): map<string, seq<BricksetMinifig>>
  {
    GroupByKey(BaseKeys(pool), pool)
  }

  /** The exact index maps a name to the last record whose name normalizes to it. */
  lemma ExactIndexLast(pool: seq<BricksetMinifig>, k: string)
    ensures k in ExactIndex(pool) <==> exists i :: 0 <= i < |pool| && Normalize(pool[i].name) == k
    ensures k in ExactIndex(pool) ==>
      exists i :: 0 <= i < |pool| && Normalize(pool[i].name) == k && ExactIndex(pool)[k] == pool[i] &&
        forall j :: i < j < |pool| ==> Normalize(pool[j].name) != k
  {
    var keys := NameKeys(pool);
    LastByKeyLast(keys, pool, k);
    if k in ExactIndex(pool) {
      var i :| 0 <= i < |pool| && keys[i] == k && LastByKey(keys, pool)[k] == pool[i] && k !in keys[i + 1..];
      forall j | i < j < |pool| ensures Normalize(pool[j].name) != k {
        assert keys[j] == keys[i + 1..][j - i - 1];
      }
    }
    if exists i :: 0 <= i < |pool| && Normalize(pool[i].name) == k {
      var i :| 0 <= i < |pool| && Normalize(pool[i].name) == k;
      assert keys[i] == k;
    }
  }

  /** Each base-name bucket holds the records with that base name, in pool order, and is never empty. */
  lemma BaseIndexGroups(pool: seq<BricksetMinifig>, k: string)
    ensures k in BaseIndex(pool) <==> exists i :: 0 <= i < |pool| && BaseName(pool[i].name) == k
    ensures k in BaseIndex(pool) ==> BaseIndex(pool)[k] == Group(BaseKeys(pool), pool, k) != []
  {
    var keys := BaseKeys(pool);
    GroupByKeyGroups(keys, pool, k);
    if k in keys {
      var i :| 0 <= i < |keys| && keys[i] == k;
      assert BaseName(pool[i].name) == k;
    }
    if exists i :: 0 <= i < |pool| && BaseName(pool[i].name) == k {
      var i :| 0 <= i < |pool| && BaseName(pool[i].name) == k;
      assert keys[i] == k;
    }
  }

  // ---------------------------------------------------------------------
  // Best-so-far scans
  // ---------------------------------------------------------------------

  /** The state of a best-so-far scan: the best score seen and where it was first seen. */
  datatype Best = Best(score: real, index: Option<nat>)

  /**
   * `let best = 0; for (...) if (sim > best) { best = sim; match = c; }`:
   * the first strict maximum, provided it is above 0.
   */
  function FirstMax(scores: seq<real>): (b: Best)
    ensures b.score >= 0.0
    ensures b.index.None? ==> b.score == 0.0
    ensures b.index.Some? ==> b.index.value < |scores| && scores[b.index.value] == b.score > 0.0
    ensures b.index.Some? ==> forall j :: 0 <= j < b.index.value ==> scores[j] < b.score
    ensures forall j :: 0 <= j < |scores| ==> scores[j] <= b.score
  {
    if scores == [] then Best(0.0, None)
    else
      var b := FirstMax(scores[..|scores| - 1]);
      if scores[|scores| - 1] > b.score then Best(scores[|scores| - 1], Some(|scores| - 1)) else b
  }

  /** `let best = Infinity; for (...) if (d < best) { ... }`: the index of the first minimum. */
  function FirstMin(d: seq<nat>): (r: Option<nat>)
    ensures r.None? <==> d == []
    ensures r.Some? ==> r.value < |d|
    ensures r.Some? ==> forall j :: 0 <= j < |d| ==> d[r.value] <= d[j]
    ensures r.Some? ==> forall j :: 0 <= j < r.value ==> d[j] > d[r.value]
  {
    if d == [] then None
    else
      var p := FirstMin(d[..|d| - 1]);
      if p.None? || d[|d| - 1] < d[p.value] then Some(|d| - 1) else p
  }

  /** One step of the scan: the running best on a prefix one longer. */
  lemma FirstMaxStep(scores: seq<real>, k: nat)
    requires k < |scores|
    ensures FirstMax(scores[..k + 1]) ==
      if scores[k] > FirstMax(scores[..k]).score then Best(scores[k], Some(k)) else FirstMax(scores[..k])
  {
    assert scores[..k + 1][..k] == scores[..k];
  }

  lemma FirstMinStep(d: seq<nat>, k: nat)
    requires k < |d|
    ensures FirstMin(d[..k + 1]) ==
      if FirstMin(d[..k]).None? || d[k] < d[FirstMin(d[..k]).value] then Some(k) else FirstMin(d[..k])
  {
    assert d[..k + 1][..k] == d[..k];
  }

  // ---------------------------------------------------------------------
  // The four strategies
  // ---------------------------------------------------------------------

  datatype Strategy = ExactName | SameBaseName | WeightedScan | ShortNameEdit

  datatype Matched = Matched(record: BricksetMinifig, strategy: Strategy)

  /** The word similarity of `name` to each candidate, in order. */
  function WordScores(name: string, cands: seq<BricksetMinifig>): (r: seq<real>)
    ensures |r| == |cands|
  {
    seq(|cands|, k requires 0 <= k < |cands| => WordSimilarity(name, cands[k].name))
  }

  lemma WordScoreAt(name: string, cands: seq<BricksetMinifig>, k: nat)
    requires k < |cands|
    ensures WordScores(name, cands)[k] == WordSimilarity(name, cands[k].name)
  {
  }

  /** The weighted similarity of `name` to each pool record, in order. */
  function WeightedScores(name: string, pool: seq<BricksetMinifig>): (r: seq<real>)
    ensures |r| == |pool|
  {
    seq(|pool|, k requires 0 <= k < |pool| => WeightedSimilarity(name, pool[k].name))
  }

  lemma WeightedScoreAt(name: string, pool: seq<BricksetMinifig>, k: nat)
    requires k < |pool|
    ensures WeightedScores(name, pool)[k] == WeightedSimilarity(name, pool[k].name)
  {
  }

  /** The edit distance of the catalog base name to each pool record's base name, in order. */
  function Distances(catBase: string, pool: seq<BricksetMinifig>): (r: seq<nat>)
    ensures |r| == |pool|
  {
    seq(|pool|, k requires 0 <= k < |pool| => EditDistance(catBase, BaseName(pool[k].name)))
  }

  /** Strategy 2: the best word match among the records sharing the base name, if it reaches 0.2. */
  function BaseNameMatch(name: string, byBase: map<string, seq<BricksetMinifig>>): Option<BricksetMinifig>
  {
    var bn := BaseName(name);
    if bn !in byBase || byBase[bn] == [] then None
    else
      var cands := byBase[bn];
      var b := FirstMax(WordScores(name, cands));
      if b.score >= 0.2 then Some(cands[b.index.value]) else None
  }

  /** Strategy 3: the best weighted match over the whole pool, if it reaches 0.4. */
  function WeightedMatch(name: string, pool: seq<BricksetMinifig>): Option<BricksetMinifig>
  {
    var b := FirstMax(WeightedScores(name, pool));
    if b.score >= 0.4 then Some(pool[b.index.value]) else None
  }

  /** `Math.max(2, length * 0.3)`. */
  function EditLimit(length: nat): real
  {
    if 2.0 >= length as real * 0.3 then 2.0 else length as real * 0.3
  }

  /** Strategy 4: for base names of at most 15 characters, the nearest base name, if it is close enough. */
  function EditMatch(name: string, pool: seq<BricksetMinifig>): Option<BricksetMinifig>
  {
    var bn := BaseName(name);
    if |bn| > 15 then None
    else
      var d := Distances(bn, pool);
      var i := FirstMin(d);
      if i.Some? && d[i.value] as real <= EditLimit(|bn|) then Some(pool[i.value]) else None
  }

  /** The first strategy that found a record, in the order they are tried. */
  function Cascade(exactHit: Option<BricksetMinifig>, baseHit: Option<BricksetMinifig>,
                   weightedHit: Option<BricksetMinifig>, editHit: Option<BricksetMinifig>): (m: Option<Matched>)
    ensures m.Some? && m.value.strategy == ExactName <==> exactHit.Some?
    ensures m.Some? && m.value.strategy == SameBaseName <==> exactHit.None? && baseHit.Some?
    ensures m.Some? && m.value.strategy == WeightedScan <==> exactHit.None? && baseHit.None? && weightedHit.Some?
    ensures m.Some? && m.value.strategy == ShortNameEdit <==> exactHit.None? && baseHit.None? && weightedHit.None? && editHit.Some?
    ensures m.None? <==> exactHit.None? && baseHit.None? && weightedHit.None? && editHit.None?
    ensures m.Some? ==> Some(m.value.record) in [exactHit, baseHit, weightedHit, editHit]
  {
    if exactHit.Some? then Some(Matched(exactHit.value, ExactName))
    else if baseHit.Some? then Some(Matched(baseHit.value, SameBaseName))
    else if weightedHit.Some? then Some(Matched(weightedHit.value, WeightedScan))
    else if editHit.Some? then Some(Matched(editHit.value, ShortNameEdit))
    else None
  }

  /** `byExactName.get(normalize(name))`. */
  function ExactLookup(name: string, exact: map<string, BricksetMinifig>): Option<BricksetMinifig>
  {
    if Normalize(name) in exact then Some(exact[Normalize(name)]) else None
  }

  /** The cascade: each strategy runs only when the ones before it found nothing. */
  function MatchName(name: string, pool: seq<BricksetMinifig>,
                     exact: map<string, BricksetMinifig>, byBase: map<string, seq<BricksetMinifig>>): Option<Matched>
  {
    Cascade(ExactLookup(name, exact), BaseNameMatch(name, byBase), WeightedMatch(name, pool), EditMatch(name, pool))
  }

  /** The match of a catalog name against the pool, through the indexes built from it. */
  function MatchInPool(name: string, pool: seq<BricksetMinifig>): Option<Matched>
  {
    MatchName(name, pool, ExactIndex(pool), BaseIndex(pool))
  }

  // ---------------------------------------------------------------------
  // The matching run
  // ---------------------------------------------------------------------

  /** Creating a missing bucket and then appending to it appends to the bucket, or to an empty one. */
  lemma BucketPush<R>(idx: map<string, seq<R>>, k: string, x: R)
    ensures var t := if k !in idx then idx[k := []] else idx;
      t[k := t[k] + [x]] == idx[k := (if k in idx then idx[k] else []) + [x]]
  {
  }

  /** The loop body: file one record under its normalized name and under its base name. */
  method IndexRecord(m: BricksetMinifig, byExactName: map<string, BricksetMinifig>, byBaseName: map<string, seq<BricksetMinifig>>)
    returns (byExactName': map<string, BricksetMinifig>, byBaseName': map<string, seq<BricksetMinifig>>)
    ensures byExactName' == byExactName[Normalize(m.name) := m]
    ensures byBaseName' == byBaseName[BaseName(m.name) :=
      (if BaseName(m.name) in byBaseName then byBaseName[BaseName(m.name)] else []) + [m]]
  {
    byExactName' := byExactName[Normalize(m.name) := m];
    var bn := BaseName(m.name);
    BucketPush(byBaseName, bn, m);
    byBaseName' := byBaseName;
    if bn !in byBaseName' {
      byBaseName' := byBaseName'[bn := []];
    }
    byBaseName' := byBaseName'[bn := byBaseName'[bn] + [m]];
  }

  /** The indexes of a pool prefix one record longer. */
  lemma IndexesStep(pool: seq<BricksetMinifig>, i: nat)
    requires i < |pool|
    ensures LastByKey(NameKeys(pool)[..i + 1], pool[..i + 1]) ==
      LastByKey(NameKeys(pool)[..i], pool[..i])[Normalize(pool[i].name) := pool[i]]
    ensures var idx := GroupByKey(BaseKeys(pool)[..i], pool[..i]); var bn := BaseName(pool[i].name);
      GroupByKey(BaseKeys(pool)[..i + 1], pool[..i + 1]) == idx[bn := (if bn in idx then idx[bn] else []) + [pool[i]]]
  {
    LastByKeyStep(NameKeys(pool), pool, i);
    GroupByKeyStep(BaseKeys(pool), pool, i);
  }

  /** The index-building loop over the scraped pool. */
  method BuildIndexes(pool: seq<BricksetMinifig>)
    returns (byExactName: map<string, BricksetMinifig>, byBaseName: map<string, seq<BricksetMinifig>>)
    ensures byExactName == ExactIndex(pool) && byBaseName == BaseIndex(pool)
  {
    ghost var names, bases := NameKeys(pool), BaseKeys(pool);
    byExactName, byBaseName := map[], map[];
    var i := 0;
    while i < |pool|
      invariant 0 <= i <= |pool|
      invariant byExactName == LastByKey(names[..i], pool[..i])
      invariant byBaseName == GroupByKey(bases[..i], pool[..i])
    {
      var m := pool[i];
      IndexesStep(pool, i);
      byExactName, byBaseName := IndexRecord(m, byExactName, byBaseName);
      i := i + 1;
    }
    PrefixAll(names);
    PrefixAll(bases);
    PrefixAll(pool);
  }

  /** The best-so-far loop over one base-name bucket: the running best similarity and its record. */
  method ScanBucket(name: string, candidates: seq<BricksetMinifig>) returns (bestSim: real, found: Option<BricksetMinifig>)
    ensures bestSim == FirstMax(WordScores(name, candidates)).score
    ensures found == if FirstMax(WordScores(name, candidates)).index.Some?
      then Some(candidates[FirstMax(WordScores(name, candidates)).index.value]) else None
  {
    ghost var scores := WordScores(name, candidates);
    bestSim, found := 0.0, None;
    var k := 0;
    while k < |candidates|
      invariant 0 <= k <= |candidates|
      invariant bestSim == FirstMax(scores[..k]).score
      invariant found == (if FirstMax(scores[..k]).index.Some? then Some(candidates[FirstMax(scores[..k]).index.value]) else None)
    {
      FirstMaxStep(scores, k);
      WordScoreAt(name, candidates, k);
      var sim := WordSimilarity(name, candidates[k].name);
      if sim > bestSim {
        bestSim := sim;
        found := Some(candidates[k]);
      }
      k := k + 1;
    }
    PrefixAll(scores);
  }

  /** How the bucket scan's outcome decides strategy 2. */
  lemma BaseNameMatchOf(name: string, byBase: map<string, seq<BricksetMinifig>>, bestSim: real, found: Option<BricksetMinifig>)
    requires BaseName(name) in byBase && byBase[BaseName(name)] != []
    requires bestSim == FirstMax(WordScores(name, byBase[BaseName(name)])).score
    requires found == if FirstMax(WordScores(name, byBase[BaseName(name)])).index.Some?
      then Some(byBase[BaseName(name)][FirstMax(WordScores(name, byBase[BaseName(name)])).index.value]) else None
    ensures BaseNameMatch(name, byBase) == if bestSim >= 0.2 then found else None
  {
  }

  /** Strategy 2: the bucket of records sharing the catalog name's base name, kept only at 0.2 or more. */
  method MatchByBaseName(name: string, byBaseName: map<string, seq<BricksetMinifig>>) returns (found: Option<BricksetMinifig>)
    ensures found == BaseNameMatch(name, byBaseName)
  {
    var bn := BaseName(name);
    found := None;
    if bn in byBaseName && |byBaseName[bn]| > 0 {
      var bestSim;
      bestSim, found := ScanBucket(name, byBaseName[bn]);
      BaseNameMatchOf(name, byBaseName, bestSim, found);
      if bestSim < 0.2 {
        found := None;
      }
    }
  }

  /** Strategy 3's scan of the whole pool. */
  method MatchByWeighted(name: string, pool: seq<BricksetMinifig>) returns (found: Option<BricksetMinifig>)
    ensures found == WeightedMatch(name, pool)
  {
    ghost var scores := WeightedScores(name, pool);
    var bestSim := 0.0;
    var bestCandidate: Option<BricksetMinifig> := None;
    var k := 0;
    while k < |pool|
      invariant 0 <= k <= |pool|
      invariant bestSim == FirstMax(scores[..k]).score
      invariant bestCandidate == (if FirstMax(scores[..k]).index.Some? then Some(pool[FirstMax(scores[..k]).index.value]) else None)
    {
      FirstMaxStep(scores, k);
      WeightedScoreAt(name, pool, k);
      var sim := WeightedSimilarity(name, pool[k].name);
      if sim > bestSim {
        bestSim := sim;
        bestCandidate := Some(pool[k]);
      }
      k := k + 1;
    }
    PrefixAll(scores);
    found := if bestSim >= 0.4 && bestCandidate.Some? then bestCandidate else None;
  }

  /** Strategy 4's loop: the first record at the least edit distance between base names, by `Levenshtein`. */
  method ScanDistances(catBase: string, pool: seq<BricksetMinifig>)
    returns (bestDist: Option<nat>, bestCandidate: Option<BricksetMinifig>)
    ensures FirstMin(Distances(catBase, pool)).None? ==> bestDist.None? && bestCandidate.None?
    ensures FirstMin(Distances(catBase, pool)).Some? ==>
      var i := FirstMin(Distances(catBase, pool)).value;
      bestDist == Some(Distances(catBase, pool)[i]) && bestCandidate == Some(pool[i])
  {
    ghost var dists := Distances(catBase, pool);
    bestDist, bestCandidate := None, None;  // None stands for Infinity
    var k := 0;
    while k < |pool|
      invariant 0 <= k <= |pool|
      invariant FirstMin(dists[..k]).None? ==> bestDist.None? && bestCandidate.None?
      invariant FirstMin(dists[..k]).Some? ==>
        bestDist == Some(dists[FirstMin(dists[..k]).value]) && bestCandidate == Some(pool[FirstMin(dists[..k]).value])
    {
      FirstMinStep(dists, k);
      var bsBase := BaseName(pool[k].name);
      var dist := Levenshtein(catBase, bsBase);
      DistanceAt(catBase, pool, k);
      if bestDist.None? || dist < bestDist.value {
        bestDist := Some(dist);
        bestCandidate := Some(pool[k]);
      }
      k := k + 1;
    }
    PrefixAll(dists);
  }

  /** How the distance scan's outcome decides strategy 4. */
  lemma EditMatchOf(name: string, pool: seq<BricksetMinifig>, bestDist: Option<nat>, bestCandidate: Option<BricksetMinifig>)
    requires |BaseName(name)| <= 15
    requires FirstMin(Distances(BaseName(name), pool)).None? ==> bestDist.None? && bestCandidate.None?
    requires FirstMin(Distances(BaseName(name), pool)).Some? ==>
      var i := FirstMin(Distances(BaseName(name), pool)).value;
      bestDist == Some(Distances(BaseName(name), pool)[i]) && bestCandidate == Some(pool[i])
    ensures EditMatch(name, pool) ==
      if bestCandidate.Some? && bestDist.Some? && bestDist.value as real <= EditLimit(|BaseName(name)|) then bestCandidate else None
  {
  }

  /** Strategy 4, tried only for base names of at most 15 characters. */
  method MatchByEditDistance(name: string, pool: seq<BricksetMinifig>) returns (found: Option<BricksetMinifig>)
    ensures found == EditMatch(name, pool)
  {
    var catBase := BaseName(name);
    found := None;
    if |catBase| <= 15 {
      var bestDist, bestCandidate := ScanDistances(catBase, pool);
      EditMatchOf(name, pool, bestDist, bestCandidate);
      if bestCandidate.Some? && bestDist.Some? && bestDist.value as real <= EditLimit(|catBase|) {
        found := bestCandidate;
      }
    }
  }

  /** One catalog entry through the cascade. */
  method MatchOne(name: string, pool: seq<BricksetMinifig>,
                  byExactName: map<string, BricksetMinifig>, byBaseName: map<string, seq<BricksetMinifig>>)
    returns (m: Option<Matched>)
    ensures m == MatchName(name, pool, byExactName, byBaseName)
  {
    var normName := Normalize(name);
    if normName in byExactName {
      return Some(Matched(byExactName[normName], ExactName));
    }
    var found := MatchByBaseName(name, byBaseName);
    if found.Some? {
      return Some(Matched(found.value, SameBaseName));
    }
    found := MatchByWeighted(name, pool);
    if found.Some? {
      return Some(Matched(found.value, WeightedScan));
    }
    found := MatchByEditDistance(name, pool);
    if found.Some? {
      return Some(Matched(found.value, ShortNameEdit));
    }
    return None;
  }

  /** A catalog entry as the matcher reads it. */
  datatype CatalogName = CatalogName(id: string, name: string)

  /** The catalog's ids, in order. */
  function CatalogIds(catalog: seq<CatalogName>): (r: seq<string>)
    ensures |r| == |catalog| && forall i :: 0 <= i < |r| ==> r[i] == catalog[i].id
  {
    seq(|catalog|, i requires 0 <= i < |catalog| => catalog[i].id)
  }

  /** The price record written for a match. */
  function EntryOf(r: BricksetMinifig): PriceEntry
  {
    PriceEntry(r.valueNew, r.valueUsed, Some(r.bricklinkId))
  }

  /** The cascade's outcome for each catalog entry. */
  function Outcomes(catalog: seq<CatalogName>, pool: seq<BricksetMinifig>): (r: seq<Option<Matched>>)
    ensures |r| == |catalog|
  {
    seq(|catalog|, i requires 0 <= i < |catalog| => MatchInPool(catalog[i].name, pool))
  }

  /** The cascade run on indexes built from the pool gives entry `i`'s outcome. */
  lemma OutcomeOf(catalog: seq<CatalogName>, pool: seq<BricksetMinifig>, i: nat,
                  byExactName: map<string, BricksetMinifig>, byBaseName: map<string, seq<BricksetMinifig>>)
    requires i < |catalog| && byExactName == ExactIndex(pool) && byBaseName == BaseIndex(pool)
    ensures Outcomes(catalog, pool)[i] == MatchName(catalog[i].name, pool, byExactName, byBaseName)
  {
  }

  /** `prices` after the loop has written the outcomes of `catalog`: a matched entry's id gets its record's prices. */
  function Written(catalog: seq<CatalogName>, outcomes: seq<Option<Matched>>): map<string, PriceEntry>
    requires |outcomes| == |catalog|
  {
    if catalog == [] then map[]
    else
      var n := |catalog| - 1;
      var before := Written(catalog[..n], outcomes[..n]);
      match outcomes[n]
      case Some(m) => before[catalog[n].id := EntryOf(m.record)]
      case None => before
  }

  /** One more entry processed: a match writes its id, no match writes nothing. */
  lemma WrittenStep(catalog: seq<CatalogName>, outcomes: seq<Option<Matched>>, i: nat)
    requires |outcomes| == |catalog| && i < |catalog|
    ensures Written(catalog[..i + 1], outcomes[..i + 1]) == match outcomes[i]
      case Some(m) => Written(catalog[..i], outcomes[..i])[catalog[i].id := EntryOf(m.record)]
      case None => Written(catalog[..i], outcomes[..i])
  {
    assert catalog[..i + 1][..i] == catalog[..i] && outcomes[..i + 1][..i] == outcomes[..i];
  }

  /** A matched entry's id has a price record. */
  lemma {:induction false} WrittenHas(catalog: seq<CatalogName>, outcomes: seq<Option<Matched>>, k: nat)
    requires |outcomes| == |catalog| && k < |catalog| && outcomes[k].Some?
    ensures catalog[k].id in Written(catalog, outcomes)
  {
    var n := |catalog| - 1;
    if k < n {
      WrittenHas(catalog[..n], outcomes[..n], k);
    }
  }

  /**
   * A price record comes from the last matched entry with its id: it holds
   * that entry's prices, and no later entry with the id was matched.
   */
  lemma {:induction false} WrittenFrom(catalog: seq<CatalogName>, outcomes: seq<Option<Matched>>, id: string) returns (i: nat)
    requires |outcomes| == |catalog| && id in Written(catalog, outcomes)
    ensures i < |catalog| && catalog[i].id == id && outcomes[i].Some?
    ensures Written(catalog, outcomes)[id] == EntryOf(outcomes[i].value.record)
    ensures forall k :: i < k < |catalog| && catalog[k].id == id ==> outcomes[k].None?
  {
    var n := |catalog| - 1;
    if catalog[n].id == id && outcomes[n].Some? {
      i := n;
    } else {
      i := WrittenFrom(catalog[..n], outcomes[..n], id);
      assert forall k :: i < k < n ==> catalog[..n][k] == catalog[k] && outcomes[..n][k] == outcomes[k];
    }
  }

  /** An id has a price record exactly when some catalog entry with that id was matched; an entry no strategy matches writes none. */
  lemma PricedIffMatched(catalog: seq<CatalogName>, pool: seq<BricksetMinifig>, id: string)
    ensures id in Prices(catalog, pool) <==>
      exists i :: 0 <= i < |catalog| && catalog[i].id == id && MatchInPool(catalog[i].name, pool).Some?
  {
    var outcomes := Outcomes(catalog, pool);
    if id in Prices(catalog, pool) {
      var i := WrittenFrom(catalog, outcomes, id);
      assert outcomes[i] == MatchInPool(catalog[i].name, pool);
    }
    if exists i :: 0 <= i < |catalog| && catalog[i].id == id && MatchInPool(catalog[i].name, pool).Some? {
      var i :| 0 <= i < |catalog| && catalog[i].id == id && MatchInPool(catalog[i].name, pool).Some?;
      assert outcomes[i].Some?;
      WrittenHas(catalog, outcomes, i);
    }
  }

  /** `prices` after the matching loop has processed `catalog`. */
  function Prices(catalog: seq<CatalogName>, pool: seq<BricksetMinifig>): map<string, PriceEntry>
  {
    Written(catalog, Outcomes(catalog, pool))
  }

  /** One for a match made by strategy `s`, else zero. */
  function Tally(m: Option<Matched>, s: Strategy): nat
  {
    if m.Some? && m.value.strategy == s then 1 else 0
  }

  /** The number of outcomes that are matches by strategy `s`. */
  function Count(outcomes: seq<Option<Matched>>, s: Strategy): (r: nat)
    ensures r <= |outcomes|
  {
    if outcomes == [] then 0
    else Count(outcomes[..|outcomes| - 1], s) + Tally(outcomes[|outcomes| - 1], s)
  }

  lemma CountStep(outcomes: seq<Option<Matched>>, i: nat)
    requires i < |outcomes|
    ensures forall s :: Count(outcomes[..i + 1], s) == Count(outcomes[..i], s) + Tally(outcomes[i], s)
  {
    assert outcomes[..i + 1][..i] == outcomes[..i];
  }

  /** The number of outcomes that are matches. */
  function MatchCount(outcomes: seq<Option<Matched>>): (r: nat)
    ensures r <= |outcomes|
  {
    if outcomes == [] then 0
    else MatchCount(outcomes[..|outcomes| - 1]) + (if outcomes[|outcomes| - 1].Some? then 1 else 0)
  }

  /** Every match is counted by exactly one strategy: the four counters add up to the matches. */
  lemma {:induction false} CountsPartition(outcomes: seq<Option<Matched>>)
    ensures Count(outcomes, ExactName) + Count(outcomes, SameBaseName) + Count(outcomes, WeightedScan) + Count(outcomes, ShortNameEdit)
      == MatchCount(outcomes)
  {
    if outcomes != [] {
      CountsPartition(outcomes[..|outcomes| - 1]);
    }
  }

  /** The number of catalog entries matched by strategy `s`. */
  function CountBy(catalog: seq<CatalogName>, pool: seq<BricksetMinifig>, s: Strategy): nat
  {
    Count(Outcomes(catalog, pool), s)
  }

  /** The end of the loop body: count the match by its strategy and write its price record. */
  method Record(prices: map<string, PriceEntry>, exactMatches: nat, baseMatches: nat, weightedMatches: nat, levenMatches: nat,
                id: string, m: Option<Matched>)
    returns (prices': map<string, PriceEntry>, exactMatches': nat, baseMatches': nat, weightedMatches': nat, levenMatches': nat)
    ensures prices' == match m case Some(x) => prices[id := EntryOf(x.record)] case None => prices
    ensures exactMatches' == exactMatches + Tally(m, ExactName) && baseMatches' == baseMatches + Tally(m, SameBaseName)
    ensures weightedMatches' == weightedMatches + Tally(m, WeightedScan) && levenMatches' == levenMatches + Tally(m, ShortNameEdit)
  {
    prices', exactMatches', baseMatches', weightedMatches', levenMatches' := prices, exactMatches, baseMatches, weightedMatches, levenMatches;
    if m.Some? {
      match m.value.strategy {
        case ExactName => exactMatches' := exactMatches + 1;
        case SameBaseName => baseMatches' := baseMatches + 1;
        case WeightedScan => weightedMatches' := weightedMatches + 1;
        case ShortNameEdit => levenMatches' := levenMatches + 1;
      }
      prices' := prices[id := EntryOf(m.value.record)];
    }
  }

  /** The matching run: indexes, then the cascade for each catalog entry. */
  method MatchCatalog(catalog: seq<CatalogName>, pool: seq<BricksetMinifig>)
    returns (prices: map<string, PriceEntry>, exactMatches: nat, baseMatches: nat, weightedMatches: nat, levenMatches: nat)
    ensures prices == Prices(catalog, pool)
    ensures exactMatches == CountBy(catalog, pool, ExactName) && baseMatches == CountBy(catalog, pool, SameBaseName)
    ensures weightedMatches == CountBy(catalog, pool, WeightedScan) && levenMatches == CountBy(catalog, pool, ShortNameEdit)
  {
    var byExactName, byBaseName := BuildIndexes(pool);
    ghost var outcomes := Outcomes(catalog, pool);
    prices := map[];
    exactMatches, baseMatches, weightedMatches, levenMatches := 0, 0, 0, 0;
    var i := 0;
    while i < |catalog|
      invariant 0 <= i <= |catalog|
      invariant prices == Written(catalog[..i], outcomes[..i])
      invariant exactMatches == Count(outcomes[..i], ExactName) && baseMatches == Count(outcomes[..i], SameBaseName)
      invariant weightedMatches == Count(outcomes[..i], WeightedScan) && levenMatches == Count(outcomes[..i], ShortNameEdit)
    {
      OutcomeOf(catalog, pool, i, byExactName, byBaseName);
      prices, exactMatches, baseMatches, weightedMatches, levenMatches :=
        MatchNext(catalog, outcomes, pool, byExactName, byBaseName, i, prices, exactMatches, baseMatches, weightedMatches, levenMatches);
      i := i + 1;
    }
    PrefixAll(catalog);
    PrefixAll(outcomes);
  }

  /** One turn of the matching loop: entry `i` goes through the cascade, and a match is written and counted. */
  method MatchNext(catalog: seq<CatalogName>, ghost outcomes: seq<Option<Matched>>, pool: seq<BricksetMinifig>,
                   byExactName: map<string, BricksetMinifig>, byBaseName: map<string, seq<BricksetMinifig>>, i: nat,
                   prices: map<string, PriceEntry>, exactMatches: nat, baseMatches: nat, weightedMatches: nat, levenMatches: nat)
    returns (prices': map<string, PriceEntry>, exactMatches': nat, baseMatches': nat, weightedMatches': nat, levenMatches': nat)
    requires i < |catalog| == |outcomes| && outcomes[i] == MatchName(catalog[i].name, pool, byExactName, byBaseName)
    requires prices == Written(catalog[..i], outcomes[..i])
    requires exactMatches == Count(outcomes[..i], ExactName) && baseMatches == Count(outcomes[..i], SameBaseName)
    requires weightedMatches == Count(outcomes[..i], WeightedScan) && levenMatches == Count(outcomes[..i], ShortNameEdit)
    ensures prices' == Written(catalog[..i + 1], outcomes[..i + 1])
    ensures exactMatches' == Count(outcomes[..i + 1], ExactName) && baseMatches' == Count(outcomes[..i + 1], SameBaseName)
    ensures weightedMatches' == Count(outcomes[..i + 1], WeightedScan) && levenMatches' == Count(outcomes[..i + 1], ShortNameEdit)
  {
    var item := catalog[i];
    var m := MatchOne(item.name, pool, byExactName, byBaseName);
    assert m == outcomes[i];
    prices', exactMatches', baseMatches', weightedMatches', levenMatches' :=
      Record(prices, exactMatches, baseMatches, weightedMatches, levenMatches, item.id, m);
    WrittenStep(catalog, outcomes, i);
    CountStep(outcomes, i);
  }

  // ---------------------------------------------------------------------
  // What each strategy guarantees
  // ---------------------------------------------------------------------

  /** The scan over one bucket: its best score bounds every member's similarity and is reached. */
  lemma BucketBest(name: string, cands: seq<BricksetMinifig>)
    ensures forall x :: x in cands ==> WordSimilarity(name, x.name) <= FirstMax(WordScores(name, cands)).score
    ensures FirstMax(WordScores(name, cands)).index.Some? ==>
      WordSimilarity(name, cands[FirstMax(WordScores(name, cands)).index.value].name) == FirstMax(WordScores(name, cands)).score
  {
    var b := FirstMax(WordScores(name, cands));
    forall x | x in cands ensures WordSimilarity(name, x.name) <= b.score {
      var c :| 0 <= c < |cands| && cands[c] == x;
      WordScoreAt(name, cands, c);
    }
    if b.index.Some? {
      WordScoreAt(name, cands, b.index.value);
    }
  }

  /** The bucket of a base name holds exactly the pool records with that base name. */
  lemma BucketOf(pool: seq<BricksetMinifig>, bn: string)
    ensures forall i :: 0 <= i < |pool| && BaseName(pool[i].name) == bn ==> bn in BaseIndex(pool) && pool[i] in BaseIndex(pool)[bn]
    ensures bn in BaseIndex(pool) ==> forall x :: x in BaseIndex(pool)[bn] ==> x in pool && BaseName(x.name) == bn
  {
    forall i | 0 <= i < |pool| && BaseName(pool[i].name) == bn ensures bn in BaseIndex(pool) && pool[i] in BaseIndex(pool)[bn] {
      BucketHas(pool, bn, i);
    }
    if bn in BaseIndex(pool) {
      forall x | x in BaseIndex(pool)[bn] ensures x in pool && BaseName(x.name) == bn {
        BucketFrom(pool, bn, x);
      }
    }
  }

  /** A pool record is in the bucket of its base name. */
  lemma BucketHas(pool: seq<BricksetMinifig>, bn: string, i: nat)
    requires i < |pool| && BaseName(pool[i].name) == bn
    ensures bn in BaseIndex(pool) && pool[i] in BaseIndex(pool)[bn]
  {
    BaseIndexGroups(pool, bn);
    GroupHas(BaseKeys(pool), pool, bn, i);
  }

  /** A bucket member is a pool record with that base name. */
  lemma BucketFrom(pool: seq<BricksetMinifig>, bn: string, x: BricksetMinifig)
    requires bn in BaseIndex(pool) && x in BaseIndex(pool)[bn]
    ensures x in pool && BaseName(x.name) == bn
  {
    BaseIndexGroups(pool, bn);
    var i := GroupFrom(BaseKeys(pool), pool, bn, x);
  }

  /** Strategy 2 finds nothing exactly when every record sharing the base name scores below 0.2. */
  lemma BaseNameMatchNone(name: string, pool: seq<BricksetMinifig>)
    ensures BaseNameMatch(name, BaseIndex(pool)) == None <==>
      forall i :: 0 <= i < |pool| && BaseName(pool[i].name) == BaseName(name) ==> WordSimilarity(name, pool[i].name) < 0.2
  {
    var bn := BaseName(name);
    BucketOf(pool, bn);
    if bn in BaseIndex(pool) {
      var cands := BaseIndex(pool)[bn];
      BucketBest(name, cands);
      var b := FirstMax(WordScores(name, cands));
      if b.score >= 0.2 {
        var x := cands[b.index.value];
        assert x in cands;
        var i :| 0 <= i < |pool| && pool[i] == x;
        assert BaseName(pool[i].name) == bn && WordSimilarity(name, pool[i].name) >= 0.2;
        assert BaseNameMatch(name, BaseIndex(pool)) == Some(x);
      } else {
        forall i | 0 <= i < |pool| && BaseName(pool[i].name) == bn ensures WordSimilarity(name, pool[i].name) < 0.2 {
          assert pool[i] in cands;
        }
        assert BaseNameMatch(name, BaseIndex(pool)) == None;
      }
    }
  }

  /** A strategy-2 match shares the base name, reaches 0.2 and is the best among its bucket. */
  lemma BaseNameMatchBest(name: string, pool: seq<BricksetMinifig>, r: BricksetMinifig)
    requires BaseNameMatch(name, BaseIndex(pool)) == Some(r)
    ensures r in pool && BaseName(r.name) == BaseName(name) && WordSimilarity(name, r.name) >= 0.2
    ensures forall i :: 0 <= i < |pool| && BaseName(pool[i].name) == BaseName(name) ==>
      WordSimilarity(name, pool[i].name) <= WordSimilarity(name, r.name)
  {
    var bn := BaseName(name);
    BucketOf(pool, bn);
    var cands := BaseIndex(pool)[bn];
    BucketBest(name, cands);
    assert r in cands;
  }

  /** Strategy 3 finds nothing exactly when every record scores below 0.4. */
  lemma WeightedMatchNone(name: string, pool: seq<BricksetMinifig>)
    ensures WeightedMatch(name, pool) == None <==>
      forall i :: 0 <= i < |pool| ==> WeightedSimilarity(name, pool[i].name) < 0.4
  {
    var scores := WeightedScores(name, pool);
    var b := FirstMax(scores);
    if b.score >= 0.4 {
      WeightedScoreAt(name, pool, b.index.value);
    } else {
      forall i | 0 <= i < |pool| ensures WeightedSimilarity(name, pool[i].name) < 0.4 {
        WeightedScoreAt(name, pool, i);
      }
    }
  }

  /** A strategy-3 match is the first record with the highest weighted score, which reaches 0.4. */
  lemma WeightedMatchBest(name: string, pool: seq<BricksetMinifig>, r: BricksetMinifig) returns (j: nat)
    requires WeightedMatch(name, pool) == Some(r)
    ensures j < |pool| && pool[j] == r && WeightedSimilarity(name, r.name) >= 0.4
    ensures forall i :: 0 <= i < |pool| ==> WeightedSimilarity(name, pool[i].name) <= WeightedSimilarity(name, r.name)
    ensures forall i :: 0 <= i < j ==> WeightedSimilarity(name, pool[i].name) < WeightedSimilarity(name, r.name)
  {
    var scores := WeightedScores(name, pool);
    var b := FirstMax(scores);
    j := b.index.value;
    WeightedScoreAt(name, pool, j);
    forall i | 0 <= i < |pool| ensures WeightedSimilarity(name, pool[i].name) <= b.score {
      WeightedScoreAt(name, pool, i);
    }
    forall i | 0 <= i < j ensures WeightedSimilarity(name, pool[i].name) < b.score {
      WeightedScoreAt(name, pool, i);
    }
  }

  /** Strategy 4 finds nothing exactly when the base name is long or every record is too far. */
  lemma EditMatchNone(name: string, pool: seq<BricksetMinifig>)
    ensures EditMatch(name, pool) == None <==>
      |BaseName(name)| > 15 ||
      forall i :: 0 <= i < |pool| ==> EditDistance(BaseName(name), BaseName(pool[i].name)) as real > EditLimit(|BaseName(name)|)
  {
    var bn := BaseName(name);
    if |bn| <= 15 {
      var d := Distances(bn, pool);
      var m := FirstMin(d);
      forall i | 0 <= i < |pool| ensures d[i] == EditDistance(bn, BaseName(pool[i].name)) { }
      if m.Some? && d[m.value] as real > EditLimit(|bn|) {
        forall i | 0 <= i < |pool| ensures EditDistance(bn, BaseName(pool[i].name)) as real > EditLimit(|bn|) {
          assert d[m.value] <= d[i];
        }
      }
    }
  }

  /** A strategy-4 match is the first record at the least edit distance, within the limit. */
  lemma EditMatchNearest(name: string, pool: seq<BricksetMinifig>, r: BricksetMinifig) returns (j: nat)
    requires EditMatch(name, pool) == Some(r)
    ensures |BaseName(name)| <= 15
    ensures j < |pool| && pool[j] == r
    ensures EditDistance(BaseName(name), BaseName(r.name)) as real <= EditLimit(|BaseName(name)|)
    ensures forall i :: 0 <= i < |pool| ==> EditDistance(BaseName(name), BaseName(r.name)) <= EditDistance(BaseName(name), BaseName(pool[i].name))
    ensures forall i :: 0 <= i < j ==> EditDistance(BaseName(name), BaseName(r.name)) < EditDistance(BaseName(name), BaseName(pool[i].name))
  {
    var bn := BaseName(name);
    var d := Distances(bn, pool);
    assert |bn| <= 15 && FirstMin(d).Some?;
    j := FirstMin(d).value;
    assert pool[j] == r && d[j] as real <= EditLimit(|bn|);
    var dr := EditDistance(bn, BaseName(r.name));
    DistanceAt(bn, pool, j);
    forall i | 0 <= i < |pool| ensures dr <= EditDistance(bn, BaseName(pool[i].name)) {
      DistanceAt(bn, pool, i);
    }
    forall i | 0 <= i < j ensures dr < EditDistance(bn, BaseName(pool[i].name)) {
      DistanceAt(bn, pool, i);
    }
  }

  lemma DistanceAt(catBase: string, pool: seq<BricksetMinifig>, i: nat)
    requires i < |pool|
    ensures Distances(catBase, pool)[i] == EditDistance(catBase, BaseName(pool[i].name))
  {
  }


  // ---------------------------------------------------------------------
  // The cascade
  // ---------------------------------------------------------------------

  /** The cascade reports strategy 1 exactly when the exact index has the normalized name. */
  lemma ExactStrategy(name: string, pool: seq<BricksetMinifig>)
    ensures (MatchInPool(name, pool).Some? && MatchInPool(name, pool).value.strategy == ExactName) <==> Normalize(name) in ExactIndex(pool)
    ensures Normalize(name) in ExactIndex(pool) ==> MatchInPool(name, pool) == Some(Matched(ExactIndex(pool)[Normalize(name)], ExactName))
  {
  }

  /** Strategy 1 applies exactly when some record's name normalizes to the same string, and then picks the last one. */
  lemma ExactNameCase(name: string, pool: seq<BricksetMinifig>) returns (j: nat)
    ensures (MatchInPool(name, pool).Some? && MatchInPool(name, pool).value.strategy == ExactName) <==>
      exists i :: 0 <= i < |pool| && Normalize(pool[i].name) == Normalize(name)
    ensures MatchInPool(name, pool).Some? && MatchInPool(name, pool).value.strategy == ExactName ==>
      j < |pool| && MatchInPool(name, pool).value.record == pool[j] && Normalize(pool[j].name) == Normalize(name) &&
      forall i :: j < i < |pool| ==> Normalize(pool[i].name) != Normalize(name)
  {
    var k := Normalize(name);
    ExactStrategy(name, pool);
    ExactIndexLast(pool, k);
    j := 0;
    if k in ExactIndex(pool) {
      j :| 0 <= j < |pool| && Normalize(pool[j].name) == k && ExactIndex(pool)[k] == pool[j] &&
        forall i :: j < i < |pool| ==> Normalize(pool[i].name) != k;
    }
  }

  /** Strategy 2 runs only when no name matched exactly. */
  lemma SameBaseNameCase(name: string, pool: seq<BricksetMinifig>, r: BricksetMinifig)
    requires MatchInPool(name, pool) == Some(Matched(r, SameBaseName))
    ensures forall i :: 0 <= i < |pool| ==> Normalize(pool[i].name) != Normalize(name)
    ensures r in pool && BaseName(r.name) == BaseName(name) && WordSimilarity(name, r.name) >= 0.2
    ensures forall i :: 0 <= i < |pool| && BaseName(pool[i].name) == BaseName(name) ==>
      WordSimilarity(name, pool[i].name) <= WordSimilarity(name, r.name)
  {
    var _ := ExactNameCase(name, pool);
    BaseNameMatchBest(name, pool, r);
  }

  /** Strategy 3 runs only when strategies 1 and 2 found nothing. */
  lemma WeightedScanCase(name: string, pool: seq<BricksetMinifig>, r: BricksetMinifig) returns (j: nat)
    requires MatchInPool(name, pool) == Some(Matched(r, WeightedScan))
    ensures forall i :: 0 <= i < |pool| ==> Normalize(pool[i].name) != Normalize(name)
    ensures forall i :: 0 <= i < |pool| && BaseName(pool[i].name) == BaseName(name) ==> WordSimilarity(name, pool[i].name) < 0.2
    ensures j < |pool| && pool[j] == r && WeightedSimilarity(name, r.name) >= 0.4
    ensures forall i :: 0 <= i < |pool| ==> WeightedSimilarity(name, pool[i].name) <= WeightedSimilarity(name, r.name)
  {
    var _ := ExactNameCase(name, pool);
    BaseNameMatchNone(name, pool);
    j := WeightedMatchBest(name, pool, r);
  }

  /** Strategy 4 runs only when strategies 1 to 3 found nothing. */
  lemma ShortNameEditCase(name: string, pool: seq<BricksetMinifig>, r: BricksetMinifig) returns (j: nat)
    requires MatchInPool(name, pool) == Some(Matched(r, ShortNameEdit))
    ensures forall i :: 0 <= i < |pool| ==> Normalize(pool[i].name) != Normalize(name)
    ensures forall i :: 0 <= i < |pool| && BaseName(pool[i].name) == BaseName(name) ==> WordSimilarity(name, pool[i].name) < 0.2
    ensures forall i :: 0 <= i < |pool| ==> WeightedSimilarity(name, pool[i].name) < 0.4
    ensures |BaseName(name)| <= 15 && j < |pool| && pool[j] == r
    ensures EditDistance(BaseName(name), BaseName(r.name)) as real <= EditLimit(|BaseName(name)|)
    ensures forall i :: 0 <= i < |pool| ==> EditDistance(BaseName(name), BaseName(r.name)) <= EditDistance(BaseName(name), BaseName(pool[i].name))
  {
    var _ := ExactNameCase(name, pool);
    BaseNameMatchNone(name, pool);
    WeightedMatchNone(name, pool);
    j := EditMatchNearest(name, pool, r);
  }

  /** An unmatched name failed all four strategies. */
  lemma UnmatchedCase(name: string, pool: seq<BricksetMinifig>)
    requires MatchInPool(name, pool) == None
    ensures forall i :: 0 <= i < |pool| ==> Normalize(pool[i].name) != Normalize(name)
    ensures forall i :: 0 <= i < |pool| && BaseName(pool[i].name) == BaseName(name) ==> WordSimilarity(name, pool[i].name) < 0.2
    ensures forall i :: 0 <= i < |pool| ==> WeightedSimilarity(name, pool[i].name) < 0.4
    ensures |BaseName(name)| > 15 ||
      forall i :: 0 <= i < |pool| ==> EditDistance(BaseName(name), BaseName(pool[i].name)) as real > EditLimit(|BaseName(name)|)
  {
    var _ := ExactNameCase(name, pool);
    BaseNameMatchNone(name, pool);
    WeightedMatchNone(name, pool);
    EditMatchNone(name, pool);
  }
}
