/**
 * The id repair run: read the BrickLink number off every catalog
 * minifigure's Rebrickable page into a resumable cache, correct the price
 * records to those numbers, report the numbers that are still shared, and
 * rename catalog entries after their Brickset records.
 */
module FixIds {
  import opened Wrappers
  import opened Types
  import opened BricklinkPages
  import opened NameMatch
  import opened ResumableCache
  import opened KeyedUpdate
  import opened Seqs

  /** `idCache`: catalog id to the number read off its page, `None` (null) when none was read. */
  type IdCache = map<string, Option<string>>

  // ---------------------------------------------------------------------
  // The scrape loop
  // ---------------------------------------------------------------------

  /** What the scrape loop stores for an id: the number read, or null when none was read or the request failed. */
  function CacheValue(patterns: seq<Extractor>, fetch: string -> Option<string>, id: string): Option<string>
  {
    match LookUp(patterns, fetch, id)
    case Read(blId) => blId
    case FetchFailed => None
  }

  function Scrape(patterns: seq<Extractor>, fetch: string -> Option<string>): string -> Option<string>
  {
    id => CacheValue(patterns, fetch, id)
  }

  /** `toScrape`: the catalog ids the cache lacks; an id cached as null counts as done. */
  function ToScrape(catalog: seq<CatalogName>, idCache: IdCache): (r: seq<string>)
    ensures forall id :: id in r <==> id in CatalogIds(catalog) && id !in idCache
  {
    Pending(CatalogIds(catalog), idCache)
  }

  /** The number of requests among `ids` that fail. */
  function Failures(patterns: seq<Extractor>, fetch: string -> Option<string>, ids: seq<string>): (r: nat)
    ensures r <= |ids|
  {
    if ids == [] then 0
    else
      var n := |ids| - 1;
      Failures(patterns, fetch, ids[..n]) + (if LookUp(patterns, fetch, ids[n]).FetchFailed? then 1 else 0)
  }

  /**
   * The scrape loop: every id of `toScrape` is looked up and stored, and the
   * cache is saved after every 50 ids and once more at the end.
   */
  method ScrapeIds(catalog: seq<CatalogName>, idCache0: IdCache, patterns: seq<Extractor>, fetch: string -> Option<string>)
    returns (idCache: IdCache, scraped: nat, errors: nat, saves: seq<IdCache>)
    ensures idCache == Filled(idCache0, ToScrape(catalog, idCache0), Scrape(patterns, fetch))
    ensures scraped + errors == |ToScrape(catalog, idCache0)|
    ensures errors == Failures(patterns, fetch, ToScrape(catalog, idCache0))
    ensures saves == SavePoints(idCache0, ToScrape(catalog, idCache0), Scrape(patterns, fetch), 50, |ToScrape(catalog, idCache0)|) + [idCache]
  {
    var toScrape := ToScrape(catalog, idCache0);
    idCache := idCache0;
    scraped, errors := 0, 0;
    saves := [];
    for i := 0 to |toScrape|
      invariant idCache == Filled(idCache0, toScrape[..i], Scrape(patterns, fetch))
      invariant scraped + errors == i && errors == Failures(patterns, fetch, toScrape[..i])
      invariant saves == SavePoints(idCache0, toScrape, Scrape(patterns, fetch), 50, i)
    {
      var id := toScrape[i];
      FilledStep(idCache0, toScrape, Scrape(patterns, fetch), i);
      SavePointsStep(idCache0, toScrape, Scrape(patterns, fetch), 50, i);
      FailuresStep(patterns, fetch, toScrape, i);
      var page := LookUpPage(patterns, fetch, id);
      assert Scrape(patterns, fetch)(id) == match page case Read(blId) => blId case FetchFailed => None;
      match page {
        case Read(blId) =>
          idCache := idCache[id := blId];
          scraped := scraped + 1;
        case FetchFailed =>
          idCache := idCache[id := None];
          errors := errors + 1;
      }
      if (i + 1) % 50 == 0 {
        saves := saves + [idCache];
      }
    }
    assert toScrape[..|toScrape|] == toScrape;
    saves := saves + [idCache];
  }

  lemma FailuresStep(patterns: seq<Extractor>, fetch: string -> Option<string>, ids: seq<string>, i: nat)
    requires i < |ids|
    ensures Failures(patterns, fetch, ids[..i + 1])
         == Failures(patterns, fetch, ids[..i]) + (if LookUp(patterns, fetch, ids[i]).FetchFailed? then 1 else 0)
  {
    assert ids[..i + 1][..i] == ids[..i];
  }

  /**
   * After the scrape, every catalog id has a cache entry: an id cached
   * before keeps its entry (null included, so it is never fetched again),
   * and a new one holds the number read, or null when none was read or the
   * request failed.
   */
  lemma ScrapeResult(catalog: seq<CatalogName>, idCache0: IdCache, patterns: seq<Extractor>, fetch: string -> Option<string>, id: string)
    ensures var after := Filled(idCache0, ToScrape(catalog, idCache0), Scrape(patterns, fetch));
      && (id in after <==> id in idCache0 || id in CatalogIds(catalog))
      && (id in idCache0 ==> after[id] == idCache0[id])
      && (id !in idCache0 && id in CatalogIds(catalog) ==>
            after[id] == match LookUp(patterns, fetch, id) case Read(blId) => blId case FetchFailed => None)
  {
    FilledAt(idCache0, ToScrape(catalog, idCache0), Scrape(patterns, fetch), id);
  }

  // ---------------------------------------------------------------------
  // The price correction loop
  // ---------------------------------------------------------------------

  /** The number cached for an id when it is truthy; `!correctBlId` rules out a missing id, null and "". */
  function CorrectId(idCache: IdCache, id: string): (r: Option<string>)
    ensures r.Some? ==> r.value != ""
  {
    if id in idCache && idCache[id].Some? && idCache[id].value != "" then idCache[id] else None
  }

  /** `bsEntry?.valueNew` and `bsEntry?.valueUsed` for a number. */
  function BsNew(bsById: map<string, BricksetMinifig>, c: string): Option<real>
  {
    if c in bsById then bsById[c].valueNew else None
  }

  function BsUsed(bsById: map<string, BricksetMinifig>, c: string): Option<real>
  {
    if c in bsById then bsById[c].valueUsed else None
  }

  /**
   * The record the loop writes for an id whose record is `existing`, or
   * `None` when it writes nothing: nothing without a number or when the
   * record already carries it; a record with another number gets the new
   * number and Brickset's values, each falling back to the old one; a
   * missing record is created from Brickset's values.
   */
  function FixEntry(existing: Option<PriceEntry>, correct: Option<string>, bsById: map<string, BricksetMinifig>): Option<PriceEntry>
  {
    match correct
    case None => None
    case Some(c) =>
      match existing
      case Some(e) =>
        if e.bricklinkId == Some(c) then None
        else Some(PriceEntry(BsNew(bsById, c).Or(e.valueNew), BsUsed(bsById, c).Or(e.valueUsed), Some(c)))
      case None => Some(PriceEntry(BsNew(bsById, c), BsUsed(bsById, c), Some(c)))
  }

  function Fixer(idCache: IdCache, bsById: map<string, BricksetMinifig>): (string, Option<PriceEntry>) -> Option<PriceEntry>
  {
    (id, existing) => FixEntry(existing, CorrectId(idCache, id), bsById)
  }

  /** A corrected record carries the cached number, so correcting it again writes nothing. */
  lemma FixerStable(idCache: IdCache, bsById: map<string, BricksetMinifig>)
    ensures Stable(Fixer(idCache, bsById))
  {
    var f := Fixer(idCache, bsById);
    forall id, o
      ensures Effect(f, id, Effect(f, id, o)) == Effect(f, id, o)
    {
      var c := CorrectId(idCache, id);
      if c.Some? && f(id, o).Some? {
        assert f(id, o).value.bricklinkId == c;
      }
    }
  }

  /** `prices` after the correction loop. */
  function Corrected(catalog: seq<CatalogName>, prices: map<string, PriceEntry>, idCache: IdCache,
                     bsById: map<string, BricksetMinifig>): map<string, PriceEntry>
  {
    UpdateAll(prices, CatalogIds(catalog), Fixer(idCache, bsById))
  }

  /**
   * The correction's result for each id. An id outside the catalog, or
   * without a truthy cached number, keeps its record or its absence. A
   * catalog id with number `c` ends with a record carrying `c`: the old
   * record when it already carried `c`; otherwise Brickset's values for
   * `c`, each falling back to the old record's value when there was one.
   */
  lemma CorrectedAt(catalog: seq<CatalogName>, prices: map<string, PriceEntry>, idCache: IdCache,
                    bsById: map<string, BricksetMinifig>, id: string)
    ensures var r := Corrected(catalog, prices, idCache, bsById);
      && (id !in CatalogIds(catalog) || CorrectId(idCache, id).None? ==> Lookup(r, id) == Lookup(prices, id))
      && (id in CatalogIds(catalog) && CorrectId(idCache, id).Some? ==>
            var c := CorrectId(idCache, id).value;
            && id in r && r[id].bricklinkId == Some(c)
            && (id in prices && prices[id].bricklinkId == Some(c) ==> r[id] == prices[id])
            && (id in prices && prices[id].bricklinkId != Some(c) ==>
                  r[id] == PriceEntry(BsNew(bsById, c).Or(prices[id].valueNew), BsUsed(bsById, c).Or(prices[id].valueUsed), Some(c)))
            && (id !in prices ==> r[id] == PriceEntry(BsNew(bsById, c), BsUsed(bsById, c), Some(c))))
  {
    FixerStable(idCache, bsById);
    UpdateAllAt(prices, CatalogIds(catalog), Fixer(idCache, bsById), id);
  }

  /** Running the correction a second time changes nothing. */
  lemma CorrectedTwice(catalog: seq<CatalogName>, prices: map<string, PriceEntry>, idCache: IdCache,
                       bsById: map<string, BricksetMinifig>)
    ensures Corrected(catalog, Corrected(catalog, prices, idCache, bsById), idCache, bsById)
         == Corrected(catalog, prices, idCache, bsById)
  {
    FixerStable(idCache, bsById);
    UpdateAllTwice(prices, CatalogIds(catalog), Fixer(idCache, bsById));
  }

  /** How the loop body classifies an entry, by what it finds: the counters `noBlId`, `updated`, `added`. */
  datatype FixKind = NoId | Same | Updated | Added

  function KindOf(existing: Option<PriceEntry>, correct: Option<string>): FixKind
  {
    match correct
    case None => NoId
    case Some(c) =>
      match existing
      case Some(e) => if e.bricklinkId == Some(c) then Same else Updated
      case None => Added
  }

  /** The kind of each catalog entry, given what the loop finds when it reaches it. */
  function Kinds(catalog: seq<CatalogName>, prices: map<string, PriceEntry>, idCache: IdCache,
                 bsById: map<string, BricksetMinifig>): (r: seq<FixKind>)
    ensures |r| == |catalog|
  {
    var ids := CatalogIds(catalog);
    seq(|catalog|, i requires 0 <= i < |catalog| =>
      KindOf(Found(prices, ids, Fixer(idCache, bsById), i), CorrectId(idCache, ids[i])))
  }

  /** The body of the correction loop for one catalog entry. */
  method FixOne(prices: map<string, PriceEntry>, id: string, idCache: IdCache, bsById: map<string, BricksetMinifig>)
    returns (prices': map<string, PriceEntry>, kind: FixKind)
    ensures prices' == Update(prices, id, Fixer(idCache, bsById))
    ensures kind == KindOf(Lookup(prices, id), CorrectId(idCache, id))
  {
    assert Fixer(idCache, bsById)(id, Lookup(prices, id)) == FixEntry(Lookup(prices, id), CorrectId(idCache, id), bsById);
    var correctBlId := if id in idCache then idCache[id] else None;
    if correctBlId.None? || correctBlId.value == "" {
      assert CorrectId(idCache, id).None?;
      return prices, NoId;
    }
    var c := correctBlId.value;
    var bsEntry := if c in bsById then Some(bsById[c]) else None;
    if id in prices {
      var existing := prices[id];
      if existing.bricklinkId != Some(c) {
        var valueNew := if bsEntry.Some? && bsEntry.value.valueNew.Some? then bsEntry.value.valueNew else existing.valueNew;
        var valueUsed := if bsEntry.Some? && bsEntry.value.valueUsed.Some? then bsEntry.value.valueUsed else existing.valueUsed;
        return prices[id := PriceEntry(valueNew, valueUsed, Some(c))], Updated;
      }
      return prices, Same;
    }
    var valueNew := if bsEntry.Some? then bsEntry.value.valueNew else None;
    var valueUsed := if bsEntry.Some? then bsEntry.value.valueUsed else None;
    return prices[id := PriceEntry(valueNew, valueUsed, Some(c))], Added;
  }

  /** The correction loop with its counters. */
  method CorrectPrices(catalog: seq<CatalogName>, prices0: map<string, PriceEntry>, idCache: IdCache,
                       bsById: map<string, BricksetMinifig>)
    returns (prices: map<string, PriceEntry>, updated: nat, added: nat, noBlId: nat)
    ensures prices == Corrected(catalog, prices0, idCache, bsById)
    ensures var kinds := Kinds(catalog, prices0, idCache, bsById);
      updated == multiset(kinds)[Updated] && added == multiset(kinds)[Added] && noBlId == multiset(kinds)[NoId]
  {
    ghost var ids := CatalogIds(catalog);
    ghost var kinds := Kinds(catalog, prices0, idCache, bsById);
    prices := prices0;
    updated, added, noBlId := 0, 0, 0;
    for i := 0 to |catalog|
      invariant prices == UpdateAll(prices0, ids[..i], Fixer(idCache, bsById))
      invariant updated == multiset(kinds[..i])[Updated] && added == multiset(kinds[..i])[Added]
      invariant noBlId == multiset(kinds[..i])[NoId]
    {
      prices, updated, added, noBlId := CorrectNext(catalog, prices0, idCache, bsById, i, prices, updated, added, noBlId);
    }
    assert ids[..|catalog|] == ids && kinds[..|catalog|] == kinds;
  }

  /** One turn of the correction loop: entry `i` is corrected and its kind counted. */
  method CorrectNext(catalog: seq<CatalogName>, ghost prices0: map<string, PriceEntry>, idCache: IdCache,
                     bsById: map<string, BricksetMinifig>, i: nat,
                     prices: map<string, PriceEntry>, updated: nat, added: nat, noBlId: nat)
    returns (prices': map<string, PriceEntry>, updated': nat, added': nat, noBlId': nat)
    requires i < |catalog|
    requires prices == UpdateAll(prices0, CatalogIds(catalog)[..i], Fixer(idCache, bsById))
    requires var kinds := Kinds(catalog, prices0, idCache, bsById);
      updated == multiset(kinds[..i])[Updated] && added == multiset(kinds[..i])[Added] && noBlId == multiset(kinds[..i])[NoId]
    ensures prices' == UpdateAll(prices0, CatalogIds(catalog)[..i + 1], Fixer(idCache, bsById))
    ensures var kinds := Kinds(catalog, prices0, idCache, bsById);
      updated' == multiset(kinds[..i + 1])[Updated] && added' == multiset(kinds[..i + 1])[Added]
      && noBlId' == multiset(kinds[..i + 1])[NoId]
  {
    ghost var ids := CatalogIds(catalog);
    ghost var kinds := Kinds(catalog, prices0, idCache, bsById);
    UpdateAllStep(prices0, ids, Fixer(idCache, bsById), i);
    MultisetStep(kinds, i);
    assert kinds[i] == KindOf(Lookup(prices, ids[i]), CorrectId(idCache, ids[i]));
    var kind;
    prices', kind := FixOne(prices, catalog[i].id, idCache, bsById);
    updated', added', noBlId' := updated, added, noBlId;
    match kind {
      case NoId => noBlId' := noBlId + 1;
      case Updated => updated' := updated + 1;
      case Added => added' := added + 1;
      case Same =>
    }
  }

  /** The four kinds partition the catalog: `noBlId + updated + added` plus the unchanged entries is the catalog size. */
  lemma {:induction false} KindsPartition(kinds: seq<FixKind>)
    ensures multiset(kinds)[NoId] + multiset(kinds)[Same] + multiset(kinds)[Updated] + multiset(kinds)[Added] == |kinds|
  {
    if kinds != [] {
      var n := |kinds| - 1;
      KindsPartition(kinds[..n]);
      assert kinds == kinds[..n] + [kinds[n]];
      assert multiset(kinds) == multiset(kinds[..n]) + multiset{kinds[n]};
      match kinds[n]
      case NoId =>
      case Same =>
      case Updated =>
      case Added =>
    }
  }

  // ---------------------------------------------------------------------
  // The duplicate report
  // ---------------------------------------------------------------------

  /** The key `counts` files a record under: `String(bricklinkId)`, so a missing number becomes "undefined". */
  function CountKey(p: PriceEntry): string
  {
    match p.bricklinkId
    case Some(b) => b
    case None => "undefined"
  }

  function CountKeys(values: seq<PriceEntry>): (r: seq<string>)
    ensures |r| == |values| && forall i :: 0 <= i < |r| ==> r[i] == CountKey(values[i])
  {
    seq(|values|, i requires 0 <= i < |values| => CountKey(values[i]))
  }

  /** The keys filed more than once. */
  function Duplicated(keys: seq<string>): set<string>
  {
    set k | k in keys && multiset(keys)[k] > 1
  }

  /**
   * The report over `Object.values(prices)`: the number of distinct
   * numbers, and of count keys filed more than once. It reads the values
   * only; their order does not matter to either count.
   */
  method DuplicateReport(values: seq<PriceEntry>) returns (uniqueIds: nat, dupes: nat)
    ensures uniqueIds == |set i | 0 <= i < |values| :: values[i].bricklinkId|
    ensures dupes == |Duplicated(CountKeys(values))|
  {
    uniqueIds := |set i | 0 <= i < |values| :: values[i].bricklinkId|;
    var counts := CountByKey(CountKeys(values));
    dupes := |set k | k in counts && counts[k] > 1|;
    assert (set k | k in counts && counts[k] > 1) == Duplicated(CountKeys(values));
  }

  /** The `forEach` that fills `counts`: each key to the number of times it is filed. */
  method CountByKey(keys: seq<string>) returns (counts: map<string, nat>)
    ensures forall k :: k in counts <==> k in keys
    ensures forall k :: k in counts ==> counts[k] == multiset(keys)[k]
  {
    counts := map[];
    for i := 0 to |keys|
      invariant forall k :: k in counts <==> k in keys[..i]
      invariant forall k :: k in counts ==> counts[k] == multiset(keys[..i])[k]
    {
      MultisetStep(keys, i);
      assert keys[..i + 1] == keys[..i] + [keys[i]];
      counts := counts[keys[i] := (if keys[i] in counts then counts[keys[i]] else 0) + 1];
    }
    assert keys[..|keys|] == keys;
  }

  /** Two positions filed under the same key make it duplicated. */
  lemma SharedKeyDuplicated(keys: seq<string>, i: nat, j: nat)
    requires i < j < |keys| && keys[i] == keys[j]
    ensures keys[i] in Duplicated(keys)
  {
    assert keys == keys[..j] + [keys[j]] + keys[j + 1..];
    assert keys[i] in keys[..j];
  }

  /** The report shows no duplicates exactly when every record is filed under its own key. */
  lemma NoDuplicatesIffDistinct(keys: seq<string>)
    ensures |Duplicated(keys)| == 0 <==> forall i, j :: 0 <= i < j < |keys| ==> keys[i] != keys[j]
  {
    if |Duplicated(keys)| == 0 {
      forall i, j | 0 <= i < j < |keys|
        ensures keys[i] != keys[j]
      {
        if keys[i] == keys[j] {
          SharedKeyDuplicated(keys, i, j);
        }
      }
    } else {
      var k :| k in Duplicated(keys);
      var i :| 0 <= i < |keys| && keys[i] == k;
      var rest := keys[..i] + keys[i + 1..];
      assert keys == keys[..i] + [keys[i]] + keys[i + 1..];
      assert k in multiset(rest);
      var j :| 0 <= j < |rest| && rest[j] == k;
      if j < i {
        assert keys[j] == k;
      } else {
        assert keys[j + 1] == k;
      }
    }
  }

  // ---------------------------------------------------------------------
  // The name rewrite
  // ---------------------------------------------------------------------

  /**
   * The name an entry is given, if any: "<Brickset name> (<number>)" when
   * its price record has a truthy number and Brickset has a truthy name for it.
   */
  function NewName(id: string, prices: map<string, PriceEntry>, bsById: map<string, BricksetMinifig>): Option<string>
  {
    if id in prices && prices[id].bricklinkId.Some? && prices[id].bricklinkId.value != "" then
      var bl := prices[id].bricklinkId.value;
      if bl in bsById && bsById[bl].name != "" then Some(bsById[bl].name + " (" + bl + ")") else None
    else None
  }

  function Renamed(item: CatalogName, prices: map<string, PriceEntry>, bsById: map<string, BricksetMinifig>): (r: CatalogName)
    ensures r.id == item.id
    ensures NewName(item.id, prices, bsById).Some? ==> r.name == NewName(item.id, prices, bsById).value
    ensures NewName(item.id, prices, bsById).None? ==> r == item
  {
    match NewName(item.id, prices, bsById)
    case Some(n) => item.(name := n)
    case None => item
  }

  function RenameAll(catalog: seq<CatalogName>, prices: map<string, PriceEntry>, bsById: map<string, BricksetMinifig>): (r: seq<CatalogName>)
    ensures |r| == |catalog| && forall i :: 0 <= i < |r| ==> r[i] == Renamed(catalog[i], prices, bsById)
  {
    seq(|catalog|, i requires 0 <= i < |catalog| => Renamed(catalog[i], prices, bsById))
  }

  /** The number of entries whose name the rewrite changes: `namesUpdated`. */
  function Changes(catalog: seq<CatalogName>, prices: map<string, PriceEntry>, bsById: map<string, BricksetMinifig>): (r: nat)
    ensures r <= |catalog|
  {
    if catalog == [] then 0
    else
      var n := |catalog| - 1;
      Changes(catalog[..n], prices, bsById) + (if Renamed(catalog[n], prices, bsById) != catalog[n] then 1 else 0)
  }

  /** The rewrite loop, which assigns `item.name` in place. */
  method RewriteNames(catalog: array<CatalogName>, prices: map<string, PriceEntry>, bsById: map<string, BricksetMinifig>)
    returns (namesUpdated: nat)
    modifies catalog
    ensures catalog[..] == RenameAll(old(catalog[..]), prices, bsById)
    ensures namesUpdated == Changes(old(catalog[..]), prices, bsById)
  {
    ghost var before := catalog[..];
    namesUpdated := 0;
    for i := 0 to catalog.Length
      invariant forall j :: 0 <= j < i ==> catalog[j] == Renamed(before[j], prices, bsById)
      invariant forall j :: i <= j < catalog.Length ==> catalog[j] == before[j]
      invariant namesUpdated == Changes(before[..i], prices, bsById)
    {
      assert before[..i + 1][..i] == before[..i];
      var item := catalog[i];
      var newName := NewName(item.id, prices, bsById);
      if newName.Some? && item.name != newName.value {
        catalog[i] := item.(name := newName.value);
        namesUpdated := namesUpdated + 1;
      }
    }
    assert before[..catalog.Length] == before;
  }

  /** Rewriting the names a second time changes nothing and counts nothing. */
  lemma {:induction false} RenameAgain(catalog: seq<CatalogName>, prices: map<string, PriceEntry>, bsById: map<string, BricksetMinifig>)
    ensures RenameAll(RenameAll(catalog, prices, bsById), prices, bsById) == RenameAll(catalog, prices, bsById)
    ensures Changes(RenameAll(catalog, prices, bsById), prices, bsById) == 0
  {
    if catalog != [] {
      var n := |catalog| - 1;
      RenameAgain(catalog[..n], prices, bsById);
      assert RenameAll(catalog, prices, bsById)[..n] == RenameAll(catalog[..n], prices, bsById);
    }
  }
}
