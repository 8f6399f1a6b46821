/**
 * The dashboard's collection statistics (`computeStats`): quantities by
 * status, completion against the catalog, money totals, the faction and
 * year breakdowns, and the most recently changed entries.
 */
module StatsService {
  import opened Wrappers
  import opened Types
  import opened Strings
  import opened Seqs
  import opened Sorting
  import opened OrderedMap
  import CsvImport

  type Collection = OMap<string, CollectionEntry>

  datatype FactionCount = FactionCount(faction: string, count: int, total: int)

  datatype YearCount = YearCount(year: int, count: int)

  datatype Activity = Activity(entry: CollectionEntry, minifig: CatalogMinifig)

  datatype CollectionStats = CollectionStats(
    totalOwned: int,
    totalWanted: int,
    totalForSale: int,
    totalSold: int,
    totalInCollection: int,
    catalogSize: int,
    completionPercent: real,
    totalPaid: real,
    totalSoldValue: real,
    totalAskingValue: real,
    factionBreakdown: seq<FactionCount>,
    yearBreakdown: seq<YearCount>,
    recentActivity: seq<Activity>)

  /** owned, for-sale or sold: the entries whose figure the user has had in hand. */
  predicate Held(e: CollectionEntry) { e.status == Owned || e.status == ForSale || e.status == Sold }

  /** owned or for-sale: the entries the breakdowns count. */
  predicate OnHand(e: CollectionEntry) { e.status == Owned || e.status == ForSale }

  function IsStatus(s: ItemStatus): CollectionEntry -> bool
  {
    (e: CollectionEntry) => e.status == s
  }

  // ---------------------------------------------------------------------
  // Totals
  // ---------------------------------------------------------------------

  function Quantity(e: CollectionEntry): int { e.quantity }

  /** An entry's quantity when it has status `s`, else 0. */
  function QuantityIf(s: ItemStatus): CollectionEntry -> int
  {
    (e: CollectionEntry) => if e.status == s then e.quantity else 0
  }

  /** `entries.filter(e => e.status === s).reduce((n, e) => n + e.quantity, 0)`. */
  function QuantityWith(entries: seq<CollectionEntry>, s: ItemStatus): int
  {
    SumOf(entries, QuantityIf(s))
  }

  /** The four status totals share out the quantities of all entries. */
  lemma StatusQuantities(entries: seq<CollectionEntry>)
    ensures QuantityWith(entries, Owned) + QuantityWith(entries, Wanted) +
            QuantityWith(entries, ForSale) + QuantityWith(entries, Sold) == SumOf(entries, Quantity)
  {
    var h1 := (e: CollectionEntry) => QuantityIf(Owned)(e) + QuantityIf(Wanted)(e);
    var h2 := (e: CollectionEntry) => h1(e) + QuantityIf(ForSale)(e);
    SumOfAdd(entries, QuantityIf(Owned), QuantityIf(Wanted), h1);
    SumOfAdd(entries, h1, QuantityIf(ForSale), h2);
    SumOfAdd(entries, h2, QuantityIf(Sold), Quantity);
  }

  /** What an entry paid in all: `(pricePaid ?? 0) * quantity`. */
  function Paid(e: CollectionEntry): real { e.pricePaid.GetOr(0.0) * e.quantity as real }

  function SoldWorth(e: CollectionEntry): real { e.priceSold.GetOr(0.0) * e.quantity as real }

  function AskingWorth(e: CollectionEntry): real { e.askingPrice.GetOr(0.0) * e.quantity as real }

  /** What the entries with status `s` paid. */
  function PaidWith(entries: seq<CollectionEntry>, s: ItemStatus): real
  {
    RealSumOf(Filter(entries, IsStatus(s)), Paid)
  }

  /** `totalPaid` runs over every status: it is the sum of what each status's entries paid. */
  lemma TotalPaidAllStatuses(entries: seq<CollectionEntry>)
    ensures RealSumOf(entries, Paid) ==
            PaidWith(entries, Owned) + PaidWith(entries, Wanted) + PaidWith(entries, ForSale) + PaidWith(entries, Sold)
  {
    var v1 := (e: CollectionEntry) => if e.status == Owned then Paid(e) else 0.0;
    var v2 := (e: CollectionEntry) => if e.status == Wanted then Paid(e) else 0.0;
    var v3 := (e: CollectionEntry) => if e.status == ForSale then Paid(e) else 0.0;
    var v4 := (e: CollectionEntry) => if e.status == Sold then Paid(e) else 0.0;
    RealSumOfFilter(entries, IsStatus(Owned), Paid, v1);
    RealSumOfFilter(entries, IsStatus(Wanted), Paid, v2);
    RealSumOfFilter(entries, IsStatus(ForSale), Paid, v3);
    RealSumOfFilter(entries, IsStatus(Sold), Paid, v4);
    var h1 := (e: CollectionEntry) => v1(e) + v2(e);
    var h2 := (e: CollectionEntry) => h1(e) + v3(e);
    RealSumOfAdd(entries, v1, v2, h1);
    RealSumOfAdd(entries, h1, v3, h2);
    RealSumOfAdd(entries, h2, v4, Paid);
  }

  // ---------------------------------------------------------------------
  // Completion
  // ---------------------------------------------------------------------

  function MinifigId(e: CollectionEntry): string { e.minifigId }

  /** `new Set(held entries' minifigIds)`. */
  function HeldIds(entries: seq<CollectionEntry>): set<string>
  {
    KeySet(Filter(entries, Held), MinifigId)
  }

  /** Each entry is stored under its own minifigure id, as every collection operation stores it. */
  ghost predicate KeyedById(collection: Collection)
  {
    collection.Valid() && forall k :: k in collection.values ==> collection.values[k].minifigId == k
  }

  /** In a collection keyed by id, `totalInCollection` is the number of held entries. */
  lemma TotalInCollectionCounts(collection: Collection)
    requires KeyedById(collection)
    ensures |HeldIds(collection.Values())| == |Filter(collection.Values(), Held)|
  {
    var s := collection.Values();
    var held := Filter(s, Held);
    assert DistinctKeys(s, MinifigId) by {
      forall i, j | 0 <= i < j < |s| ensures MinifigId(s[i]) != MinifigId(s[j]) {
        assert s[i].minifigId == collection.keys[i] && s[j].minifigId == collection.keys[j];
      }
    }
    FilterDistinctKeys(s, Held, MinifigId);
    KeySetSize(held, MinifigId);
  }

  function CatalogIds(catalog: seq<CatalogMinifig>): set<string>
  {
    set m | m in catalog :: m.id
  }

  lemma {:induction false} CatalogIdsBound(catalog: seq<CatalogMinifig>)
    ensures |CatalogIds(catalog)| <= |catalog|
  {
    if catalog != [] {
      var t := catalog[1..];
      CatalogIdsBound(t);
      assert catalog == [catalog[0]] + t;
      assert CatalogIds(catalog) == CatalogIds(t) + {catalog[0].id};
    }
  }

  /** `completionPercent`: 0 for an empty catalog, else the held share of the catalog in percent. */
  function Completion(held: nat, catalogSize: nat): real
  {
    if catalogSize > 0 then (held as real / catalogSize as real) * 100.0 else 0.0
  }

  /** When every held id is a catalog id, completion is at most 100 percent. */
  lemma CompletionBounded(entries: seq<CollectionEntry>, catalog: seq<CatalogMinifig>)
    requires HeldIds(entries) <= CatalogIds(catalog)
    ensures 0.0 <= Completion(|HeldIds(entries)|, |catalog|) <= 100.0
  {
    var held := HeldIds(entries);
    CatalogIdsBound(catalog);
    SubsetCard(held, CatalogIds(catalog));
    if |catalog| > 0 {
      ShareBound(|held| as real, |catalog| as real);
    }
  }

  /** A part of a positive whole is at most all of it. */
  lemma ShareBound(part: real, whole: real)
    requires 0.0 <= part <= whole && whole > 0.0
    ensures 0.0 <= (part / whole) * 100.0 <= 100.0
  {
    var q := part / whole;
    assert q * whole == part;
    if q > 1.0 {
      assert false;
    }
  }

  lemma SubsetCard(a: set<string>, b: set<string>)
    requires a <= b
    ensures |a| <= |b|
  {
    assert b == a + (b - a);
  }

  // ---------------------------------------------------------------------
  // Faction and year breakdowns. `factionCounts` and `yearCounts` are
  // JavaScript Maps, each held as its keys in insertion order and its
  // values by key.
  // ---------------------------------------------------------------------

  /** The catalog figures of the owned and for-sale entries that are in the catalog, in entry order. */
  function OnHandFigures(entries: seq<CollectionEntry>, byId: map<string, CatalogMinifig>): seq<CatalogMinifig>
  {
    if entries == [] then []
    else
      var n := |entries| - 1;
      var e := entries[n];
      OnHandFigures(entries[..n], byId) + (if OnHand(e) && e.minifigId in byId then [byId[e.minifigId]] else [])
  }

  /** One more entry seen, on hand and in the catalog: its figure joins the list. */
  lemma OnHandAdded(entries: seq<CollectionEntry>, byId: map<string, CatalogMinifig>, j: nat)
    requires j < |entries| && OnHand(entries[j]) && entries[j].minifigId in byId
    ensures OnHandFigures(entries[..j + 1], byId) == OnHandFigures(entries[..j], byId) + [byId[entries[j].minifigId]]
  {
    assert entries[..j + 1][..j] == entries[..j];
  }

  /** One more entry seen, not on hand or not in the catalog: the list stays. */
  lemma OnHandSkipped(entries: seq<CollectionEntry>, byId: map<string, CatalogMinifig>, j: nat)
    requires j < |entries| && !(OnHand(entries[j]) && entries[j].minifigId in byId)
    ensures OnHandFigures(entries[..j + 1], byId) == OnHandFigures(entries[..j], byId)
  {
    assert entries[..j + 1][..j] == entries[..j];
    var before := OnHandFigures(entries[..j], byId);
    assert OnHandFigures(entries[..j + 1], byId) == before + [];
    assert before + [] == before;
  }

  /** The row of a faction: on-hand figures of it, catalog figures of it. */
  function FactionRow(catalog: seq<CatalogMinifig>, figures: seq<CatalogMinifig>): string -> FactionCount
  {
    (f: string) => FactionCount(f, multiset(MapSeq(figures, FactionOf))[f], multiset(MapSeq(catalog, FactionOf))[f])
  }

  /** `(a, b) => b.total - a.total`. */
  function MostFirst(a: FactionCount, b: FactionCount): int { b.total - a.total }

  /** `factionBreakdown`: a row per catalog faction, in first-seen order, then sorted by total, most first. */
  function FactionBreakdown(catalog: seq<CatalogMinifig>, entries: seq<CollectionEntry>): seq<FactionCount>
  {
    var figures := OnHandFigures(entries, CsvImport.CatalogById(catalog));
    Sort(MapSeq(Dedup(MapSeq(catalog, FactionOf)), FactionRow(catalog, figures)), MostFirst)
  }

  datatype Tally = Tally(count: int, total: int)

  /**
   * `factionCounts` once it has counted the catalog factions `fs` into the
   * totals and the on-hand factions `gs` into the counts.
   */
  ghost predicate FactionTallies(order: seq<string>, m: map<string, Tally>, fs: seq<string>, gs: seq<string>)
  {
    order == Dedup(fs) &&
    (forall f :: f in m <==> f in fs) &&
    (forall f :: f in m ==> m[f] == Tally(multiset(gs)[f], multiset(fs)[f]))
  }

  /** The Map entry of a faction as a breakdown row. */
  function RowOf(m: map<string, Tally>): string -> FactionCount
  {
    (f: string) => if f in m then FactionCount(f, m[f].count, m[f].total) else FactionCount(f, 0, 0)
  }

  /** The two loops over `factionCounts`: totals over the catalog, then counts over the entries. */
  method CountFactions(catalog: seq<CatalogMinifig>, entries: seq<CollectionEntry>) returns (rows: seq<FactionCount>)
    ensures rows == FactionBreakdown(catalog, entries)
  {
    var byId := CsvImport.CatalogById(catalog);
    var order, counts := TallyTotals(catalog);
    ghost var fs := MapSeq(catalog, FactionOf);
    forall id | id in byId ensures byId[id].faction in fs {
      FigureFactionListed(catalog, byId[id]);
    }
    counts := TallyCounts(entries, byId, fs, order, counts);
    var figures := OnHandFigures(entries, byId);
    rows := Sort(MapSeq(order, RowOf(counts)), MostFirst);
    FactionRows(order, counts, MapSeq(catalog, FactionOf), MapSeq(figures, FactionOf), catalog, figures);
  }

  /** The first loop: a zero count and the catalog total per faction, factions in first-seen order. */
  method TallyTotals(catalog: seq<CatalogMinifig>) returns (order: seq<string>, counts: map<string, Tally>)
    ensures FactionTallies(order, counts, MapSeq(catalog, FactionOf), [])
  {
    order, counts := [], map[];
    ghost var fs: seq<string> := [];
    for i := 0 to |catalog|
      invariant fs == MapSeq(catalog[..i], FactionOf)
      invariant FactionTallies(order, counts, fs, [])
    {
      var f := catalog[i].faction;
      if f !in counts {
        TotalNew(order, counts, fs, f);
        order := order + [f];
        counts := counts[f := Tally(0, 0)];
      } else {
        TotalKnown(order, counts, fs, f);
      }
      TotalBump(order, counts, fs, f);
      counts := counts[f := counts[f].(total := counts[f].total + 1)];
      MapSeqSnoc(catalog, FactionOf, i);
      fs := fs + [f];
    }
    assert catalog[..|catalog|] == catalog;
  }

  /** The second loop: each owned or for-sale entry in the catalog counts for its figure's faction. */
  method TallyCounts(entries: seq<CollectionEntry>, byId: map<string, CatalogMinifig>, ghost fs: seq<string>,
                     order: seq<string>, counts0: map<string, Tally>)
    returns (counts: map<string, Tally>)
    requires forall id :: id in byId ==> byId[id].faction in fs
    requires FactionTallies(order, counts0, fs, [])
    ensures FactionTallies(order, counts, fs, MapSeq(OnHandFigures(entries, byId), FactionOf))
  {
    counts := counts0;
    ghost var gs: seq<string> := [];
    for j := 0 to |entries|
      invariant gs == MapSeq(OnHandFigures(entries[..j], byId), FactionOf)
      invariant FactionTallies(order, counts, fs, gs)
    {
      counts, gs := CountEntry(entries, byId, fs, j, order, counts, gs);
    }
    assert entries[..|entries|] == entries;
  }

  /** `factionCounts` with a key for each of `fs` and `f`, holding the totals of `fs`. */
  ghost predicate Pending(order: seq<string>, m: map<string, Tally>, fs: seq<string>, f: string)
  {
    order == Dedup(fs + [f]) &&
    (forall g :: g in m <==> g in fs + [f]) &&
    (forall g :: g in m ==> m[g] == Tally(0, multiset(fs)[g]))
  }

  /** A catalog figure of a new faction: the faction gets a zero entry at the end. */
  lemma TotalNew(order: seq<string>, m: map<string, Tally>, fs: seq<string>, f: string)
    requires FactionTallies(order, m, fs, []) && f !in m
    ensures Pending(order + [f], m[f := Tally(0, 0)], fs, f)
  {
    DedupSnoc(fs, f);
    assert f !in fs;
  }

  /** A catalog figure of a known faction: nothing to add. */
  lemma TotalKnown(order: seq<string>, m: map<string, Tally>, fs: seq<string>, f: string)
    requires FactionTallies(order, m, fs, []) && f in m
    ensures Pending(order, m, fs, f)
  {
    DedupSnoc(fs, f);
  }

  /** Then the faction's total grows by one. */
  lemma TotalBump(order: seq<string>, m: map<string, Tally>, fs: seq<string>, f: string)
    requires Pending(order, m, fs, f)
    ensures f in m
    ensures FactionTallies(order, m[f := m[f].(total := m[f].total + 1)], fs + [f], [])
  {
    assert multiset(fs + [f]) == multiset(fs) + multiset{f};
  }

  /** One entry of the second loop: an on-hand figure in the catalog counts for its faction. */
  method CountEntry(entries: seq<CollectionEntry>, byId: map<string, CatalogMinifig>, ghost fs: seq<string>,
                    j: nat, order: seq<string>, m: map<string, Tally>, ghost gs: seq<string>)
    returns (m': map<string, Tally>, ghost gs': seq<string>)
    requires j < |entries|
    requires forall id :: id in byId ==> byId[id].faction in fs
    requires gs == MapSeq(OnHandFigures(entries[..j], byId), FactionOf)
    requires FactionTallies(order, m, fs, gs)
    ensures gs' == MapSeq(OnHandFigures(entries[..j + 1], byId), FactionOf)
    ensures FactionTallies(order, m', fs, gs')
  {
    var e := entries[j];
    m', gs' := m, gs;
    if e.minifigId in byId && OnHand(e) {
      var fig := byId[e.minifigId];
      OnHandAdded(entries, byId, j);
      MapSeqPush(OnHandFigures(entries[..j], byId), fig, FactionOf);
      CountStep(order, m, fs, gs, fig.faction);
      m' := m[fig.faction := m[fig.faction].(count := m[fig.faction].count + 1)];
      gs' := gs + [fig.faction];
    } else {
      OnHandSkipped(entries, byId, j);
    }
  }

  /** An on-hand figure of a catalog faction: that faction's count grows by one. */
  lemma CountStep(order: seq<string>, m: map<string, Tally>, fs: seq<string>, gs: seq<string>, f: string)
    requires FactionTallies(order, m, fs, gs) && f in fs
    ensures f in m
    ensures FactionTallies(order, m[f := m[f].(count := m[f].count + 1)], fs, gs + [f])
  {
    assert multiset(gs + [f]) == multiset(gs) + multiset{f};
  }

  /** A catalog figure's faction has an entry from the first loop. */
  lemma FigureFactionListed(catalog: seq<CatalogMinifig>, m: CatalogMinifig)
    requires m in catalog
    ensures m.faction in MapSeq(catalog, FactionOf)
  {
    var i :| 0 <= i < |catalog| && catalog[i] == m;
    MapSeqAt(catalog, FactionOf, i);
  }

  /** The Map's entries, spread and mapped to rows, are the rows of the catalog factions. */
  lemma FactionRows(order: seq<string>, m: map<string, Tally>, fs: seq<string>, gs: seq<string>,
                    catalog: seq<CatalogMinifig>, figures: seq<CatalogMinifig>)
    requires FactionTallies(order, m, fs, gs)
    requires fs == MapSeq(catalog, FactionOf) && gs == MapSeq(figures, FactionOf)
    ensures MapSeq(order, RowOf(m)) == MapSeq(Dedup(fs), FactionRow(catalog, figures))
  {
    forall i | 0 <= i < |order| ensures RowOf(m)(order[i]) == FactionRow(catalog, figures)(order[i]) {
      assert order[i] in fs;
    }
    MapSeqExt(order, RowOf(m), FactionRow(catalog, figures));
  }

  function Total(c: FactionCount): int { c.total }

  function Faction(c: FactionCount): string { c.faction }

  /** Most figures first. */
  lemma FactionBreakdownSorted(catalog: seq<CatalogMinifig>, entries: seq<CollectionEntry>)
    ensures Sorted(FactionBreakdown(catalog, entries), MostFirst)
  {
    var figures := OnHandFigures(entries, CsvImport.CatalogById(catalog));
    assert Consistent(MostFirst);
    SortSorted(MapSeq(Dedup(MapSeq(catalog, FactionOf)), FactionRow(catalog, figures)), MostFirst);
  }

  /** The totals share out the catalog: they add up to its size. */
  lemma FactionTotalsSum(catalog: seq<CatalogMinifig>, entries: seq<CollectionEntry>)
    ensures SumOf(FactionBreakdown(catalog, entries), Total) == |catalog|
  {
    var figures := OnHandFigures(entries, CsvImport.CatalogById(catalog));
    var all := MapSeq(catalog, FactionOf);
    var g := FactionRow(catalog, figures);
    var rows0 := MapSeq(Dedup(all), g);
    SortSumOf(rows0, MostFirst, Total);
    SumOfMapSeq(Dedup(all), g, Total, multiset(all));
    DedupCountSum(all);
  }

  /** One row per faction: no two rows name the same faction. */
  lemma FactionBreakdownDistinct(catalog: seq<CatalogMinifig>, entries: seq<CollectionEntry>)
    ensures DistinctKeys(FactionBreakdown(catalog, entries), Faction)
  {
    var figures := OnHandFigures(entries, CsvImport.CatalogById(catalog));
    SortMapSeqDistinct(Dedup(MapSeq(catalog, FactionOf)), FactionRow(catalog, figures), MostFirst, Faction);
  }

  /**
   * Each row is a catalog faction with the number of catalog figures of it
   * and of owned or for-sale entries of it.
   */
  lemma FactionBreakdownCounts(catalog: seq<CatalogMinifig>, entries: seq<CollectionEntry>)
    ensures var r := FactionBreakdown(catalog, entries);
      var fs := MapSeq(catalog, FactionOf);
      var gs := MapSeq(OnHandFigures(entries, CsvImport.CatalogById(catalog)), FactionOf);
      forall i :: 0 <= i < |r| ==>
        r[i].faction in fs && r[i].total == multiset(fs)[r[i].faction] && r[i].count == multiset(gs)[r[i].faction]
  {
    var figures := OnHandFigures(entries, CsvImport.CatalogById(catalog));
    var fs := MapSeq(catalog, FactionOf);
    var gs := MapSeq(figures, FactionOf);
    var keys := Dedup(fs);
    var g := FactionRow(catalog, figures);
    var r := Sort(MapSeq(keys, g), MostFirst);
    assert r == FactionBreakdown(catalog, entries);
    forall i | 0 <= i < |r|
      ensures r[i].faction in fs && r[i].total == multiset(fs)[r[i].faction] && r[i].count == multiset(gs)[r[i].faction]
    {
      var k := SortMapSeqFrom(keys, g, MostFirst, i);
      var f := keys[k];
      assert f in fs;
      assert g(f) == FactionCount(f, multiset(gs)[f], multiset(fs)[f]);
    }
  }

  /** Every catalog faction has its row. */
  lemma FactionBreakdownCovers(catalog: seq<CatalogMinifig>, entries: seq<CollectionEntry>)
    ensures var r := FactionBreakdown(catalog, entries);
      forall f :: f in MapSeq(catalog, FactionOf) ==> exists i :: 0 <= i < |r| && r[i].faction == f
  {
    var figures := OnHandFigures(entries, CsvImport.CatalogById(catalog));
    var keys := Dedup(MapSeq(catalog, FactionOf));
    var g := FactionRow(catalog, figures);
    var r := Sort(MapSeq(keys, g), MostFirst);
    assert r == FactionBreakdown(catalog, entries);
    forall f | f in MapSeq(catalog, FactionOf) ensures exists i :: 0 <= i < |r| && r[i].faction == f {
      assert f in keys;
      var k :| 0 <= k < |keys| && keys[k] == f;
      var i := SortMapSeqHas(keys, g, MostFirst, k);
      assert r[i].faction == f;
    }
  }

  /** The year of each on-hand figure, counted. */
  function YearRow(figures: seq<CatalogMinifig>): int -> YearCount
  {
    (y: int) => YearCount(y, multiset(MapSeq(figures, YearOf))[y])
  }

  /** `(a, b) => a.year - b.year`. */
  function EarlierFirst(a: YearCount, b: YearCount): int { a.year - b.year }

  /** `yearBreakdown`: a row per year of an on-hand catalog figure, earliest first. */
  function YearBreakdown(catalog: seq<CatalogMinifig>, entries: seq<CollectionEntry>): seq<YearCount>
  {
    var figures := OnHandFigures(entries, CsvImport.CatalogById(catalog));
    Sort(MapSeq(Dedup(MapSeq(figures, YearOf)), YearRow(figures)), EarlierFirst)
  }

  /** The Map entry of a year as a breakdown row. */
  function YearRowOf(m: map<int, int>): int -> YearCount
  {
    (y: int) => YearCount(y, if y in m then m[y] else 0)
  }

  /** The loop over `yearCounts`. */
  method CountYears(catalog: seq<CatalogMinifig>, entries: seq<CollectionEntry>) returns (rows: seq<YearCount>)
    ensures rows == YearBreakdown(catalog, entries)
  {
    var byId := CsvImport.CatalogById(catalog);
    var order, counts := TallyYears(entries, byId);
    rows := Sort(MapSeq(order, YearRowOf(counts)), EarlierFirst);
    YearRows(order, counts, OnHandFigures(entries, byId));
  }

  method TallyYears(entries: seq<CollectionEntry>, byId: map<string, CatalogMinifig>)
    returns (order: seq<int>, counts: map<int, int>)
    ensures Tallied(order, counts, MapSeq(OnHandFigures(entries, byId), YearOf))
  {
    order, counts := [], map[];
    ghost var ys: seq<int> := [];
    for j := 0 to |entries|
      invariant ys == MapSeq(OnHandFigures(entries[..j], byId), YearOf)
      invariant Tallied(order, counts, ys)
    {
      order, counts, ys := YearEntry(entries, byId, j, order, counts, ys);
    }
    assert entries[..|entries|] == entries;
  }

  /** One entry of the loop: an on-hand figure in the catalog counts for its year. */
  method YearEntry(entries: seq<CollectionEntry>, byId: map<string, CatalogMinifig>, j: nat,
                   order: seq<int>, counts: map<int, int>, ghost ys: seq<int>)
    returns (order': seq<int>, counts': map<int, int>, ghost ys': seq<int>)
    requires j < |entries|
    requires ys == MapSeq(OnHandFigures(entries[..j], byId), YearOf)
    requires Tallied(order, counts, ys)
    ensures ys' == MapSeq(OnHandFigures(entries[..j + 1], byId), YearOf)
    ensures Tallied(order', counts', ys')
  {
    order', counts', ys' := order, counts, ys;
    var e := entries[j];
    if OnHand(e) {
      if e.minifigId in byId {
        var m := byId[e.minifigId];
        OnHandAdded(entries, byId, j);
        MapSeqPush(OnHandFigures(entries[..j], byId), m, YearOf);
        if m.year !in counts {
          order' := order + [m.year];
        }
        TalliedStep(order, counts, ys, m.year, order');
        counts' := counts[m.year := (if m.year in counts then counts[m.year] else 0) + 1];
        ys' := ys + [m.year];
      } else {
        OnHandSkipped(entries, byId, j);
      }
    } else {
      OnHandSkipped(entries, byId, j);
    }
  }

  /** The Map's entries, spread and mapped to rows, are the rows of the on-hand years. */
  lemma YearRows(order: seq<int>, m: map<int, int>, figures: seq<CatalogMinifig>)
    requires Tallied(order, m, MapSeq(figures, YearOf))
    ensures MapSeq(order, YearRowOf(m)) == MapSeq(Dedup(MapSeq(figures, YearOf)), YearRow(figures))
  {
    forall i | 0 <= i < |order| ensures YearRowOf(m)(order[i]) == YearRow(figures)(order[i]) {
      assert order[i] in MapSeq(figures, YearOf);
    }
    MapSeqExt(order, YearRowOf(m), YearRow(figures));
  }

  function Year(c: YearCount): int { c.year }

  /** Strictly ascending years. */
  lemma YearBreakdownAscending(catalog: seq<CatalogMinifig>, entries: seq<CollectionEntry>)
    ensures var r := YearBreakdown(catalog, entries);
      forall i, j :: 0 <= i < j < |r| ==> r[i].year < r[j].year
  {
    var figures := OnHandFigures(entries, CsvImport.CatalogById(catalog));
    var keys := Dedup(MapSeq(figures, YearOf));
    var rows0 := MapSeq(keys, YearRow(figures));
    assert Consistent(EarlierFirst);
    SortSorted(rows0, EarlierFirst);
    SortMapSeqDistinct(keys, YearRow(figures), EarlierFirst, Year);
  }

  /** Each row is a year of an on-hand catalog figure, with the number of such figures from it. */
  lemma YearBreakdownCounts(catalog: seq<CatalogMinifig>, entries: seq<CollectionEntry>)
    ensures var r := YearBreakdown(catalog, entries);
      var years := MapSeq(OnHandFigures(entries, CsvImport.CatalogById(catalog)), YearOf);
      forall i :: 0 <= i < |r| ==> r[i].year in years && r[i].count == multiset(years)[r[i].year] >= 1
  {
    var figures := OnHandFigures(entries, CsvImport.CatalogById(catalog));
    var years := MapSeq(figures, YearOf);
    var keys := Dedup(years);
    var g := YearRow(figures);
    var r := Sort(MapSeq(keys, g), EarlierFirst);
    assert r == YearBreakdown(catalog, entries);
    forall i | 0 <= i < |r| ensures r[i].year in years && r[i].count == multiset(years)[r[i].year] >= 1 {
      var k := SortMapSeqFrom(keys, g, EarlierFirst, i);
      var y := keys[k];
      assert y in years;
      assert g(y) == YearCount(y, multiset(years)[y]);
    }
  }

  /** Every year of an on-hand catalog figure has its row. */
  lemma YearBreakdownCovers(catalog: seq<CatalogMinifig>, entries: seq<CollectionEntry>)
    ensures var r := YearBreakdown(catalog, entries);
      var years := MapSeq(OnHandFigures(entries, CsvImport.CatalogById(catalog)), YearOf);
      forall y :: y in years ==> exists i :: 0 <= i < |r| && r[i].year == y
  {
    var figures := OnHandFigures(entries, CsvImport.CatalogById(catalog));
    var keys := Dedup(MapSeq(figures, YearOf));
    var g := YearRow(figures);
    var r := Sort(MapSeq(keys, g), EarlierFirst);
    assert r == YearBreakdown(catalog, entries);
    forall y | y in MapSeq(figures, YearOf) ensures exists i :: 0 <= i < |r| && r[i].year == y {
      assert y in keys;
      var k :| 0 <= k < |keys| && keys[k] == y;
      var i := SortMapSeqHas(keys, g, EarlierFirst, k);
      assert r[i].year == y;
    }
  }

  // ---------------------------------------------------------------------
  // Recent activity
  // ---------------------------------------------------------------------

  /** `(a, b) => b.dateModified.localeCompare(a.dateModified)`. */
  function NewestFirst(a: CollectionEntry, b: CollectionEntry): int
  {
    Compare(b.dateModified, a.dateModified)
  }

  function InCatalog(byId: map<string, CatalogMinifig>): CollectionEntry -> bool
  {
    (e: CollectionEntry) => e.minifigId in byId
  }

  /** Each entry paired with its catalog figure; `.filter(Boolean)` drops the entries missing from the catalog. */
  function WithFigures(s: seq<CollectionEntry>, byId: map<string, CatalogMinifig>): (r: seq<Activity>)
    ensures var kept := Filter(s, InCatalog(byId));
      && |r| == |kept|
      && forall i :: 0 <= i < |r| ==>
           r[i].entry == kept[i] && r[i].entry.minifigId in byId && r[i].minifig == byId[r[i].entry.minifigId]
  {
    var kept := Filter(s, InCatalog(byId));
    assert forall i :: 0 <= i < |kept| ==> kept[i].minifigId in byId by {
      forall i | 0 <= i < |kept| ensures kept[i].minifigId in byId {
        assert kept[i] in kept;
        assert InCatalog(byId)(kept[i]);
      }
    }
    seq(|kept|, i requires 0 <= i < |kept| => Activity(kept[i], byId[kept[i].minifigId]))
  }

  /** `.sort(newest first).slice(0, 10)`. */
  function Newest(entries: seq<CollectionEntry>): seq<CollectionEntry>
  {
    var sorted := Sort(entries, NewestFirst);
    sorted[..if |sorted| < 10 then |sorted| else 10]
  }

  /** `recentActivity`: the ten most recently changed entries, those in the catalog with their figure. */
  function RecentActivity(entries: seq<CollectionEntry>, byId: map<string, CatalogMinifig>): seq<Activity>
  {
    WithFigures(Newest(entries), byId)
  }

  lemma NewestFirstConsistent()
    ensures Consistent(NewestFirst)
  {
    forall a, b ensures NewestFirst(a, b) < 0 <==> NewestFirst(b, a) > 0 {
      CompareAntisymmetric(a.dateModified, b.dateModified);
    }
    forall a, b, c | NewestFirst(a, b) <= 0 && NewestFirst(b, c) <= 0 ensures NewestFirst(a, c) <= 0 {
      CompareTransitive(c.dateModified, b.dateModified, a.dateModified);
    }
  }

  /** The first ten after sorting: at most ten entries of the collection, newest change first. */
  lemma NewestSpec(entries: seq<CollectionEntry>)
    ensures |Newest(entries)| <= 10
    ensures Sorted(Newest(entries), NewestFirst)
    ensures forall e :: e in Newest(entries) ==> e in entries
  {
    var sorted := Sort(entries, NewestFirst);
    NewestFirstConsistent();
    SortSorted(entries, NewestFirst);
    forall e | e in Newest(entries) ensures e in entries {
      assert e in multiset(sorted);
    }
  }

  /**
   * At most ten items, newest change first, each an entry of the collection
   * paired with the catalog figure of its id.
   */
  lemma RecentActivitySpec(entries: seq<CollectionEntry>, byId: map<string, CatalogMinifig>)
    ensures var r := RecentActivity(entries, byId);
      && |r| <= 10
      && (forall i, j :: 0 <= i < j < |r| ==> NewestFirst(r[i].entry, r[j].entry) <= 0)
      && (forall i :: 0 <= i < |r| ==>
            r[i].entry in entries && r[i].entry.minifigId in byId && r[i].minifig == byId[r[i].entry.minifigId])
  {
    var top := Newest(entries);
    var kept := Filter(top, InCatalog(byId));
    NewestSpec(entries);
    FilterSorted(top, InCatalog(byId), NewestFirst);
    forall i | 0 <= i < |kept| ensures kept[i] in entries {
      assert kept[i] in kept;
    }
  }

  // ---------------------------------------------------------------------
  // computeStats
  // ---------------------------------------------------------------------

  /** `computeStats(collection, catalog)`. */
  function Stats(collection: Collection, catalog: seq<CatalogMinifig>): (r: CollectionStats)
    requires collection.Valid()
    ensures |catalog| == 0 ==> r.completionPercent == 0.0
    ensures r.catalogSize == |catalog|
    ensures r.totalWanted <= |collection.keys|
    ensures |r.recentActivity| <= 10
  {
    var entries := collection.Values();
    var held := |HeldIds(entries)|;
    RecentActivitySpec(entries, CsvImport.CatalogById(catalog));
    CollectionStats(
      QuantityWith(entries, Owned),
      |Filter(entries, IsStatus(Wanted))|,
      QuantityWith(entries, ForSale),
      QuantityWith(entries, Sold),
      held,
      |catalog|,
      Completion(held, |catalog|),
      RealSumOf(entries, Paid),
      RealSumOf(Filter(entries, IsStatus(Sold)), SoldWorth),
      RealSumOf(Filter(entries, IsStatus(ForSale)), AskingWorth),
      FactionBreakdown(catalog, entries),
      YearBreakdown(catalog, entries),
      RecentActivity(entries, CsvImport.CatalogById(catalog)))
  }

  /** The statistics, with the two breakdowns counted in the source's loops. */
  method ComputeStats(collection: Collection, catalog: seq<CatalogMinifig>) returns (stats: CollectionStats)
    requires collection.Valid()
    ensures stats == Stats(collection, catalog)
  {
    var entries := collection.Values();
    var factions := CountFactions(catalog, entries);
    var years := CountYears(catalog, entries);
    stats := Stats(collection, catalog).(factionBreakdown := factions, yearBreakdown := years);
  }
}
