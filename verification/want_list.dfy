/**
 * The want list of the app (`useWantList`): the wanted entries that have a
 * catalog record, each flagged as a deal when the market price has come down
 * to the target price, listed deals first, then by priority, then by name.
 */
module WantList {
  import opened Wrappers
  import opened Types
  import opened Seqs
  import opened Sorting
  import Strings
  import KeyIndex
  import PriceService

  datatype WantItem = WantItem(entry: CollectionEntry, minifig: CatalogMinifig, marketPrice: Option<real>, isDeal: bool)

  function FigureIds(catalog: seq<CatalogMinifig>): (r: seq<string>)
    ensures |r| == |catalog| && forall i :: 0 <= i < |catalog| ==> r[i] == catalog[i].id
  {
    seq(|catalog|, i requires 0 <= i < |catalog| => catalog[i].id)
  }

  /** The `catalogMap` loop: every figure under its id, a later figure replacing an earlier one. */
  method CatalogMapOf(catalog: seq<CatalogMinifig>) returns (m: map<string, CatalogMinifig>)
    ensures m == KeyIndex.LastByKey(FigureIds(catalog), catalog)
    ensures forall id :: id in m <==> exists i :: 0 <= i < |catalog| && catalog[i].id == id
  {
    m := map[];
    for i := 0 to |catalog|
      invariant m == KeyIndex.LastByKey(FigureIds(catalog)[..i], catalog[..i])
    {
      KeyIndex.LastByKeyStep(FigureIds(catalog), catalog, i);
      m := m[catalog[i].id := catalog[i]];
    }
    assert FigureIds(catalog)[..|catalog|] == FigureIds(catalog) && catalog[..|catalog|] == catalog;
    forall id ensures id in m <==> exists i :: 0 <= i < |catalog| && catalog[i].id == id {
      KeyIndex.LastByKeyLast(FigureIds(catalog), catalog, id);
      if id in FigureIds(catalog) {
        var i :| 0 <= i < |catalog| && FigureIds(catalog)[i] == id;
      }
    }
  }

  /** `targetPrice != null && marketPrice != null && marketPrice <= targetPrice`. */
  predicate IsDeal(target: Option<real>, market: Option<real>)
  {
    target.Some? && market.Some? && market.value <= target.value
  }

  /** The item for one entry, or nothing when the entry is not wanted or its figure is not in the catalog. */
  function ItemFor(e: CollectionEntry, catalogMap: map<string, CatalogMinifig>, prices: map<string, PriceEntry>): (r: Option<WantItem>)
    ensures r.Some? <==> e.status == Wanted && e.minifigId in catalogMap
    ensures r.Some? ==> (r.value.entry == e && r.value.minifig == catalogMap[e.minifigId]
                         && r.value.marketPrice == PriceService.MarketPrice(prices, e.minifigId)
                         && (r.value.isDeal <==> IsDeal(e.targetPrice, r.value.marketPrice)))
  {
    if e.status == Wanted && e.minifigId in catalogMap then
      var market := PriceService.MarketPrice(prices, e.minifigId);
      Some(WantItem(e, catalogMap[e.minifigId], market, IsDeal(e.targetPrice, market)))
    else None
  }

  /** `wantedItems`: the filter, the map and the drop of the figures without a record, in entry order. */
  function WantedItems(values: seq<CollectionEntry>, catalogMap: map<string, CatalogMinifig>, prices: map<string, PriceEntry>): (r: seq<WantItem>)
    ensures |r| <= |values|
    ensures forall it :: it in r <==> exists e :: e in values && ItemFor(e, catalogMap, prices) == Some(it)
  {
    if values == [] then []
    else
      var rest := WantedItems(values[1..], catalogMap, prices);
      assert forall e :: e in values <==> e == values[0] || e in values[1..];
      match ItemFor(values[0], catalogMap, prices)
      case Some(it) => [it] + rest
      case None => rest
  }

  /** Every wanted entry whose figure is in the catalog gets an item, and every item is one of those. */
  lemma WantedItemsAreWanted(values: seq<CollectionEntry>, catalogMap: map<string, CatalogMinifig>, prices: map<string, PriceEntry>)
    ensures forall it :: it in WantedItems(values, catalogMap, prices) ==>
      it.entry in values && it.entry.status == Wanted && it.minifig == catalogMap[it.entry.minifigId]
    ensures forall e :: e in values && e.status == Wanted && e.minifigId in catalogMap ==>
      exists it :: it in WantedItems(values, catalogMap, prices) && it.entry == e
  {
    forall e | e in values && e.status == Wanted && e.minifigId in catalogMap
      ensures exists it :: it in WantedItems(values, catalogMap, prices) && it.entry == e
    {
      var it := ItemFor(e, catalogMap, prices).value;
      assert it in WantedItems(values, catalogMap, prices);
    }
  }

  /** `priorityOrder[wantPriority ?? ''] ?? 3`. */
  function Rank(p: Option<WantPriority>): (r: int)
    ensures 0 <= r <= 3 && (r == 3 <==> p.None?)
  {
    match p
    case Some(High) => 0
    case Some(Medium) => 1
    case Some(Low) => 2
    case None => 3
  }

  function RankOf(it: WantItem): int { Rank(it.entry.wantPriority) }

  /** The comparator of the sort: deals first, then the lower rank, then the name. */
  function WantOrder(a: WantItem, b: WantItem): int
  {
    if a.isDeal != b.isDeal then (if a.isDeal then -1 else 1)
    else if RankOf(a) != RankOf(b) then RankOf(a) - RankOf(b)
    else Strings.Compare(a.minifig.name, b.minifig.name)
  }

  lemma WantOrderAntisymmetric(a: WantItem, b: WantItem)
    ensures WantOrder(a, b) < 0 <==> WantOrder(b, a) > 0
  {
    Strings.CompareAntisymmetric(a.minifig.name, b.minifig.name);
  }

  lemma WantOrderTransitive(a: WantItem, b: WantItem, c: WantItem)
    requires WantOrder(a, b) <= 0 && WantOrder(b, c) <= 0
    ensures WantOrder(a, c) <= 0
  {
    if a.isDeal == b.isDeal == c.isDeal && RankOf(a) == RankOf(b) == RankOf(c) {
      Strings.CompareTransitive(a.minifig.name, b.minifig.name, c.minifig.name);
    }
  }

  /** The comparator is a total preorder, so the sort puts the items in its order. */
  lemma WantOrderConsistent()
    ensures Consistent(WantOrder)
  {
    forall a, b ensures WantOrder(a, b) < 0 <==> WantOrder(b, a) > 0 {
      WantOrderAntisymmetric(a, b);
    }
    forall a, b, c | WantOrder(a, b) <= 0 && WantOrder(b, c) <= 0 ensures WantOrder(a, c) <= 0 {
      WantOrderTransitive(a, b, c);
    }
  }

  /** The list the hook returns: `[...wantedItems].sort(...)`. */
  function SortedWants(items: seq<WantItem>): seq<WantItem>
  {
    Sort(items, WantOrder)
  }

  /** The sorted list holds the same items, deals first, each group by priority and then by name. */
  lemma SortedWantsOrder(items: seq<WantItem>)
    ensures multiset(SortedWants(items)) == multiset(items)
    ensures var s := SortedWants(items);
      forall i, j :: 0 <= i < j < |s| ==>
        (s[j].isDeal ==> s[i].isDeal)
        && (s[i].isDeal == s[j].isDeal ==> RankOf(s[i]) <= RankOf(s[j]))
        && (s[i].isDeal == s[j].isDeal && RankOf(s[i]) == RankOf(s[j]) ==>
              Strings.Compare(s[i].minifig.name, s[j].minifig.name) <= 0)
  {
    WantOrderConsistent();
    SortSorted(items, WantOrder);
  }

  predicate Deal(it: WantItem) { it.isDeal }

  function DealFlag(it: WantItem): int { if it.isDeal then 1 else 0 }

  /** `dealCount`: how many of the items are deals. */
  function DealCount(items: seq<WantItem>): nat
  {
    |Filter(items, Deal)|
  }

  /** Counting what a filter keeps is summing a weight of one for each kept element. */
  lemma {:induction false} FilterCountSum<T(!new)>(s: seq<T>, p: T -> bool, w: T -> int)
    requires forall x :: w(x) == if p(x) then 1 else 0
    ensures |Filter(s, p)| == SumOf(s, w)
  {
    if s != [] {
      var t := s[1..];
      FilterCountSum(t, p, w);
      assert |Filter(s, p)| == w(s[0]) + |Filter(t, p)|;
      assert SumOf([s[0]], w) == w(s[0]) by {
        assert [s[0]][..0] == [];
      }
      SumOfAppend([s[0]], t, w);
      assert [s[0]] + t == s;
    }
  }

  /** In a list whose `p` elements come first, they are exactly the first `|Filter(s, p)|` elements. */
  lemma {:induction false} LeadingFilter<T(!new)>(s: seq<T>, p: T -> bool)
    requires forall i, j :: 0 <= i < j < |s| && p(s[j]) ==> p(s[i])
    ensures forall i :: 0 <= i < |s| ==> (p(s[i]) <==> i < |Filter(s, p)|)
  {
    if s != [] {
      var t := s[1..];
      assert Filter(s, p) == (if p(s[0]) then [s[0]] else []) + Filter(t, p);
      if p(s[0]) {
        LeadingFilter(t, p);
        forall i | 1 <= i < |s| ensures p(s[i]) <==> i < |Filter(s, p)| {
          assert s[i] == t[i - 1];
        }
      } else {
        NoneLeading(s, p);
      }
    }
  }

  /** A list that does not start with a `p` element, with the `p` elements first, has none. */
  lemma {:induction false} NoneLeading<T(!new)>(s: seq<T>, p: T -> bool)
    requires s != [] && !p(s[0])
    requires forall i, j :: 0 <= i < j < |s| && p(s[j]) ==> p(s[i])
    ensures |Filter(s, p)| == 0 && forall i :: 0 <= i < |s| ==> !p(s[i])
  {
    assert Filter(s, p) == Filter(s[1..], p);
    if |s| > 1 {
      assert !p(s[1]);
      NoneLeading(s[1..], p);
    }
  }

  /** `dealCount` counts the deals at the head of the sorted list: item `i` is a deal exactly when `i < dealCount`. */
  lemma DealCountLeads(items: seq<WantItem>)
    ensures DealCount(items) <= |items|
    ensures var s := SortedWants(items);
      forall i :: 0 <= i < |s| ==> (s[i].isDeal <==> i < DealCount(items))
  {
    var s := SortedWants(items);
    SortedWantsOrder(items);
    LeadingFilter(s, Deal);
    FilterCountSum(items, Deal, DealFlag);
    FilterCountSum(s, Deal, DealFlag);
    SortSumOf(items, WantOrder, DealFlag);
  }
}
