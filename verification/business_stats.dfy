/**
 * The dashboard's business figures (`computeBusinessStats`): sales totals
 * and margin, sales by month, the most profitable figures, and the value of
 * the stock on hand. Money is exact; each total is rounded to cents once, at
 * the end, as the service does.
 */
module BusinessStatsService {
  import opened Wrappers
  import opened Types
  import opened Strings
  import opened Seqs
  import opened Sorting
  import opened OrderedMap
  import opened Grouping
  import PriceService
  import StatsService

  datatype MonthlySales = MonthlySales(month: string, revenue: real, profit: real, count: int)

  datatype TopSeller = TopSeller(minifigId: string, name: string, profit: real, count: int)

  datatype BusinessStats = BusinessStats(
    totalRevenue: real,
    totalCOGS: real,
    totalFees: real,
    totalShippingCost: real,
    totalShippingCharged: real,
    netProfit: real,
    margin: real,
    totalSales: int,
    monthlySales: seq<MonthlySales>,
    topSellers: seq<TopSeller>,
    inventoryCostBasis: real,
    inventoryMarketValue: real,
    unrealizedGain: real)

  // ---------------------------------------------------------------------
  // Sales totals
  // ---------------------------------------------------------------------

  function SalePrice(s: SaleRecord): real { s.salePrice }
  function CostBasis(s: SaleRecord): real { s.costBasis }
  function PlatformFee(s: SaleRecord): real { s.platformFee }
  function ShippingCost(s: SaleRecord): real { s.shippingCost }
  function ShippingCharged(s: SaleRecord): real { s.shippingCharged }
  function NetProfit(s: SaleRecord): real { s.netProfit }

  /** Net profit as a percentage of revenue, and 0 when there is no revenue. */
  function Margin(revenue: real, profit: real): (r: real)
    ensures revenue <= 0.0 ==> r == 0.0
    ensures revenue > 0.0 ==> r * revenue == profit * 100.0
  {
    if revenue > 0.0 then profit / revenue * 100.0 else 0.0
  }

  /** `Math.round(x * 10) / 10`: the nearest tenth. */
  function RoundTenth(x: real): (r: real)
    ensures x - 0.05 < r <= x + 0.05
    ensures x == 0.0 ==> r == 0.0
  {
    Round(x * 10.0) as real / 10.0
  }

  // ---------------------------------------------------------------------
  // Sales by month
  // ---------------------------------------------------------------------

  /** `date.slice(0, 7)`: the `YYYY-MM` part of the date. */
  function MonthOf(s: SaleRecord): (r: string)
    ensures |r| <= 7 && |r| <= |s.date| && r == s.date[..|r|]
    ensures |s.date| >= 7 ==> |r| == 7
  {
    if |s.date| <= 7 then s.date else s.date[..7]
  }

  datatype MonthTally = MonthTally(revenue: real, profit: real, count: int)

  function TallyCount(a: MonthTally): int { a.count }
  function TallyRevenue(a: MonthTally): real { a.revenue }
  function TallyProfit(a: MonthTally): real { a.profit }

  function AddToMonth(a: MonthTally, s: SaleRecord): MonthTally
  {
    MonthTally(a.revenue + s.salePrice, a.profit + s.netProfit, a.count + 1)
  }

  function MonthRow(month: string, a: MonthTally): MonthlySales
  {
    MonthlySales(month, a.revenue, a.profit, a.count)
  }

  function ByMonth(a: MonthlySales, b: MonthlySales): int { Compare(a.month, b.month) }

  /** One row per month that has sales, in month order. */
  function MonthlySalesOf(sales: seq<SaleRecord>): seq<MonthlySales>
  {
    Sort(MapSeq(Dedup(MapSeq(sales, MonthOf)), RowFold(sales, MonthOf, MonthTally(0.0, 0.0, 0), AddToMonth, MonthRow)), ByMonth)
  }

  // ---------------------------------------------------------------------
  // Top sellers
  // ---------------------------------------------------------------------

  function MinifigOf(s: SaleRecord): string { s.minifigId }

  datatype SellerTally = SellerTally(profit: real, count: int)

  function SellerCount(a: SellerTally): int { a.count }
  function SellerProfit(a: SellerTally): real { a.profit }

  function AddToSeller(a: SellerTally, s: SaleRecord): SellerTally
  {
    SellerTally(a.profit + s.netProfit, a.count + 1)
  }

  /** The catalog name of the figure, or its id when the catalog lacks it. */
  function SellerRow(catalogMap: map<string, CatalogMinifig>): (string, SellerTally) -> TopSeller
  {
    (id: string, a: SellerTally) =>
      TopSeller(id, if id in catalogMap then catalogMap[id].name else id, a.profit, a.count)
  }

  /** `(a, b) => b.profit - a.profit`, by its sign: the most profit first. */
  function MostProfit(a: TopSeller, b: TopSeller): int { Sign(b.profit - a.profit) }

  /** The ten figures with the most profit, one row per figure sold. */
  function TopSellersOf(sales: seq<SaleRecord>, catalogMap: map<string, CatalogMinifig>): seq<TopSeller>
  {
    Take(Sort(MapSeq(Dedup(MapSeq(sales, MinifigOf)), RowFold(sales, MinifigOf, SellerTally(0.0, 0), AddToSeller, SellerRow(catalogMap))), MostProfit), 10)
  }

  // ---------------------------------------------------------------------
  // Inventory value
  // ---------------------------------------------------------------------

  /** `entry.askingPrice ?? getMarketPrice(entry.minifigId) ?? 0`. */
  function UnitValue(e: CollectionEntry, prices: map<string, PriceEntry>): real
  {
    e.askingPrice.GetOr(PriceService.MarketPrice(prices, e.minifigId).GetOr(0.0))
  }

  /** What an owned or for-sale entry cost; nothing for the other statuses. */
  function HeldCost(e: CollectionEntry): real
  {
    if StatsService.OnHand(e) then StatsService.Paid(e) else 0.0
  }

  /** `mkt * entry.quantity`. */
  function Worth(e: CollectionEntry, prices: map<string, PriceEntry>): real
  {
    UnitValue(e, prices) * e.quantity as real
  }

  /** What an owned or for-sale entry is worth; nothing for the other statuses. */
  function HeldValue(prices: map<string, PriceEntry>): CollectionEntry -> real
  {
    e => if StatsService.OnHand(e) then Worth(e, prices) else 0.0
  }

  /** `round(inventoryMarketValue - inventoryCostBasis)`, from the unrounded sums. */
  function Gain(worth: real, cost: real): (r: real)
    ensures IsCents(r)
    ensures worth - cost - 0.005 < r <= worth - cost + 0.005
  {
    RoundCents(worth - cost)
  }

  // ---------------------------------------------------------------------
  // The whole report
  // ---------------------------------------------------------------------

  function BusinessStatsOf(collection: OMap<string, CollectionEntry>, sales: seq<SaleRecord>,
                           catalogMap: map<string, CatalogMinifig>, prices: map<string, PriceEntry>): (r: BusinessStats)
    requires collection.Valid()
    ensures r.totalSales == |sales|
    ensures RealSumOf(sales, SalePrice) <= 0.0 ==> r.margin == 0.0
    ensures |r.topSellers| <= 10
  {
    var revenue := RealSumOf(sales, SalePrice);
    var profit := RealSumOf(sales, NetProfit);
    var values := collection.Values();
    var cost := RealSumOf(values, HeldCost);
    var worth := RealSumOf(values, HeldValue(prices));
    BusinessStats(
      RoundCents(revenue),
      RoundCents(RealSumOf(sales, CostBasis)),
      RoundCents(RealSumOf(sales, PlatformFee)),
      RoundCents(RealSumOf(sales, ShippingCost)),
      RoundCents(RealSumOf(sales, ShippingCharged)),
      RoundCents(profit),
      RoundTenth(Margin(revenue, profit)),
      |sales|,
      MonthlySalesOf(sales),
      TopSellersOf(sales, catalogMap),
      RoundCents(cost),
      RoundCents(worth),
      Gain(worth, cost))
  }

  /** `computeBusinessStats`: the accumulator loops, the two grouping loops and the inventory loop. */
  method ComputeBusinessStats(collection: OMap<string, CollectionEntry>, sales: seq<SaleRecord>,
                              catalogMap: map<string, CatalogMinifig>, prices: map<string, PriceEntry>)
    returns (stats: BusinessStats)
    requires collection.Valid()
    ensures stats == BusinessStatsOf(collection, sales, catalogMap, prices)
  {
    var revenue, cogs, fees, shipCost, shipCharged, profit := SalesTotals(sales);
    var margin := Margin(revenue, profit);

    var monthly := MonthlyTable(sales);
    var top := TopSellersTable(sales, catalogMap);
    var cost, worth := InventoryValue(collection.Values(), prices);

    stats := BusinessStats(
      RoundCents(revenue), RoundCents(cogs), RoundCents(fees), RoundCents(shipCost), RoundCents(shipCharged),
      RoundCents(profit), RoundTenth(margin), |sales|, monthly, top,
      RoundCents(cost), RoundCents(worth), Gain(worth, cost));
  }

  /** The month grouping loop and the sort of its entries by month. */
  method MonthlyTable(sales: seq<SaleRecord>) returns (monthly: seq<MonthlySales>)
    ensures monthly == MonthlySalesOf(sales)
  {
    var months, monthMap := GroupBy(sales, MonthOf, MonthTally(0.0, 0.0, 0), AddToMonth);
    GroupRows(months, monthMap, sales, MonthOf, MonthTally(0.0, 0.0, 0), AddToMonth, MonthRow);
    monthly := Sort(MapSeq(months, RowFrom(monthMap, MonthTally(0.0, 0.0, 0), MonthRow)), ByMonth);
  }

  /** The seller grouping loop, the sort by profit and the first ten. */
  method TopSellersTable(sales: seq<SaleRecord>, catalogMap: map<string, CatalogMinifig>) returns (top: seq<TopSeller>)
    ensures top == TopSellersOf(sales, catalogMap)
  {
    var sellers, sellerMap := GroupBy(sales, MinifigOf, SellerTally(0.0, 0), AddToSeller);
    GroupRows(sellers, sellerMap, sales, MinifigOf, SellerTally(0.0, 0), AddToSeller, SellerRow(catalogMap));
    top := Take(Sort(MapSeq(sellers, RowFrom(sellerMap, SellerTally(0.0, 0), SellerRow(catalogMap))), MostProfit), 10);
  }

  /** The first loop: six running sums over the sales. */
  method SalesTotals(sales: seq<SaleRecord>)
    returns (revenue: real, cogs: real, fees: real, shipCost: real, shipCharged: real, profit: real)
    ensures revenue == RealSumOf(sales, SalePrice) && cogs == RealSumOf(sales, CostBasis)
    ensures fees == RealSumOf(sales, PlatformFee) && shipCost == RealSumOf(sales, ShippingCost)
    ensures shipCharged == RealSumOf(sales, ShippingCharged) && profit == RealSumOf(sales, NetProfit)
  {
    revenue, cogs, fees, shipCost, shipCharged, profit := 0.0, 0.0, 0.0, 0.0, 0.0, 0.0;
    for i := 0 to |sales|
      invariant revenue == RealSumOf(sales[..i], SalePrice) && cogs == RealSumOf(sales[..i], CostBasis)
      invariant fees == RealSumOf(sales[..i], PlatformFee) && shipCost == RealSumOf(sales[..i], ShippingCost)
      invariant shipCharged == RealSumOf(sales[..i], ShippingCharged) && profit == RealSumOf(sales[..i], NetProfit)
    {
      var s := sales[i];
      RealSumOfPrefix(sales, i, SalePrice);
      RealSumOfPrefix(sales, i, CostBasis);
      RealSumOfPrefix(sales, i, PlatformFee);
      RealSumOfPrefix(sales, i, ShippingCost);
      RealSumOfPrefix(sales, i, ShippingCharged);
      RealSumOfPrefix(sales, i, NetProfit);
      revenue := revenue + s.salePrice;
      cogs := cogs + s.costBasis;
      fees := fees + s.platformFee;
      shipCost := shipCost + s.shippingCost;
      shipCharged := shipCharged + s.shippingCharged;
      profit := profit + s.netProfit;
    }
    assert sales[..|sales|] == sales;
  }

  /** The inventory loop: cost and worth of the owned and for-sale entries. */
  method InventoryValue(values: seq<CollectionEntry>, prices: map<string, PriceEntry>) returns (cost: real, worth: real)
    ensures cost == RealSumOf(values, HeldCost)
    ensures worth == RealSumOf(values, HeldValue(prices))
  {
    cost, worth := 0.0, 0.0;
    for i := 0 to |values|
      invariant cost == RealSumOf(values[..i], HeldCost)
      invariant worth == RealSumOf(values[..i], HeldValue(prices))
    {
      var e := values[i];
      RealSumOfPrefix(values, i, HeldCost);
      RealSumOfPrefix(values, i, HeldValue(prices));
      if e.status == Owned || e.status == ForSale {
        cost := cost + StatsService.Paid(e);
        worth := worth + Worth(e, prices);
      }
    }
    assert values[..|values|] == values;
  }

  // ---------------------------------------------------------------------
  // Properties
  // ---------------------------------------------------------------------

  lemma ByMonthConsistent()
    ensures Consistent(ByMonth)
  {
    forall a, b ensures ByMonth(a, b) < 0 <==> ByMonth(b, a) > 0 {
      CompareAntisymmetric(a.month, b.month);
    }
    forall a, b, c | ByMonth(a, b) <= 0 && ByMonth(b, c) <= 0 ensures ByMonth(a, c) <= 0 {
      CompareTransitive(a.month, b.month, c.month);
    }
  }

  function Month(r: MonthlySales): string { r.month }
  function Count(r: MonthlySales): int { r.count }

  /** Months strictly ascend: sorted by month, and no month appears twice. */
  lemma MonthlyAscending(sales: seq<SaleRecord>)
    ensures var r := MonthlySalesOf(sales);
      forall i, j :: 0 <= i < j < |r| ==> Compare(r[i].month, r[j].month) < 0
  {
    var g := RowFold(sales, MonthOf, MonthTally(0.0, 0.0, 0), AddToMonth, MonthRow);
    ByMonthConsistent();
    SortSorted(MapSeq(Dedup(MapSeq(sales, MonthOf)), g), ByMonth);
    forall k ensures Month(g(k)) == k {
      assert g(k) == MonthRow(k, GroupFold(sales, MonthOf, k, MonthTally(0.0, 0.0, 0), AddToMonth));
    }
    SortMapSeqDistinct(Dedup(MapSeq(sales, MonthOf)), g, ByMonth, Month);
  }

  /** The monthly counts add up to the number of sales. */
  lemma MonthlyCountsSum(sales: seq<SaleRecord>)
    ensures SumOf(MonthlySalesOf(sales), Count) == |sales|
  {
    var ks := MapSeq(sales, MonthOf);
    var g := RowFold(sales, MonthOf, MonthTally(0.0, 0.0, 0), AddToMonth, MonthRow);
    forall k ensures Count(g(k)) == multiset(ks)[k] {
      GroupFoldCount(sales, MonthOf, k, MonthTally(0.0, 0.0, 0), AddToMonth, TallyCount);
      assert g(k) == MonthRow(k, GroupFold(sales, MonthOf, k, MonthTally(0.0, 0.0, 0), AddToMonth));
    }
    SortSumOf(MapSeq(Dedup(ks), g), ByMonth, Count);
    SumOfMapSeq(Dedup(ks), g, Count, multiset(ks));
    DedupCountSum(ks);
  }

  /** A month's row: its sales counted, and their revenue and profit summed. */
  lemma MonthRowSums(sales: seq<SaleRecord>, month: string)
    ensures var row := RowFold(sales, MonthOf, MonthTally(0.0, 0.0, 0), AddToMonth, MonthRow)(month);
      var these := Filter(sales, HasKey(MonthOf, month));
      row.month == month &&
      row.count == multiset(MapSeq(sales, MonthOf))[month] &&
      row.revenue == RealSumOf(these, SalePrice) &&
      row.profit == RealSumOf(these, NetProfit)
  {
    var zero := MonthTally(0.0, 0.0, 0);
    var a := GroupFold(sales, MonthOf, month, zero, AddToMonth);
    assert RowFold(sales, MonthOf, zero, AddToMonth, MonthRow)(month) == MonthRow(month, a);
    GroupFoldCount(sales, MonthOf, month, zero, AddToMonth, TallyCount);
    GroupFoldSum(sales, MonthOf, month, zero, AddToMonth, TallyRevenue, SalePrice);
    GroupFoldSum(sales, MonthOf, month, zero, AddToMonth, TallyProfit, NetProfit);
  }

  /**
   * Each row is a month some sale falls in, with the number of its sales
   * and their revenue and profit.
   */
  lemma MonthlyRows(sales: seq<SaleRecord>)
    ensures var r := MonthlySalesOf(sales);
      var ks := MapSeq(sales, MonthOf);
      forall i :: 0 <= i < |r| ==>
        r[i].month in ks && 1 <= r[i].count == multiset(ks)[r[i].month] &&
        r[i].revenue == RealSumOf(Filter(sales, HasKey(MonthOf, r[i].month)), SalePrice) &&
        r[i].profit == RealSumOf(Filter(sales, HasKey(MonthOf, r[i].month)), NetProfit)
  {
    var keys := Dedup(MapSeq(sales, MonthOf));
    var g := RowFold(sales, MonthOf, MonthTally(0.0, 0.0, 0), AddToMonth, MonthRow);
    var r := Sort(MapSeq(keys, g), ByMonth);
    forall i | 0 <= i < |r|
      ensures r[i].month in keys && r[i] == g(r[i].month)
    {
      var k := SortMapSeqFrom(keys, g, ByMonth, i);
      MonthRowSums(sales, keys[k]);
    }
    forall i | 0 <= i < |r|
      ensures r[i].revenue == RealSumOf(Filter(sales, HasKey(MonthOf, r[i].month)), SalePrice)
      ensures r[i].profit == RealSumOf(Filter(sales, HasKey(MonthOf, r[i].month)), NetProfit)
      ensures r[i].count == multiset(MapSeq(sales, MonthOf))[r[i].month]
    {
      MonthRowSums(sales, r[i].month);
    }
  }

  /** Every month with a sale has its row. */
  lemma MonthlyCovers(sales: seq<SaleRecord>)
    ensures var r := MonthlySalesOf(sales);
      forall s :: s in sales ==> exists i :: 0 <= i < |r| && r[i].month == MonthOf(s)
  {
    var keys := Dedup(MapSeq(sales, MonthOf));
    var g := RowFold(sales, MonthOf, MonthTally(0.0, 0.0, 0), AddToMonth, MonthRow);
    var r := Sort(MapSeq(keys, g), ByMonth);
    assert r == MonthlySalesOf(sales);
    forall s | s in sales ensures exists i :: 0 <= i < |r| && r[i].month == MonthOf(s) {
      var j :| 0 <= j < |sales| && sales[j] == s;
      MapSeqAt(sales, MonthOf, j);
      assert MonthOf(s) in keys;
      var k :| 0 <= k < |keys| && keys[k] == MonthOf(s);
      var i := SortMapSeqHas(keys, g, ByMonth, k);
      MonthRowSums(sales, keys[k]);
      assert r[i].month == MonthOf(s);
    }
  }

  lemma MostProfitConsistent()
    ensures Consistent(MostProfit)
  {
  }

  function Seller(r: TopSeller): string { r.minifigId }

  /** A figure's row: its catalog name (else its id), its sales counted and their profit summed. */
  lemma SellerRowSums(sales: seq<SaleRecord>, catalogMap: map<string, CatalogMinifig>, id: string)
    ensures var row := RowFold(sales, MinifigOf, SellerTally(0.0, 0), AddToSeller, SellerRow(catalogMap))(id);
      row.minifigId == id &&
      row.name == (if id in catalogMap then catalogMap[id].name else id) &&
      row.count == multiset(MapSeq(sales, MinifigOf))[id] &&
      row.profit == RealSumOf(Filter(sales, HasKey(MinifigOf, id)), NetProfit)
  {
    var zero := SellerTally(0.0, 0);
    var a := GroupFold(sales, MinifigOf, id, zero, AddToSeller);
    assert RowFold(sales, MinifigOf, zero, AddToSeller, SellerRow(catalogMap))(id) == SellerRow(catalogMap)(id, a);
    GroupFoldCount(sales, MinifigOf, id, zero, AddToSeller, SellerCount);
    GroupFoldSum(sales, MinifigOf, id, zero, AddToSeller, SellerProfit, NetProfit);
  }

  /** At most ten rows, most profit first, one per figure. */
  lemma TopSellersOrder(sales: seq<SaleRecord>, catalogMap: map<string, CatalogMinifig>)
    ensures var r := TopSellersOf(sales, catalogMap);
      |r| <= 10 &&
      (forall i, j :: 0 <= i < j < |r| ==> r[i].profit >= r[j].profit) &&
      (forall i, j :: 0 <= i < j < |r| ==> r[i].minifigId != r[j].minifigId)
  {
    var keys := Dedup(MapSeq(sales, MinifigOf));
    var g := RowFold(sales, MinifigOf, SellerTally(0.0, 0), AddToSeller, SellerRow(catalogMap));
    var all := Sort(MapSeq(keys, g), MostProfit);
    var r := Take(all, 10);
    assert r == TopSellersOf(sales, catalogMap);
    MostProfitConsistent();
    SortSorted(MapSeq(keys, g), MostProfit);
    forall k ensures Seller(g(k)) == k {
      SellerRowSums(sales, catalogMap, k);
    }
    SortMapSeqDistinct(keys, g, MostProfit, Seller);
    forall i, j | 0 <= i < j < |r| ensures r[i].profit >= r[j].profit && r[i].minifigId != r[j].minifigId {
      assert MostProfit(all[i], all[j]) <= 0;
      assert Seller(all[i]) != Seller(all[j]);
    }
  }

  /**
   * Each row is a figure that was sold, named from the catalog or by its
   * id, with the number of its sales and their total profit.
   */
  lemma TopSellersRows(sales: seq<SaleRecord>, catalogMap: map<string, CatalogMinifig>)
    ensures var r := TopSellersOf(sales, catalogMap);
      var ids := MapSeq(sales, MinifigOf);
      forall i :: 0 <= i < |r| ==>
        r[i].minifigId in ids &&
        r[i].name == (if r[i].minifigId in catalogMap then catalogMap[r[i].minifigId].name else r[i].minifigId) &&
        1 <= r[i].count == multiset(ids)[r[i].minifigId] &&
        r[i].profit == RealSumOf(Filter(sales, HasKey(MinifigOf, r[i].minifigId)), NetProfit)
  {
    var keys := Dedup(MapSeq(sales, MinifigOf));
    var g := RowFold(sales, MinifigOf, SellerTally(0.0, 0), AddToSeller, SellerRow(catalogMap));
    var all := Sort(MapSeq(keys, g), MostProfit);
    var r := Take(all, 10);
    assert r == TopSellersOf(sales, catalogMap);
    forall i | 0 <= i < |r|
      ensures r[i].minifigId in keys && r[i] == g(r[i].minifigId)
    {
      var k := SortMapSeqFrom(keys, g, MostProfit, i);
      SellerRowSums(sales, catalogMap, keys[k]);
    }
    forall i | 0 <= i < |r|
      ensures r[i].name == (if r[i].minifigId in catalogMap then catalogMap[r[i].minifigId].name else r[i].minifigId)
      ensures r[i].count == multiset(MapSeq(sales, MinifigOf))[r[i].minifigId]
      ensures r[i].profit == RealSumOf(Filter(sales, HasKey(MinifigOf, r[i].minifigId)), NetProfit)
    {
      SellerRowSums(sales, catalogMap, r[i].minifigId);
    }
  }

  /** With ten or fewer figures sold, every one of them has its row. */
  lemma TopSellersCoverFew(sales: seq<SaleRecord>, catalogMap: map<string, CatalogMinifig>)
    requires |Dedup(MapSeq(sales, MinifigOf))| <= 10
    ensures var r := TopSellersOf(sales, catalogMap);
      forall s :: s in sales ==> exists i :: 0 <= i < |r| && r[i].minifigId == s.minifigId
  {
    var keys := Dedup(MapSeq(sales, MinifigOf));
    var g := RowFold(sales, MinifigOf, SellerTally(0.0, 0), AddToSeller, SellerRow(catalogMap));
    var r := Sort(MapSeq(keys, g), MostProfit);
    assert r == TopSellersOf(sales, catalogMap);
    forall s | s in sales ensures exists i :: 0 <= i < |r| && r[i].minifigId == s.minifigId {
      var j :| 0 <= j < |sales| && sales[j] == s;
      MapSeqAt(sales, MinifigOf, j);
      assert MinifigOf(s) in keys;
      var k :| 0 <= k < |keys| && keys[k] == MinifigOf(s);
      var i := SortMapSeqHas(keys, g, MostProfit, k);
      SellerRowSums(sales, catalogMap, keys[k]);
      assert r[i].minifigId == s.minifigId;
    }
  }

  /** The inventory sums run over the owned and for-sale entries only. */
  lemma InventoryOnHand(values: seq<CollectionEntry>, prices: map<string, PriceEntry>)
    ensures RealSumOf(values, HeldCost) == RealSumOf(Filter(values, StatsService.OnHand), StatsService.Paid)
    ensures RealSumOf(values, HeldValue(prices)) ==
            RealSumOf(Filter(values, StatsService.OnHand), (e: CollectionEntry) => Worth(e, prices))
  {
    RealSumOfFilter(values, StatsService.OnHand, StatsService.Paid, HeldCost);
    RealSumOfFilter(values, StatsService.OnHand, (e: CollectionEntry) => Worth(e, prices), HeldValue(prices));
  }
}
