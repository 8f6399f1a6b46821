/**
 * The sales log of the app (`useSales`): recorded sales, newest first, the
 * per-figure lookup and the rounded totals of the whole log.
 */
module SalesLog {
  import opened Wrappers
  import opened Types
  import opened Seqs
  import opened BusinessStatsService

  /** What an `addSale` caller gives: a sale without its id and creation time. */
  datatype SaleDraft = SaleDraft(minifigId: string, salePrice: real, platform: SalePlatform, platformFee: real,
                                 shippingCost: real, shippingCharged: real, costBasis: real, netProfit: real,
                                 date: string, notes: string)

  function NewSale(d: SaleDraft, id: string, now: string): (r: SaleRecord)
    ensures r.id == id && r.dateCreated == now && r.minifigId == d.minifigId && r.date == d.date
    ensures r.salePrice == d.salePrice && r.costBasis == d.costBasis && r.platformFee == d.platformFee
    ensures r.shippingCost == d.shippingCost && r.shippingCharged == d.shippingCharged && r.netProfit == d.netProfit
  {
    SaleRecord(id, d.minifigId, d.salePrice, d.platform, d.platformFee, d.shippingCost, d.shippingCharged,
               d.costBasis, d.netProfit, d.date, d.notes, now)
  }

  predicate Keeps(id: string, s: SaleRecord) { s.id != id }

  function OtherThan(id: string): SaleRecord -> bool { s => Keeps(id, s) }

  /** `deleteSale(id)`: the sales with that id go; the rest stay, in order. */
  function DeleteSaleOf(sales: seq<SaleRecord>, id: string): (r: seq<SaleRecord>)
    ensures forall s :: s in r <==> s in sales && s.id != id
  {
    Filter(sales, OtherThan(id))
  }

  /** Deleting a sale just added under a fresh id gives back the log as it was. */
  lemma DeleteUndoesAdd(sales: seq<SaleRecord>, d: SaleDraft, id: string, now: string)
    requires forall s :: s in sales ==> s.id != id
    ensures DeleteSaleOf([NewSale(d, id, now)] + sales, id) == sales
  {
    assert ([NewSale(d, id, now)] + sales)[1..] == sales;
    FilterAll(sales, OtherThan(id));
  }

  predicate IsFor(minifigId: string, s: SaleRecord) { s.minifigId == minifigId }

  function ForFigure(minifigId: string): SaleRecord -> bool { s => IsFor(minifigId, s) }

  function OtherFigures(minifigId: string): SaleRecord -> bool { s => !IsFor(minifigId, s) }

  /** `getSalesForMinifig(minifigId)`: the figure's sales, newest first. */
  function SalesFor(sales: seq<SaleRecord>, minifigId: string): (r: seq<SaleRecord>)
    ensures forall s :: s in r <==> s in sales && s.minifigId == minifigId
  {
    Filter(sales, ForFigure(minifigId))
  }

  /** A sale just added heads its figure's list, and the other figures' lists do not change. */
  lemma SalesForAfterAdd(sales: seq<SaleRecord>, sale: SaleRecord, minifigId: string)
    ensures SalesFor([sale] + sales, minifigId) ==
      (if sale.minifigId == minifigId then [sale] + SalesFor(sales, minifigId) else SalesFor(sales, minifigId))
  {
    assert ([sale] + sales)[1..] == sales;
  }

  /** The revenue of one figure's sales and that of all the others' add up to the whole log's. */
  lemma SalesForRevenueSplit(sales: seq<SaleRecord>, minifigId: string)
    ensures RealSumOf(SalesFor(sales, minifigId), SalePrice)
          + RealSumOf(Filter(sales, OtherFigures(minifigId)), SalePrice) == RealSumOf(sales, SalePrice)
  {
    var mine := (s: SaleRecord) => if IsFor(minifigId, s) then s.salePrice else 0.0;
    var others := (s: SaleRecord) => if OtherFigures(minifigId)(s) then s.salePrice else 0.0;
    RealSumOfFilter(sales, ForFigure(minifigId), SalePrice, mine);
    RealSumOfFilter(sales, OtherFigures(minifigId), SalePrice, others);
    RealSumOfAdd(sales, mine, others, SalePrice);
  }

  /** The `totals` summary. */
  datatype SalesTotals = SalesTotals(revenue: real, costs: real, fees: real, shippingCost: real,
                                     shippingCharged: real, profit: real, margin: real, count: int)

  /** Every amount to the cent, the margin to a tenth of a percent. */
  function TotalsOf(sales: seq<SaleRecord>): (r: SalesTotals)
    ensures r.count == |sales|
    ensures IsCents(r.revenue) && IsCents(r.costs) && IsCents(r.fees) && IsCents(r.profit)
    ensures IsCents(r.shippingCost) && IsCents(r.shippingCharged)
    ensures RealSumOf(sales, SalePrice) - 0.005 < r.revenue <= RealSumOf(sales, SalePrice) + 0.005
    ensures RealSumOf(sales, NetProfit) - 0.005 < r.profit <= RealSumOf(sales, NetProfit) + 0.005
    ensures RealSumOf(sales, SalePrice) <= 0.0 ==> r.margin == 0.0
    ensures RealSumOf(sales, SalePrice) > 0.0 ==>
      var m := RealSumOf(sales, NetProfit) / RealSumOf(sales, SalePrice) * 100.0;
      m - 0.05 < r.margin <= m + 0.05
  {
    var revenue := RealSumOf(sales, SalePrice);
    var profit := RealSumOf(sales, NetProfit);
    SalesTotals(RoundCents(revenue), RoundCents(RealSumOf(sales, CostBasis)), RoundCents(RealSumOf(sales, PlatformFee)),
                RoundCents(RealSumOf(sales, ShippingCost)), RoundCents(RealSumOf(sales, ShippingCharged)),
                RoundCents(profit), RoundTenth(Margin(revenue, profit)), |sales|)
  }

  /** A new sale adds its own amounts to each running sum and one to the count. */
  lemma TotalsAfterAdd(sales: seq<SaleRecord>, sale: SaleRecord)
    ensures RealSumOf([sale] + sales, SalePrice) == sale.salePrice + RealSumOf(sales, SalePrice)
    ensures RealSumOf([sale] + sales, NetProfit) == sale.netProfit + RealSumOf(sales, NetProfit)
    ensures RealSumOf([sale] + sales, CostBasis) == sale.costBasis + RealSumOf(sales, CostBasis)
    ensures TotalsOf([sale] + sales).count == TotalsOf(sales).count + 1
  {
    assert ([sale] + sales)[1..] == sales;
  }

  /** The `useSales` hook: the stored log and the operations that replace it. */
  class Sales {
    var sales: seq<SaleRecord>

    constructor()
      ensures sales == []
    {
      sales := [];
    }

    /** Prepends the new sale and returns it. */
    method AddSale(d: SaleDraft, freshId: string, now: string) returns (newSale: SaleRecord)
      modifies this
      ensures newSale == NewSale(d, freshId, now)
      ensures sales == [newSale] + old(sales)
    {
      newSale := NewSale(d, freshId, now);
      sales := [newSale] + sales;
    }

    method DeleteSale(id: string)
      modifies this
      ensures sales == DeleteSaleOf(old(sales), id)
    {
      sales := DeleteSaleOf(sales, id);
    }

    /** The `totals` memo: the six running sums of one loop, then rounded. */
    method Totals() returns (t: SalesTotals)
      ensures t == TotalsOf(sales)
    {
      var revenue, costs, fees, shipCost, shipCharged, profit := BusinessStatsService.SalesTotals(sales);
      var margin := if revenue > 0.0 then profit / revenue * 100.0 else 0.0;
      t := SalesTotals(RoundCents(revenue), RoundCents(costs), RoundCents(fees), RoundCents(shipCost),
                       RoundCents(shipCharged), RoundCents(profit), RoundTenth(margin), |sales|);
    }
  }
}
