/**
 * The inventory summary of the app (`useInventoryStats`): one pass over the
 * collection's entries counting units on hand, split into owned and for
 * sale, with their cost, their worth and the entries bought at no price.
 */
module InventoryStats {
  import opened Wrappers
  import opened Types
  import opened Seqs
  import opened StatsService
  import opened BusinessStatsService

  datatype InventorySummary = InventorySummary(totalItems: int, costBasis: real, marketValue: real,
                                               unrealizedGain: real, ownedCount: int, forSaleCount: int,
                                               noPriceCount: int)

  /** Units an entry contributes to `totalItems`. */
  function Units(e: CollectionEntry): int { if OnHand(e) then e.quantity else 0 }

  /** Units counted as for sale: the whole quantity of a for-sale entry, else its for-sale part. */
  function ForSaleUnits(e: CollectionEntry): int
  {
    if !OnHand(e) then 0
    else if e.status == ForSale then e.quantity
    else if e.forSaleQuantity > 0 then e.forSaleQuantity
    else 0
  }

  /** Units counted as owned: what an owned entry does not list for sale. */
  function OwnedUnits(e: CollectionEntry): int
  {
    if !OnHand(e) || e.status == ForSale then 0
    else if e.forSaleQuantity > 0 then e.quantity - e.forSaleQuantity
    else e.quantity
  }

  /** `!entry.pricePaid`: no price at all, or a price of zero. */
  predicate NoPrice(e: CollectionEntry) { e.pricePaid.None? || e.pricePaid.value == 0.0 }

  function Unpriced(e: CollectionEntry): int { if OnHand(e) && NoPrice(e) then 1 else 0 }

  /** The hook's six running counters, before rounding. */
  datatype Counters = Counters(totalItems: int, costBasis: real, marketValue: real,
                               ownedCount: int, forSaleCount: int, noPriceCount: int)

  /** The counters after a pass over `values`. */
  function CountersOf(values: seq<CollectionEntry>, prices: map<string, PriceEntry>): Counters
  {
    Counters(SumOf(values, Units), RealSumOf(values, HeldCost), RealSumOf(values, HeldValue(prices)),
             SumOf(values, OwnedUnits), SumOf(values, ForSaleUnits), SumOf(values, Unpriced))
  }

  /** The summary of the entries `values`, every amount rounded to the cent. */
  function SummaryOf(values: seq<CollectionEntry>, prices: map<string, PriceEntry>): InventorySummary
  {
    var c := CountersOf(values, prices);
    InventorySummary(c.totalItems, RoundCents(c.costBasis), RoundCents(c.marketValue),
                     Gain(c.marketValue, c.costBasis), c.ownedCount, c.forSaleCount, c.noPriceCount)
  }

  /** One entry's share of every counter. */
  function Added(c: Counters, e: CollectionEntry, prices: map<string, PriceEntry>): Counters
  {
    Counters(c.totalItems + Units(e), c.costBasis + HeldCost(e), c.marketValue + HeldValue(prices)(e),
             c.ownedCount + OwnedUnits(e), c.forSaleCount + ForSaleUnits(e), c.noPriceCount + Unpriced(e))
  }

  lemma CountersStep(values: seq<CollectionEntry>, prices: map<string, PriceEntry>, i: nat)
    requires i < |values|
    ensures CountersOf(values[..i + 1], prices) == Added(CountersOf(values[..i], prices), values[i], prices)
  {
    assert values[..i + 1][..i] == values[..i];
    RealSumOfPrefix(values, i, HeldCost);
    RealSumOfPrefix(values, i, HeldValue(prices));
  }

  /** The body of the hook's loop: one entry updates the counters. */
  method CountEntry(c: Counters, e: CollectionEntry, prices: map<string, PriceEntry>) returns (r: Counters)
    ensures r == Added(c, e, prices)
  {
    r := c;
    if e.status == Owned || e.status == ForSale {
      var paid := e.pricePaid.GetOr(0.0);
      var mkt := e.askingPrice.GetOr(PriceService.MarketPrice(prices, e.minifigId).GetOr(0.0));
      r := r.(totalItems := r.totalItems + e.quantity,
              costBasis := r.costBasis + paid * e.quantity as real,
              marketValue := r.marketValue + mkt * e.quantity as real);
      var fsq := e.forSaleQuantity;
      if e.status == ForSale {
        r := r.(forSaleCount := r.forSaleCount + e.quantity);
      } else if fsq > 0 {
        r := r.(forSaleCount := r.forSaleCount + fsq, ownedCount := r.ownedCount + e.quantity - fsq);
      } else {
        r := r.(ownedCount := r.ownedCount + e.quantity);
      }
      if e.pricePaid.None? || e.pricePaid.value == 0.0 {
        r := r.(noPriceCount := r.noPriceCount + 1);
      }
    }
  }

  /** The hook: the loop over the entries, then the rounding. */
  method Summarize(values: seq<CollectionEntry>, prices: map<string, PriceEntry>) returns (r: InventorySummary)
    ensures r == SummaryOf(values, prices)
  {
    var c := Counters(0, 0.0, 0.0, 0, 0, 0);
    for i := 0 to |values|
      invariant c == CountersOf(values[..i], prices)
    {
      CountersStep(values, prices, i);
      c := CountEntry(c, values[i], prices);
    }
    assert values[..|values|] == values;
    r := InventorySummary(c.totalItems, RoundCents(c.costBasis), RoundCents(c.marketValue),
                          RoundCents(c.marketValue - c.costBasis), c.ownedCount, c.forSaleCount, c.noPriceCount);
  }

  /** Every unit on hand is counted exactly once, as owned or as for sale. */
  lemma OwnedPlusForSale(values: seq<CollectionEntry>, prices: map<string, PriceEntry>)
    ensures SummaryOf(values, prices).totalItems == SummaryOf(values, prices).ownedCount + SummaryOf(values, prices).forSaleCount
  {
    SumOfAdd(values, OwnedUnits, ForSaleUnits, Units);
  }

  /** A 0/1 count is zero exactly when no element is counted. */
  lemma {:induction false} SumOfZeroOne<T>(s: seq<T>, w: T -> int)
    requires forall x :: w(x) == 0 || w(x) == 1
    ensures 0 <= SumOf(s, w) <= |s|
    ensures SumOf(s, w) == 0 <==> forall x :: x in s ==> w(x) == 0
  {
    if s != [] {
      var n := |s| - 1;
      SumOfZeroOne(s[..n], w);
      assert s == s[..n] + [s[n]];
      assert forall x :: x in s <==> x in s[..n] || x == s[n];
    }
  }

  /** `noPriceCount` is zero exactly when every owned or for-sale entry was bought at a nonzero price. */
  lemma NoPriceCount(values: seq<CollectionEntry>, prices: map<string, PriceEntry>)
    ensures 0 <= SummaryOf(values, prices).noPriceCount <= |values|
    ensures SummaryOf(values, prices).noPriceCount == 0 <==>
      forall e :: e in values && OnHand(e) ==> e.pricePaid.Some? && e.pricePaid.value != 0.0
  {
    SumOfZeroOne(values, Unpriced);
  }

  /** The figures agree with the business report's inventory figures on the same entries. */
  lemma AgreesWithBusinessStats(collection: OrderedMap.OMap<string, CollectionEntry>, sales: seq<SaleRecord>,
                                catalogMap: map<string, CatalogMinifig>, prices: map<string, PriceEntry>)
    requires collection.Valid()
    ensures var s := SummaryOf(collection.Values(), prices);
            var b := BusinessStatsOf(collection, sales, catalogMap, prices);
            s.costBasis == b.inventoryCostBasis && s.marketValue == b.inventoryMarketValue
            && s.unrealizedGain == b.unrealizedGain
  {
  }

  /** The gain is taken from the unrounded sums: within half a cent of their difference. */
  lemma GainFromUnrounded(values: seq<CollectionEntry>, prices: map<string, PriceEntry>)
    ensures var s := SummaryOf(values, prices);
            var d := RealSumOf(values, HeldValue(prices)) - RealSumOf(values, HeldCost);
            IsCents(s.unrealizedGain) && d - 0.005 < s.unrealizedGain <= d + 0.005
  {
  }
}
