/**
 * The edit handlers of the minifigure detail view (`MinifigDetailModal`):
 * each computes the update it hands to the collection store from the entry
 * shown and the value typed, clamping counts into range; the view also
 * offers the market price and shows the last sale of a sold figure.
 */
module MinifigDetail {
  import opened Wrappers
  import opened Types
  import opened OrderedMap
  import Strings
  import PriceService
  import CollectionStore
  import SalesLog

  function Max(a: int, b: int): int { if a < b then b else a }

  function Min(a: int, b: int): int { if a < b then a else b }

  /**
   * The Total Quantity field: at least one copy, and the copies for sale
   * kept if they still fit below the new total, otherwise cut down to one
   * less than it.
   */
  function QuantityEdit(e: CollectionEntry, typed: int): (r: CollectionStore.EntryPatch)
    ensures r == CollectionStore.NoChange().(quantity := r.quantity, forSaleQuantity := r.forSaleQuantity)
    ensures r.quantity.Some? && r.quantity.value >= 1 && (typed >= 1 ==> r.quantity.value == typed)
    ensures r.forSaleQuantity.Some? && 0 <= r.forSaleQuantity.value <= r.quantity.value - 1
    ensures 0 <= e.forSaleQuantity <= r.quantity.value - 1 ==> r.forSaleQuantity.value == e.forSaleQuantity
    ensures e.forSaleQuantity > r.quantity.value - 1 ==> r.forSaleQuantity.value == r.quantity.value - 1
  {
    var newQty := Max(1, typed);
    var newForSale := Max(0, Min(e.forSaleQuantity, newQty - 1));
    CollectionStore.NoChange().(quantity := Some(newQty), forSaleQuantity := Some(newForSale))
  }

  /** Whatever was typed, the entry after a quantity edit holds at least one copy kept back from sale. */
  lemma QuantityEditKeepsOneBack(c: OMap<string, CollectionEntry>, id: string, typed: int, now: string)
    requires c.Valid() && c.Get(id).Some?
    ensures var e := CollectionStore.UpdateEntryOf(c, id, QuantityEdit(c.Get(id).value, typed), now).Get(id).value;
      e.quantity >= 1 && 0 <= e.forSaleQuantity < e.quantity
  {
  }

  /** The For Sale field is shown only for an entry with more than one copy. */
  predicate ForSaleShown(e: CollectionEntry)
  {
    e.quantity > 1
  }

  /** The For Sale field: the typed count clamped to between none and all copies but one. */
  function ForSaleEdit(e: CollectionEntry, typed: int): (r: CollectionStore.EntryPatch)
    ensures r == CollectionStore.NoChange().(forSaleQuantity := r.forSaleQuantity)
    ensures r.forSaleQuantity.Some?
    ensures e.quantity >= 1 ==> 0 <= r.forSaleQuantity.value <= e.quantity - 1
    ensures 0 <= typed <= e.quantity - 1 ==> r.forSaleQuantity.value == typed
    ensures typed < 0 ==> r.forSaleQuantity.value == 0
  {
    CollectionStore.NoChange().(forSaleQuantity := Some(Max(0, Min(e.quantity - 1, typed))))
  }

  /** Editing the copies for sale of a shown field keeps some copies back and none negative. */
  lemma ForSaleEditKeepsOneBack(c: OMap<string, CollectionEntry>, id: string, typed: int, now: string)
    requires c.Valid() && c.Get(id).Some? && ForSaleShown(c.Get(id).value)
    ensures var e := CollectionStore.UpdateEntryOf(c, id, ForSaleEdit(c.Get(id).value, typed), now).Get(id).value;
      e.quantity == c.Get(id).value.quantity && 0 <= e.forSaleQuantity < e.quantity
  {
  }

  /** `e.target.value ? Number(e.target.value) : null`: an empty price field is no price. */
  function PriceInput(text: string): (r: Option<real>)
    ensures text == "" ==> r == None
    ensures text != "" ==> r == Strings.ParseFloat(text)
  {
    if text == "" then None else Strings.ParseFloat(text)
  }

  /** The Price Paid field. */
  function PricePaidEdit(text: string): CollectionStore.EntryPatch
  {
    CollectionStore.NoChange().(pricePaid := Some(PriceInput(text)))
  }

  /** The Target Price field of a wanted figure. */
  function TargetPriceEdit(text: string): CollectionStore.EntryPatch
  {
    CollectionStore.NoChange().(targetPrice := Some(PriceInput(text)))
  }

  /** A price field sets its own price, to nothing when emptied, and leaves the rest of the entry. */
  lemma PriceFieldsSetOnePrice(e: CollectionEntry, text: string)
    ensures CollectionStore.Merge(e, PricePaidEdit(text)) == e.(pricePaid := PriceInput(text))
    ensures CollectionStore.Merge(e, TargetPriceEdit(text)) == e.(targetPrice := PriceInput(text))
    ensures CollectionStore.Merge(e, PricePaidEdit("")).pricePaid == None
    ensures CollectionStore.Merge(e, TargetPriceEdit("")).targetPrice == None
  {
  }

  /** The price field of a for-sale or sold figure: the sale price when sold, the asking price otherwise. */
  function SalePriceEdit(e: CollectionEntry, text: string): CollectionStore.EntryPatch
  {
    if e.status == Sold then CollectionStore.NoChange().(priceSold := Some(PriceInput(text)))
    else CollectionStore.NoChange().(askingPrice := Some(PriceInput(text)))
  }

  /** The price field of a sold figure edits its sale price, of any other its asking price, and nothing else. */
  lemma SalePriceEditSetsShownPrice(e: CollectionEntry, text: string)
    ensures e.status == Sold ==> CollectionStore.Merge(e, SalePriceEdit(e, text)) == e.(priceSold := PriceInput(text))
    ensures e.status != Sold ==> CollectionStore.Merge(e, SalePriceEdit(e, text)) == e.(askingPrice := PriceInput(text))
  {
  }

  /**
   * `handleUseMarketPrice`: no update without a market price; otherwise the
   * market price becomes the sale price of a sold figure and the asking
   * price of any other (or of a figure not in the collection).
   */
  function UseMarketPrice(entry: Option<CollectionEntry>, prices: map<string, PriceEntry>, id: string): (r: Option<CollectionStore.EntryPatch>)
    ensures PriceService.MarketPrice(prices, id).None? <==> r.None?
    ensures r.Some? && entry.Some? && entry.value.status == Sold ==>
      r.value == CollectionStore.NoChange().(priceSold := Some(PriceService.MarketPrice(prices, id)))
    ensures r.Some? && !(entry.Some? && entry.value.status == Sold) ==>
      r.value == CollectionStore.NoChange().(askingPrice := Some(PriceService.MarketPrice(prices, id)))
  {
    var market := PriceService.MarketPrice(prices, id);
    if market.None? then None
    else if entry.Some? && entry.value.status == Sold then Some(CollectionStore.NoChange().(priceSold := Some(market)))
    else Some(CollectionStore.NoChange().(askingPrice := Some(market)))
  }

  /** The store after the button: unchanged without a market price, otherwise just the one price set. */
  lemma UseMarketPriceSetsOnePrice(c: OMap<string, CollectionEntry>, prices: map<string, PriceEntry>, id: string, now: string)
    requires c.Valid() && c.Get(id).Some?
    ensures var e := c.Get(id).value;
      var market := PriceService.MarketPrice(prices, id);
      match UseMarketPrice(c.Get(id), prices, id)
      case None => market.None?
      case Some(p) =>
        CollectionStore.UpdateEntryOf(c, id, p, now).Get(id).value ==
          (if e.status == Sold then e.(priceSold := market) else e.(askingPrice := market)).(dateModified := now)
  {
  }

  /** The last sale shown for a figure: the newest of its sales, and only when it is sold. */
  function LastSale(entry: Option<CollectionEntry>, sales: seq<SaleRecord>, id: string): (r: Option<SaleRecord>)
    ensures r.Some? ==> entry.Some? && entry.value.status == Sold && r.value in sales && r.value.minifigId == id
    ensures r.Some? ==> r.value == SalesLog.SalesFor(sales, id)[0]
    ensures entry.Some? && entry.value.status == Sold && SalesLog.SalesFor(sales, id) != [] ==> r.Some?
  {
    var shown := if entry.Some? && entry.value.status == Sold then SalesLog.SalesFor(sales, id) else [];
    if |shown| > 0 then
      assert shown[0] in shown;
      Some(shown[0])
    else None
  }

  /** A sale just recorded for a sold figure is the one shown as its last sale. */
  lemma NewSaleIsLastSale(e: CollectionEntry, sales: seq<SaleRecord>, sale: SaleRecord)
    requires e.status == Sold
    ensures LastSale(Some(e), [sale] + sales, sale.minifigId) == Some(sale)
  {
    SalesLog.SalesForAfterAdd(sales, sale, sale.minifigId);
  }
}
