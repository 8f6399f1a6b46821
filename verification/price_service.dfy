/**
 * The app's read-only view of the price table: the record for an id, its
 * market price (the used average, else the new average) and its BrickLink
 * number. The table the app bundles is a parameter.
 */
module PriceService {
  import opened Wrappers
  import opened Types
  import opened PriceTable

  /** `getPrice`: the stored record, or nothing for an unknown id. */
  function GetPrice(prices: map<string, PriceEntry>, id: string): (r: Option<PriceEntry>)
    ensures r.Some? <==> id in prices
    ensures r.Some? ==> r.value == prices[id]
  {
    if id in prices then Some(prices[id]) else None
  }

  /** `getMarketPrice`: the used value when present, else the new value, else null. */
  function MarketPrice(prices: map<string, PriceEntry>, id: string): (r: Option<real>)
    ensures id !in prices ==> r == None
    ensures id in prices && prices[id].valueUsed.Some? ==> r == prices[id].valueUsed
    ensures id in prices && prices[id].valueUsed.None? ==> r == prices[id].valueNew
  {
    match GetPrice(prices, id)
    case None => None
    case Some(p) => p.valueUsed.Or(p.valueNew)
  }

  /** `getBricklinkId`: the stored record's number, or nothing for an unknown id. */
  function BricklinkId(prices: map<string, PriceEntry>, id: string): Option<string>
  {
    match GetPrice(prices, id)
    case None => None
    case Some(p) => p.bricklinkId
  }

  /** An id has a market price exactly when the scripts count its record as priced. */
  lemma MarketPriceIffPriced(prices: map<string, PriceEntry>, id: string)
    ensures MarketPrice(prices, id).Some? <==> id in PricedIds(prices)
  {
  }

  /** The new average never matters while a used average is present. */
  lemma MarketPriceIgnoresNew(prices: map<string, PriceEntry>, id: string, valueNew: Option<real>)
    requires id in prices && prices[id].valueUsed.Some?
    ensures MarketPrice(prices[id := prices[id].(valueNew := valueNew)], id) == MarketPrice(prices, id)
  {
  }

  /** The number is exactly the one in the record `getPrice` returns. */
  lemma BricklinkIdOfRecord(prices: map<string, PriceEntry>, id: string)
    ensures id in prices ==> BricklinkId(prices, id) == prices[id].bricklinkId
    ensures id !in prices ==> BricklinkId(prices, id) == None
  {
  }
}
