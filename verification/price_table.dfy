/**
 * The `prices.json` table as the scripts summarise it: a record counts as
 * priced when either of its values is present.
 */
module PriceTable {
  import opened Types

  /** `p.valueUsed !== null || p.valueNew !== null`. */
  predicate HasPrice(p: PriceEntry)
  {
    p.valueUsed.Some? || p.valueNew.Some?
  }

  /** The ids whose record is priced. */
  function PricedIds(prices: map<string, PriceEntry>): (r: set<string>)
    ensures forall id :: id in r <==> id in prices && HasPrice(prices[id])
  {
    set id | id in prices && HasPrice(prices[id])
  }

  /** `totalWithPrices`: the number of priced records, at most the number of records. */
  function WithPrices(prices: map<string, PriceEntry>): (r: nat)
    ensures r <= |prices|
  {
    SubsetCard(PricedIds(prices), prices.Keys);
    |PricedIds(prices)|
  }

  lemma SubsetCard(a: set<string>, b: set<string>)
    requires a <= b
    ensures |a| <= |b|
  {
    assert b == a + (b - a);
  }

  /**
   * Writing one record moves the count by at most one: the old record under
   * that id, if priced, stops counting and the new one, if priced, starts.
   */
  lemma WithPricesAfterWrite(prices: map<string, PriceEntry>, id: string, p: PriceEntry)
    ensures WithPrices(prices[id := p])
         == WithPrices(prices) - (if id in prices && HasPrice(prices[id]) then 1 else 0) + (if HasPrice(p) then 1 else 0)
  {
    var before := PricedIds(prices);
    var after := PricedIds(prices[id := p]);
    assert after == (before - {id}) + (if HasPrice(p) then {id} else {});
    ReplaceCard(before, after, id, HasPrice(p));
  }

  /** Taking one element out of a set and possibly putting it back. */
  lemma ReplaceCard(before: set<string>, after: set<string>, id: string, keep: bool)
    requires after == (before - {id}) + (if keep then {id} else {})
    ensures |after| == |before| - (if id in before then 1 else 0) + (if keep then 1 else 0)
  {
    var rest := before - {id};
    if id in before {
      assert before == rest + {id};
    }
  }
}
