/**
 * The one-off fix for the last six unpriced minifigures: write the manual
 * prices over their records whatever they held, then count the coverage.
 */
module FillLastSix {
  import opened Wrappers
  import opened Types
  import opened OrderedMap
  import opened KeyedUpdate
  import opened PriceTable
  import opened ManualPrices
  import opened Coverage
  import NameMatch
  import Refresh

  /** `Object.assign({}, prices[id], fix)`: the fix, for a listed id, whatever the record held. */
  function Filler(fixes: map<string, Fix>): (string, Option<PriceEntry>) -> Option<PriceEntry>
  {
    (id: string, existing: Option<PriceEntry>) => if id in fixes then Some(Overlay(fixes[id])) else None
  }

  /** Writing the same fix again changes nothing. */
  lemma FillerStable(fixes: map<string, Fix>)
    ensures Stable(Filler(fixes))
  {
  }

  /** `prices` after the loop over the fixes. */
  function Filled(prices: map<string, PriceEntry>, fixes: OMap<string, Fix>): map<string, PriceEntry>
  {
    UpdateAll(prices, fixes.keys, Filler(fixes.values))
  }

  /** A listed id holds its fix, priced or not before; every other id keeps what it had. */
  lemma FilledAt(prices: map<string, PriceEntry>, fixes: OMap<string, Fix>, id: string)
    requires fixes.Valid()
    ensures Lookup(Filled(prices, fixes), id)
         == if id in fixes.keys then Some(Overlay(fixes.values[id])) else Lookup(prices, id)
  {
    FillerStable(fixes.values);
    UpdateAllAt(prices, fixes.keys, Filler(fixes.values), id);
  }

  /**
   * Where the fill and the conditional overrides differ: only at a listed
   * id whose record was already priced, which the fill overwrites and the
   * overrides keep.
   */
  lemma FillVersusOverride(prices: map<string, PriceEntry>, fixes: OMap<string, Fix>, id: string)
    requires fixes.Valid()
    ensures Lookup(Filled(prices, fixes), id) != Lookup(Refresh.Overridden(prices, fixes), id)
        ==> id in fixes.keys && PricedAt(prices, id)
  {
    FilledAt(prices, fixes, id);
    Refresh.OverriddenAt(prices, fixes, id);
  }

  /** The loop over the fixes. */
  method FillFixes(prices0: map<string, PriceEntry>, fixes: OMap<string, Fix>) returns (prices: map<string, PriceEntry>)
    requires fixes.Valid()
    ensures prices == Filled(prices0, fixes)
    ensures forall i :: 0 <= i < |fixes.keys| ==>
      (PricedAt(prices, fixes.keys[i]) &&
       prices[fixes.keys[i]].valueNew.Some? && prices[fixes.keys[i]].valueUsed.Some?)
  {
    var ids := fixes.keys;
    var step := Filler(fixes.values);
    prices := prices0;
    for i := 0 to |ids|
      invariant prices == UpdateAll(prices0, ids[..i], step)
    {
      var id := ids[i];
      UpdateAllStep(prices0, ids, step, i);
      assert step(id, Lookup(prices, id)) == Some(Overlay(fixes.values[id]));
      prices := prices[id := Overlay(fixes.values[id])];
    }
    assert ids[..|ids|] == ids;
    forall i | 0 <= i < |ids|
      ensures PricedAt(prices, ids[i]) && prices[ids[i]].valueNew.Some? && prices[ids[i]].valueUsed.Some?
    {
      FilledAt(prices0, fixes, ids[i]);
    }
  }

  /** The fill never unprices a record, and each listed catalog entry ends up counted. */
  lemma FillCoverage(ids: seq<string>, prices: map<string, PriceEntry>, fixes: OMap<string, Fix>)
    requires fixes.Valid()
    ensures Covered(ids, prices) <= Covered(ids, Filled(prices, fixes))
    ensures forall id :: id in fixes.keys ==> PricedAt(Filled(prices, fixes), id)
  {
    var after := Filled(prices, fixes);
    forall id | PricedAt(prices, id) || id in fixes.keys
      ensures PricedAt(after, id)
    {
      FilledAt(prices, fixes, id);
    }
    CoveredMonotone(ids, prices, after);
  }

  /** The verification loop: every catalog entry is counted once, as priced or not. */
  method CountCoverage(catalog: seq<NameMatch.CatalogName>, prices: map<string, PriceEntry>)
    returns (withPrices: nat, noPrices: nat)
    ensures withPrices == Covered(NameMatch.CatalogIds(catalog), prices)
    ensures withPrices + noPrices == |catalog|
  {
    ghost var ids := NameMatch.CatalogIds(catalog);
    withPrices, noPrices := 0, 0;
    for i := 0 to |catalog|
      invariant withPrices == Covered(ids[..i], prices)
      invariant withPrices + noPrices == i
    {
      var c := catalog[i];
      CoveredStep(ids, prices, i);
      if c.id in prices && HasPrice(prices[c.id]) {
        withPrices := withPrices + 1;
      } else {
        noPrices := noPrices + 1;
      }
    }
    assert ids[..|ids|] == ids;
  }

  /** The whole script on the six hand-entered records. */
  method Run(catalog: seq<NameMatch.CatalogName>, prices0: map<string, PriceEntry>)
    returns (prices: map<string, PriceEntry>, withPrices: nat, noPrices: nat)
    ensures prices == Filled(prices0, ManualOverrides)
    ensures withPrices == Covered(NameMatch.CatalogIds(catalog), prices)
    ensures withPrices + noPrices == |catalog|
    ensures Covered(NameMatch.CatalogIds(catalog), prices0) <= withPrices
  {
    ManualOverridesValid();
    prices := FillFixes(prices0, ManualOverrides);
    withPrices, noPrices := CountCoverage(catalog, prices);
    FillCoverage(NameMatch.CatalogIds(catalog), prices0, ManualOverrides);
  }
}
