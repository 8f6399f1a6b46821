/**
 * The coverage report the price scripts print at the end: how many catalog
 * entries have a priced record, and a line for each one that has not.
 */
module Coverage {
  import opened Types
  import opened PriceTable
  import opened NameMatch

  /** `p && (p.valueUsed != null || p.valueNew != null)` for `p = prices[id]`. */
  predicate PricedAt(prices: map<string, PriceEntry>, id: string)
  {
    id in prices && HasPrice(prices[id])
  }

  /** `withPrices`: the entries of `ids` whose record is priced, counted with repeats. */
  function Covered(ids: seq<string>, prices: map<string, PriceEntry>): (r: nat)
    ensures r <= |ids|
  {
    if ids == [] then 0
    else Covered(ids[..|ids| - 1], prices) + (if PricedAt(prices, ids[|ids| - 1]) then 1 else 0)
  }

  lemma CoveredStep(ids: seq<string>, prices: map<string, PriceEntry>, i: nat)
    requires i < |ids|
    ensures Covered(ids[..i + 1], prices) == Covered(ids[..i], prices) + (if PricedAt(prices, ids[i]) then 1 else 0)
  {
    assert ids[..i + 1][..i] == ids[..i];
  }

  /** Every entry is counted when every entry is priced, and none when none is. */
  lemma {:induction false} CoveredAll(ids: seq<string>, prices: map<string, PriceEntry>)
    ensures (forall i :: 0 <= i < |ids| ==> PricedAt(prices, ids[i])) ==> Covered(ids, prices) == |ids|
    ensures (forall i :: 0 <= i < |ids| ==> !PricedAt(prices, ids[i])) ==> Covered(ids, prices) == 0
  {
    if ids != [] {
      CoveredAll(ids[..|ids| - 1], prices);
    }
  }

  /** A change that never unprices a record never lowers the count. */
  lemma {:induction false} CoveredMonotone(ids: seq<string>, before: map<string, PriceEntry>, after: map<string, PriceEntry>)
    requires forall id :: PricedAt(before, id) ==> PricedAt(after, id)
    ensures Covered(ids, before) <= Covered(ids, after)
  {
    if ids != [] {
      CoveredMonotone(ids[..|ids| - 1], before, after);
    }
  }

  /** The report line for an unpriced entry: its id and name after a lead-in. */
  function MissingLine(lead: string, c: CatalogName): (r: string)
    ensures |r| >= |lead| && r[..|lead|] == lead
  {
    lead + c.id + " | " + c.name
  }

  /** The report line for each unpriced entry, in catalog order. */
  function MissingLines(catalog: seq<CatalogName>, prices: map<string, PriceEntry>, lead: string): seq<string>
  {
    if catalog == [] then []
    else
      var n := |catalog| - 1;
      var c := catalog[n];
      MissingLines(catalog[..n], prices, lead) + (if PricedAt(prices, c.id) then [] else [MissingLine(lead, c)])
  }

  /** One line per entry the count leaves out. */
  lemma {:induction false} MissingLinesCount(catalog: seq<CatalogName>, prices: map<string, PriceEntry>, lead: string)
    ensures |MissingLines(catalog, prices, lead)| == |catalog| - Covered(CatalogIds(catalog), prices)
  {
    if catalog != [] {
      var n := |catalog| - 1;
      MissingLinesCount(catalog[..n], prices, lead);
      CatalogIdsStep(catalog, n);
      assert catalog[..n + 1] == catalog;
    }
  }

  lemma MissingLinesStep(catalog: seq<CatalogName>, prices: map<string, PriceEntry>, lead: string, i: nat)
    requires i < |catalog|
    ensures MissingLines(catalog[..i + 1], prices, lead)
         == MissingLines(catalog[..i], prices, lead)
          + (if PricedAt(prices, catalog[i].id) then [] else [MissingLine(lead, catalog[i])])
  {
    assert catalog[..i + 1][..i] == catalog[..i];
  }

  lemma CatalogIdsStep(catalog: seq<CatalogName>, i: nat)
    requires i < |catalog|
    ensures CatalogIds(catalog[..i + 1]) == CatalogIds(catalog[..i]) + [catalog[i].id]
    ensures CatalogIds(catalog)[..i] == CatalogIds(catalog[..i])
  {
  }
}
