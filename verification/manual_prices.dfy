/**
 * The hand-entered prices for the six minifigures BrickLink cannot price
 * (the two Wampa figures and four Porgs), and how one is written over a
 * price record.
 */
module ManualPrices {
  import opened Wrappers
  import opened Types
  import opened OrderedMap
  import opened PriceTable

  /** A hand-entered record: both values and the BrickLink number. */
  datatype Fix = Fix(valueNew: real, valueUsed: real, bricklinkId: string)

  /**
   * `{ ...existing, ...fix }`: a price record has no fields besides the
   * three a fix sets, so every field comes from the fix, and the record is
   * priced.
   */
  function Overlay(fix: Fix): (r: PriceEntry)
    ensures r.valueNew == Some(fix.valueNew) && r.valueUsed == Some(fix.valueUsed)
    ensures r.bricklinkId == Some(fix.bricklinkId)
    ensures HasPrice(r)
  {
    PriceEntry(Some(fix.valueNew), Some(fix.valueUsed), Some(fix.bricklinkId))
  }

  /** The table, keyed by catalog id, in the order the scripts visit it. */
  const ManualOverrides: OMap<string, Fix> := OMap(
    ["fig-003838", "fig-011198", "fig-014399", "fig-014402", "fig-014403", "fig-014404"],
    map[
      "fig-003838" := Fix(53.74, 38.00, "wampa"),
      "fig-011198" := Fix(53.74, 38.00, "wampa"),
      "fig-014399" := Fix(18.00, 12.00, "porg06"),
      "fig-014402" := Fix(15.00, 10.00, "porg03"),
      "fig-014403" := Fix(20.00, 14.00, "porg02"),
      "fig-014404" := Fix(15.00, 10.00, "porg01")
    ])

  /** The table lists six distinct ids, each with its record. */
  lemma ManualOverridesValid()
    ensures ManualOverrides.Valid() && |ManualOverrides.keys| == 6
  {
    var ks := ManualOverrides.keys;
    forall i, j | 0 <= i < j < |ks|
      ensures ks[i] != ks[j]
    {
      assert ks[i][7..] != ks[j][7..];
    }
  }
}
