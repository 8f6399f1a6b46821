/**
 * The refresh pipeline: clear the caches unless asked to reuse them, run
 * the five data-building steps in order, write the manual prices over the
 * records BrickLink left unpriced, and report the coverage.
 */
module Refresh {
  import opened Wrappers
  import opened Types
  import opened OrderedMap
  import opened KeyedUpdate
  import opened PriceTable
  import opened ManualPrices
  import opened Coverage
  import opened NameMatch

  /** `!existing || (existing.valueNew === null && existing.valueUsed === null)`. */
  predicate NeedsOverride(existing: Option<PriceEntry>)
  {
    existing.None? || (existing.value.valueNew.None? && existing.value.valueUsed.None?)
  }

  /** A missing record needs an override, and a present one exactly when it is unpriced. */
  lemma NeedsOverrideIffUnpriced(prices: map<string, PriceEntry>, id: string)
    ensures NeedsOverride(Lookup(prices, id)) <==> !PricedAt(prices, id)
  {
  }

  /** The loop body's step for one table entry: the fix, written only over a record that needs it. */
  function Overrider(fixes: map<string, Fix>): (string, Option<PriceEntry>) -> Option<PriceEntry>
  {
    (id: string, existing: Option<PriceEntry>) =>
      if id in fixes && NeedsOverride(existing) then Some(Overlay(fixes[id])) else None
  }

  /** A fixed record is priced, so a second visit leaves it alone. */
  lemma OverriderStable(fixes: map<string, Fix>)
    ensures Stable(Overrider(fixes))
  {
  }

  /** `prices` after `applyManualOverrides`. */
  function Overridden(prices: map<string, PriceEntry>, fixes: OMap<string, Fix>): map<string, PriceEntry>
  {
    UpdateAll(prices, fixes.keys, Overrider(fixes.values))
  }

  /**
   * Each id is treated on its own: a listed id whose record is missing or
   * unpriced gets its own fix, and every other id, listed or not, keeps
   * what it had.
   */
  lemma OverriddenAt(prices: map<string, PriceEntry>, fixes: OMap<string, Fix>, id: string)
    requires fixes.Valid()
    ensures Lookup(Overridden(prices, fixes), id)
         == if id in fixes.keys && NeedsOverride(Lookup(prices, id)) then Some(Overlay(fixes.values[id])) else Lookup(prices, id)
  {
    OverriderStable(fixes.values);
    UpdateAllAt(prices, fixes.keys, Overrider(fixes.values), id);
  }

  /** `applied`: the listed ids whose record needs an override. */
  function NeedCount(ids: seq<string>, prices: map<string, PriceEntry>): (r: nat)
    ensures r <= |ids|
  {
    if ids == [] then 0
    else NeedCount(ids[..|ids| - 1], prices) + (if NeedsOverride(Lookup(prices, ids[|ids| - 1])) then 1 else 0)
  }

  lemma NeedCountStep(ids: seq<string>, prices: map<string, PriceEntry>, i: nat)
    requires i < |ids|
    ensures NeedCount(ids[..i + 1], prices) == NeedCount(ids[..i], prices) + (if NeedsOverride(Lookup(prices, ids[i])) then 1 else 0)
  {
    assert ids[..i + 1][..i] == ids[..i];
  }

  /** The "already had BrickLink prices" count, the table size less `applied`, is the number of listed ids already priced. */
  lemma {:induction false} SkippedArePriced(ids: seq<string>, prices: map<string, PriceEntry>)
    ensures |ids| - NeedCount(ids, prices) == Covered(ids, prices)
  {
    if ids != [] {
      var n := |ids| - 1;
      SkippedArePriced(ids[..n], prices);
      NeedsOverrideIffUnpriced(prices, ids[n]);
    }
  }

  /** No listed id needs an override when every listed record is priced. */
  lemma {:induction false} NeedCountNone(ids: seq<string>, prices: map<string, PriceEntry>)
    requires forall i :: 0 <= i < |ids| ==> !NeedsOverride(Lookup(prices, ids[i]))
    ensures NeedCount(ids, prices) == 0
  {
    if ids != [] {
      NeedCountNone(ids[..|ids| - 1], prices);
    }
  }

  /**
   * `applyManualOverrides`: the loop over the table, counting the
   * overrides it writes.
   */
  method ApplyManualOverrides(prices0: map<string, PriceEntry>, fixes: OMap<string, Fix>)
    returns (prices: map<string, PriceEntry>, applied: nat)
    requires fixes.Valid()
    ensures prices == Overridden(prices0, fixes)
    ensures applied == NeedCount(fixes.keys, prices0)
    ensures |fixes.keys| - applied == Covered(fixes.keys, prices0)
  {
    var ids := fixes.keys;
    var step := Overrider(fixes.values);
    OverriderStable(fixes.values);
    prices, applied := prices0, 0;
    for i := 0 to |ids|
      invariant prices == UpdateAll(prices0, ids[..i], step)
      invariant applied == NeedCount(ids[..i], prices0)
    {
      var id := ids[i];
      UpdateAllStep(prices0, ids, step, i);
      NeedCountStep(ids, prices0, i);
      FoundAt(prices0, ids, step, i);
      assert id !in ids[..i];
      var existing := Lookup(prices, id);
      assert existing == Lookup(prices0, id);
      if existing.None? || (existing.value.valueNew.None? && existing.value.valueUsed.None?) {
        prices := prices[id := Overlay(fixes.values[id])];
        applied := applied + 1;
      }
      assert step(id, existing) == if NeedsOverride(existing) then Some(Overlay(fixes.values[id])) else None;
    }
    assert ids[..|ids|] == ids;
    SkippedArePriced(ids, prices0);
  }

  /** A second run writes nothing: the table's records are all priced by then. */
  lemma OverridesRerun(prices: map<string, PriceEntry>, fixes: OMap<string, Fix>)
    requires fixes.Valid()
    ensures Overridden(Overridden(prices, fixes), fixes) == Overridden(prices, fixes)
    ensures NeedCount(fixes.keys, Overridden(prices, fixes)) == 0
  {
    OverriderStable(fixes.values);
    UpdateAllTwice(prices, fixes.keys, Overrider(fixes.values));
    var after := Overridden(prices, fixes);
    forall i | 0 <= i < |fixes.keys|
      ensures !NeedsOverride(Lookup(after, fixes.keys[i]))
    {
      OverriddenAt(prices, fixes, fixes.keys[i]);
    }
    NeedCountNone(fixes.keys, after);
  }

  /** Overrides never unprice a record, so the catalog's coverage only grows. */
  lemma OverridesKeepCoverage(ids: seq<string>, prices: map<string, PriceEntry>, fixes: OMap<string, Fix>)
    requires fixes.Valid()
    ensures Covered(ids, prices) <= Covered(ids, Overridden(prices, fixes))
  {
    var after := Overridden(prices, fixes);
    forall id | PricedAt(prices, id)
      ensures PricedAt(after, id)
    {
      OverriddenAt(prices, fixes, id);
    }
    CoveredMonotone(ids, prices, after);
  }

  /**
   * The two Wampa figures share a BrickLink number but are separate table
   * entries, so each unpriced one gets the Wampa values whatever the other
   * holds.
   */
  lemma WampaEachOwn(prices: map<string, PriceEntry>, id: string)
    requires id == "fig-003838" || id == "fig-011198"
    requires NeedsOverride(Lookup(prices, id))
    ensures Lookup(Overridden(prices, ManualOverrides), id) == Some(PriceEntry(Some(53.74), Some(38.00), Some("wampa")))
  {
    ManualOverridesValid();
    OverriddenAt(prices, ManualOverrides, id);
    assert id in ManualOverrides.keys;
  }

  /** Missing lines are indented by two spaces. */
  const MissingLead := "  "

  /** `missing`: at most the first ten missing lines. */
  function FirstTen(lines: seq<string>): (r: seq<string>)
    ensures |r| == if |lines| <= 10 then |lines| else 10
    ensures r == lines[..|r|]
  {
    if |lines| <= 10 then lines else lines[..10]
  }

  lemma FirstTenSnoc(lines: seq<string>, x: string)
    ensures FirstTen(lines + [x]) == if |FirstTen(lines)| < 10 then FirstTen(lines) + [x] else FirstTen(lines)
  {
    if |lines| >= 10 {
      assert (lines + [x])[..10] == lines[..10];
    }
  }

  /**
   * `printSummary`'s loop: the priced entries and the unpriced ones count
   * every catalog entry once, and up to ten unpriced ones are listed in
   * catalog order.
   */
  method PrintSummary(catalog: seq<CatalogName>, prices: map<string, PriceEntry>)
    returns (withPrices: nat, noPrices: nat, missing: seq<string>)
    ensures withPrices == Covered(CatalogIds(catalog), prices)
    ensures withPrices + noPrices == |catalog|
    ensures missing == FirstTen(MissingLines(catalog, prices, MissingLead))
    ensures |missing| == if noPrices < 10 then noPrices else 10
  {
    ghost var ids := CatalogIds(catalog);
    withPrices, noPrices, missing := 0, 0, [];
    for i := 0 to |catalog|
      invariant withPrices == Covered(ids[..i], prices)
      invariant withPrices + noPrices == i
      invariant missing == FirstTen(MissingLines(catalog[..i], prices, MissingLead))
    {
      var c := catalog[i];
      CoveredStep(ids, prices, i);
      ghost var lines := MissingLines(catalog[..i], prices, MissingLead);
      MissingLinesStep(catalog, prices, MissingLead, i);
      if c.id in prices && HasPrice(prices[c.id]) {
        assert MissingLines(catalog[..i + 1], prices, MissingLead) == lines;
        withPrices := withPrices + 1;
      } else {
        assert MissingLines(catalog[..i + 1], prices, MissingLead) == lines + [MissingLine(MissingLead, c)];
        FirstTenSnoc(lines, MissingLine(MissingLead, c));
        noPrices := noPrices + 1;
        if |missing| < 10 {
          missing := missing + [MissingLine(MissingLead, c)];
        }
      }
    }
    assert catalog[..|catalog|] == catalog && ids[..|ids|] == ids;
    MissingLinesCount(catalog, prices, MissingLead);
  }

  /** The pipeline's steps. */
  datatype Step = ClearCache | FetchCatalog | FetchIdMapping | FixUnmatched | FetchApiPrices | ApplyOverrides | Summarise

  /** `process.argv.includes('--use-cache')`. */
  predicate UseCache(argv: seq<string>)
  {
    "--use-cache" in argv
  }

  /** The steps `main` runs when none fails: the cache is cleared first unless it is reused or absent. */
  function Steps(argv: seq<string>, cacheExists: bool): (r: seq<Step>)
    ensures |r| >= 6 && r[|r| - 6..] == [FetchCatalog, FetchIdMapping, FixUnmatched, FetchApiPrices, ApplyOverrides, Summarise]
    ensures |r| == (if !UseCache(argv) && cacheExists then 7 else 6)
    ensures r[0] == ClearCache <==> !UseCache(argv) && cacheExists
  {
    (if !UseCache(argv) && cacheExists then [ClearCache] else [])
      + [FetchCatalog, FetchIdMapping, FixUnmatched, FetchApiPrices, ApplyOverrides, Summarise]
  }

  /**
   * The steps that run when each awaited step may throw: every step up to
   * and including the first that fails, which ends the run.
   */
  function UntilFailure(steps: seq<Step>, fails: Step -> bool): seq<Step>
  {
    if steps == [] then []
    else if fails(steps[0]) then [steps[0]]
    else [steps[0]] + UntilFailure(steps[1..], fails)
  }

  /**
   * The steps that run are a prefix of the pipeline; all but the last
   * succeeded, and the run stops short only at a step that failed, so it
   * runs every step when none fails.
   */
  lemma {:induction false} UntilFailurePrefix(steps: seq<Step>, fails: Step -> bool)
    ensures var r := UntilFailure(steps, fails);
      && |r| <= |steps| && r == steps[..|r|]
      && (forall i :: 0 <= i < |r| - 1 ==> !fails(r[i]))
      && (|r| < |steps| ==> r != [] && fails(r[|r| - 1]))
      && ((forall i :: 0 <= i < |steps| ==> !fails(steps[i])) ==> r == steps)
  {
    if steps != [] && !fails(steps[0]) {
      UntilFailurePrefix(steps[1..], fails);
      var r := UntilFailure(steps, fails);
      var rest := UntilFailure(steps[1..], fails);
      assert r == [steps[0]] + rest;
      assert forall i :: 0 < i < |r| ==> r[i] == rest[i - 1];
      if forall i :: 0 <= i < |steps| ==> !fails(steps[i]) {
        assert forall i :: 0 <= i < |steps| - 1 ==> !fails(steps[1..][i]) by {
          forall i | 0 <= i < |steps| - 1 ensures !fails(steps[1..][i]) {
            assert steps[1..][i] == steps[i + 1];
          }
        }
      }
    }
  }

  /** `main`: the steps it runs, in order, stopping at the first that throws. */
  method RunRefresh(argv: seq<string>, cacheExists: bool, fails: Step -> bool) returns (trace: seq<Step>)
    ensures trace == UntilFailure(Steps(argv, cacheExists), fails)
  {
    var useCache := "--use-cache" in argv;
    var clear: seq<Step> := if !useCache && cacheExists then [ClearCache] else [];
    trace := RunSteps(clear + [FetchCatalog, FetchIdMapping, FixUnmatched, FetchApiPrices, ApplyOverrides, Summarise], fails);
  }

  /** Awaiting the steps one after another: a step that throws ends the run. */
  method RunSteps(steps: seq<Step>, fails: Step -> bool) returns (trace: seq<Step>)
    ensures trace == UntilFailure(steps, fails)
  {
    trace := [];
    var i := 0;
    while i < |steps|
      invariant i <= |steps| && trace == steps[..i]
      invariant forall j :: 0 <= j < i ==> !fails(steps[j])
    {
      assert steps[..i + 1] == trace + [steps[i]];
      trace := trace + [steps[i]];
      if fails(steps[i]) {
        UntilFailureSplit(steps, fails, i);
        UntilFailureFirst(steps[i..], fails);
        return;
      }
      i := i + 1;
    }
    UntilFailureSplit(steps, fails, i);
    assert steps[i..] == [];
  }

  /** Past a run of successful steps, what runs is those steps followed by what runs of the rest. */
  lemma {:induction false} UntilFailureSplit(steps: seq<Step>, fails: Step -> bool, i: nat)
    requires i <= |steps| && forall j :: 0 <= j < i ==> !fails(steps[j])
    ensures UntilFailure(steps, fails) == steps[..i] + UntilFailure(steps[i..], fails)
  {
    if i == 0 {
      assert steps[0..] == steps;
    } else {
      UntilFailureSplit(steps, fails, i - 1);
      UntilFailureFirst(steps[i - 1..], fails);
      assert steps[i - 1..][0] == steps[i - 1] && steps[i - 1..][1..] == steps[i..];
      assert steps[..i] == steps[..i - 1] + [steps[i - 1]];
    }
  }

  /** The first step runs; the rest run only when it succeeds. */
  lemma UntilFailureFirst(steps: seq<Step>, fails: Step -> bool)
    requires steps != []
    ensures UntilFailure(steps, fails)
         == [steps[0]] + (if fails(steps[0]) then [] else UntilFailure(steps[1..], fails))
  {
  }
}
