/**
 * The unmatched-entry repair: for every catalog minifigure without a price
 * record, read its BrickLink number off its Rebrickable page and write a
 * record with Brickset's values for that number, or an unpriced record
 * when Brickset has none. Entries that already have a record are never
 * touched.
 */
module FixUnmatched {
  import opened Wrappers
  import opened Types
  import opened NameMatch
  import opened BricklinkPages
  import opened ResumableCache
  import opened KeyedUpdate
  import opened PriceTable
  import opened Seqs

  /** `unmatched`: the catalog ids without a record, in catalog order. */
  function Unmatched(catalog: seq<CatalogName>, prices: map<string, PriceEntry>): (r: seq<string>)
    ensures forall id :: id in r <==> id in CatalogIds(catalog) && id !in prices
    ensures |r| <= |catalog|
  {
    Pending(CatalogIds(catalog), prices)
  }

  /** The branch the loop body takes for an entry, one per counter. */
  datatype Outcome = Found | NoPrice | NotOnBricklink | Error

  /** A request that fails is an error; a page without a truthy number is not on BrickLink. */
  function OutcomeOf(patterns: seq<Extractor>, fetch: string -> Option<string>, bsById: map<string, BricksetMinifig>, id: string): Outcome
  {
    match LookUp(patterns, fetch, id)
    case FetchFailed => Error
    case Read(blId) =>
      if blId.Some? && blId.value != "" then
        if blId.value in bsById then Found else NoPrice
      else NotOnBricklink
  }

  /**
   * The record the loop body writes for an entry, if any: a found number
   * with Brickset's values for it, or with no values when Brickset has
   * none. An entry without a number, or whose request failed, gets nothing.
   */
  function NewRecord(patterns: seq<Extractor>, fetch: string -> Option<string>, bsById: map<string, BricksetMinifig>, id: string): (r: Option<PriceEntry>)
    ensures r.Some? <==> OutcomeOf(patterns, fetch, bsById, id) in {Found, NoPrice}
    ensures r.Some? ==> r.value.bricklinkId == LookUp(patterns, fetch, id).blId && r.value.bricklinkId.value != ""
    ensures OutcomeOf(patterns, fetch, bsById, id) == Found ==>
      var b := r.value.bricklinkId.value; r.value.valueNew == bsById[b].valueNew && r.value.valueUsed == bsById[b].valueUsed
    ensures OutcomeOf(patterns, fetch, bsById, id) == NoPrice ==> !HasPrice(r.value)
  {
    match LookUp(patterns, fetch, id)
    case FetchFailed => None
    case Read(blId) =>
      if blId.Some? && blId.value != "" then
        var b := blId.value;
        if b in bsById then Some(PriceEntry(bsById[b].valueNew, bsById[b].valueUsed, Some(b)))
        else Some(PriceEntry(None, None, Some(b)))
      else None
  }

  function Recorder(patterns: seq<Extractor>, fetch: string -> Option<string>, bsById: map<string, BricksetMinifig>)
    : (string, Option<PriceEntry>) -> Option<PriceEntry>
  {
    (id, existing) => NewRecord(patterns, fetch, bsById, id)
  }

  /** The record written depends on the page only, so writing it again changes nothing. */
  lemma RecorderStable(patterns: seq<Extractor>, fetch: string -> Option<string>, bsById: map<string, BricksetMinifig>)
    ensures Stable(Recorder(patterns, fetch, bsById))
  {
  }

  /** `prices` after the loop. */
  function Repaired(catalog: seq<CatalogName>, prices: map<string, PriceEntry>, patterns: seq<Extractor>,
                    fetch: string -> Option<string>, bsById: map<string, BricksetMinifig>): map<string, PriceEntry>
  {
    UpdateAll(prices, Unmatched(catalog, prices), Recorder(patterns, fetch, bsById))
  }

  /**
   * The loop's result for each id: an id that had a record keeps it, an id
   * outside the catalog stays absent, and an unmatched catalog id holds the
   * record its page gives, or stays absent when its page gives none.
   */
  lemma RepairedAt(catalog: seq<CatalogName>, prices: map<string, PriceEntry>, patterns: seq<Extractor>,
                   fetch: string -> Option<string>, bsById: map<string, BricksetMinifig>, id: string)
    ensures var r := Repaired(catalog, prices, patterns, fetch, bsById);
      && (id in prices ==> id in r && r[id] == prices[id])
      && (id !in prices && id !in CatalogIds(catalog) ==> id !in r)
      && (id !in prices && id in CatalogIds(catalog) ==> Lookup(r, id) == NewRecord(patterns, fetch, bsById, id))
  {
    RecorderStable(patterns, fetch, bsById);
    UpdateAllAt(prices, Unmatched(catalog, prices), Recorder(patterns, fetch, bsById), id);
  }

  /**
   * Running the repair again visits exactly the entries the first run
   * could not give a record: those with no number on their page and those
   * whose request failed.
   */
  lemma RerunVisits(catalog: seq<CatalogName>, prices: map<string, PriceEntry>, patterns: seq<Extractor>,
                    fetch: string -> Option<string>, bsById: map<string, BricksetMinifig>, id: string)
    ensures id in Unmatched(catalog, Repaired(catalog, prices, patterns, fetch, bsById))
        <==> id in Unmatched(catalog, prices) && OutcomeOf(patterns, fetch, bsById, id) in {NotOnBricklink, Error}
  {
    RepairedAt(catalog, prices, patterns, fetch, bsById, id);
  }

  /** The outcome of each of `ids`, in loop order. */
  function Outcomes(ids: seq<string>, patterns: seq<Extractor>, fetch: string -> Option<string>,
                    bsById: map<string, BricksetMinifig>): (r: seq<Outcome>)
    ensures |r| == |ids| && forall i :: 0 <= i < |r| ==> r[i] == OutcomeOf(patterns, fetch, bsById, ids[i])
  {
    seq(|ids|, i requires 0 <= i < |ids| => OutcomeOf(patterns, fetch, bsById, ids[i]))
  }

  /** The loop body for one entry: the record written and the counter it bumps. */
  method RepairOne(prices: map<string, PriceEntry>, patterns: seq<Extractor>, fetch: string -> Option<string>,
                   bsById: map<string, BricksetMinifig>, id: string)
    returns (prices': map<string, PriceEntry>, outcome: Outcome)
    ensures prices' == Update(prices, id, Recorder(patterns, fetch, bsById))
    ensures outcome == OutcomeOf(patterns, fetch, bsById, id)
  {
    assert Recorder(patterns, fetch, bsById)(id, Lookup(prices, id)) == NewRecord(patterns, fetch, bsById, id);
    var page := LookUpPage(patterns, fetch, id);
    match page {
      case FetchFailed =>
        return prices, Error;
      case Read(blId) =>
        if blId.None? || blId.value == "" {
          return prices, NotOnBricklink;
        }
        var b := blId.value;
        if b in bsById {
          var bsEntry := bsById[b];
          return prices[id := PriceEntry(bsEntry.valueNew, bsEntry.valueUsed, Some(b))], Found;
        }
        return prices[id := PriceEntry(None, None, Some(b))], NoPrice;
    }
  }

  /**
   * The loop over the unmatched entries with its four counters, which
   * count the outcomes and together count every unmatched entry once.
   */
  method RepairUnmatched(catalog: seq<CatalogName>, prices0: map<string, PriceEntry>, patterns: seq<Extractor>,
                         fetch: string -> Option<string>, bsById: map<string, BricksetMinifig>)
    returns (prices: map<string, PriceEntry>, found: nat, noPrice: nat, notOnBricklink: nat, errors: nat)
    ensures prices == Repaired(catalog, prices0, patterns, fetch, bsById)
    ensures var outcomes := Outcomes(Unmatched(catalog, prices0), patterns, fetch, bsById);
      && found == multiset(outcomes)[Found] && noPrice == multiset(outcomes)[NoPrice]
      && notOnBricklink == multiset(outcomes)[NotOnBricklink] && errors == multiset(outcomes)[Error]
    ensures found + noPrice + notOnBricklink + errors == |Unmatched(catalog, prices0)|
  {
    var unmatched := Unmatched(catalog, prices0);
    ghost var outcomes := Outcomes(unmatched, patterns, fetch, bsById);
    prices := prices0;
    found, noPrice, notOnBricklink, errors := 0, 0, 0, 0;
    for i := 0 to |unmatched|
      invariant prices == UpdateAll(prices0, unmatched[..i], Recorder(patterns, fetch, bsById))
      invariant Counted(outcomes[..i], found, noPrice, notOnBricklink, errors)
      invariant found + noPrice + notOnBricklink + errors == i
    {
      prices, found, noPrice, notOnBricklink, errors :=
        RepairNext(prices0, unmatched, i, prices, found, noPrice, notOnBricklink, errors, patterns, fetch, bsById);
    }
    assert unmatched[..|unmatched|] == unmatched && outcomes[..|unmatched|] == outcomes;
  }

  /** One turn of the repair loop: entry `i` is repaired and its outcome counted. */
  method RepairNext(ghost prices0: map<string, PriceEntry>, unmatched: seq<string>, i: nat,
                    prices: map<string, PriceEntry>, found: nat, noPrice: nat, notOnBricklink: nat, errors: nat,
                    patterns: seq<Extractor>, fetch: string -> Option<string>, bsById: map<string, BricksetMinifig>)
    returns (prices': map<string, PriceEntry>, found': nat, noPrice': nat, notOnBricklink': nat, errors': nat)
    requires i < |unmatched|
    requires prices == UpdateAll(prices0, unmatched[..i], Recorder(patterns, fetch, bsById))
    requires Counted(Outcomes(unmatched, patterns, fetch, bsById)[..i], found, noPrice, notOnBricklink, errors)
    ensures prices' == UpdateAll(prices0, unmatched[..i + 1], Recorder(patterns, fetch, bsById))
    ensures Counted(Outcomes(unmatched, patterns, fetch, bsById)[..i + 1], found', noPrice', notOnBricklink', errors')
    ensures found' + noPrice' + notOnBricklink' + errors' == found + noPrice + notOnBricklink + errors + 1
  {
    UpdateAllStep(prices0, unmatched, Recorder(patterns, fetch, bsById), i);
    CountedStep(Outcomes(unmatched, patterns, fetch, bsById), i, found, noPrice, notOnBricklink, errors);
    var outcome;
    prices', outcome := RepairOne(prices, patterns, fetch, bsById, unmatched[i]);
    found', noPrice', notOnBricklink', errors' := Tally(outcome, found, noPrice, notOnBricklink, errors);
  }

  /** The four counters hold the number of each outcome in `s`. */
  ghost predicate Counted(s: seq<Outcome>, found: nat, noPrice: nat, notOnBricklink: nat, errors: nat)
  {
    found == multiset(s)[Found] && noPrice == multiset(s)[NoPrice]
    && notOnBricklink == multiset(s)[NotOnBricklink] && errors == multiset(s)[Error]
  }

  /** Counting one more outcome bumps its own counter only. */
  lemma CountedStep(s: seq<Outcome>, i: nat, found: nat, noPrice: nat, notOnBricklink: nat, errors: nat)
    requires i < |s| && Counted(s[..i], found, noPrice, notOnBricklink, errors)
    ensures Counted(s[..i + 1], found + (if s[i] == Found then 1 else 0), noPrice + (if s[i] == NoPrice then 1 else 0),
                    notOnBricklink + (if s[i] == NotOnBricklink then 1 else 0), errors + (if s[i] == Error then 1 else 0))
  {
    MultisetStep(s, i);
  }

  /** The counter an outcome bumps. */
  method Tally(outcome: Outcome, found: nat, noPrice: nat, notOnBricklink: nat, errors: nat)
    returns (found': nat, noPrice': nat, notOnBricklink': nat, errors': nat)
    ensures found' == found + (if outcome == Found then 1 else 0)
    ensures noPrice' == noPrice + (if outcome == NoPrice then 1 else 0)
    ensures notOnBricklink' == notOnBricklink + (if outcome == NotOnBricklink then 1 else 0)
    ensures errors' == errors + (if outcome == Error then 1 else 0)
  {
    found', noPrice', notOnBricklink', errors' := found, noPrice, notOnBricklink, errors;
    match outcome {
      case Found => found' := found + 1;
      case NoPrice => noPrice' := noPrice + 1;
      case NotOnBricklink => notOnBricklink' := notOnBricklink + 1;
      case Error => errors' := errors + 1;
    }
  }

  /**
   * The whole run: index Brickset by number, repair the unmatched entries,
   * and report the priced records and the records in all.
   */
  method Run(catalog: seq<CatalogName>, prices0: map<string, PriceEntry>, brickset: seq<BricksetMinifig>,
             patterns: seq<Extractor>, fetch: string -> Option<string>)
    returns (prices: map<string, PriceEntry>, totalWithPrices: nat, totalWithId: nat)
    ensures prices == Repaired(catalog, prices0, patterns, fetch, BricksetById(brickset))
    ensures totalWithPrices == WithPrices(prices) && totalWithId == |prices|
    ensures totalWithPrices <= totalWithId
  {
    var bsById := BuildBricksetById(brickset);
    var found, noPrice, notOnBricklink, errors;
    prices, found, noPrice, notOnBricklink, errors := RepairUnmatched(catalog, prices0, patterns, fetch, bsById);
    totalWithPrices := |set id | id in prices && HasPrice(prices[id])|;
    assert (set id | id in prices && HasPrice(prices[id])) == PricedIds(prices);
    totalWithId := |prices|;
  }
}
