/**
 * The name pass: replace each catalog entry's name by the BrickLink-style
 * name Brickset gives for its price record's BrickLink number.
 */
module ApplyNames {
  import opened Wrappers
  import opened Types
  import opened NameMatch
  import opened Seqs

  /** A Brickset record with a truthy number and name contributes to the name map. */
  predicate Named(r: BricksetMinifig)
  {
    r.bricklinkId != "" && r.name != ""
  }

  /** `blNameMap`: number to name, from the named records, a later record overwriting an earlier one. */
  function NameMap(brickset: seq<BricksetMinifig>): map<string, string>
  {
    if brickset == [] then map[]
    else
      var n := |brickset| - 1;
      var r := brickset[n];
      if Named(r) then NameMap(brickset[..n])[r.bricklinkId := r.name] else NameMap(brickset[..n])
  }

  lemma NameMapStep(brickset: seq<BricksetMinifig>, i: nat)
    requires i < |brickset|
    ensures NameMap(brickset[..i + 1])
         == if Named(brickset[i]) then NameMap(brickset[..i])[brickset[i].bricklinkId := brickset[i].name] else NameMap(brickset[..i])
  {
    assert brickset[..i + 1][..i] == brickset[..i];
  }

  /** A named record is in the map, with its own name unless a later named record has the same number. */
  lemma {:induction false} NameMapHas(brickset: seq<BricksetMinifig>, i: nat)
    requires i < |brickset| && Named(brickset[i])
    ensures brickset[i].bricklinkId in NameMap(brickset)
    ensures (forall j :: i < j < |brickset| && Named(brickset[j]) ==> brickset[j].bricklinkId != brickset[i].bricklinkId)
        ==> NameMap(brickset)[brickset[i].bricklinkId] == brickset[i].name
  {
    var n := |brickset| - 1;
    if i < n {
      NameMapHas(brickset[..n], i);
      assert brickset[..n][i] == brickset[i];
      forall j | i < j < n && Named(brickset[..n][j])
        ensures brickset[..n][j] == brickset[j]
      {
      }
    }
  }

  /** Every number in the map comes from a named record, whose name it holds, with no later named record for it. */
  lemma {:induction false} NameMapFrom(brickset: seq<BricksetMinifig>, b: string) returns (i: nat)
    requires b in NameMap(brickset)
    ensures i < |brickset| && Named(brickset[i]) && brickset[i].bricklinkId == b
    ensures NameMap(brickset)[b] == brickset[i].name
    ensures forall j :: i < j < |brickset| && Named(brickset[j]) ==> brickset[j].bricklinkId != b
  {
    var n := |brickset| - 1;
    var r := brickset[n];
    if Named(r) && r.bricklinkId == b {
      i := n;
    } else {
      i := NameMapFrom(brickset[..n], b);
      assert brickset[..n][i] == brickset[i];
      forall j | i < j < |brickset| && Named(brickset[j])
        ensures brickset[j].bricklinkId != b
      {
        if j < n {
          assert brickset[..n][j] == brickset[j];
        }
      }
    }
  }

  /** The map's names are all truthy. */
  lemma NameMapNamed(brickset: seq<BricksetMinifig>, b: string)
    requires b in NameMap(brickset)
    ensures b != "" && NameMap(brickset)[b] != ""
  {
    var i := NameMapFrom(brickset, b);
  }

  /** The loop that fills `blNameMap`. */
  method BuildNameMap(brickset: seq<BricksetMinifig>) returns (names: map<string, string>)
    ensures names == NameMap(brickset)
  {
    names := map[];
    for i := 0 to |brickset|
      invariant names == NameMap(brickset[..i])
    {
      NameMapStep(brickset, i);
      var entry := brickset[i];
      if entry.bricklinkId != "" && entry.name != "" {
        names := names[entry.bricklinkId := entry.name];
      }
    }
    assert brickset[..|brickset|] == brickset;
  }

  /** What the loop does with an entry: no truthy number, a number the map lacks, a name already right, or a rename. */
  datatype Outcome = NoBricklinkId | NotInBrickset | AlreadyNamed | Updated

  /** The entry's number has a name in the map. */
  predicate Renamable(o: Outcome)
  {
    o == Updated || o == AlreadyNamed
  }

  /** `priceEntry?.bricklinkId`, when truthy. */
  function BricklinkIdOf(prices: map<string, PriceEntry>, id: string): (r: Option<string>)
    ensures r.Some? ==> r.value != ""
  {
    if id in prices && prices[id].bricklinkId.Some? && prices[id].bricklinkId.value != "" then prices[id].bricklinkId else None
  }

  function OutcomeOf(item: CatalogName, prices: map<string, PriceEntry>, names: map<string, string>): Outcome
  {
    match BricklinkIdOf(prices, item.id)
    case None => NoBricklinkId
    case Some(b) =>
      if b !in names || names[b] == "" then NotInBrickset
      else if item.name != names[b] then Updated
      else AlreadyNamed
  }

  /**
   * The entry after the loop: it carries the mapped name of its record's
   * number when there is one, and is left as it was otherwise.
   */
  function Rename(item: CatalogName, prices: map<string, PriceEntry>, names: map<string, string>): (r: CatalogName)
    ensures r.id == item.id
    ensures Renamable(OutcomeOf(item, prices, names))
        ==> r.name == names[BricklinkIdOf(prices, item.id).value]
    ensures !Renamable(OutcomeOf(item, prices, names)) ==> r == item
  {
    if OutcomeOf(item, prices, names) == Updated then item.(name := names[BricklinkIdOf(prices, item.id).value]) else item
  }

  function RenameAll(catalog: seq<CatalogName>, prices: map<string, PriceEntry>, names: map<string, string>): (r: seq<CatalogName>)
    ensures |r| == |catalog| && forall i :: 0 <= i < |r| ==> r[i] == Rename(catalog[i], prices, names)
  {
    seq(|catalog|, i requires 0 <= i < |catalog| => Rename(catalog[i], prices, names))
  }

  /** The outcome of each entry, in catalog order. */
  function Outcomes(catalog: seq<CatalogName>, prices: map<string, PriceEntry>, names: map<string, string>): (r: seq<Outcome>)
    ensures |r| == |catalog| && forall i :: 0 <= i < |r| ==> r[i] == OutcomeOf(catalog[i], prices, names)
  {
    seq(|catalog|, i requires 0 <= i < |catalog| => OutcomeOf(catalog[i], prices, names))
  }

  /** `updated` and `notFound` over a run of outcomes: the renames, and the entries without a mapped name. */
  function Counts(outcomes: seq<Outcome>): (r: (nat, nat))
    ensures r.0 + r.1 <= |outcomes|
  {
    if outcomes == [] then (0, 0)
    else
      var c := Counts(outcomes[..|outcomes| - 1]);
      var o := outcomes[|outcomes| - 1];
      (c.0 + (if o == Updated then 1 else 0), c.1 + (if Renamable(o) then 0 else 1))
  }

  lemma CountsStep(outcomes: seq<Outcome>, i: nat)
    requires i < |outcomes|
    ensures Counts(outcomes[..i + 1]).0 == Counts(outcomes[..i]).0 + (if outcomes[i] == Updated then 1 else 0)
    ensures Counts(outcomes[..i + 1]).1 == Counts(outcomes[..i]).1 + (if Renamable(outcomes[i]) then 0 else 1)
  {
    assert outcomes[..i + 1][..i] == outcomes[..i];
  }

  /** The counts are the multiplicities of the outcomes they count. */
  lemma {:induction false} CountsOutcomes(outcomes: seq<Outcome>)
    ensures var ms := multiset(outcomes);
      && Counts(outcomes).0 == ms[Updated]
      && Counts(outcomes).1 == ms[NoBricklinkId] + ms[NotInBrickset]
      && Counts(outcomes).0 + Counts(outcomes).1 + ms[AlreadyNamed] == |outcomes|
  {
    if outcomes != [] {
      var n := |outcomes| - 1;
      CountsOutcomes(outcomes[..n]);
      assert outcomes == outcomes[..n] + [outcomes[n]];
    }
  }

  /**
   * The loop over the catalog, which assigns `item.name` in place: each
   * entry is renamed as `Rename` says and nothing else changes; `updated`
   * counts the renames and `notFound` the entries without a mapped name.
   */
  method ApplyBricklinkNames(catalog: array<CatalogName>, prices: map<string, PriceEntry>, names: map<string, string>)
    returns (updated: nat, notFound: nat)
    modifies catalog
    ensures catalog[..] == RenameAll(old(catalog[..]), prices, names)
    ensures (updated, notFound) == Counts(Outcomes(old(catalog[..]), prices, names))
  {
    ghost var before := catalog[..];
    ghost var outcomes := Outcomes(before, prices, names);
    ghost var after := RenameAll(before, prices, names);
    updated, notFound := 0, 0;
    for i := 0 to catalog.Length
      invariant forall j :: 0 <= j < catalog.Length ==> catalog[j] == if j < i then after[j] else before[j]
      invariant (updated, notFound) == Counts(outcomes[..i])
    {
      assert catalog[i] == before[i];
      var item, outcome := RenameOne(catalog[i], prices, names);
      assert item == after[i] && outcome == outcomes[i];
      updated, notFound := CountNext(outcomes, i, outcome, updated, notFound);
      catalog[i] := item;
    }
    assert outcomes[..catalog.Length] == outcomes;
  }

  /** Counting entry `i`'s outcome: the counters become the counts of the outcomes up to it. */
  method CountNext(ghost outcomes: seq<Outcome>, i: nat, outcome: Outcome, updated: nat, notFound: nat)
    returns (updated': nat, notFound': nat)
    requires i < |outcomes| && outcome == outcomes[i] && (updated, notFound) == Counts(outcomes[..i])
    ensures (updated', notFound') == Counts(outcomes[..i + 1])
  {
    CountsStep(outcomes, i);
    updated', notFound' := Tally(outcome, updated, notFound);
  }

  /** The counter an outcome bumps: `updated` for a rename, `notFound` for a skipped entry. */
  method Tally(outcome: Outcome, updated: nat, notFound: nat) returns (updated': nat, notFound': nat)
    ensures updated' == updated + (if outcome == Updated then 1 else 0)
    ensures notFound' == notFound + (if Renamable(outcome) then 0 else 1)
  {
    updated', notFound' := updated, notFound;
    if outcome == Updated {
      updated' := updated + 1;
    } else if outcome != AlreadyNamed {
      notFound' := notFound + 1;
    }
  }

  /** The loop body for one entry: the entry after it and the branch taken. */
  method RenameOne(item: CatalogName, prices: map<string, PriceEntry>, names: map<string, string>)
    returns (item': CatalogName, outcome: Outcome)
    ensures item' == Rename(item, prices, names)
    ensures outcome == OutcomeOf(item, prices, names)
  {
    item' := item;
    var blId := BricklinkIdOf(prices, item.id);
    if blId.None? {
      outcome := NoBricklinkId;
    } else if blId.value !in names || names[blId.value] == "" {
      outcome := NotInBrickset;
    } else if item.name != names[blId.value] {
      item' := item.(name := names[blId.value]);
      outcome := Updated;
    } else {
      outcome := AlreadyNamed;
    }
  }

  /** A renamed entry already has its mapped name, so a second pass renames nothing and changes nothing. */
  lemma RenameAgain(catalog: seq<CatalogName>, prices: map<string, PriceEntry>, names: map<string, string>)
    ensures RenameAll(RenameAll(catalog, prices, names), prices, names) == RenameAll(catalog, prices, names)
    ensures Counts(Outcomes(RenameAll(catalog, prices, names), prices, names)).0 == 0
  {
    var once := RenameAll(catalog, prices, names);
    forall i | 0 <= i < |once|
      ensures OutcomeOf(once[i], prices, names) != Updated
    {
    }
    var outs := Outcomes(once, prices, names);
    CountsOutcomes(outs);
    assert Updated !in outs;
  }

  /** The whole script: build the name map, then rename. */
  method Run(catalog: array<CatalogName>, prices: map<string, PriceEntry>, brickset: seq<BricksetMinifig>)
    returns (updated: nat, notFound: nat)
    modifies catalog
    ensures catalog[..] == RenameAll(old(catalog[..]), prices, NameMap(brickset))
    ensures var ms := multiset(Outcomes(old(catalog[..]), prices, NameMap(brickset)));
      updated == ms[Updated] && notFound == ms[NoBricklinkId] + ms[NotInBrickset]
      && updated + notFound + ms[AlreadyNamed] == catalog.Length
  {
    var names := BuildNameMap(brickset);
    updated, notFound := ApplyBricklinkNames(catalog, prices, names);
    CountsOutcomes(Outcomes(old(catalog[..]), prices, names));
  }
}
