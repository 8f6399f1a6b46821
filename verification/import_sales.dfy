/**
 * The Whatnot sales import (`ImportSalesModal`): every row the CSV parser
 * matched to a collection entry becomes a recorded sale, and the entry's
 * stock goes down by the quantity sold, or the entry is marked sold when
 * nothing is left.
 */
module ImportSales {
  import opened Wrappers
  import opened Types
  import opened Seqs
  import opened OrderedMap
  import Finance
  import CsvImport
  import CollectionStore
  import SalesLog

  /** `m.minifigId && m.entry`: a row with an id found and an entry for it. */
  predicate IsMatched(m: CsvImport.MatchedSale)
  {
    CsvImport.Found(m.minifigId) && m.entry.Some?
  }

  function MatchedRow(): CsvImport.MatchedSale -> bool { m => IsMatched(m) }

  function UnmatchedRow(): CsvImport.MatchedSale -> bool { m => !IsMatched(m) }

  /** The rows the import acts on, in file order. */
  function Matched(matches: seq<CsvImport.MatchedSale>): (r: seq<CsvImport.MatchedSale>)
    ensures forall m :: m in r <==> m in matches && IsMatched(m)
  {
    Filter(matches, MatchedRow())
  }

  /** The rows listed as not imported. */
  function Unmatched(matches: seq<CsvImport.MatchedSale>): (r: seq<CsvImport.MatchedSale>)
    ensures forall m :: m in r <==> m in matches && !IsMatched(m)
  {
    Filter(matches, UnmatchedRow())
  }

  /** Every row is listed exactly once: as matched or as unmatched. */
  lemma {:induction false} EveryRowListedOnce(matches: seq<CsvImport.MatchedSale>)
    ensures |Matched(matches)| + |Unmatched(matches)| == |matches|
  {
    if matches != [] {
      EveryRowListedOnce(matches[1..]);
    }
  }

  /**
   * The sale recorded for a matched row: a Whatnot sale at the row's price
   * with Whatnot's fee, the entry's purchase price (or nothing) as its cost,
   * no shipping, and the row's date or else `today`.
   */
  function SaleFor(m: CsvImport.MatchedSale, today: string): (r: SalesLog.SaleDraft)
    requires IsMatched(m)
    ensures r.minifigId == m.minifigId.value && r.salePrice == m.row.salePrice && r.platform == Whatnot
    ensures r.platformFee == Finance.PlatformFee(m.row.salePrice, Whatnot)
    ensures r.costBasis == m.entry.value.pricePaid.GetOr(0.0)
    ensures r.shippingCost == 0.0 && r.shippingCharged == 0.0
    ensures var exact := r.salePrice - r.platformFee - r.costBasis; exact - 0.005 < r.netProfit <= exact + 0.005
    ensures r.date == (if m.row.date == "" then today else m.row.date)
  {
    var price := m.row.salePrice;
    var costBasis := m.entry.value.pricePaid.GetOr(0.0);
    var fee := Finance.PlatformFee(price, Whatnot);
    SalesLog.SaleDraft(m.minifigId.value, price, Whatnot, fee, 0.0, 0.0, costBasis,
                       Finance.NetProfit(price, fee, costBasis, 0.0, 0.0),
                       if m.row.date == "" then today else m.row.date, "Imported from Whatnot CSV")
  }

  function Min(a: int, b: int): int { if a < b then a else b }

  function Max(a: int, b: int): int { if a < b then b else a }

  /** How many of the entry's copies a row of `quantity` sells: no more than it holds. */
  function SoldQty(e: CollectionEntry, quantity: int): (r: int)
    ensures r <= e.quantity && r <= quantity && (r == e.quantity || r == quantity)
  {
    Min(quantity, e.quantity)
  }

  /** The row sells every copy the entry holds. */
  predicate SoldOut(e: CollectionEntry, quantity: int)
  {
    e.quantity - SoldQty(e, quantity) <= 0
  }

  /**
   * The entry update a row of `quantity` at `salePrice` makes: only the
   * sale price when it sells the last copy (the status then changes to
   * sold), otherwise the copies left, the for-sale copies less those sold,
   * and the cracked copies capped at the copies left.
   */
  function StockPatch(e: CollectionEntry, quantity: int, salePrice: real): (r: CollectionStore.EntryPatch)
    ensures r.priceSold == Some(Some(salePrice))
    ensures SoldOut(e, quantity) ==> r == CollectionStore.NoChange().(priceSold := Some(Some(salePrice)))
    ensures !SoldOut(e, quantity) ==>
      r.quantity == Some(e.quantity - SoldQty(e, quantity)) && r.quantity.value > 0 &&
      r.forSaleQuantity == Some(Max(0, e.forSaleQuantity - SoldQty(e, quantity))) &&
      r.crackedQuantity.Some? && r.crackedQuantity.value.Some? &&
      0 <= r.crackedQuantity.value.value <= r.quantity.value && r.crackedQuantity.value.value <= Max(0, e.crackedQuantity.GetOr(0))
  {
    var sold := SoldQty(e, quantity);
    var remaining := e.quantity - sold;
    if remaining <= 0 then CollectionStore.NoChange().(priceSold := Some(Some(salePrice)))
    else
      CollectionStore.NoChange().(quantity := Some(remaining),
                                  forSaleQuantity := Some(Max(0, e.forSaleQuantity - sold)),
                                  crackedQuantity := Some(Some(Max(0, Min(e.crackedQuantity.GetOr(0), remaining)))),
                                  priceSold := Some(Some(salePrice)))
  }

  /** An entry whose copies for sale are no more than its copies keeps it so after a partial sale. */
  lemma PartialSaleKeepsForSaleWithinStock(e: CollectionEntry, quantity: int, salePrice: real)
    requires 0 <= e.forSaleQuantity <= e.quantity && quantity >= 1 && !SoldOut(e, quantity)
    ensures var p := StockPatch(e, quantity, salePrice);
      0 <= p.forSaleQuantity.value <= p.quantity.value
      && p.quantity.value + quantity == e.quantity
  {
  }

  /** One row applied to the collection: the update, then the status change when nothing is left. */
  function ApplyRow(c: OMap<string, CollectionEntry>, id: string, e: CollectionEntry, quantity: int, salePrice: real, now: string): (r: OMap<string, CollectionEntry>)
    requires c.Valid()
    ensures r.Valid() && CollectionStore.OthersKept(r, c, id)
    ensures SoldOut(e, quantity) ==> r.Get(id).Some? && r.Get(id).value.status == Sold
    ensures !SoldOut(e, quantity) && c.Get(id).Some? ==>
      r.Get(id).Some? && r.Get(id).value.quantity == e.quantity - SoldQty(e, quantity) &&
      r.Get(id).value.status == c.Get(id).value.status
  {
    var updated := CollectionStore.UpdateEntryOf(c, id, StockPatch(e, quantity, salePrice), now);
    if SoldOut(e, quantity) then CollectionStore.SetStatusOf(updated, id, Sold, now) else updated
  }

  /** The row as the import applies it: computed from the entry as it stood when the file was read. */
  function ApplyRowAsWritten(c: OMap<string, CollectionEntry>, m: CsvImport.MatchedSale, now: string): (r: OMap<string, CollectionEntry>)
    requires c.Valid() && IsMatched(m)
    ensures r.Valid() && CollectionStore.OthersKept(r, c, m.minifigId.value)
  {
    ApplyRow(c, m.minifigId.value, m.entry.value, m.row.quantity, m.row.salePrice, now)
  }

  /** The row computed from the entry as it stands now, so that earlier rows for the figure count. */
  function ApplyRowToCurrent(c: OMap<string, CollectionEntry>, m: CsvImport.MatchedSale, now: string): (r: OMap<string, CollectionEntry>)
    requires c.Valid() && IsMatched(m)
    ensures r.Valid() && CollectionStore.OthersKept(r, c, m.minifigId.value)
  {
    var id := m.minifigId.value;
    ApplyRow(c, id, c.Get(id).GetOr(m.entry.value), m.row.quantity, m.row.salePrice, now)
  }

  /** Two rows for one figure holding `e`, neither selling the last copy. */
  predicate TwoPartialRows(c: OMap<string, CollectionEntry>, e: CollectionEntry, m1: CsvImport.MatchedSale, m2: CsvImport.MatchedSale)
  {
    IsMatched(m1) && IsMatched(m2) && m1.minifigId == m2.minifigId && m1.entry == Some(e) && m2.entry == Some(e)
    && c.Get(m1.minifigId.value) == Some(e)
    && m1.row.quantity >= 1 && m2.row.quantity >= 1 && e.quantity > m1.row.quantity + m2.row.quantity
  }

  /** As written, the second row for a figure starts again from the file-time stock: the first row's copies come back. */
  lemma AsWrittenLosesEarlierRows(c: OMap<string, CollectionEntry>, e: CollectionEntry, m1: CsvImport.MatchedSale, m2: CsvImport.MatchedSale, now: string)
    requires c.Valid() && TwoPartialRows(c, e, m1, m2)
    ensures var r := ApplyRowAsWritten(ApplyRowAsWritten(c, m1, now), m2, now);
      r.Get(m1.minifigId.value).value.quantity == e.quantity - m2.row.quantity
      && r.Get(m1.minifigId.value).value.quantity != e.quantity - m1.row.quantity - m2.row.quantity
  {
  }

  /** Read from the current entry, two rows for a figure take both rows' copies off its stock. */
  lemma CurrentCountsEveryRow(c: OMap<string, CollectionEntry>, e: CollectionEntry, m1: CsvImport.MatchedSale, m2: CsvImport.MatchedSale, now: string)
    requires c.Valid() && TwoPartialRows(c, e, m1, m2)
    ensures var r := ApplyRowToCurrent(ApplyRowToCurrent(c, m1, now), m2, now);
      r.Get(m1.minifigId.value).value.quantity == e.quantity - m1.row.quantity - m2.row.quantity
  {
    var id := m1.minifigId.value;
    var c1 := ApplyRowToCurrent(c, m1, now);
    assert c1.Get(id).value.quantity == e.quantity - m1.row.quantity;
  }

  /**
   * The sales recorded for the rows of `ms`, the `i`-th row's under
   * `ids[i]`, newest (last row) first; a row that is not matched is
   * skipped.
   */
  function Recorded(ms: seq<CsvImport.MatchedSale>, ids: seq<string>, now: string, today: string): (r: seq<SaleRecord>)
    requires |ids| >= |ms|
    ensures |r| <= |ms|
  {
    if ms == [] then []
    else
      var n := |ms| - 1;
      if IsMatched(ms[n]) then [SalesLog.NewSale(SaleFor(ms[n], today), ids[n], now)] + Recorded(ms[..n], ids, now, today)
      else Recorded(ms[..n], ids, now, today)
  }

  /** Every row of `ms` is matched. */
  predicate AllMatched(ms: seq<CsvImport.MatchedSale>)
  {
    forall j :: 0 <= j < |ms| ==> IsMatched(ms[j])
  }

  /** When every row is matched, one sale per row. */
  lemma {:induction false} RecordedLength(ms: seq<CsvImport.MatchedSale>, ids: seq<string>, now: string, today: string)
    requires AllMatched(ms) && |ids| >= |ms|
    ensures |Recorded(ms, ids, now, today)| == |ms|
  {
    if ms != [] {
      var n := |ms| - 1;
      assert AllMatched(ms[..n]);
      RecordedLength(ms[..n], ids, now, today);
    }
  }

  /** When every row is matched, the `i`-th row's sale sits `i` places from the end. */
  lemma {:induction false} RecordedAt(ms: seq<CsvImport.MatchedSale>, ids: seq<string>, now: string, today: string, i: nat)
    requires AllMatched(ms) && |ids| >= |ms| && i < |ms|
    ensures |Recorded(ms, ids, now, today)| == |ms|
    ensures Recorded(ms, ids, now, today)[|ms| - 1 - i] == SalesLog.NewSale(SaleFor(ms[i], today), ids[i], now)
  {
    var n := |ms| - 1;
    assert AllMatched(ms[..n]);
    RecordedLength(ms[..n], ids, now, today);
    if i < n {
      RecordedAt(ms[..n], ids, now, today, i);
    }
  }

  /** The rows the import acts on are all matched. */
  lemma MatchedAreMatched(matches: seq<CsvImport.MatchedSale>)
    ensures AllMatched(Matched(matches))
  {
    var r := Matched(matches);
    forall j | 0 <= j < |r| ensures IsMatched(r[j]) {
      assert r[j] in r;
    }
  }

  /** Some row of `ms` is for figure `id`. */
  predicate Names(ms: seq<CsvImport.MatchedSale>, id: string)
  {
    exists m :: m in ms && m.minifigId == Some(id)
  }

  /**
   * The collection after the rows of `ms`, in order, each computed from
   * the entry as the file was read; a row that is not matched is skipped.
   */
  function Stocked(c: OMap<string, CollectionEntry>, ms: seq<CsvImport.MatchedSale>, now: string): (r: OMap<string, CollectionEntry>)
    requires c.Valid()
    ensures r.Valid()
  {
    if ms == [] then c
    else
      var n := |ms| - 1;
      if IsMatched(ms[n]) then ApplyRowAsWritten(Stocked(c, ms[..n], now), ms[n], now)
      else Stocked(c, ms[..n], now)
  }

  /** The same rows, each computed from the entry as it stands when the row is reached. */
  function StockedToCurrent(c: OMap<string, CollectionEntry>, ms: seq<CsvImport.MatchedSale>, now: string): (r: OMap<string, CollectionEntry>)
    requires c.Valid()
    ensures r.Valid()
  {
    if ms == [] then c
    else
      var n := |ms| - 1;
      if IsMatched(ms[n]) then ApplyRowToCurrent(StockedToCurrent(c, ms[..n], now), ms[n], now)
      else StockedToCurrent(c, ms[..n], now)
  }

  /** No row removes an entry. */
  lemma {:induction false} StockedKeepsEntries(c: OMap<string, CollectionEntry>, ms: seq<CsvImport.MatchedSale>, now: string, k: string)
    requires c.Valid() && c.Get(k).Some?
    ensures Stocked(c, ms, now).Get(k).Some?
  {
    if ms != [] {
      StockedKeepsEntries(c, ms[..|ms| - 1], now, k);
    }
  }

  /**
   * The last row for a figure decides its stock: when it leaves copies, the
   * figure holds the file-time count less that row's copies, whatever rows
   * came before it.
   */
  lemma LastRowDecides(c: OMap<string, CollectionEntry>, ms: seq<CsvImport.MatchedSale>, m: CsvImport.MatchedSale, now: string)
    requires c.Valid() && IsMatched(m)
    requires c.Get(m.minifigId.value).Some? && !SoldOut(m.entry.value, m.row.quantity)
    ensures Stocked(c, ms + [m], now).Get(m.minifigId.value).Some?
    ensures Stocked(c, ms + [m], now).Get(m.minifigId.value).value.quantity
         == m.entry.value.quantity - SoldQty(m.entry.value, m.row.quantity)
  {
    assert (ms + [m])[..|ms|] == ms;
    StockedKeepsEntries(c, ms, now, m.minifigId.value);
  }

  /** A figure no row names keeps its entry. */
  lemma {:induction false} StockedKeepsOthers(c: OMap<string, CollectionEntry>, ms: seq<CsvImport.MatchedSale>, now: string, k: string)
    requires c.Valid() && !Names(ms, k)
    ensures Stocked(c, ms, now).Get(k) == c.Get(k)
  {
    if ms != [] {
      var n := |ms| - 1;
      assert ms[n] in ms;
      assert !Names(ms[..n], k) by {
        forall m | m in ms[..n] ensures m.minifigId != Some(k) {
          assert m in ms;
        }
      }
      StockedKeepsOthers(c, ms[..n], now, k);
    }
  }

  /**
   * One pass of the import loop: a row that is not matched is skipped;
   * otherwise the row's sale is recorded, then its stock updated from the
   * row's own copy of the entry.
   */
  method ImportRow(m: CsvImport.MatchedSale, collection: CollectionStore.Collection, sales: SalesLog.Sales,
                   id: string, now: string, today: string) returns (imported: bool)
    requires collection.Valid()
    modifies collection, sales
    ensures imported == IsMatched(m)
    ensures !imported ==> sales.sales == old(sales.sales) && collection.entries == old(collection.entries)
    ensures imported ==> sales.sales == [SalesLog.NewSale(SaleFor(m, today), id, now)] + old(sales.sales)
    ensures collection.Valid()
    ensures imported ==> collection.entries == ApplyRowAsWritten(old(collection.entries), m, now)
  {
    if !IsMatched(m) {
      return false;
    }
    var _ := sales.AddSale(SaleFor(m, today), id, now);
    var figure := m.minifigId.value;
    var e := m.entry.value;
    collection.UpdateEntry(figure, StockPatch(e, m.row.quantity, m.row.salePrice), now);
    if SoldOut(e, m.row.quantity) {
      collection.SetStatus(figure, Sold, now);
    }
    return true;
  }

  /** The loop invariant of `Import` carried from `matched[..i]` to `matched[..i + 1]`. */
  method ImportNext(matched: seq<CsvImport.MatchedSale>, i: nat, collection: CollectionStore.Collection, sales: SalesLog.Sales,
                    ids: seq<string>, now: string, today: string,
                    ghost c0: OMap<string, CollectionEntry>, ghost s0: seq<SaleRecord>) returns (imported: bool)
    requires i < |matched| && |ids| >= |matched| && c0.Valid()
    requires collection.Valid() && collection.entries == Stocked(c0, matched[..i], now)
    requires sales.sales == Recorded(matched[..i], ids, now, today) + s0
    modifies collection, sales
    ensures imported == IsMatched(matched[i])
    ensures collection.Valid() && collection.entries == Stocked(c0, matched[..i + 1], now)
    ensures sales.sales == Recorded(matched[..i + 1], ids, now, today) + s0
  {
    assert matched[..i + 1][..i] == matched[..i];
    ghost var before := Recorded(matched[..i], ids, now, today);
    imported := ImportRow(matched[i], collection, sales, ids[i], now, today);
    if imported {
      ghost var added := [SalesLog.NewSale(SaleFor(matched[i], today), ids[i], now)];
      assert added + (before + s0) == (added + before) + s0;
    }
  }

  /**
   * `handleImport`: for each matched row in turn, records its sale under
   * the next fresh id and updates the figure's stock from the entry the
   * row was matched with; returns how many rows it imported.
   */
  method Import(matches: seq<CsvImport.MatchedSale>, collection: CollectionStore.Collection, sales: SalesLog.Sales,
                ids: seq<string>, now: string, today: string) returns (count: int)
    requires collection.Valid() && |ids| >= |Matched(matches)|
    modifies collection, sales
    ensures count == |Matched(matches)|
    ensures sales.sales == Recorded(Matched(matches), ids, now, today) + old(sales.sales)
    ensures collection.Valid() && collection.entries == Stocked(old(collection.entries), Matched(matches), now)
  {
    var matched := Matched(matches);
    MatchedAreMatched(matches);
    ghost var c0 := collection.entries;
    ghost var s0 := sales.sales;
    count := 0;
    for i := 0 to |matched|
      invariant count == i
      invariant collection.Valid() && collection.entries == Stocked(c0, matched[..i], now)
      invariant sales.sales == Recorded(matched[..i], ids, now, today) + s0
    {
      var imported := ImportNext(matched, i, collection, sales, ids, now, today, c0, s0);
      if imported {
        count := count + 1;
      }
    }
    assert matched[..|matched|] == matched;
  }
}
