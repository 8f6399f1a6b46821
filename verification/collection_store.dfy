/**
 * The collection store of the app: a record from minifigure id to the
 * user's entry, kept in browser storage and replaced by each operation. The
 * record's key order is the order ids were first added. Timestamps are the
 * caller's `now`.
 */
module CollectionStore {
  import opened Wrappers
  import opened Types
  import opened OrderedMap

  /** Every entry is filed under its own minifigure id. */
  ghost predicate Keyed(c: OMap<string, CollectionEntry>)
  {
    forall k :: k in c.values ==> c.values[k].minifigId == k
  }

  /** Every key but `id` maps as before. */
  ghost predicate OthersKept(r: OMap<string, CollectionEntry>, c: OMap<string, CollectionEntry>, id: string)
  {
    forall k :: k != id ==> r.Get(k) == c.Get(k)
  }

  /** The entry a first status change creates: one used copy, nothing paid, nothing written. */
  function NewEntry(id: string, status: ItemStatus, now: string): CollectionEntry
  {
    CollectionEntry(id, status, 1, 0, Used, None, None, None, "", "", "", now, now,
                    None, None, None, None, None, None)
  }

  // ---------------------------------------------------------------------
  // setStatus
  // ---------------------------------------------------------------------

  /**
   * `setStatus(minifigId, status)`: an existing entry changes its status and
   * modification time only; a missing one is created with default fields.
   */
  function SetStatusOf(c: OMap<string, CollectionEntry>, id: string, status: ItemStatus, now: string): (r: OMap<string, CollectionEntry>)
    requires c.Valid()
    ensures r.Valid() && OthersKept(r, c, id)
    ensures r.Get(id).Some? && r.Get(id).value.status == status && r.Get(id).value.dateModified == now
    ensures c.Get(id).Some? ==> r.Get(id) == Some(c.Get(id).value.(status := status, dateModified := now)) && r.keys == c.keys
    ensures c.Get(id).None? ==> r.keys == c.keys + [id]
    ensures c.Get(id).None? ==>
      var e := r.Get(id).value;
      e.minifigId == id && e.quantity == 1 && e.forSaleQuantity == 0 && e.condition == Used &&
      e.pricePaid.None? && e.priceSold.None? && e.askingPrice.None? &&
      e.notes == "" && e.customImageUrl == "" && e.sku == "" && e.dateAdded == now
    ensures Keyed(c) ==> Keyed(r)
  {
    match c.Get(id)
    case Some(existing) => c.Put(id, existing.(status := status, dateModified := now))
    case None => c.Put(id, NewEntry(id, status, now))
  }

  /** Setting the same status twice at the same time is setting it once. */
  lemma SetStatusIdempotent(c: OMap<string, CollectionEntry>, id: string, status: ItemStatus, now: string)
    requires c.Valid()
    ensures SetStatusOf(SetStatusOf(c, id, status, now), id, status, now) == SetStatusOf(c, id, status, now)
  {
    var once := SetStatusOf(c, id, status, now);
    var twice := SetStatusOf(once, id, status, now);
    assert twice.keys == once.keys;
    assert twice.values == once.values by {
      forall k ensures k in twice.values <==> k in once.values {
        assert twice.Get(k).Some? <==> once.Get(k).Some?;
      }
      forall k | k in twice.values ensures twice.values[k] == once.values[k] {
        assert twice.Get(k) == once.Get(k);
      }
    }
  }

  // ---------------------------------------------------------------------
  // addWithQuantity
  // ---------------------------------------------------------------------

  /** `Math.max(0, totalQty - 1)`: all copies but one are offered for sale. */
  function ForSaleOf(totalQty: int): (r: int)
    ensures r >= 0
    ensures totalQty >= 1 ==> r == totalQty - 1
    ensures totalQty >= 0 ==> r <= totalQty
  {
    if totalQty - 1 > 0 then totalQty - 1 else 0
  }

  /**
   * `addWithQuantity`: the entry becomes owned with the given quantity,
   * condition and price paid, and all copies but one for sale; an existing
   * entry keeps its other fields.
   */
  function AddWithQuantityOf(c: OMap<string, CollectionEntry>, id: string, totalQty: int, condition: ItemCondition,
                             pricePaid: Option<real>, now: string): (r: OMap<string, CollectionEntry>)
    requires c.Valid()
    ensures r.Valid() && OthersKept(r, c, id)
    ensures r.Get(id).Some?
    ensures var e := r.Get(id).value;
      e.status == Owned && e.quantity == totalQty && e.forSaleQuantity == ForSaleOf(totalQty) &&
      e.condition == condition && e.pricePaid == pricePaid && e.dateModified == now
    ensures c.Get(id).Some? ==>
      var old_ := c.Get(id).value;
      var e := r.Get(id).value;
      e.minifigId == old_.minifigId && e.priceSold == old_.priceSold && e.askingPrice == old_.askingPrice &&
      e.notes == old_.notes && e.sku == old_.sku && e.dateAdded == old_.dateAdded &&
      e.purchaseLotId == old_.purchaseLotId && e.crackedQuantity == old_.crackedQuantity
    ensures c.Get(id).None? ==> r.Get(id).value.minifigId == id && r.Get(id).value.dateAdded == now
    ensures Keyed(c) ==> Keyed(r)
  {
    var forSaleQty := ForSaleOf(totalQty);
    match c.Get(id)
    case Some(existing) =>
      c.Put(id, existing.(status := Owned, quantity := totalQty, forSaleQuantity := forSaleQty,
                          condition := condition, pricePaid := pricePaid, dateModified := now))
    case None =>
      c.Put(id, CollectionEntry(id, Owned, totalQty, forSaleQty, condition, pricePaid, None, None, "", "", "", now, now,
                                None, None, None, None, None, None))
  }

  /** After `addWithQuantity` with a non-negative quantity, no more copies are for sale than are held. */
  lemma AddWithQuantityForSaleWithin(c: OMap<string, CollectionEntry>, id: string, totalQty: int, condition: ItemCondition,
                                     pricePaid: Option<real>, now: string)
    requires c.Valid() && totalQty >= 0
    ensures var e := AddWithQuantityOf(c, id, totalQty, condition, pricePaid, now).Get(id).value;
      0 <= e.forSaleQuantity <= e.quantity && (totalQty >= 1 ==> e.forSaleQuantity < e.quantity)
  {
  }

  // ---------------------------------------------------------------------
  // updateEntry
  // ---------------------------------------------------------------------

  /** `Partial<CollectionEntry>`: each field the update carries. */
  datatype EntryPatch = EntryPatch(
    minifigId: Option<string>,
    status: Option<ItemStatus>,
    quantity: Option<int>,
    forSaleQuantity: Option<int>,
    condition: Option<ItemCondition>,
    pricePaid: Option<Option<real>>,
    priceSold: Option<Option<real>>,
    askingPrice: Option<Option<real>>,
    notes: Option<string>,
    customImageUrl: Option<string>,
    sku: Option<string>,
    dateAdded: Option<string>,
    dateModified: Option<string>,
    purchaseLotId: Option<Option<string>>,
    storageLocation: Option<Option<string>>,
    photoUrls: Option<Option<seq<string>>>,
    wantPriority: Option<Option<WantPriority>>,
    targetPrice: Option<Option<real>>,
    crackedQuantity: Option<Option<int>>)

  /** The update that carries no field. */
  function NoChange(): EntryPatch
  {
    EntryPatch(None, None, None, None, None, None, None, None, None, None, None, None, None, None, None, None, None, None, None)
  }

  /** `{ ...e, ...p }`: the patch's fields over the entry's. */
  function Merge(e: CollectionEntry, p: EntryPatch): CollectionEntry
  {
    CollectionEntry(
      p.minifigId.GetOr(e.minifigId), p.status.GetOr(e.status), p.quantity.GetOr(e.quantity),
      p.forSaleQuantity.GetOr(e.forSaleQuantity), p.condition.GetOr(e.condition),
      p.pricePaid.GetOr(e.pricePaid), p.priceSold.GetOr(e.priceSold), p.askingPrice.GetOr(e.askingPrice),
      p.notes.GetOr(e.notes), p.customImageUrl.GetOr(e.customImageUrl), p.sku.GetOr(e.sku),
      p.dateAdded.GetOr(e.dateAdded), p.dateModified.GetOr(e.dateModified),
      p.purchaseLotId.GetOr(e.purchaseLotId), p.storageLocation.GetOr(e.storageLocation),
      p.photoUrls.GetOr(e.photoUrls), p.wantPriority.GetOr(e.wantPriority),
      p.targetPrice.GetOr(e.targetPrice), p.crackedQuantity.GetOr(e.crackedQuantity))
  }

  /** Merging a patch is idempotent, and merging no field changes nothing. */
  lemma MergeLaws(e: CollectionEntry, p: EntryPatch)
    ensures Merge(Merge(e, p), p) == Merge(e, p)
    ensures Merge(e, NoChange()) == e
  {
  }

  /**
   * `updateEntry(minifigId, updates)`: nothing happens for a missing id;
   * otherwise the updates are merged in and the modification time is set
   * last, over any the updates carry.
   */
  function UpdateEntryOf(c: OMap<string, CollectionEntry>, id: string, updates: EntryPatch, now: string): (r: OMap<string, CollectionEntry>)
    requires c.Valid()
    ensures r.Valid() && OthersKept(r, c, id) && r.keys == c.keys
    ensures c.Get(id).None? ==> r == c
    ensures c.Get(id).Some? ==> r.Get(id) == Some(Merge(c.Get(id).value, updates).(dateModified := now))
    ensures Keyed(c) && (updates.minifigId.None? || updates.minifigId == Some(id)) ==> Keyed(r)
  {
    match c.Get(id)
    case None => c
    case Some(existing) => c.Put(id, Merge(existing, updates).(dateModified := now))
  }

  // ---------------------------------------------------------------------
  // removeEntry
  // ---------------------------------------------------------------------

  /** `removeEntry(minifigId)`: exactly that key goes, the others keep their entries and order. */
  function RemoveEntryOf(c: OMap<string, CollectionEntry>, id: string): (r: OMap<string, CollectionEntry>)
    requires c.Valid()
    ensures r.Valid() && OthersKept(r, c, id) && r.Get(id).None?
    ensures forall k :: k in r.keys <==> k in c.keys && k != id
    ensures Keyed(c) ==> Keyed(r)
  {
    c.Remove(id)
  }

  lemma {:induction false} WithoutAbsent(s: seq<string>, x: string)
    requires x !in s
    ensures Without(s, x) == s
  {
    if s != [] {
      WithoutAbsent(s[1..], x);
    }
  }

  lemma {:induction false} WithoutLast(s: seq<string>, x: string)
    requires x !in s
    ensures Without(s + [x], x) == s
  {
    if s == [] {
      assert Without([x], x) == Without([], x);
    } else {
      assert (s + [x])[1..] == s[1..] + [x];
      WithoutLast(s[1..], x);
    }
  }

  /** Giving a missing id a status and then removing it restores the collection. */
  lemma RemoveUndoesNewStatus(c: OMap<string, CollectionEntry>, id: string, status: ItemStatus, now: string)
    requires c.Valid() && c.Get(id).None?
    ensures RemoveEntryOf(SetStatusOf(c, id, status, now), id) == c
  {
    var e := NewEntry(id, status, now);
    assert id !in c.values;
    assert SetStatusOf(c, id, status, now) == OMap(c.keys + [id], c.values[id := e]);
    WithoutLast(c.keys, id);
    assert c.values[id := e] - {id} == c.values;
  }

  // ---------------------------------------------------------------------
  // bulkAdd
  // ---------------------------------------------------------------------

  /** One figure of a purchase lot being added. */
  datatype BulkItem = BulkItem(minifigId: string, pricePaid: real, purchaseLotId: string)

  /** The entry a lot item creates: one used, owned copy at its allocated cost. */
  function BulkNew(item: BulkItem, now: string): CollectionEntry
  {
    CollectionEntry(item.minifigId, Owned, 1, 0, Used, Some(item.pricePaid), None, None, "", "", "", now, now,
                    Some(item.purchaseLotId), None, None, None, None, None)
  }

  /** An existing entry taking a lot item: the cost and lot are set, and a wanted figure becomes owned. */
  function Bulked(e: CollectionEntry, item: BulkItem, now: string): CollectionEntry
  {
    e.(pricePaid := Some(item.pricePaid), purchaseLotId := Some(item.purchaseLotId),
       status := if e.status == Wanted then Owned else e.status, dateModified := now)
  }

  /** One turn of the `bulkAdd` loop. */
  function BulkOne(c: OMap<string, CollectionEntry>, item: BulkItem, now: string): (r: OMap<string, CollectionEntry>)
    requires c.Valid()
    ensures r.Valid() && OthersKept(r, c, item.minifigId)
    ensures c.Get(item.minifigId).Some? ==> r.Get(item.minifigId) == Some(Bulked(c.Get(item.minifigId).value, item, now))
    ensures c.Get(item.minifigId).None? ==> r.Get(item.minifigId) == Some(BulkNew(item, now))
    ensures |c.keys| <= |r.keys| && r.keys[..|c.keys|] == c.keys
  {
    match c.Get(item.minifigId)
    case Some(existing) => c.Put(item.minifigId, Bulked(existing, item, now))
    case None => c.Put(item.minifigId, BulkNew(item, now))
  }

  /** `bulkAdd(items)`: the items taken in order. */
  function BulkAddOf(c: OMap<string, CollectionEntry>, items: seq<BulkItem>, now: string): (r: OMap<string, CollectionEntry>)
    requires c.Valid()
    ensures r.Valid()
    ensures |c.keys| <= |r.keys| && r.keys[..|c.keys|] == c.keys
  {
    if items == [] then c
    else
      var prev := BulkAddOf(c, items[..|items| - 1], now);
      var r := BulkOne(prev, items[|items| - 1], now);
      assert r.keys[..|c.keys|] == r.keys[..|prev.keys|][..|c.keys|];
      r
  }

  /** The last item for figure `k`. */
  function LastFor(items: seq<BulkItem>, k: string): (r: Option<nat>)
    ensures r.Some? ==> r.value < |items| && items[r.value].minifigId == k &&
                        forall j :: r.value < j < |items| ==> items[j].minifigId != k
    ensures r.None? ==> forall j :: 0 <= j < |items| ==> items[j].minifigId != k
  {
    if items == [] then None
    else if items[|items| - 1].minifigId == k then Some(|items| - 1)
    else LastFor(items[..|items| - 1], k)
  }

  /** The lot's cost and id are the last item's, and the status survives a second item. */
  lemma BulkedTwice(e: CollectionEntry, a: BulkItem, b: BulkItem, now: string)
    requires a.minifigId == b.minifigId
    ensures Bulked(Bulked(e, a, now), b, now) == Bulked(e, b, now)
    ensures Bulked(BulkNew(a, now), b, now) == BulkNew(b, now)
  {
  }

  /**
   * What `bulkAdd` leaves under each id: untouched when no item names it;
   * otherwise the existing entry (or a fresh owned one) with the cost and
   * lot of the LAST item naming it, a wanted figure turned owned.
   */
  lemma {:induction false} BulkAddEffect(c: OMap<string, CollectionEntry>, items: seq<BulkItem>, now: string, k: string)
    requires c.Valid()
    ensures LastFor(items, k).None? ==> BulkAddOf(c, items, now).Get(k) == c.Get(k)
    ensures LastFor(items, k).Some? ==>
      var item := items[LastFor(items, k).value];
      BulkAddOf(c, items, now).Get(k) == Some(if c.Get(k).Some? then Bulked(c.Get(k).value, item, now) else BulkNew(item, now))
  {
    if items != [] {
      var n := |items| - 1;
      var prev := BulkAddOf(c, items[..n], now);
      BulkAddEffect(c, items[..n], now, k);
      if items[n].minifigId == k {
        match LastFor(items[..n], k)
        case None =>
        case Some(j) =>
          BulkedTwice(if c.Get(k).Some? then c.Get(k).value else BulkNew(items[j], now), items[j], items[n], now);
          if c.Get(k).None? {
            assert prev.Get(k) == Some(BulkNew(items[j], now));
          }
      } else {
        assert LastFor(items, k) == LastFor(items[..n], k);
      }
    }
  }

  /** `bulkAdd` keeps every entry under its own id. */
  lemma {:induction false} BulkAddKeyed(c: OMap<string, CollectionEntry>, items: seq<BulkItem>, now: string)
    requires c.Valid() && Keyed(c)
    ensures Keyed(BulkAddOf(c, items, now))
  {
    var r := BulkAddOf(c, items, now);
    forall k | k in r.values ensures r.values[k].minifigId == k {
      BulkAddEffect(c, items, now, k);
      assert r.Get(k) == Some(r.values[k]);
    }
  }

  // ---------------------------------------------------------------------
  // The store
  // ---------------------------------------------------------------------

  /** The `useCollection` hook: the stored record and the operations that replace it. */
  class Collection {
    var entries: OMap<string, CollectionEntry>

    ghost predicate Valid()
      reads this
    {
      entries.Valid()
    }

    /** A store that starts empty. */
    constructor()
      ensures Valid() && entries == Empty()
    {
      entries := Empty();
    }

    method SetStatus(minifigId: string, status: ItemStatus, now: string)
      requires Valid()
      modifies this
      ensures Valid() && entries == SetStatusOf(old(entries), minifigId, status, now)
    {
      entries := SetStatusOf(entries, minifigId, status, now);
    }

    method AddWithQuantity(minifigId: string, totalQty: int, condition: ItemCondition, pricePaid: Option<real>, now: string)
      requires Valid()
      modifies this
      ensures Valid() && entries == AddWithQuantityOf(old(entries), minifigId, totalQty, condition, pricePaid, now)
    {
      entries := AddWithQuantityOf(entries, minifigId, totalQty, condition, pricePaid, now);
    }

    method UpdateEntry(minifigId: string, updates: EntryPatch, now: string)
      requires Valid()
      modifies this
      ensures Valid() && entries == UpdateEntryOf(old(entries), minifigId, updates, now)
    {
      entries := UpdateEntryOf(entries, minifigId, updates, now);
    }

    /** Deletes the key from a copy of the record, then stores the copy. */
    method RemoveEntry(minifigId: string)
      requires Valid()
      modifies this
      ensures Valid() && entries == RemoveEntryOf(old(entries), minifigId)
    {
      var next := entries;
      next := next.Remove(minifigId);
      entries := next;
    }

    /** Assigns each item into a copy of the record in turn, then stores the copy. */
    method BulkAdd(items: seq<BulkItem>, now: string)
      requires Valid()
      modifies this
      ensures Valid() && entries == BulkAddOf(old(entries), items, now)
    {
      var next := entries;
      for i := 0 to |items|
        invariant next.Valid() && next == BulkAddOf(entries, items[..i], now)
      {
        var item := items[i];
        match next.Get(item.minifigId) {
          case Some(existing) =>
            next := next.Put(item.minifigId, Bulked(existing, item, now));
          case None =>
            next := next.Put(item.minifigId, BulkNew(item, now));
        }
        assert items[..i + 1][..i] == items[..i];
      }
      assert items[..|items|] == items;
      entries := next;
    }
  }
}
