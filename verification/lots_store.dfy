/**
 * The purchase-lot store of the app (`usePurchaseLots`): the list of lots,
 * newest first, replaced by each operation, and the lookups over it. Fresh
 * ids and timestamps are the caller's.
 */
module PurchaseLots {
  import opened Wrappers
  import opened Types
  import opened Seqs
  import KeyIndex

  /** What an `addLot` caller gives: a lot without its id and timestamps. */
  datatype LotDraft = LotDraft(name: string, source: string, totalCost: real, items: seq<PurchaseLotItem>, notes: string)

  /** The lot `addLot` stores: created and modified at the same time. */
  function NewLot(d: LotDraft, id: string, now: string): (r: PurchaseLot)
    ensures r.id == id && r.dateCreated == now && r.dateModified == now
    ensures r.name == d.name && r.source == d.source && r.totalCost == d.totalCost && r.items == d.items && r.notes == d.notes
  {
    PurchaseLot(id, d.name, d.source, d.totalCost, d.items, d.notes, now, now)
  }

  /** `Partial<Omit<PurchaseLot, 'id' | 'dateCreated'>>`: the update can carry any field but those two. */
  datatype LotPatch = LotPatch(name: Option<string>, source: Option<string>, totalCost: Option<real>,
                               items: Option<seq<PurchaseLotItem>>, notes: Option<string>, dateModified: Option<string>)

  /** `{ ...lot, ...updates, dateModified: now }`. */
  function MergeLot(l: PurchaseLot, p: LotPatch, now: string): (r: PurchaseLot)
    ensures r.id == l.id && r.dateCreated == l.dateCreated && r.dateModified == now
  {
    PurchaseLot(l.id, p.name.GetOr(l.name), p.source.GetOr(l.source), p.totalCost.GetOr(l.totalCost),
                p.items.GetOr(l.items), p.notes.GetOr(l.notes), l.dateCreated, now)
  }

  /**
   * `updateLot(id, updates)`: the lots with that id take the updates and a
   * new modification time; the list keeps its order, and every lot its id
   * and creation time.
   */
  function UpdateLotOf(lots: seq<PurchaseLot>, id: string, p: LotPatch, now: string): (r: seq<PurchaseLot>)
    ensures |r| == |lots|
    ensures forall i :: 0 <= i < |lots| ==> r[i].id == lots[i].id && r[i].dateCreated == lots[i].dateCreated
    ensures forall i :: 0 <= i < |lots| && lots[i].id != id ==> r[i] == lots[i]
    ensures forall i :: 0 <= i < |lots| && lots[i].id == id ==> r[i] == MergeLot(lots[i], p, now)
  {
    seq(|lots|, i requires 0 <= i < |lots| => if lots[i].id == id then MergeLot(lots[i], p, now) else lots[i])
  }

  predicate Keeps(id: string, l: PurchaseLot) { l.id != id }

  function OtherThan(id: string): PurchaseLot -> bool { l => Keeps(id, l) }

  /** `deleteLot(id)`: every lot with that id goes; the rest stay, in order. */
  function DeleteLotOf(lots: seq<PurchaseLot>, id: string): (r: seq<PurchaseLot>)
    ensures forall l :: l in r <==> l in lots && l.id != id
  {
    Filter(lots, OtherThan(id))
  }

  /** Deleting a lot just added under a fresh id gives back the list as it was. */
  lemma DeleteUndoesAdd(lots: seq<PurchaseLot>, d: LotDraft, id: string, now: string)
    requires forall l :: l in lots ==> l.id != id
    ensures DeleteLotOf([NewLot(d, id, now)] + lots, id) == lots
  {
    var s := [NewLot(d, id, now)] + lots;
    assert s[1..] == lots;
    FilterAll(lots, OtherThan(id));
  }

  predicate HasId(id: string, l: PurchaseLot) { l.id == id }

  predicate HasFigure(minifigId: string, l: PurchaseLot)
  {
    exists item :: item in l.items && item.minifigId == minifigId
  }

  /** `lots.find(p)`: the first lot that satisfies `p`. */
  function Find(lots: seq<PurchaseLot>, p: PurchaseLot -> bool): (r: Option<PurchaseLot>)
    ensures r.Some? ==> exists i :: 0 <= i < |lots| && lots[i] == r.value && p(lots[i]) && forall j :: 0 <= j < i ==> !p(lots[j])
    ensures r.None? ==> forall l :: l in lots ==> !p(l)
  {
    match FirstWhere(lots, p, 0)
    case Some(i) => Some(lots[i])
    case None => None
  }

  /** `getLot(id)`: the first lot with that id, which is the one added last. */
  function GetLot(lots: seq<PurchaseLot>, id: string): Option<PurchaseLot>
  {
    Find(lots, l => HasId(id, l))
  }

  /** `getLotForMinifig(minifigId)`: the first lot, the one added last, listing the figure. */
  function GetLotForMinifig(lots: seq<PurchaseLot>, minifigId: string): Option<PurchaseLot>
  {
    Find(lots, l => HasFigure(minifigId, l))
  }

  /** The newest lot is the one the lookups find: by its id, and for every figure it lists. */
  lemma LookupsFindNewest(lots: seq<PurchaseLot>, d: LotDraft, id: string, now: string, minifigId: string)
    ensures GetLot([NewLot(d, id, now)] + lots, id) == Some(NewLot(d, id, now))
    ensures (exists item :: item in d.items && item.minifigId == minifigId) ==>
      GetLotForMinifig([NewLot(d, id, now)] + lots, minifigId) == Some(NewLot(d, id, now))
  {
  }

  /** The ids of the lots, in list order. */
  function Ids(lots: seq<PurchaseLot>): (r: seq<string>)
    ensures |r| == |lots| && forall i :: 0 <= i < |lots| ==> r[i] == lots[i].id
  {
    seq(|lots|, i requires 0 <= i < |lots| => lots[i].id)
  }

  /** The `lotMap` loop: each lot is set under its id, so the last lot with an id wins. */
  method BuildLotMap(lots: seq<PurchaseLot>) returns (m: map<string, PurchaseLot>)
    ensures m == KeyIndex.LastByKey(Ids(lots), lots)
  {
    m := map[];
    for i := 0 to |lots|
      invariant m == KeyIndex.LastByKey(Ids(lots)[..i], lots[..i])
    {
      KeyIndex.LastByKeyStep(Ids(lots), lots, i);
      m := m[lots[i].id := lots[i]];
    }
    assert Ids(lots)[..|lots|] == Ids(lots) && lots[..|lots|] == lots;
  }

  /** No two lots share an id. */
  ghost predicate UniqueIds(lots: seq<PurchaseLot>)
  {
    forall i, j :: 0 <= i < j < |lots| ==> lots[i].id != lots[j].id
  }

  /** With unique ids, `lotMap.get(id)` and `getLot(id)` agree on every id. */
  lemma LotMapIsGetLot(lots: seq<PurchaseLot>, id: string)
    requires UniqueIds(lots)
    ensures id in KeyIndex.LastByKey(Ids(lots), lots) <==> GetLot(lots, id).Some?
    ensures id in KeyIndex.LastByKey(Ids(lots), lots) ==> KeyIndex.LastByKey(Ids(lots), lots)[id] == GetLot(lots, id).value
  {
    var keys := Ids(lots);
    var m := KeyIndex.LastByKey(keys, lots);
    KeyIndex.LastByKeyLast(keys, lots, id);
    if id in m {
      var i :| 0 <= i < |lots| && keys[i] == id && m[id] == lots[i] && id !in keys[i + 1..];
      var found := GetLot(lots, id);
      assert HasId(id, lots[i]);
      var k :| 0 <= k < |lots| && lots[k] == found.value && HasId(id, lots[k]);
      assert k == i;
    } else {
      assert forall l :: l in lots ==> l.id != id by {
        forall l | l in lots ensures l.id != id {
          var i :| 0 <= i < |lots| && lots[i] == l;
          assert keys[i] in keys;
        }
      }
    }
  }

  /** The `usePurchaseLots` hook: the stored list and the operations that replace it. */
  class Lots {
    var lots: seq<PurchaseLot>

    constructor()
      ensures lots == []
    {
      lots := [];
    }

    /** Prepends the new lot and returns it. */
    method AddLot(d: LotDraft, freshId: string, now: string) returns (newLot: PurchaseLot)
      modifies this
      ensures newLot == NewLot(d, freshId, now)
      ensures lots == [newLot] + old(lots) && |lots| == |old(lots)| + 1
    {
      newLot := NewLot(d, freshId, now);
      lots := [newLot] + lots;
    }

    method UpdateLot(id: string, p: LotPatch, now: string)
      modifies this
      ensures lots == UpdateLotOf(old(lots), id, p, now)
    {
      lots := UpdateLotOf(lots, id, p, now);
    }

    method DeleteLot(id: string)
      modifies this
      ensures lots == DeleteLotOf(old(lots), id)
    {
      lots := DeleteLotOf(lots, id);
    }
  }
}
