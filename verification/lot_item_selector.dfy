/**
 * The figure picker of the purchase-lot form (`LotItemSelector`): a search
 * over the catalog that hides figures already picked, and the picked list
 * that figures are added to and removed from.
 */
module LotItemSelector {
  import opened Types
  import opened Seqs
  import opened Strings

  /** At most this many search results are listed. */
  const MaxResults := 10

  function PickedIds(items: seq<PurchaseLotItem>): set<string>
  {
    set i | i in items :: i.minifigId
  }

  /** The figure is not picked yet and its name or id holds the lower-cased query. */
  predicate Offered(m: CatalogMinifig, q: string, picked: set<string>)
  {
    m.id !in picked && (Contains(ToLower(m.name), q) || Contains(ToLower(m.id), q))
  }

  function OfferedBy(q: string, picked: set<string>): CatalogMinifig -> bool
  {
    m => Offered(m, q, picked)
  }

  /** `searchResults`: nothing for a query shorter than two characters, else the first ten matches in catalog order. */
  function SearchResults(search: string, items: seq<PurchaseLotItem>, catalog: seq<CatalogMinifig>): (r: seq<CatalogMinifig>)
    ensures |search| < 2 ==> r == []
    ensures |r| <= MaxResults
    ensures forall m :: m in r ==> m in catalog && Offered(m, ToLower(search), PickedIds(items))
  {
    if |search| < 2 then []
    else
      var all := Filter(catalog, OfferedBy(ToLower(search), PickedIds(items)));
      var r := Take(all, MaxResults);
      assert forall m :: m in r ==> m in all;
      r
  }

  /** With ten matches or fewer, every match is listed. */
  lemma FewMatchesAllListed(search: string, items: seq<PurchaseLotItem>, catalog: seq<CatalogMinifig>, m: CatalogMinifig)
    requires |search| >= 2 && |Filter(catalog, OfferedBy(ToLower(search), PickedIds(items)))| <= MaxResults
    requires m in catalog && Offered(m, ToLower(search), PickedIds(items))
    ensures m in SearchResults(search, items, catalog)
  {
  }

  /** `pos` lists, in increasing order, the places in `s` where the elements of `r` stand. */
  ghost predicate PlacedAt<T>(r: seq<T>, s: seq<T>, pos: seq<nat>)
  {
    |pos| == |r| &&
    (forall j :: 0 <= j < |pos| ==> pos[j] < |s| && s[pos[j]] == r[j]) &&
    (forall j, k :: 0 <= j < k < |pos| ==> pos[j] < pos[k])
  }

  function Shift(pos: seq<nat>): (r: seq<nat>)
    ensures |r| == |pos| && forall j :: 0 <= j < |pos| ==> r[j] == pos[j] + 1
  {
    seq(|pos|, j requires 0 <= j < |pos| => pos[j] + 1)
  }

  /** Every place where `s` passes `p` is listed in `pos`. */
  ghost predicate AllListed<T>(s: seq<T>, p: T -> bool, pos: seq<nat>)
  {
    forall i :: 0 <= i < |s| && p(s[i]) ==> i in pos
  }

  /** A filter keeps its elements in their order, and every element that passes is kept. */
  lemma {:induction false} FilterPositions<T(!new)>(s: seq<T>, p: T -> bool) returns (pos: seq<nat>)
    ensures PlacedAt(Filter(s, p), s, pos) && AllListed(s, p, pos)
  {
    if s == [] {
      return [];
    }
    var rest := FilterPositions(s[1..], p);
    var shifted := Shift(rest);
    ShiftPlaced(s, Filter(s[1..], p), rest);
    pos := if p(s[0]) then [0] + shifted else shifted;
    forall i | 0 <= i < |s| && p(s[i]) ensures i in pos {
      if i > 0 {
        assert s[1..][i - 1] == s[i];
        var j :| 0 <= j < |rest| && rest[j] == i - 1;
        assert shifted[j] == i;
      }
    }
  }

  /** Places in the tail of `s`, moved one on, are places in `s`. */
  lemma ShiftPlaced<T>(s: seq<T>, r: seq<T>, rest: seq<nat>)
    requires |s| > 0 && PlacedAt(r, s[1..], rest)
    ensures PlacedAt(r, s, Shift(rest)) && PlacedAt([s[0]] + r, s, [0] + Shift(rest))
  {
    var shifted := Shift(rest);
    forall j | 0 <= j < |shifted| ensures shifted[j] < |s| && s[shifted[j]] == r[j] {
      assert s[shifted[j]] == s[1..][rest[j]];
    }
  }

  /** In a strictly increasing list, the order of the values is the order of the places. */
  lemma IncreasingLess(pos: seq<nat>, a: nat, b: nat)
    requires a < |pos| && b < |pos| && (forall j, k :: 0 <= j < k < |pos| ==> pos[j] < pos[k])
    requires pos[a] <= pos[b]
    ensures a <= b
  {
  }

  /**
   * The first `n` elements that pass `p` stand in `s` in that order, and
   * every element that passes is among them up to the place of the last
   * one, or everywhere when fewer than `n` pass.
   */
  lemma FirstPassing<T(!new)>(s: seq<T>, p: T -> bool, n: nat) returns (pos: seq<nat>)
    ensures PlacedAt(Take(Filter(s, p), n), s, pos)
    ensures var r := Take(Filter(s, p), n);
      forall i :: (0 <= i < |s| && p(s[i]) && (|r| < n || (|r| > 0 && i <= pos[|r| - 1]))) ==> s[i] in r
  {
    var all := Filter(s, p);
    var r := Take(all, n);
    var allPos := FilterPositions(s, p);
    pos := allPos[..|r|];
    forall i | 0 <= i < |s| && p(s[i]) && (|r| < n || (|r| > 0 && i <= pos[|r| - 1]))
      ensures s[i] in r
    {
      var j :| 0 <= j < |allPos| && allPos[j] == i;
      if |r| < n {
        assert |r| == |all|;
      } else {
        IncreasingLess(allPos, j, |r| - 1);
      }
      assert r[j] == s[i];
    }
  }

  /**
   * The results follow catalog order, and they are the first matches: every
   * match up to the last one listed is listed, and, when the list is not
   * full, every match is.
   */
  lemma SearchResultsInCatalogOrder(search: string, items: seq<PurchaseLotItem>, catalog: seq<CatalogMinifig>) returns (pos: seq<nat>)
    requires |search| >= 2
    ensures PlacedAt(SearchResults(search, items, catalog), catalog, pos)
    ensures var r := SearchResults(search, items, catalog);
      forall i :: (0 <= i < |catalog| && Offered(catalog[i], ToLower(search), PickedIds(items))
                   && (|r| < MaxResults || (|r| > 0 && i <= pos[|r| - 1]))) ==> catalog[i] in r
  {
    var p := OfferedBy(ToLower(search), PickedIds(items));
    pos := FirstPassing(catalog, p, MaxResults);
    assert SearchResults(search, items, catalog) == Take(Filter(catalog, p), MaxResults);
  }

  /** `addItem`: the figure goes last, with nothing allocated yet. */
  function AddItem(items: seq<PurchaseLotItem>, minifigId: string): (r: seq<PurchaseLotItem>)
    ensures |r| == |items| + 1 && r[..|items|] == items && r[|items|] == PurchaseLotItem(minifigId, 0.0)
  {
    items + [PurchaseLotItem(minifigId, 0.0)]
  }

  predicate Keeps(minifigId: string, i: PurchaseLotItem) { i.minifigId != minifigId }

  /** `removeItem`: every item for the figure goes; the others stay, in order. */
  function RemoveItem(items: seq<PurchaseLotItem>, minifigId: string): (r: seq<PurchaseLotItem>)
    ensures forall i :: i in r <==> i in items && i.minifigId != minifigId
    ensures minifigId !in PickedIds(r)
  {
    Filter(items, i => Keeps(minifigId, i))
  }

  /** No figure is picked twice. */
  ghost predicate DistinctPicks(items: seq<PurchaseLotItem>)
  {
    forall a, b :: 0 <= a < b < |items| ==> items[a].minifigId != items[b].minifigId
  }

  /** Picking from the search results never picks a figure twice. */
  lemma AddFromResultsStaysDistinct(search: string, items: seq<PurchaseLotItem>, catalog: seq<CatalogMinifig>, m: CatalogMinifig)
    requires DistinctPicks(items) && m in SearchResults(search, items, catalog)
    ensures DistinctPicks(AddItem(items, m.id))
  {
    var r := AddItem(items, m.id);
    forall a | 0 <= a < |items| ensures r[a].minifigId != m.id {
      assert items[a] in items;
    }
  }

  /** Removing a figure just added gives back the list it was added to. */
  lemma RemoveUndoesAdd(items: seq<PurchaseLotItem>, minifigId: string)
    requires minifigId !in PickedIds(items)
    ensures RemoveItem(AddItem(items, minifigId), minifigId) == items
  {
    var keep := (i: PurchaseLotItem) => Keeps(minifigId, i);
    FilterAll(items, keep);
    FilterSnoc(items, PurchaseLotItem(minifigId, 0.0), keep);
  }

  lemma {:induction false} FilterSnoc<T(!new)>(s: seq<T>, x: T, p: T -> bool)
    ensures Filter(s + [x], p) == Filter(s, p) + (if p(x) then [x] else [])
  {
    if s == [] {
      assert [] + [x] == [x];
      assert [x][1..] == [];
    } else {
      assert (s + [x])[1..] == s[1..] + [x];
      FilterSnoc(s[1..], x, p);
    }
  }

  /** The picker: the query typed and the figures picked so far. */
  class Picker {
    var search: string
    var items: seq<PurchaseLotItem>

    constructor(selected: seq<PurchaseLotItem>)
      ensures search == [] && items == selected
    {
      search := [];
      items := selected;
    }

    /** Picks a figure and clears the query. */
    method Add(minifigId: string)
      modifies this
      ensures items == AddItem(old(items), minifigId) && search == []
    {
      items := items + [PurchaseLotItem(minifigId, 0.0)];
      search := [];
    }

    /** Drops a figure; the query stays. */
    method Remove(minifigId: string)
      modifies this
      ensures items == RemoveItem(old(items), minifigId) && search == old(search)
    {
      items := RemoveItem(items, minifigId);
    }
  }
}
