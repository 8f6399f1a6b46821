/**
 * The catalog page's state (`useCatalog`): the current filter, the page
 * number, and the 48-figure page cut from the filtered catalog.
 */
module CatalogView {
  import opened Wrappers
  import opened Types
  import opened CatalogService

  /** Figures per page. */
  const PageSize := 48

  /** Every figure, no bounds, sorted by name ascending. */
  const DefaultFilter := CatalogFilter("", None, None, "all", AnyStatus, ByName, Asc)

  /** `Partial<CatalogFilter>`: a year bound can be set to a year or to null. */
  datatype FilterPatch = FilterPatch(search: Option<string>, yearMin: Option<Option<int>>, yearMax: Option<Option<int>>,
                                     faction: Option<string>, status: Option<StatusFilter>,
                                     sortBy: Option<SortField>, sortDir: Option<SortDir>)

  const NoPatch := FilterPatch(None, None, None, None, None, None, None)

  /** `{ ...prev, ...updates }`. */
  function Merged(f: CatalogFilter, p: FilterPatch): CatalogFilter
  {
    CatalogFilter(p.search.GetOr(f.search), p.yearMin.GetOr(f.yearMin), p.yearMax.GetOr(f.yearMax),
                  p.faction.GetOr(f.faction), p.status.GetOr(f.status), p.sortBy.GetOr(f.sortBy), p.sortDir.GetOr(f.sortDir))
  }

  /** An empty update changes nothing, the same update twice is the update once, and set fields win. */
  lemma MergedLaws(f: CatalogFilter, p: FilterPatch)
    ensures Merged(f, NoPatch) == f
    ensures Merged(Merged(f, p), p) == Merged(f, p)
    ensures p.search.Some? ==> Merged(f, p).search == p.search.value
    ensures p.search.None? ==> Merged(f, p).search == f.search
    ensures p.sortBy.Some? ==> Merged(f, p).sortBy == p.sortBy.value
    ensures p.sortBy.None? ==> Merged(f, p).sortBy == f.sortBy
  {
  }

  /** `Math.ceil(n / 48)`. */
  function TotalPages(n: nat): (r: nat)
    ensures r * PageSize >= n
    ensures r > 0 ==> (r - 1) * PageSize < n
    ensures r == 0 <==> n == 0
  {
    (n + PageSize - 1) / PageSize
  }

  function Min(a: int, b: int): int { if a < b then a else b }

  /** `filtered.slice(page * 48, (page + 1) * 48)`: both ends are clamped to the list. */
  function PageItems<T>(filtered: seq<T>, page: nat): (r: seq<T>)
    ensures |r| <= PageSize
    ensures page < TotalPages(|filtered|) ==> |r| > 0 && r == filtered[page * PageSize .. Min((page + 1) * PageSize, |filtered|)]
    ensures page >= TotalPages(|filtered|) ==> r == []
    ensures page + 1 < TotalPages(|filtered|) ==> |r| == PageSize
  {
    filtered[Min(page * PageSize, |filtered|) .. Min((page + 1) * PageSize, |filtered|)]
  }

  /** Pages `0` to `k - 1`, one after the other. */
  function PagesUpTo<T>(filtered: seq<T>, k: nat): seq<T>
  {
    if k == 0 then [] else PagesUpTo(filtered, k - 1) + PageItems(filtered, k - 1)
  }

  lemma {:induction false} PagesUpToPrefix<T>(filtered: seq<T>, k: nat)
    ensures PagesUpTo(filtered, k) == filtered[..Min(k * PageSize, |filtered|)]
  {
    if k > 0 {
      PagesUpToPrefix(filtered, k - 1);
      var lo := Min((k - 1) * PageSize, |filtered|);
      var hi := Min(k * PageSize, |filtered|);
      assert PageItems(filtered, k - 1) == filtered[lo..hi];
      assert filtered[..lo] + filtered[lo..hi] == filtered[..hi];
    }
  }

  /** Every figure of the filtered list is on exactly one page: the pages, in order, make up the list. */
  lemma PagesCoverFiltered<T>(filtered: seq<T>)
    ensures PagesUpTo(filtered, TotalPages(|filtered|)) == filtered
  {
    PagesUpToPrefix(filtered, TotalPages(|filtered|));
    assert filtered[..|filtered|] == filtered;
  }

  /** The `useCatalog` hook: the filter and the page number; the figures shown are derived from them. */
  class CatalogPage {
    var filter: CatalogFilter
    var page: nat

    constructor()
      ensures filter == DefaultFilter && page == 0
    {
      filter := DefaultFilter;
      page := 0;
    }

    /** `filterCatalog(filter, collection)`. */
    function Filtered(collection: Collection, catalog: seq<CatalogMinifig>): seq<CatalogMinifig>
      reads this
    {
      FilterCatalog(filter, collection, catalog)
    }

    /** The figures on the current page. */
    function Shown(collection: Collection, catalog: seq<CatalogMinifig>): (r: seq<CatalogMinifig>)
      reads this
      ensures |r| <= PageSize
      ensures page >= TotalPages(|Filtered(collection, catalog)|) ==> r == []
    {
      PageItems(Filtered(collection, catalog), page)
    }

    /** Merges the update into the filter and goes back to the first page. */
    method UpdateFilter(p: FilterPatch)
      modifies this
      ensures filter == Merged(old(filter), p) && page == 0
    {
      filter := Merged(filter, p);
      page := 0;
    }

    /** Restores the default filter and goes back to the first page. */
    method ResetFilter()
      modifies this
      ensures filter == DefaultFilter && page == 0
    {
      filter := DefaultFilter;
      page := 0;
    }

    method SetPage(p: nat)
      modifies this
      ensures page == p && filter == old(filter)
    {
      page := p;
    }
  }
}
