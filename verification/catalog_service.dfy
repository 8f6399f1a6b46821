/**
 * The app's queries over the bundled catalog: lookup by id, the faction
 * list, the year range, and the catalog page's filter-and-sort. The catalog
 * (a JSON file the app bundles) and the collection are parameters.
 */
module CatalogService {
  import opened Wrappers
  import opened Types
  import opened Strings
  import opened Seqs
  import opened Sorting
  import opened OrderedMap

  /** The collection state: entries keyed by minifigure id, in insertion order. */
  type Collection = OMap<string, CollectionEntry>

  /** `getMinifig`: the first catalog entry with that id. */
  function GetMinifig(catalog: seq<CatalogMinifig>, id: string): (r: Option<CatalogMinifig>)
    ensures r.None? <==> forall i :: 0 <= i < |catalog| ==> catalog[i].id != id
    ensures r.Some? ==> exists i :: 0 <= i < |catalog| && catalog[i] == r.value && catalog[i].id == id &&
                                   forall j :: 0 <= j < i ==> catalog[j].id != id
  {
    match FirstWhere(catalog, (m: CatalogMinifig) => m.id == id, 0)
    case Some(i) => Some(catalog[i])
    case None => None
  }

  /**
   * `getAllFactions`: the loop adds each faction to a Set, whose spread is
   * then sorted in code-unit order. The result is every faction once, in order.
   */
  method GetAllFactions(catalog: seq<CatalogMinifig>) returns (r: seq<string>)
    ensures forall f :: f in r <==> exists i :: 0 <= i < |catalog| && catalog[i].faction == f
    ensures forall i, j :: 0 <= i < j < |r| ==> r[i] != r[j]
    ensures Sorted(r, Compare)
  {
    var seen: seq<string> := [];
    for i := 0 to |catalog|
      invariant seen == Dedup(MapSeq(catalog[..i], FactionOf))
    {
      MapSeqSnoc(catalog, FactionOf, i);
      DedupSnoc(MapSeq(catalog[..i], FactionOf), catalog[i].faction);
      if catalog[i].faction !in seen {
        seen := seen + [catalog[i].faction];
      }
    }
    assert catalog[..|catalog|] == catalog;
    r := Sort(seen, Compare);
    SortedFactions(catalog, seen, r);
  }

  /** The faction of some entry: the members of the Set the loop fills. */
  lemma {:induction false} SortedFactions(catalog: seq<CatalogMinifig>, seen: seq<string>, r: seq<string>)
    requires seen == Dedup(MapSeq(catalog, FactionOf)) && r == Sort(seen, Compare)
    ensures && (forall f :: f in r <==> exists i :: 0 <= i < |catalog| && catalog[i].faction == f)
      && (forall i, j :: 0 <= i < j < |r| ==> r[i] != r[j])
      && Sorted(r, Compare)
  {
    forall f ensures f in r <==> exists i :: 0 <= i < |catalog| && catalog[i].faction == f {
      assert f in r <==> f in multiset(r);
      if f in seen {
        var k :| 0 <= k < |MapSeq(catalog, FactionOf)| && MapSeq(catalog, FactionOf)[k] == f;
        MapSeqAt(catalog, FactionOf, k);
      }
      forall i | 0 <= i < |catalog| && catalog[i].faction == f ensures f in seen {
        MapSeqAt(catalog, FactionOf, i);
      }
    }
    SortDistinct(seen, Compare, (x: string) => x);
    CompareConsistent();
    SortSorted(seen, Compare);
  }

  /**
   * `getYearRange`: the least and greatest years, starting from 9999 and 0,
   * so that an empty catalog gives (9999, 0).
   */
  method GetYearRange(catalog: seq<CatalogMinifig>) returns (lo: int, hi: int)
    ensures lo <= 9999 && hi >= 0
    ensures forall i :: 0 <= i < |catalog| ==> lo <= catalog[i].year <= hi
    ensures lo == 9999 || exists i :: 0 <= i < |catalog| && catalog[i].year == lo
    ensures hi == 0 || exists i :: 0 <= i < |catalog| && catalog[i].year == hi
  {
    lo, hi := 9999, 0;
    for i := 0 to |catalog|
      invariant lo <= 9999 && hi >= 0
      invariant forall j :: 0 <= j < i ==> lo <= catalog[j].year <= hi
      invariant lo == 9999 || exists j :: 0 <= j < i && catalog[j].year == lo
      invariant hi == 0 || exists j :: 0 <= j < i && catalog[j].year == hi
    {
      if catalog[i].year < lo {
        lo := catalog[i].year;
      }
      if catalog[i].year > hi {
        hi := catalog[i].year;
      }
    }
  }

  // ---------------------------------------------------------------------
  // filterCatalog
  // ---------------------------------------------------------------------

  /** The status filter: 'all', 'none' (not in the collection), or one status. */
  datatype StatusFilter = AnyStatus | NotCollected | HasStatus(status: ItemStatus)

  datatype SortField = ByName | ByYear | ById | ByValue

  datatype SortDir = Asc | Desc

  /** The catalog page's filter; a year bound of null is no bound. */
  datatype CatalogFilter = CatalogFilter(
    search: string,
    yearMin: Option<int>,
    yearMax: Option<int>,
    faction: string,
    status: StatusFilter,
    sortBy: SortField,
    sortDir: SortDir)

  /** A set matches the lower-cased query by name or by id. */
  predicate SetHit(s: SetRef, q: string)
  {
    Contains(ToLower(s.name), q) || Contains(ToLower(s.id), q)
  }

  /** The search: the name, the id, or some set's name or id contains the query. */
  predicate SearchHit(m: CatalogMinifig, q: string)
  {
    Contains(ToLower(m.name), q) || Contains(ToLower(m.id), q) ||
    exists i :: 0 <= i < |m.sets| && SetHit(m.sets[i], q)
  }

  /** `collection[id]?.status === status`. */
  predicate HasStatusIn(collection: Collection, id: string, status: ItemStatus)
  {
    collection.Get(id).Some? && collection.Get(id).value.status == status
  }

  /** Each filter's condition, true when its field is unset. */
  function SearchCond(filter: CatalogFilter): CatalogMinifig -> bool
  {
    (m: CatalogMinifig) => filter.search == "" || SearchHit(m, ToLower(filter.search))
  }

  function YearMinCond(filter: CatalogFilter): CatalogMinifig -> bool
  {
    (m: CatalogMinifig) => filter.yearMin.None? || m.year >= filter.yearMin.value
  }

  function YearMaxCond(filter: CatalogFilter): CatalogMinifig -> bool
  {
    (m: CatalogMinifig) => filter.yearMax.None? || m.year <= filter.yearMax.value
  }

  function FactionCond(filter: CatalogFilter): CatalogMinifig -> bool
  {
    (m: CatalogMinifig) => filter.faction == "" || filter.faction == "all" || m.faction == filter.faction
  }

  function StatusCond(filter: CatalogFilter, collection: Collection): CatalogMinifig -> bool
  {
    (m: CatalogMinifig) => match filter.status {
           case AnyStatus => true
           case NotCollected => collection.Get(m.id).None?
           case HasStatus(s) => HasStatusIn(collection, m.id, s)
         }
  }

  /** Everything the filter demands of an entry. */
  predicate Keep(filter: CatalogFilter, collection: Collection, m: CatalogMinifig)
  {
    SearchCond(filter)(m) && YearMinCond(filter)(m) && YearMaxCond(filter)(m) &&
    FactionCond(filter)(m) && StatusCond(filter, collection)(m)
  }

  function KeepFn(filter: CatalogFilter, collection: Collection): CatalogMinifig -> bool
  {
    (m: CatalogMinifig) => Keep(filter, collection, m)
  }

  /** The search stage: only when the query is non-empty, on its lower-cased form. */
  function SearchStage(filter: CatalogFilter, s: seq<CatalogMinifig>): seq<CatalogMinifig>
  {
    var q := ToLower(filter.search);
    if filter.search != "" then Filter(s, m => SearchHit(m, q)) else s
  }

  function YearMinStage(filter: CatalogFilter, s: seq<CatalogMinifig>): seq<CatalogMinifig>
  {
    match filter.yearMin
    case None => s
    case Some(lo) => Filter(s, (m: CatalogMinifig) => m.year >= lo)
  }

  function YearMaxStage(filter: CatalogFilter, s: seq<CatalogMinifig>): seq<CatalogMinifig>
  {
    match filter.yearMax
    case None => s
    case Some(hi) => Filter(s, (m: CatalogMinifig) => m.year <= hi)
  }

  function FactionStage(filter: CatalogFilter, s: seq<CatalogMinifig>): seq<CatalogMinifig>
  {
    if filter.faction != "" && filter.faction != "all"
    then Filter(s, (m: CatalogMinifig) => m.faction == filter.faction) else s
  }

  function StatusStage(filter: CatalogFilter, collection: Collection, s: seq<CatalogMinifig>): seq<CatalogMinifig>
  {
    match filter.status
    case AnyStatus => s
    case NotCollected => Filter(s, (m: CatalogMinifig) => collection.Get(m.id).None?)
    case HasStatus(st) => Filter(s, (m: CatalogMinifig) => HasStatusIn(collection, m.id, st))
  }

  /** The chain of filters in the source's order. */
  function Filtered(filter: CatalogFilter, collection: Collection, catalog: seq<CatalogMinifig>): seq<CatalogMinifig>
  {
    StatusStage(filter, collection, FactionStage(filter, YearMaxStage(filter, YearMinStage(filter, SearchStage(filter, catalog)))))
  }

  /** The 'value' sort key: `askingPrice ?? pricePaid ?? 0`, and 0 for an entry not collected. */
  function Value(collection: Collection, id: string): real
  {
    match collection.Get(id)
    case None => 0.0
    case Some(e) => e.askingPrice.Or(e.pricePaid).GetOr(0.0)
  }

  /** The ascending comparator of each sort field; of the 'value' difference, `sort` reads only the sign. */
  function FieldOrder(sortBy: SortField, collection: Collection): (CatalogMinifig, CatalogMinifig) -> int
  {
    match sortBy
    case ByName => (a: CatalogMinifig, b: CatalogMinifig) => Compare(a.name, b.name)
    case ByYear => (a: CatalogMinifig, b: CatalogMinifig) => a.year - b.year
    case ById => (a: CatalogMinifig, b: CatalogMinifig) => Compare(a.id, b.id)
    case ByValue => (a: CatalogMinifig, b: CatalogMinifig) => Sign(Value(collection, a.id) - Value(collection, b.id))
  }

  /** `dir * cmp(a, b)`, with `dir` -1 for 'desc' and 1 otherwise. */
  function Directed<T>(cmp: (T, T) -> int, dir: SortDir): (T, T) -> int
  {
    var d := if dir == Desc then -1 else 1;
    (a: T, b: T) => d * cmp(a, b)
  }

  function Comparator(filter: CatalogFilter, collection: Collection): (CatalogMinifig, CatalogMinifig) -> int
  {
    Directed(FieldOrder(filter.sortBy, collection), filter.sortDir)
  }

  /** `filterCatalog`: a sorted copy of the filtered entries. */
  function FilterCatalog(filter: CatalogFilter, collection: Collection, catalog: seq<CatalogMinifig>): seq<CatalogMinifig>
  {
    Sort(Filtered(filter, collection, catalog), Comparator(filter, collection))
  }

  lemma SearchStageIsFilter(filter: CatalogFilter, s: seq<CatalogMinifig>)
    ensures SearchStage(filter, s) == Filter(s, SearchCond(filter))
  {
    var q := ToLower(filter.search);
    if filter.search != "" {
      FilterExt(s, m => SearchHit(m, q), SearchCond(filter));
    } else {
      FilterAll(s, SearchCond(filter));
    }
  }

  lemma YearMinStageIsFilter(filter: CatalogFilter, s: seq<CatalogMinifig>)
    ensures YearMinStage(filter, s) == Filter(s, YearMinCond(filter))
  {
    match filter.yearMin {
      case None => FilterAll(s, YearMinCond(filter));
      case Some(lo) => FilterExt(s, (m: CatalogMinifig) => m.year >= lo, YearMinCond(filter));
    }
  }

  lemma YearMaxStageIsFilter(filter: CatalogFilter, s: seq<CatalogMinifig>)
    ensures YearMaxStage(filter, s) == Filter(s, YearMaxCond(filter))
  {
    match filter.yearMax {
      case None => FilterAll(s, YearMaxCond(filter));
      case Some(hi) => FilterExt(s, (m: CatalogMinifig) => m.year <= hi, YearMaxCond(filter));
    }
  }

  lemma FactionStageIsFilter(filter: CatalogFilter, s: seq<CatalogMinifig>)
    ensures FactionStage(filter, s) == Filter(s, FactionCond(filter))
  {
    if filter.faction != "" && filter.faction != "all" {
      FilterExt(s, (m: CatalogMinifig) => m.faction == filter.faction, FactionCond(filter));
    } else {
      FilterAll(s, FactionCond(filter));
    }
  }

  lemma StatusStageIsFilter(filter: CatalogFilter, collection: Collection, s: seq<CatalogMinifig>)
    ensures StatusStage(filter, collection, s) == Filter(s, StatusCond(filter, collection))
  {
    match filter.status {
      case AnyStatus => FilterAll(s, StatusCond(filter, collection));
      case NotCollected => FilterExt(s, (m: CatalogMinifig) => collection.Get(m.id).None?, StatusCond(filter, collection));
      case HasStatus(st) => FilterExt(s, (m: CatalogMinifig) => HasStatusIn(collection, m.id, st), StatusCond(filter, collection));
    }
  }

  /** The chain of filters is one filter by the conjunction of their conditions. */
  lemma FilteredIsKeep(filter: CatalogFilter, collection: Collection, catalog: seq<CatalogMinifig>)
    ensures Filtered(filter, collection, catalog) == Filter(catalog, KeepFn(filter, collection))
  {
    var k1, k2, k3, k4, k5 := SearchCond(filter), YearMinCond(filter), YearMaxCond(filter),
                              FactionCond(filter), StatusCond(filter, collection);
    var r1 := SearchStage(filter, catalog);
    var r2 := YearMinStage(filter, r1);
    var r3 := YearMaxStage(filter, r2);
    var r4 := FactionStage(filter, r3);
    SearchStageIsFilter(filter, catalog);
    YearMinStageIsFilter(filter, r1);
    YearMaxStageIsFilter(filter, r2);
    FactionStageIsFilter(filter, r3);
    StatusStageIsFilter(filter, collection, r4);
    FilterFilter(catalog, k1, k2);
    FilterFilter(catalog, Both(k1, k2), k3);
    FilterFilter(catalog, Both(Both(k1, k2), k3), k4);
    FilterFilter(catalog, Both(Both(Both(k1, k2), k3), k4), k5);
    FilterExt(catalog, Both(Both(Both(Both(k1, k2), k3), k4), k5), KeepFn(filter, collection));
  }

  lemma FieldOrderConsistent(sortBy: SortField, collection: Collection)
    ensures Consistent(FieldOrder(sortBy, collection))
  {
    var cmp := FieldOrder(sortBy, collection);
    match sortBy {
      case ByName =>
        forall a, b, c | cmp(a, b) <= 0 && cmp(b, c) <= 0 ensures cmp(a, c) <= 0 {
          CompareTransitive(a.name, b.name, c.name);
        }
        forall a, b ensures cmp(a, b) < 0 <==> cmp(b, a) > 0 {
          CompareAntisymmetric(a.name, b.name);
        }
      case ById =>
        forall a, b, c | cmp(a, b) <= 0 && cmp(b, c) <= 0 ensures cmp(a, c) <= 0 {
          CompareTransitive(a.id, b.id, c.id);
        }
        forall a, b ensures cmp(a, b) < 0 <==> cmp(b, a) > 0 {
          CompareAntisymmetric(a.id, b.id);
        }
      case ByYear =>
      case ByValue =>
        forall a, b ensures cmp(a, b) < 0 <==> cmp(b, a) > 0 {
          var va, vb := Value(collection, a.id), Value(collection, b.id);
          assert cmp(a, b) == Sign(va - vb) && cmp(b, a) == Sign(vb - va);
        }
        forall a, b, c | cmp(a, b) <= 0 && cmp(b, c) <= 0 ensures cmp(a, c) <= 0 {
          var va, vb, vc := Value(collection, a.id), Value(collection, b.id), Value(collection, c.id);
          assert cmp(a, b) == Sign(va - vb) && cmp(b, c) == Sign(vb - vc) && cmp(a, c) == Sign(va - vc);
        }
    }
  }

  /** Turning a consistent comparator around keeps it consistent. */
  lemma DirectedConsistent<T(!new)>(cmp: (T, T) -> int, dir: SortDir)
    requires Consistent(cmp)
    ensures Consistent(Directed(cmp, dir))
  {
    var c := Directed(cmp, dir);
    if dir == Desc {
      forall a, b ensures c(a, b) < 0 <==> c(b, a) > 0 {
        assert c(a, b) == -cmp(a, b) && c(b, a) == -cmp(b, a);
      }
      forall a, b, x | c(a, b) <= 0 && c(b, x) <= 0 ensures c(a, x) <= 0 {
        assert cmp(b, a) <= 0 && cmp(x, b) <= 0;
      }
    }
  }

  /** 'desc' is exactly the 'asc' comparator negated. */
  lemma DescNegates(filter: CatalogFilter, collection: Collection, a: CatalogMinifig, b: CatalogMinifig)
    ensures Comparator(filter.(sortDir := Desc), collection)(a, b) == -Comparator(filter.(sortDir := Asc), collection)(a, b)
  {
  }

  /**
   * The result holds exactly the entries the filter keeps, as many times as
   * the catalog holds them, in the order of the chosen comparator.
   */
  lemma FilterCatalogSpec(filter: CatalogFilter, collection: Collection, catalog: seq<CatalogMinifig>)
    ensures var r := FilterCatalog(filter, collection, catalog);
      && multiset(r) == multiset(Filter(catalog, KeepFn(filter, collection)))
      && (forall m :: m in r <==> m in catalog && Keep(filter, collection, m))
      && Sorted(r, Comparator(filter, collection))
  {
    var r := FilterCatalog(filter, collection, catalog);
    FilteredIsKeep(filter, collection, catalog);
    FieldOrderConsistent(filter.sortBy, collection);
    DirectedConsistent(FieldOrder(filter.sortBy, collection), filter.sortDir);
    SortSorted(Filtered(filter, collection, catalog), Comparator(filter, collection));
    forall m ensures m in r <==> m in catalog && Keep(filter, collection, m) {
      assert m in r <==> m in multiset(r);
      assert m in Filtered(filter, collection, catalog) <==> m in multiset(Filtered(filter, collection, catalog));
    }
  }
}
