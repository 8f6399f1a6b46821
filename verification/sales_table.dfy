/**
 * The sales log table (`SalesLogTable`): the sales sorted by a chosen
 * column, descending by default, and the header clicks that pick the column
 * or flip the direction.
 */
module SalesTable {
  import opened Types
  import opened Sorting
  import Strings

  datatype SaleField = DateField | SalePriceField | NetProfitField | PlatformField

  datatype Direction = Ascending | Descending

  /** The platform as stored: `'whatnot' | 'ebay' | 'bricklink' | 'mercari' | 'other'`. */
  function PlatformName(p: SalePlatform): string
  {
    match p
    case Whatnot => "whatnot"
    case Ebay => "ebay"
    case Bricklink => "bricklink"
    case Mercari => "mercari"
    case OtherPlatform => "other"
  }

  /** The ascending comparison on one column: text columns by code unit, amounts by their difference. */
  function ByField(field: SaleField): (SaleRecord, SaleRecord) -> int
  {
    (a: SaleRecord, b: SaleRecord) =>
      match field
      case DateField => Strings.Compare(a.date, b.date)
      case SalePriceField => Sign(a.salePrice - b.salePrice)
      case NetProfitField => Sign(a.netProfit - b.netProfit)
      case PlatformField => Strings.Compare(PlatformName(a.platform), PlatformName(b.platform))
  }

  /** `dir * (...)` with `dir` = -1 for descending. */
  function Ordered(field: SaleField, dir: Direction): (SaleRecord, SaleRecord) -> int
  {
    (a: SaleRecord, b: SaleRecord) => if dir == Descending then -ByField(field)(a, b) else ByField(field)(a, b)
  }

  /** Descending is exactly the ascending comparison negated, on every column. */
  lemma DescendingNegates(field: SaleField, a: SaleRecord, b: SaleRecord)
    ensures Ordered(field, Descending)(a, b) == -Ordered(field, Ascending)(a, b)
  {
  }

  lemma ByFieldAntisymmetric(field: SaleField, a: SaleRecord, b: SaleRecord)
    ensures ByField(field)(a, b) < 0 <==> ByField(field)(b, a) > 0
  {
    match field
    case DateField => Strings.CompareAntisymmetric(a.date, b.date);
    case PlatformField => Strings.CompareAntisymmetric(PlatformName(a.platform), PlatformName(b.platform));
    case _ =>
  }

  lemma ByFieldTransitive(field: SaleField, a: SaleRecord, b: SaleRecord, c: SaleRecord)
    requires ByField(field)(a, b) <= 0 && ByField(field)(b, c) <= 0
    ensures ByField(field)(a, c) <= 0
  {
    match field
    case DateField => Strings.CompareTransitive(a.date, b.date, c.date);
    case PlatformField => Strings.CompareTransitive(PlatformName(a.platform), PlatformName(b.platform), PlatformName(c.platform));
    case SalePriceField =>
      assert a.salePrice <= b.salePrice <= c.salePrice;
    case NetProfitField =>
      assert a.netProfit <= b.netProfit <= c.netProfit;
  }

  lemma ByFieldConsistent(field: SaleField)
    ensures Consistent(ByField(field))
  {
    forall a, b ensures ByField(field)(a, b) < 0 <==> ByField(field)(b, a) > 0 {
      ByFieldAntisymmetric(field, a, b);
    }
    forall a, b, c | ByField(field)(a, b) <= 0 && ByField(field)(b, c) <= 0 ensures ByField(field)(a, c) <= 0 {
      ByFieldTransitive(field, a, b, c);
    }
  }

  /** Negating a consistent comparison gives a consistent comparison. */
  lemma NegatedConsistent<T(!new)>(cmp: (T, T) -> int, neg: (T, T) -> int)
    requires Consistent(cmp)
    requires forall a, b :: neg(a, b) == -cmp(a, b)
    ensures Consistent(neg)
  {
    forall a, b, c | neg(a, b) <= 0 && neg(b, c) <= 0 ensures neg(a, c) <= 0 {
      assert cmp(c, b) <= 0 && cmp(b, a) <= 0;
    }
  }

  /** Every column in both directions orders the sales consistently. */
  lemma OrderedConsistent(field: SaleField, dir: Direction)
    ensures Consistent(Ordered(field, dir))
  {
    ByFieldConsistent(field);
    if dir == Descending {
      NegatedConsistent(ByField(field), Ordered(field, dir));
    } else {
      assert forall a, b :: Ordered(field, dir)(a, b) == ByField(field)(a, b);
    }
  }

  /** `[...sales].sort(...)`: a sorted copy; the sales themselves are left as they were. */
  function SortedSales(sales: seq<SaleRecord>, field: SaleField, dir: Direction): seq<SaleRecord>
  {
    Sort(sales, Ordered(field, dir))
  }

  /** The table shows every sale once, in the chosen order. */
  lemma SortedSalesShape(sales: seq<SaleRecord>, field: SaleField, dir: Direction)
    ensures multiset(SortedSales(sales, field, dir)) == multiset(sales)
    ensures Sorted(SortedSales(sales, field, dir), Ordered(field, dir))
  {
    OrderedConsistent(field, dir);
    SortSorted(sales, Ordered(field, dir));
  }

  function Flip(d: Direction): Direction
  {
    if d == Ascending then Descending else Ascending
  }

  /** The table's sort state. */
  class SortState {
    var sortBy: SaleField
    var sortDir: Direction

    /** Newest first. */
    constructor()
      ensures sortBy == DateField && sortDir == Descending
    {
      sortBy := DateField;
      sortDir := Descending;
    }

    /** A click on the current column flips the direction; a click on another selects it, descending. */
    method ToggleSort(field: SaleField)
      modifies this
      ensures sortBy == field
      ensures old(sortBy) == field ==> sortDir == Flip(old(sortDir))
      ensures old(sortBy) != field ==> sortDir == Descending
    {
      if sortBy == field {
        sortDir := if sortDir == Ascending then Descending else Ascending;
      } else {
        sortBy := field;
        sortDir := Descending;
      }
    }
  }
}
