/**
 * The tracker's records. Money is a JavaScript number of dollars, modelled
 * as an exact `real`; counts are `int`; optional and nullable fields are
 * `Option`s.
 */
module Types {
  import opened Wrappers

  /** A set a minifigure appears in, as listed in the catalog. */
  datatype SetRef = SetRef(id: string, name: string, year: int)

  /** One catalog entry: a Star Wars minifigure. */
  datatype CatalogMinifig = CatalogMinifig(
    id: string,
    name: string,
    imageUrl: string,
    year: int,
    sets: seq<SetRef>,
    faction: string,
    numSets: int)

  /** A figure's faction, as a function to map or count by. */
  function FactionOf(m: CatalogMinifig): string { m.faction }

  /** A figure's first-appearance year, as a function to map or count by. */
  function YearOf(m: CatalogMinifig): int { m.year }

  datatype ItemStatus = Owned | Wanted | ForSale | Sold

  datatype ItemCondition = New | Used | Damaged

  datatype WantPriority = High | Medium | Low

  /** The user's record of one catalog minifigure. */
  datatype CollectionEntry = CollectionEntry(
    minifigId: string,
    status: ItemStatus,
    quantity: int,
    forSaleQuantity: int,
    condition: ItemCondition,
    pricePaid: Option<real>,
    priceSold: Option<real>,
    askingPrice: Option<real>,
    notes: string,
    customImageUrl: string,
    sku: string,
    dateAdded: string,
    dateModified: string,
    purchaseLotId: Option<string>,
    storageLocation: Option<string>,
    photoUrls: Option<seq<string>>,
    wantPriority: Option<WantPriority>,
    targetPrice: Option<real>,
    crackedQuantity: Option<int>)

  datatype SalePlatform = Whatnot | Ebay | Bricklink | Mercari | OtherPlatform

  /** A completed sale with its financial breakdown. */
  datatype SaleRecord = SaleRecord(
    id: string,
    minifigId: string,
    salePrice: real,
    platform: SalePlatform,
    platformFee: real,
    shippingCost: real,
    shippingCharged: real,
    costBasis: real,
    netProfit: real,
    date: string,
    notes: string,
    dateCreated: string)

  datatype PurchaseLotItem = PurchaseLotItem(minifigId: string, allocatedCost: real)

  /** A bulk purchase whose cost is spread over its items. */
  datatype PurchaseLot = PurchaseLot(
    id: string,
    name: string,
    source: string,
    totalCost: real,
    items: seq<PurchaseLotItem>,
    notes: string,
    dateCreated: string,
    dateModified: string)

  datatype ExportHistoryEntry = ExportHistoryEntry(id: string, date: string, itemCount: int, filename: string)

  /** A market price record: new and used averages and the BrickLink item number. */
  datatype PriceEntry = PriceEntry(valueNew: Option<real>, valueUsed: Option<real>, bricklinkId: Option<string>)

  /** The Whatnot export settings. */
  datatype ExportSettings = ExportSettings(
    shippingPrice: string,
    defaultCondition: string,
    descriptionTemplate: string,
    markupPercent: Option<real>,
    roundTo99: Option<bool>)

  /** JavaScript truthiness of a string: only the empty string is falsy. */
  predicate Truthy(s: string) { s != "" }

  /** `a || b` on strings. */
  function OrElse(a: string, b: string): string { if a != "" then a else b }

  /** The string values of the statuses and conditions. */
  function StatusName(s: ItemStatus): string
  {
    match s
    case Owned => "owned"
    case Wanted => "wanted"
    case ForSale => "for-sale"
    case Sold => "sold"
  }

  function ConditionName(c: ItemCondition): string
  {
    match c
    case New => "new"
    case Used => "used"
    case Damaged => "damaged"
  }

  /** JavaScript's `Math.round`: halves round up. */
  function Round(x: real): (r: int)
    ensures x - 0.5 < r as real <= x + 0.5
  {
    (x + 0.5).Floor
  }

  /** `Math.floor`. */
  function Floor(x: real): (r: int)
    ensures r as real <= x < r as real + 1.0
  {
    x.Floor
  }

  /** `Math.round(x * 100) / 100`: to the nearest cent. */
  function RoundCents(x: real): (r: real)
    ensures x - 0.005 < r <= x + 0.005
    ensures IsCents(r)
  {
    Round(x * 100.0) as real / 100.0
  }

  /** `Math.floor(x * 100) / 100`: down to the cent. */
  function FloorCents(x: real): (r: real)
    ensures x - 0.01 < r <= x
    ensures IsCents(r)
  {
    var f := Floor(x * 100.0);
    FloorOfInt(f);
    assert f as real / 100.0 * 100.0 == f as real;
    f as real / 100.0
  }

  /** A whole number of cents. */
  predicate IsCents(x: real) { (x * 100.0).Floor as real == x * 100.0 }

  /** The number of cents in an amount (whole cents for the amounts `IsCents` admits). */
  function Cents(x: real): int { (x * 100.0).Floor }

  lemma FloorOfInt(i: int)
    ensures (i as real).Floor == i
  {
  }

  lemma FloorMono(a: real, b: real)
    requires a <= b
    ensures Floor(a) <= Floor(b)
  {
  }

  lemma FloorShift(x: real, k: int)
    ensures Floor(x + k as real) == Floor(x) + k
  {
  }

  lemma RoundOfInt(i: int)
    ensures Round(i as real) == i
  {
  }

  lemma RoundMono(a: real, b: real)
    requires a <= b
    ensures Round(a) <= Round(b)
  {
  }

  lemma RoundCentsMono(a: real, b: real)
    requires a <= b
    ensures RoundCents(a) <= RoundCents(b)
  {
    RoundMono(a * 100.0, b * 100.0);
  }

  /** Rounding commutes with adding a whole number. */
  lemma RoundShift(y: real, k: int)
    ensures Round(y + k as real) == Round(y) + k
  {
  }

  /** A whole-cent amount is its cent count over 100. */
  lemma CentsOf(x: real)
    requires IsCents(x)
    ensures x * 100.0 == Cents(x) as real && x == Cents(x) as real / 100.0
  {
  }

  /** An amount of `c / 100` dollars is whole cents. */
  lemma IsCentsOf(c: int)
    ensures IsCents(c as real / 100.0) && Cents(c as real / 100.0) == c
  {
    assert c as real / 100.0 * 100.0 == c as real;
    FloorOfInt(c);
  }

  /** The sign of a number, which is all that `sort` reads from a comparator. */
  function Sign(x: real): int
  {
    if x < 0.0 then -1 else if x > 0.0 then 1 else 0
  }
}
