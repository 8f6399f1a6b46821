/**
 * The Whatnot export: quoting of fields (section 2 of RFC 4180: a field
 * holding a comma, a double quote or a line break is enclosed in double
 * quotes and its quotes are doubled), the rows built for the for-sale
 * entries, with the split of cracked and intact copies, and the CSV text.
 */
module CsvExport {
  import opened Wrappers
  import opened Types
  import opened Strings
  import opened Finance
  import PriceService
  import CsvImport

  // ---------------------------------------------------------------------
  // Quoting
  // ---------------------------------------------------------------------

  predicate NeedsQuotes(value: string)
  {
    ',' in value || '"' in value || '\n' in value
  }

  /** `value.replace(/"/g, '""')`. */
  function DoubleQuotes(value: string): (r: string)
    ensures |r| >= |value|
  {
    if value == [] then []
    else (if value[0] == '"' then "\"\"" else [value[0]]) + DoubleQuotes(value[1..])
  }

  /** `escapeCSV`: unchanged unless it must be quoted, else quoted with its quotes doubled. */
  function EscapeCSV(value: string): (r: string)
    ensures !NeedsQuotes(value) ==> r == value
    ensures NeedsQuotes(value) ==> |r| >= 2 && r[0] == '"' && r[|r| - 1] == '"'
    ensures |r| >= |value|
  {
    if NeedsQuotes(value) then "\"" + DoubleQuotes(value) + "\"" else value
  }

  /** Doubling quotes neither adds nor removes a line break. */
  lemma {:induction false} DoubleQuotesNewline(value: string)
    ensures '\n' in DoubleQuotes(value) <==> '\n' in value
  {
    if value != [] {
      DoubleQuotesNewline(value[1..]);
      assert value == [value[0]] + value[1..];
    }
  }

  /** Inside quotes, a doubled-quote text followed by the closing quote reads back as the text. */
  lemma {:induction false} QuotedChars(f: string, rest: string, current: string, done: seq<string>)
    requires rest == [] || rest[0] != '"'
    ensures CsvImport.Scan(DoubleQuotes(f) + "\"" + rest, true, current, done)
         == CsvImport.Scan(rest, false, current + f, done)
  {
    if f == [] {
      assert DoubleQuotes(f) + "\"" + rest == "\"" + rest;
      assert ("\"" + rest)[1..] == rest;
      assert current + f == current;
    } else {
      QuotedStep(f, rest, current, done);
      QuotedChars(f[1..], rest, current + [f[0]], done);
      assert current + [f[0]] + f[1..] == current + f;
    }
  }

  /** Inside quotes, a doubled quote reads as one quote and any other character as itself. */
  lemma QuotedStep(f: string, rest: string, current: string, done: seq<string>)
    requires f != []
    ensures CsvImport.Scan(DoubleQuotes(f) + "\"" + rest, true, current, done)
         == CsvImport.Scan(DoubleQuotes(f[1..]) + "\"" + rest, true, current + [f[0]], done)
  {
    var tail := DoubleQuotes(f[1..]) + "\"" + rest;
    var head := if f[0] == '"' then "\"\"" else [f[0]];
    assert DoubleQuotes(f) == head + DoubleQuotes(f[1..]);
    assert DoubleQuotes(f) + "\"" + rest == head + tail;
    assert (head + tail)[|head|..] == tail;
  }

  /** Outside quotes, a text without commas and quotes reads back as itself. */
  lemma {:induction false} PlainChars(f: string, rest: string, current: string, done: seq<string>)
    requires ',' !in f && '"' !in f
    ensures CsvImport.Scan(f + rest, false, current, done) == CsvImport.Scan(rest, false, current + f, done)
  {
    if f == [] {
      assert f + rest == rest && current + f == current;
    } else {
      PlainChars(f[1..], rest, current + [f[0]], done);
      assert (f + rest)[0] == f[0] && (f + rest)[1..] == f[1..] + rest;
      assert current + [f[0]] + f[1..] == current + f;
    }
  }

  /** An escaped field followed by a comma or the end of the line reads back as the field. */
  lemma EscapedField(f: string, rest: string, current: string, done: seq<string>)
    requires rest == [] || rest[0] == ','
    ensures CsvImport.Scan(EscapeCSV(f) + rest, false, current, done)
         == CsvImport.Scan(rest, false, current + f, done)
  {
    if NeedsQuotes(f) {
      var inner := DoubleQuotes(f) + "\"" + rest;
      assert EscapeCSV(f) + rest == "\"" + inner;
      OpenQuote(inner, current, done);
      QuotedChars(f, rest, current, done);
    } else {
      PlainChars(f, rest, current, done);
    }
  }

  /** An opening quote outside quotes is dropped and starts a quoted run. */
  lemma OpenQuote(inner: string, current: string, done: seq<string>)
    ensures CsvImport.Scan("\"" + inner, false, current, done) == CsvImport.Scan(inner, true, current, done)
  {
    assert ("\"" + inner)[1..] == inner;
  }

  /** `fields.map(escapeCSV)`. */
  function EscapeAll(fields: seq<string>): (r: seq<string>)
    ensures |r| == |fields|
  {
    if fields == [] then [] else [EscapeCSV(fields[0])] + EscapeAll(fields[1..])
  }

  /** `fields.map(escapeCSV).join(',')`. */
  function Line(fields: seq<string>): string
  {
    Join(EscapeAll(fields), ",")
  }

  lemma {:induction false} ScanLine(fields: seq<string>, done: seq<string>)
    requires |fields| >= 1
    ensures CsvImport.Scan(Line(fields), false, [], done) == done + fields
  {
    var e := EscapeCSV(fields[0]);
    if |fields| == 1 {
      assert Line(fields) == e + [];
      EscapedField(fields[0], [], [], done);
      assert [] + fields[0] == fields[0];
    } else {
      var rest := "," + Line(fields[1..]);
      assert Line(fields) == e + rest;
      EscapedField(fields[0], rest, [], done);
      assert [] + fields[0] == fields[0];
      assert rest[1..] == Line(fields[1..]);
      ScanLine(fields[1..], done + [fields[0]]);
      assert done + [fields[0]] + fields[1..] == done + fields;
    }
  }

  /**
   * The importer's `splitCSVLine` reads an exported line back as the
   * fields it was made from, whatever commas and quotes they hold.
   */
  lemma SplitEscapedLine(fields: seq<string>)
    requires |fields| >= 1
    ensures CsvImport.Fields(Line(fields)) == fields
  {
    ScanLine(fields, []);
    assert [] + fields == fields;
  }

  /** A single escaped field reads back as itself. */
  lemma SplitEscaped(f: string)
    ensures CsvImport.Fields(EscapeCSV(f)) == [f]
  {
    SplitEscapedLine([f]);
    assert Line([f]) == EscapeCSV(f);
  }

  /** A line has a line break only when one of its fields does. */
  lemma {:induction false} LineNewline(fields: seq<string>)
    requires forall i :: 0 <= i < |fields| ==> '\n' !in fields[i]
    ensures '\n' !in Line(fields)
  {
    if fields != [] {
      DoubleQuotesNewline(fields[0]);
      assert '\n' !in EscapeCSV(fields[0]);
      if |fields| > 1 {
        LineNewline(fields[1..]);
        assert Line(fields) == EscapeCSV(fields[0]) + "," + Line(fields[1..]);
      }
    }
  }

  // ---------------------------------------------------------------------
  // Rows
  // ---------------------------------------------------------------------

  /** One line of the Whatnot file, its sixteen columns in header order. */
  datatype WhatnotRow = WhatnotRow(
    title: string,
    description: string,
    sku: string,
    quantity: string,
    price: string,
    shippingPrice: string,
    category: string,
    subCategory: string,
    condition: string,
    shipping: string,
    hazmat: string,
    photo1: string,
    photo2: string,
    photo3: string,
    photo4: string,
    photo5: string)

  /** `Object.keys(rows[0])`: the keys in the order the row literal lists them. */
  const Headers: seq<string> := [
    "Title", "Description", "SKU", "Quantity", "Price", "Shipping Price", "Category", "Sub Category",
    "Condition", "Shipping", "Hazmat", "Photo 1 URL", "Photo 2 URL", "Photo 3 URL", "Photo 4 URL", "Photo 5 URL"]

  /** `headers.map(h => row[h])`. */
  function Cells(row: WhatnotRow): (r: seq<string>)
    ensures |r| == |Headers|
  {
    [row.title, row.description, row.sku, row.quantity, row.price, row.shippingPrice, row.category,
     row.subCategory, row.condition, row.shipping, row.hazmat, row.photo1, row.photo2, row.photo3,
     row.photo4, row.photo5]
  }

  /** One for-sale entry with its catalog record. */
  datatype ForSaleItem = ForSaleItem(entry: CollectionEntry, minifig: CatalogMinifig)

  /** The template with the first occurrence of each placeholder filled in. */
  function Description(template: string, entry: CollectionEntry, minifig: CatalogMinifig): string
  {
    var s1 := ReplaceFirst(template, "{name}", minifig.name);
    var s2 := ReplaceFirst(s1, "{id}", minifig.id);
    var s3 := ReplaceFirst(s2, "{year}", IntToString(minifig.year));
    var s4 := ReplaceFirst(s3, "{condition}", ConditionName(entry.condition));
    ReplaceFirst(s4, "{notes}", entry.notes)
  }

  /** `conditionMap[entry.condition] || settings.defaultCondition`. */
  function ConditionLabel(c: ItemCondition, fallback: string): (r: string)
    ensures c == New ==> r == "Brand New"
    ensures c != New ==> r == "Used"
  {
    var mapped := match c
      case New => "Brand New"
      case Used => "Used"
      case Damaged => "Used";
    OrElse(mapped, fallback)
  }

  /** The price before markup or rounding: asking price, else market price, else 0. */
  function ListPrice(entry: CollectionEntry, minifig: CatalogMinifig, prices: map<string, PriceEntry>): real
  {
    entry.askingPrice.GetOr(PriceService.MarketPrice(prices, minifig.id).GetOr(0.0))
  }

  /** Markup over the price paid applies only for a positive markup and a known price paid. */
  predicate MarkupApplies(entry: CollectionEntry, settings: ExportSettings)
  {
    settings.markupPercent.Some? && settings.markupPercent.value != 0.0
    && settings.markupPercent.value > 0.0 && entry.pricePaid.Some?
  }

  /**
   * The exported price: the markup over the price paid when it applies;
   * otherwise the list price, given a .99 ending when rounding is on and
   * the price is positive.
   */
  function ExportPrice(entry: CollectionEntry, minifig: CatalogMinifig, settings: ExportSettings,
                       prices: map<string, PriceEntry>): (r: real)
    ensures MarkupApplies(entry, settings) ==> IsCents(r)
    ensures MarkupApplies(entry, settings) && settings.roundTo99 != Some(true) ==>
      r == ApplyMarkup(entry.pricePaid.value, settings.markupPercent.value)
    ensures MarkupApplies(entry, settings) && settings.roundTo99 == Some(true) ==>
      Floor(r) == Floor(ApplyMarkup(entry.pricePaid.value, settings.markupPercent.value))
      && r - Floor(r) as real == 0.99
    ensures !MarkupApplies(entry, settings) && settings.roundTo99 == Some(true) && ListPrice(entry, minifig, prices) > 0.0 ==>
      r == RoundTo99(ListPrice(entry, minifig, prices))
    ensures !MarkupApplies(entry, settings) && !(settings.roundTo99 == Some(true) && ListPrice(entry, minifig, prices) > 0.0) ==>
      r == ListPrice(entry, minifig, prices)
  {
    var price := ListPrice(entry, minifig, prices);
    if MarkupApplies(entry, settings) then
      ApplyMarkupAndRound(entry.pricePaid.value, settings.markupPercent.value, settings.roundTo99.GetOr(false))
    else if settings.roundTo99 == Some(true) && price > 0.0 then
      Floor(price) as real + 0.99
    else price
  }

  /** `entry.crackedQuantity ?? 0`. */
  function Cracked(entry: CollectionEntry): int
  {
    entry.crackedQuantity.GetOr(0)
  }

  /** `photos[k] ?? ''`. */
  function PhotoAt(photos: seq<string>, k: nat): string
  {
    if k < |photos| then photos[k] else ""
  }

  const TitlePrefix: string := "LEGO Star Wars Minifigure - "

  /** A number formatter that writes a whole number as `String(n)` does: its decimal digits, '-' first when negative. */
  ghost predicate WritesIntegers(numberText: real -> string)
  {
    forall n: int :: numberText(n as real) == IntToString(n)
  }

  /**
   * The row every copy of an item shares, before its quantity is filled
   * in: the mapped condition and no cracked suffix.
   */
  function PlainRow(item: ForSaleItem, settings: ExportSettings, prices: map<string, PriceEntry>,
                    numberText: real -> string): WhatnotRow
  {
    var entry := item.entry;
    var minifig := item.minifig;
    var photos := entry.photoUrls.GetOr([]);
    WhatnotRow(
      TitlePrefix + minifig.name,
      Description(settings.descriptionTemplate, entry, minifig),
      OrElse(entry.sku, minifig.id),
      "",
      numberText(ExportPrice(entry, minifig, settings, prices)),
      OrElse(settings.shippingPrice, "0"),
      "Toys & Hobbies",
      "LEGO",
      ConditionLabel(entry.condition, settings.defaultCondition),
      "1-3 oz",
      "Not Hazmat",
      OrElse(entry.customImageUrl, minifig.imageUrl),
      PhotoAt(photos, 0),
      PhotoAt(photos, 1),
      PhotoAt(photos, 2),
      PhotoAt(photos, 3))
  }

  /**
   * A whole-dollar export price survives the trip through the import
   * side: `parseFloat` with '$' and ',' stripped reads the Price cell back
   * as the price exported.
   */
  lemma ExportedPriceReadsBack(item: ForSaleItem, settings: ExportSettings, prices: map<string, PriceEntry>,
                               numberText: real -> string, n: int)
    requires WritesIntegers(numberText)
    requires ExportPrice(item.entry, item.minifig, settings, prices) == n as real
    ensures CsvImport.SalePrice(PlainRow(item, settings, prices, numberText).price) == n as real
  {
    var text := IntToString(n);
    assert PlainRow(item, settings, prices, numberText).price == text;
    assert '$' !in text && ',' !in text by {
      var d := NatToString(if n < 0 then -n else n);
      assert forall i :: 0 <= i < |d| ==> IsDigit(d[i]);
      assert text == d || text == "-" + d;
    }
    ParseFloatOfIntToString(n);
  }

  /** The same row marked as cracked copies: title and SKU suffixes and condition 'Used'. */
  function CrackedRow(row: WhatnotRow): WhatnotRow
  {
    row.(title := row.title + " (Cracked)", sku := row.sku + "-CRACKED", condition := "Used")
  }

  /**
   * The rows for `quantity` copies sharing `row`, `cracked` of them
   * cracked: two rows when there are both cracked and intact copies, else
   * one, marked cracked when every copy is, with condition 'Used' when any is.
   */
  function SplitCopies(row: WhatnotRow, quantity: int, cracked: int): (r: seq<WhatnotRow>)
    ensures 1 <= |r| <= 2
  {
    if cracked > 0 && quantity - cracked > 0 then
      [row.(quantity := IntToString(quantity - cracked)), CrackedRow(row).(quantity := IntToString(cracked))]
    else if cracked > 0 && cracked == quantity then
      [CrackedRow(row).(quantity := IntToString(quantity))]
    else if cracked > 0 then
      [row.(quantity := IntToString(quantity), condition := "Used")]
    else
      [row.(quantity := IntToString(quantity))]
  }

  /** The rows for one item. */
  function ItemRows(item: ForSaleItem, settings: ExportSettings, prices: map<string, PriceEntry>,
                    numberText: real -> string): seq<WhatnotRow>
  {
    SplitCopies(PlainRow(item, settings, prices, numberText), item.entry.quantity, Cracked(item.entry))
  }

  /** `buildWhatnotRows`'s result: the items' rows, in item order. */
  function WhatnotRows(items: seq<ForSaleItem>, settings: ExportSettings, prices: map<string, PriceEntry>,
                       numberText: real -> string): (r: seq<WhatnotRow>)
    ensures |items| <= |r| <= 2 * |items|
  {
    if items == [] then []
    else
      var n := |items| - 1;
      WhatnotRows(items[..n], settings, prices, numberText) + ItemRows(items[n], settings, prices, numberText)
  }

  /** The loop body for one item, computing its rows as `buildWhatnotRows` does. */
  method BuildItemRows(item: ForSaleItem, settings: ExportSettings, prices: map<string, PriceEntry>,
                       numberText: real -> string) returns (rows: seq<WhatnotRow>)
    ensures rows == ItemRows(item, settings, prices, numberText)
  {
    var entry := item.entry;
    var minifig := item.minifig;
    var price := ListPrice(entry, minifig, prices);
    if MarkupApplies(entry, settings) {
      price := ApplyMarkupAndRound(entry.pricePaid.value, settings.markupPercent.value, settings.roundTo99.GetOr(false));
    } else if settings.roundTo99 == Some(true) && price > 0.0 {
      price := Floor(price) as real + 0.99;
    }
    var photos := entry.photoUrls.GetOr([]);
    var row := WhatnotRow(
      TitlePrefix + minifig.name, Description(settings.descriptionTemplate, entry, minifig),
      OrElse(entry.sku, minifig.id), "", numberText(price),
      OrElse(settings.shippingPrice, "0"), "Toys & Hobbies", "LEGO",
      ConditionLabel(entry.condition, settings.defaultCondition), "1-3 oz", "Not Hazmat",
      OrElse(entry.customImageUrl, minifig.imageUrl),
      PhotoAt(photos, 0), PhotoAt(photos, 1), PhotoAt(photos, 2), PhotoAt(photos, 3));
    assert row == PlainRow(item, settings, prices, numberText);
    var cracked := entry.crackedQuantity.GetOr(0);
    rows := CopyRows(row, entry.quantity, cracked);
  }

  /** The branch of the loop body that emits the rows for the copies. */
  method CopyRows(row: WhatnotRow, totalQty: int, cracked: int) returns (rows: seq<WhatnotRow>)
    ensures rows == SplitCopies(row, totalQty, cracked)
  {
    var normalQty := totalQty - cracked;
    if cracked > 0 && normalQty > 0 {
      rows := [row.(quantity := IntToString(normalQty)),
               row.(title := row.title + " (Cracked)", sku := row.sku + "-CRACKED",
                    quantity := IntToString(cracked), condition := "Used")];
    } else {
      var allCracked := cracked > 0 && cracked == totalQty;
      var titleSuffix := if allCracked then " (Cracked)" else "";
      var skuSuffix := if allCracked then "-CRACKED" else "";
      assert row.title + "" == row.title && row.sku + "" == row.sku;
      rows := [row.(title := row.title + titleSuffix, sku := row.sku + skuSuffix,
                    quantity := IntToString(totalQty), condition := if cracked > 0 then "Used" else row.condition)];
    }
  }

  /** `buildWhatnotRows`: the loop over the for-sale items. */
  method BuildWhatnotRows(items: seq<ForSaleItem>, settings: ExportSettings, prices: map<string, PriceEntry>,
                          numberText: real -> string) returns (rows: seq<WhatnotRow>)
    ensures rows == WhatnotRows(items, settings, prices, numberText)
  {
    rows := [];
    for i := 0 to |items|
      invariant rows == WhatnotRows(items[..i], settings, prices, numberText)
    {
      assert items[..i + 1][..i] == items[..i];
      var itemRows := BuildItemRows(items[i], settings, prices, numberText);
      rows := rows + itemRows;
    }
    assert items[..|items|] == items;
  }

  /** The number a quantity cell holds. */
  function QuantityOf(row: WhatnotRow): int
  {
    match ParseInt(row.quantity)
    case Some(n) => n
    case None => 0
  }

  /** A quantity cell written by `String(n)` reads back as `n`. */
  lemma QuantityOfText(row: WhatnotRow, n: int)
    requires row.quantity == IntToString(n)
    ensures QuantityOf(row) == n
  {
    ParseIntOfIntToString(n);
  }

  /** The quantities of the rows add up to the copies. */
  lemma CopiesQuantity(row: WhatnotRow, quantity: int, cracked: int)
    ensures var r := SplitCopies(row, quantity, cracked);
      (if |r| == 1 then QuantityOf(r[0]) else QuantityOf(r[0]) + QuantityOf(r[1])) == quantity
  {
    var r := SplitCopies(row, quantity, cracked);
    if cracked > 0 && quantity - cracked > 0 {
      QuantityOfText(r[0], quantity - cracked);
      QuantityOfText(r[1], cracked);
    } else {
      QuantityOfText(r[0], quantity);
    }
  }

  /**
   * With both cracked and intact copies, the second row is the first
   * marked cracked, with the cracked count; everything else is shared.
   */
  lemma SplitRows(row: WhatnotRow, quantity: int, cracked: int)
    requires cracked > 0 && quantity - cracked > 0
    ensures var r := SplitCopies(row, quantity, cracked);
      && |r| == 2
      && r[1].title == r[0].title + " (Cracked)" && r[1].sku == r[0].sku + "-CRACKED"
      && r[1].condition == "Used"
      && QuantityOf(r[0]) == quantity - cracked && QuantityOf(r[1]) == cracked
      && r[1].(title := r[0].title, sku := r[0].sku, condition := r[0].condition, quantity := r[0].quantity) == r[0]
  {
    var r := SplitCopies(row, quantity, cracked);
    QuantityOfText(r[0], quantity - cracked);
    QuantityOfText(r[1], cracked);
  }

  /**
   * Otherwise a single row with the whole quantity: cracked suffixes
   * exactly when every copy is cracked, and condition 'Used' whenever a
   * copy is.
   */
  lemma SingleRow(row: WhatnotRow, quantity: int, cracked: int)
    requires !(cracked > 0 && quantity - cracked > 0)
    ensures var r := SplitCopies(row, quantity, cracked);
      && |r| == 1 && QuantityOf(r[0]) == quantity
      && (cracked > 0 && cracked == quantity ==> r[0].title == row.title + " (Cracked)" && r[0].sku == row.sku + "-CRACKED")
      && (!(cracked > 0 && cracked == quantity) ==> r[0].title == row.title && r[0].sku == row.sku)
      && (cracked > 0 ==> r[0].condition == "Used")
      && (cracked <= 0 ==> r[0].condition == row.condition)
  {
    QuantityOfText(SplitCopies(row, quantity, cracked)[0], quantity);
  }

  /** Every row keeps the shared row's description, SKU prefix, price, shipping and photos. */
  lemma CopiesShare(row: WhatnotRow, quantity: int, cracked: int, i: nat)
    requires i < |SplitCopies(row, quantity, cracked)|
    ensures var r := SplitCopies(row, quantity, cracked)[i];
      && StartsWith(r.sku, row.sku) && StartsWith(r.title, row.title)
      && r.(title := row.title, sku := row.sku, quantity := row.quantity, condition := row.condition) == row
  {
    assert (row.sku + "-CRACKED")[..|row.sku|] == row.sku;
    assert (row.title + " (Cracked)")[..|row.title|] == row.title;
  }

  /**
   * The shared row of an item carries its SKU (the custom one, else the
   * minifigure id), its main photo (the custom image, else the catalog
   * image), its first four extra photos, or '' past the end, its price and
   * its whole quantity.
   */
  lemma PlainRowFields(item: ForSaleItem, settings: ExportSettings, prices: map<string, PriceEntry>,
                       numberText: real -> string)
    ensures var row := PlainRow(item, settings, prices, numberText);
      var photos := item.entry.photoUrls.GetOr([]);
      && row.sku == OrElse(item.entry.sku, item.minifig.id)
      && row.photo1 == OrElse(item.entry.customImageUrl, item.minifig.imageUrl)
      && (|photos| > 0 ==> row.photo2 == photos[0]) && (|photos| == 0 ==> row.photo2 == "")
      && (|photos| > 3 ==> row.photo5 == photos[3]) && (|photos| <= 3 ==> row.photo5 == "")
      && row.price == numberText(ExportPrice(item.entry, item.minifig, settings, prices))
      && row.shippingPrice == OrElse(settings.shippingPrice, "0")
      && (item.entry.condition == New ==> row.condition == "Brand New")
      && (item.entry.condition != New ==> row.condition == "Used")
  {
  }

  /** A template without placeholders is the description as it stands. */
  lemma DescriptionOfPlainTemplate(template: string, entry: CollectionEntry, minifig: CatalogMinifig)
    requires '{' !in template
    ensures Description(template, entry, minifig) == template
  {
    forall pat: string | |pat| > 0 && pat[0] == '{'
      ensures IndexOf(template, pat).None?
    {
      forall j: int
        ensures !OccursAt(template, pat, j)
      {
        if 0 <= j && j + |pat| <= |template| {
          assert template[j..j + |pat|][0] == template[j];
        }
      }
    }
    assert "{name}"[0] == '{' && "{id}"[0] == '{' && "{year}"[0] == '{';
    assert "{condition}"[0] == '{' && "{notes}"[0] == '{';
  }

  /** Only the first `{name}` is filled in: a second one stays in the text. */
  lemma OnlyFirstName(before: string, after: string, entry: CollectionEntry, minifig: CatalogMinifig)
    requires '{' !in before && '$' !in minifig.name
    ensures ReplaceFirst(before + "{name}" + after, "{name}", minifig.name) == before + minifig.name + after
  {
    var s := before + "{name}" + after;
    var i := |before|;
    assert OccursAt(s, "{name}", i) by {
      assert s[i..i + 6] == "{name}";
    }
    forall j | 0 <= j < i
      ensures !OccursAt(s, "{name}", j)
    {
      if j + 6 <= |s| {
        assert s[j..j + 6][0] == s[j] == before[j];
      }
    }
    SubstitutionLiteral(minifig.name, s[..i], "{name}", s[i + 6..]);
    assert s[..i] == before && s[i + 6..] == after;
  }

  // ---------------------------------------------------------------------
  // The file
  // ---------------------------------------------------------------------

  /** One escaped line per row, in row order. */
  function RowLines(rows: seq<WhatnotRow>): (r: seq<string>)
    ensures |r| == |rows|
  {
    if rows == [] then [] else [Line(Cells(rows[0]))] + RowLines(rows[1..])
  }

  /** `generateCSV`: nothing for no rows, else the header line and the row lines joined by '\n'. */
  function GenerateCSV(rows: seq<WhatnotRow>): (r: string)
    ensures rows == [] <==> r == ""
  {
    if rows == [] then ""
    else
      var lines := [Line(Headers)] + RowLines(rows);
      HeaderLineNonEmpty();
      JoinStarts(lines, "\n");
      Join(lines, "\n")
  }

  lemma HeaderLineNonEmpty()
    ensures |Line(Headers)| >= 5
  {
    JoinStarts(EscapeAll(Headers), ",");
    assert EscapeAll(Headers)[0] == EscapeCSV(Headers[0]);
  }

  /** No header holds a line break. */
  lemma HeadersSingleLine()
    ensures forall k :: 0 <= k < |Headers| ==> '\n' !in Headers[k]
  {
  }

  lemma HeaderLineSingle()
    ensures '\n' !in Line(Headers)
  {
    HeadersSingleLine();
    LineNewline(Headers);
  }

  lemma RowLineSingle(rows: seq<WhatnotRow>, i: nat)
    requires i < |rows| && SingleLineCells(rows)
    ensures '\n' !in RowLines(rows)[i]
  {
    RowLinesAt(rows, i);
    var cells := Cells(rows[i]);
    assert forall k :: 0 <= k < |cells| ==> '\n' !in cells[k];
    LineNewline(cells);
  }

  lemma {:induction false} JoinStarts(parts: seq<string>, sep: string)
    requires |parts| >= 1
    ensures |Join(parts, sep)| >= |parts[0]|
  {
  }

  lemma {:induction false} RowLinesAt(rows: seq<WhatnotRow>, i: nat)
    requires i < |rows|
    ensures RowLines(rows)[i] == Line(Cells(rows[i]))
  {
    if i > 0 {
      RowLinesAt(rows[1..], i - 1);
    }
  }

  /** No cell of any row holds a line break. */
  predicate SingleLineCells(rows: seq<WhatnotRow>)
  {
    forall i, k :: 0 <= i < |rows| && 0 <= k < |Headers| ==> '\n' !in Cells(rows[i])[k]
  }

  /**
   * When no cell holds a line break, the file splits into the header line
   * and one line per row, and the importer's field splitter reads every
   * line back as the headers and each row's cells.
   */
  lemma GenerateCSVLines(rows: seq<WhatnotRow>)
    requires rows != [] && SingleLineCells(rows)
    ensures var lines := Split(GenerateCSV(rows), '\n');
      && |lines| == |rows| + 1
      && CsvImport.Fields(lines[0]) == Headers
      && forall i :: 0 <= i < |rows| ==> CsvImport.Fields(lines[i + 1]) == Cells(rows[i])
  {
    var header := Line(Headers);
    HeaderLineSingle();
    SplitFile(header, rows);
    SplitEscapedLine(Headers);
    forall i | 0 <= i < |rows|
      ensures CsvImport.Fields(RowLines(rows)[i]) == Cells(rows[i])
    {
      RowLinesAt(rows, i);
      SplitEscapedLine(Cells(rows[i]));
    }
  }

  /** The file splits back into the header line and the row lines. */
  lemma SplitFile(header: string, rows: seq<WhatnotRow>)
    requires '\n' !in header && SingleLineCells(rows)
    ensures Split(Join([header] + RowLines(rows), "\n"), '\n') == [header] + RowLines(rows)
  {
    var lines := [header] + RowLines(rows);
    forall k | 0 <= k < |lines|
      ensures '\n' !in lines[k]
    {
      if k > 0 {
        RowLineSingle(rows, k - 1);
      }
    }
    SplitJoin(lines, '\n');
  }
}
