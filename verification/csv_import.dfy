/**
 * The sales-CSV reader: quote-aware field splitting (section 2 of RFC 4180:
 * a comma inside double quotes does not separate fields, and a doubled
 * quote inside quotes stands for one quote), the header-keyed row parser,
 * column auto-detection and the matching of sale rows to collection
 * entries by SKU, by a `fig-` number in the title, or by a cracked SKU.
 */
module CsvImport {
  import opened Wrappers
  import opened Types
  import opened Strings
  import opened OrderedMap
  import Seqs

  // ---------------------------------------------------------------------
  // Splitting a line into fields
  // ---------------------------------------------------------------------

  /**
   * The fields read from `rest` by a scan that starts inside quotes or not,
   * with `current` read of the field in progress and `done` finished.
   */
  function Scan(rest: string, inQuotes: bool, current: string, done: seq<string>): (r: seq<string>)
    ensures |r| > |done| && r[..|done|] == done
    decreases |rest|
  {
    if rest == [] then done + [current]
    else if rest[0] == '"' then
      if inQuotes && |rest| > 1 && rest[1] == '"' then Scan(rest[2..], true, current + ['"'], done)
      else Scan(rest[1..], !inQuotes, current, done)
    else if rest[0] == ',' && !inQuotes then
      var r := Scan(rest[1..], false, [], done + [current]);
      assert r[..|done|] == r[..|done| + 1][..|done|];
      r
    else Scan(rest[1..], inQuotes, current + [rest[0]], done)
  }

  /** The fields of one line. */
  function Fields(line: string): (r: seq<string>)
    ensures |r| >= 1
  {
    Scan(line, false, [], [])
  }

  /** `splitCSVLine`: the character loop that produces `Fields(line)`. */
  method SplitCSVLine(line: string) returns (result: seq<string>)
    ensures result == Fields(line)
  {
    result := [];
    var current: string := [];
    var inQuotes := false;
    var i := 0;
    while i < |line|
      invariant 0 <= i <= |line|
      invariant Scan(line[i..], inQuotes, current, result) == Fields(line)
      decreases |line| - i
    {
      var ch := line[i];
      assert line[i..][1..] == line[i + 1..];
      if ch == '"' {
        if inQuotes && i + 1 < |line| && line[i + 1] == '"' {
          assert line[i..][2..] == line[i + 2..];
          current := current + ['"'];
          i := i + 1;
        } else {
          inQuotes := !inQuotes;
        }
      } else if ch == ',' && !inQuotes {
        result := result + [current];
        current := [];
      } else {
        current := current + [ch];
      }
      i := i + 1;
    }
    result := result + [current];
  }

  /** The commas a scan starting inside quotes or not reads outside quotes. */
  function UnquotedCommas(rest: string, inQuotes: bool): nat
    decreases |rest|
  {
    if rest == [] then 0
    else if rest[0] == '"' then
      if inQuotes && |rest| > 1 && rest[1] == '"' then UnquotedCommas(rest[2..], true)
      else UnquotedCommas(rest[1..], !inQuotes)
    else (if rest[0] == ',' && !inQuotes then 1 else 0) + UnquotedCommas(rest[1..], inQuotes)
  }

  /** Every comma outside quotes ends a field: there is one field more than such commas. */
  lemma {:induction false} ScanCount(rest: string, inQuotes: bool, current: string, done: seq<string>)
    ensures |Scan(rest, inQuotes, current, done)| == |done| + 1 + UnquotedCommas(rest, inQuotes)
    decreases |rest|
  {
    if rest == [] {
    } else if rest[0] == '"' {
      if inQuotes && |rest| > 1 && rest[1] == '"' {
        ScanCount(rest[2..], true, current + ['"'], done);
      } else {
        ScanCount(rest[1..], !inQuotes, current, done);
      }
    } else if rest[0] == ',' && !inQuotes {
      ScanCount(rest[1..], false, [], done + [current]);
    } else {
      ScanCount(rest[1..], inQuotes, current + [rest[0]], done);
    }
  }

  /** A line has one field more than it has commas outside quotes. */
  lemma FieldCount(line: string)
    ensures |Fields(line)| == UnquotedCommas(line, false) + 1
  {
    ScanCount(line, false, [], []);
  }

  lemma {:induction false} QuoteFreeScan(rest: string, current: string, done: seq<string>)
    requires '"' !in rest && ',' !in current
    ensures var r := Scan(rest, false, current, done);
      Join(r[|done|..], ",") == current + rest && forall k :: |done| <= k < |r| ==> ',' !in r[k]
    decreases |rest|
  {
    var r := Scan(rest, false, current, done);
    if rest == [] {
      assert r[|done|..] == [current];
    } else if rest[0] == ',' {
      QuoteFreeScan(rest[1..], [], done + [current]);
      var t := r[|done| + 1..];
      assert r[|done|..] == [current] + t;
      assert ([current] + t)[1..] == t;
      assert rest == [','] + rest[1..];
    } else {
      QuoteFreeScan(rest[1..], current + [rest[0]], done);
      assert current + [rest[0]] + rest[1..] == current + rest;
    }
  }

  /** A line without quote characters splits at every comma, as `line.split(',')` does. */
  lemma QuoteFreeFields(line: string)
    requires '"' !in line
    ensures Fields(line) == Split(line, ',')
  {
    QuoteFreeScan(line, [], []);
    assert Fields(line)[0..] == Fields(line);
    assert [] + line == line;
    SplitJoin(Fields(line), ',');
  }

  // ---------------------------------------------------------------------
  // Lines and rows
  // ---------------------------------------------------------------------

  /** A piece without the carriage return of a `\r\n` break. */
  function DropCR(s: string): (r: string)
    ensures r == s || (s == r + ['\r'])
  {
    if |s| > 0 && s[|s| - 1] == '\r' then s[..|s| - 1] else s
  }

  /** `text.split(/\r?\n/)`: the pieces between newlines, each but the last without its `\r`. */
  function SplitLines(text: string): (r: seq<string>)
    ensures |r| >= 1
    ensures forall i :: 0 <= i < |r| ==> '\n' !in r[i]
  {
    var pieces := Split(text, '\n');
    seq(|pieces|, i requires 0 <= i < |pieces| => if i < |pieces| - 1 then DropCR(pieces[i]) else pieces[i])
  }

  /** `.filter(l => l.trim())`: the lines that are not blank, in order. */
  function NonBlank(lines: seq<string>): (r: seq<string>)
    ensures |r| <= |lines|
    ensures forall l :: l in r <==> l in lines && Trim(l) != ""
  {
    if lines == [] then []
    else
      var n := |lines| - 1;
      assert lines == lines[..n] + [lines[n]];
      NonBlank(lines[..n]) + (if Trim(lines[n]) != "" then [lines[n]] else [])
  }

  /** The non-blank lines of a text. */
  function DataLines(text: string): (r: seq<string>)
    ensures forall i :: 0 <= i < |r| ==> Trim(r[i]) != "" && '\n' !in r[i]
  {
    var r := NonBlank(SplitLines(text));
    assert forall i :: 0 <= i < |r| ==> r[i] in r;
    r
  }

  /** `values[idx] ?? ''`. */
  function ValueAt(values: seq<string>, idx: nat): string
  {
    if idx < |values| then values[idx] else ""
  }

  /** `headers.map(h => h.trim())`. */
  function TrimAll(headers: seq<string>): (r: seq<string>)
    ensures |r| == |headers|
  {
    if headers == [] then [] else TrimAll(headers[..|headers| - 1]) + [Trim(headers[|headers| - 1])]
  }

  /**
   * The object `headers.forEach` fills for one line: the trimmed headers in
   * order of first appearance, each holding a trimmed value.
   */
  function Row(headers: seq<string>, values: seq<string>): (r: OMap<string, string>)
    ensures r.Valid()
  {
    if headers == [] then Empty()
    else
      var n := |headers| - 1;
      Row(headers[..n], values).Put(Trim(headers[n]), Trim(ValueAt(values, n)))
  }

  /**
   * A row's keys are the trimmed headers in order of first appearance, so
   * every row of a file has the same keys.
   */
  lemma {:induction false} RowKeys(headers: seq<string>, values: seq<string>)
    ensures Row(headers, values).keys == Seqs.Dedup(TrimAll(headers))
  {
    if headers != [] {
      var n := |headers| - 1;
      var k := Trim(headers[n]);
      var front := TrimAll(headers[..n]);
      var prefix := Row(headers[..n], values);
      RowKeys(headers[..n], values);
      assert Row(headers, values) == prefix.Put(k, Trim(ValueAt(values, n)));
      assert (k in prefix.values) == (k in front);
      Seqs.DedupSnoc(front, k);
    }
  }

  /** Every value of a row is trimmed. */
  lemma {:induction false} RowTrimmed(headers: seq<string>, values: seq<string>, k: string)
    requires k in Row(headers, values).values
    ensures Trim(Row(headers, values).values[k]) == Row(headers, values).values[k]
  {
    var n := |headers| - 1;
    var key := Trim(headers[n]);
    var prefix := Row(headers[..n], values);
    if k == key {
      TrimIdempotent(ValueAt(values, n));
    } else {
      assert prefix.Put(key, Trim(ValueAt(values, n))).Get(k) == prefix.Get(k);
      RowTrimmed(headers[..n], values, k);
    }
  }

  /** The trimmed value of the last column whose trimmed header is `key`, searching from the back. */
  function LastUnder(headers: seq<string>, values: seq<string>, key: string): Option<string>
  {
    if headers == [] then None
    else
      var n := |headers| - 1;
      if Trim(headers[n]) == key then Some(Trim(ValueAt(values, n))) else LastUnder(headers[..n], values, key)
  }

  /** A row holds, under each key, the value of the last column with that trimmed header. */
  lemma {:induction false} RowGet(headers: seq<string>, values: seq<string>, key: string)
    ensures Row(headers, values).Get(key) == LastUnder(headers, values, key)
  {
    if headers != [] {
      var n := |headers| - 1;
      RowGet(headers[..n], values, key);
    }
  }

  /**
   * A trimmed header holds the trimmed value of the last column under it,
   * and '' when the line has no such column.
   */
  lemma {:induction false} RowAt(headers: seq<string>, values: seq<string>, j: nat)
    requires j < |headers|
    requires forall j' :: j < j' < |headers| ==> Trim(headers[j']) != Trim(headers[j])
    ensures Row(headers, values).Get(Trim(headers[j])) == Some(Trim(ValueAt(values, j)))
  {
    RowGet(headers, values, Trim(headers[j]));
    LastUnderAt(headers, values, j);
  }

  lemma {:induction false} LastUnderAt(headers: seq<string>, values: seq<string>, j: nat)
    requires j < |headers|
    requires forall j' :: j < j' < |headers| ==> Trim(headers[j']) != Trim(headers[j])
    ensures LastUnder(headers, values, Trim(headers[j])) == Some(Trim(ValueAt(values, j)))
  {
    var n := |headers| - 1;
    if j < n {
      var front := headers[..n];
      forall j' | j < j' < |front|
        ensures Trim(front[j']) != Trim(front[j])
      {
        assert front[j'] == headers[j'] && front[j] == headers[j];
      }
      LastUnderAt(front, values, j);
      assert front[j] == headers[j];
    }
  }

  /** `forEach` over the headers, writing each trimmed value. */
  method BuildRow(headers: seq<string>, values: seq<string>) returns (row: OMap<string, string>)
    ensures row == Row(headers, values)
  {
    row := Empty();
    for idx := 0 to |headers|
      invariant row == Row(headers[..idx], values)
    {
      assert headers[..idx + 1][..idx] == headers[..idx];
      row := row.Put(Trim(headers[idx]), Trim(ValueAt(values, idx)));
    }
    assert headers[..|headers|] == headers;
  }

  /** One row per line, each keyed by `header`. */
  function DataRows(header: seq<string>, lines: seq<string>): (r: seq<OMap<string, string>>)
    ensures |r| == |lines|
  {
    if lines == [] then []
    else DataRows(header, lines[..|lines| - 1]) + [Row(header, Fields(lines[|lines| - 1]))]
  }

  lemma {:induction false} DataRowsAt(header: seq<string>, lines: seq<string>, i: nat)
    requires i < |lines|
    ensures DataRows(header, lines)[i] == Row(header, Fields(lines[i]))
  {
    var n := |lines| - 1;
    if i < n {
      DataRowsAt(header, lines[..n], i);
      assert lines[..n][i] == lines[i];
    }
  }

  /**
   * The rows of a file's non-blank lines: nothing for fewer than two lines,
   * otherwise one per line after the header line.
   */
  function RowsOf(lines: seq<string>): (r: seq<OMap<string, string>>)
    ensures |lines| < 2 ==> r == []
    ensures |lines| >= 2 ==> |r| == |lines| - 1
  {
    if |lines| < 2 then [] else DataRows(Fields(lines[0]), lines[1..])
  }

  /** `parseCSV`'s result. */
  function ParsedRows(text: string): seq<OMap<string, string>>
  {
    RowsOf(DataLines(text))
  }

  /** Row `i` holds line `i + 1` under the header line's fields. */
  lemma RowsAt(lines: seq<string>, i: nat)
    requires i < |RowsOf(lines)|
    ensures RowsOf(lines)[i] == Row(Fields(lines[0]), Fields(lines[i + 1]))
  {
    DataRowsAt(Fields(lines[0]), lines[1..], i);
    assert lines[1..][i] == lines[i + 1];
  }

  /** Every row is keyed by the header line's trimmed fields, in the same order. */
  lemma RowsShareKeys(lines: seq<string>, i: nat)
    requires i < |RowsOf(lines)|
    ensures RowsOf(lines)[i].keys == Seqs.Dedup(TrimAll(Fields(lines[0])))
  {
    RowsAt(lines, i);
    RowKeys(Fields(lines[0]), Fields(lines[i + 1]));
  }

  /** Every value in every row is trimmed. */
  lemma RowsTrimmed(lines: seq<string>, i: nat, k: string)
    requires i < |RowsOf(lines)| && k in RowsOf(lines)[i].values
    ensures Trim(RowsOf(lines)[i].values[k]) == RowsOf(lines)[i].values[k]
  {
    RowsAt(lines, i);
    RowTrimmed(Fields(lines[0]), Fields(lines[i + 1]), k);
  }

  /** The loop over the data lines, splitting each and filling its row. */
  method BuildRows(headers: seq<string>, lines: seq<string>) returns (rows: seq<OMap<string, string>>)
    ensures rows == DataRows(headers, lines)
  {
    rows := [];
    for i := 0 to |lines|
      invariant rows == DataRows(headers, lines[..i])
    {
      assert lines[..i + 1][..i] == lines[..i];
      var values := SplitCSVLine(lines[i]);
      var row := BuildRow(headers, values);
      rows := rows + [row];
    }
    assert lines[..|lines|] == lines;
  }

  /** `parseCSV`: splits the lines, drops the blank ones and fills one row per data line. */
  method ParseCSV(text: string) returns (rows: seq<OMap<string, string>>)
    ensures rows == ParsedRows(text)
  {
    var lines := DataLines(text);
    if |lines| < 2 {
      return [];
    }
    var headers := SplitCSVLine(lines[0]);
    rows := BuildRows(headers, lines[1..]);
  }

  // ---------------------------------------------------------------------
  // Column detection
  // ---------------------------------------------------------------------

  /** A header as the detector compares it: `h.toLowerCase().trim()`. */
  function Folded(h: string): string
  {
    Trim(ToLower(h))
  }

  predicate Hits(h: string, p: string)
  {
    Contains(Folded(h), p)
  }

  /**
   * The pattern and header `findColumn` settles on: the first pattern any
   * header contains, and the first header containing it.
   */
  function FindColumnAt(headers: seq<string>, patterns: seq<string>): (r: Option<(nat, nat)>)
    ensures r.Some? ==> var (k, j) := r.value;
      && k < |patterns| && j < |headers| && Hits(headers[j], patterns[k])
      && (forall j' :: 0 <= j' < j ==> !Hits(headers[j'], patterns[k]))
      && (forall k', j' :: 0 <= k' < k && 0 <= j' < |headers| ==> !Hits(headers[j'], patterns[k']))
    ensures r.None? ==> forall k, j :: 0 <= k < |patterns| && 0 <= j < |headers| ==> !Hits(headers[j], patterns[k])
  {
    Seqs.FirstMatch(headers, patterns, (h, p) => Hits(h, p), 0)
  }

  /** `findColumn`: the original text of that header, or null. */
  function FindColumn(headers: seq<string>, patterns: seq<string>): (r: Option<string>)
    ensures r.Some? ==> r.value in headers && exists p :: p in patterns && Hits(r.value, p)
    ensures r.None? <==> forall k, j :: 0 <= k < |patterns| && 0 <= j < |headers| ==> !Hits(headers[j], patterns[k])
  {
    match FindColumnAt(headers, patterns)
    case None => None
    case Some(kj) => assert patterns[kj.0] in patterns; Some(headers[kj.1])
  }

  const SkuPatterns: seq<string> := ["sku", "item sku", "product sku"]
  const TitlePatterns: seq<string> := ["title", "product title", "item title", "product name", "item name", "name"]
  const QtyPatterns: seq<string> := ["quantity", "qty", "units"]
  const PricePatterns: seq<string> := ["price", "sale price", "item price", "amount", "total"]
  const DatePatterns: seq<string> := ["date", "sale date", "order date", "sold date", "created"]

  datatype Columns = Columns(sku: Option<string>, title: Option<string>, qty: Option<string>,
                             price: Option<string>, date: Option<string>)

  /** `detectColumns`: each column the first header matching its patterns. */
  function DetectColumns(headers: seq<string>): Columns
  {
    Columns(FindColumn(headers, SkuPatterns), FindColumn(headers, TitlePatterns), FindColumn(headers, QtyPatterns),
            FindColumn(headers, PricePatterns), FindColumn(headers, DatePatterns))
  }

  // ---------------------------------------------------------------------
  // Cell values
  // ---------------------------------------------------------------------

  /** `col ? raw[col] : fallback`. */
  function Cell(raw: OMap<string, string>, col: Option<string>, fallback: string): string
  {
    if col.Some? then raw.Get(col.value).GetOr("") else fallback
  }

  /** `Math.max(1, parseInt(s) || 1)`: NaN, zero and negatives give 1. */
  function Quantity(s: string): (r: int)
    ensures r >= 1
    ensures ParseInt(s).Some? && ParseInt(s).value >= 1 ==> r == ParseInt(s).value
    ensures ParseInt(s).None? || ParseInt(s).value < 1 ==> r == 1
  {
    var p := ParseInt(s);
    var n := if p.Some? && p.value != 0 then p.value else 1;
    if n > 1 then n else 1
  }

  /** A written positive count reads back as itself. */
  lemma QuantityOfCount(n: int)
    requires n >= 1
    ensures Quantity(IntToString(n)) == n
  {
    ParseIntOfIntToString(n);
  }

  /** `s.replace(/[$,]/g, '')`. */
  function StripMoney(s: string): (r: string)
    ensures '$' !in r && ',' !in r
    ensures ('$' !in s && ',' !in s) ==> r == s
  {
    if s == [] then []
    else (if s[0] == '$' || s[0] == ',' then [] else [s[0]]) + StripMoney(s[1..])
  }

  /** `parseFloat(…) || 0`: NaN and zero give 0. */
  function SalePrice(s: string): (r: real)
    ensures ParseFloat(StripMoney(s)).Some? ==> r == ParseFloat(StripMoney(s)).value
    ensures ParseFloat(StripMoney(s)).None? ==> r == 0.0
  {
    match ParseFloat(StripMoney(s))
    case Some(v) => v
    case None => 0.0
  }

  /** A dollar amount in whole dollars reads back as itself. */
  lemma SalePriceOfDollars(n: nat)
    ensures SalePrice("$" + IntToString(n)) == n as real
  {
    var d := IntToString(n);
    NatToStringDigits(n);
    assert '$' !in d && ',' !in d by {
      forall i | 0 <= i < |d| ensures d[i] != '$' && d[i] != ',' {
        assert DigitValue(d[i], 10).Some?;
      }
    }
    assert StripMoney("$" + d) == StripMoney(d) by {
      assert ("$" + d)[1..] == d;
    }
    ParseFloatOfIntToString(n);
  }

  // ---------------------------------------------------------------------
  // Matching rows to the collection
  // ---------------------------------------------------------------------

  /**
   * `skuToId` after the loop over the collection's keys: a truthy custom
   * SKU and the id, both lower-cased, map to the id; later entries win.
   */
  function SkuIndex(keys: seq<string>, entries: map<string, CollectionEntry>): map<string, string>
    requires forall k :: k in keys ==> k in entries
  {
    if keys == [] then map[]
    else
      var n := |keys| - 1;
      var id := keys[n];
      var m := SkuIndex(keys[..n], entries);
      var m' := if entries[id].sku != "" then m[ToLower(entries[id].sku) := id] else m;
      m'[ToLower(id) := id]
  }

  /** `s` is the lower-cased id or the lower-cased truthy custom SKU of entry `id`. */
  predicate Names(s: string, id: string, entries: map<string, CollectionEntry>)
    requires id in entries
  {
    s == ToLower(id) || (entries[id].sku != "" && s == ToLower(entries[id].sku))
  }

  /** Each indexed text leads to an entry it names. */
  lemma {:induction false} SkuIndexTargets(keys: seq<string>, entries: map<string, CollectionEntry>, s: string)
    requires forall k :: k in keys ==> k in entries
    requires s in SkuIndex(keys, entries)
    ensures SkuIndex(keys, entries)[s] in keys && Names(s, SkuIndex(keys, entries)[s], entries)
  {
    var n := |keys| - 1;
    var id := keys[n];
    var m := SkuIndex(keys[..n], entries);
    var m' := if entries[id].sku != "" then m[ToLower(entries[id].sku) := id] else m;
    assert SkuIndex(keys, entries) == m'[ToLower(id) := id];
    if s != ToLower(id) && !(entries[id].sku != "" && s == ToLower(entries[id].sku)) {
      SkuIndexTargets(keys[..n], entries, s);
      assert SkuIndex(keys, entries)[s] == m[s];
    }
  }

  /** Every id and every truthy custom SKU, lower-cased, is indexed. */
  lemma {:induction false} SkuIndexCovers(keys: seq<string>, entries: map<string, CollectionEntry>, i: nat)
    requires forall k :: k in keys ==> k in entries
    requires i < |keys|
    ensures ToLower(keys[i]) in SkuIndex(keys, entries)
    ensures entries[keys[i]].sku != "" ==> ToLower(entries[keys[i]].sku) in SkuIndex(keys, entries)
  {
    var n := |keys| - 1;
    var id := keys[n];
    var m := SkuIndex(keys[..n], entries);
    var m' := if entries[id].sku != "" then m[ToLower(entries[id].sku) := id] else m;
    assert SkuIndex(keys, entries) == m'[ToLower(id) := id];
    if i < n {
      SkuIndexCovers(keys[..n], entries, i);
      assert keys[..n][i] == keys[i];
    }
  }

  /** The loop that fills `skuToId`. */
  method BuildSkuIndex(collection: OMap<string, CollectionEntry>) returns (skuToId: map<string, string>)
    requires collection.Valid()
    ensures skuToId == SkuIndex(collection.keys, collection.values)
  {
    var keys := collection.keys;
    skuToId := map[];
    for i := 0 to |keys|
      invariant skuToId == SkuIndex(keys[..i], collection.values)
    {
      assert keys[..i + 1][..i] == keys[..i];
      var id := keys[i];
      var entry := collection.values[id];
      if entry.sku != "" {
        skuToId := skuToId[ToLower(entry.sku) := id];
      }
      skuToId := skuToId[ToLower(id) := id];
    }
    assert keys[..|keys|] == keys;
  }

  /** `new Map(catalog.map(m => [m.id, m]))`: the last entry with an id wins. */
  function CatalogById(catalog: seq<CatalogMinifig>): (r: map<string, CatalogMinifig>)
    ensures forall id :: id in r <==> exists i :: 0 <= i < |catalog| && catalog[i].id == id
    ensures forall id :: id in r ==> r[id] in catalog && r[id].id == id
  {
    if catalog == [] then map[]
    else
      var n := |catalog| - 1;
      assert catalog == catalog[..n] + [catalog[n]];
      var m := CatalogById(catalog[..n]);
      assert forall i :: 0 <= i < n ==> catalog[..n][i] == catalog[i];
      m[catalog[n].id := catalog[n]]
  }

  /** `/fig-\d+/i` matches at `i`: "fig-" in either case, then a digit. */
  predicate FigAt(s: string, i: int)
  {
    0 <= i && i + 4 < |s| && ToLower(s[i..i + 4]) == "fig-" && IsDigit(s[i + 4])
  }

  function FigFrom(s: string, from: nat): (r: Option<nat>)
    requires from <= |s|
    ensures r.Some? ==> (from <= r.value && FigAt(s, r.value) && forall j :: from <= j < r.value ==> !FigAt(s, j))
    ensures r.None? ==> forall j :: from <= j ==> !FigAt(s, j)
    decreases |s| - from
  {
    if from == |s| then None
    else if FigAt(s, from) then Some(from)
    else FigFrom(s, from + 1)
  }

  /** The text of the first match of `/fig-\d+/i`: the prefix and every digit after it. */
  function FigMatch(s: string): (r: Option<string>)
    ensures r.Some? <==> exists i :: FigAt(s, i)
    ensures r.Some? ==> (|r.value| > 4 && ToLower(r.value[..4]) == "fig-"
      && forall c :: c in r.value[4..] ==> IsDigit(c))
  {
    match FigFrom(s, 0)
    case None => None
    case Some(i) =>
      var d := DigitPrefix(s[i + 4..], 10);
      assert d != [] by { assert DigitValue(s[i + 4..][0], 10).Some?; }
      var m := s[i..i + 4] + d;
      assert m[..4] == s[i..i + 4] && m[4..] == d;
      Some(m)
  }

  /** A truthy id: present and not the empty string. */
  predicate Found(id: Option<string>)
  {
    id.Some? && id.value != ""
  }

  function Lookup(skuToId: map<string, string>, s: string): Option<string>
  {
    if s in skuToId then Some(skuToId[s]) else None
  }

  /** The id found in the title when the SKU found none: a `fig-` number the collection holds. */
  function TitleId(title: string, collection: OMap<string, CollectionEntry>): Option<string>
  {
    if title == "" then None
    else
      match FigMatch(title)
      case None => None
      case Some(m) => if collection.Get(ToLower(m)).Some? then Some(ToLower(m)) else None
  }

  /**
   * The id a row matches: by its SKU, else by a `fig-` number in its
   * title, else by its SKU without a trailing "-cracked".
   */
  function MatchId(sku: string, title: string, skuToId: map<string, string>,
                   collection: OMap<string, CollectionEntry>): Option<string>
  {
    var bySku := Lookup(skuToId, ToLower(sku));
    var byTitle := if !Found(bySku) && TitleId(title, collection).Some? then TitleId(title, collection) else bySku;
    if !Found(byTitle) && EndsWith(ToLower(sku), "-cracked") then
      Lookup(skuToId, ToLower(sku[..|sku| - 8]))
    else byTitle
  }

  datatype ParsedSaleRow = ParsedSaleRow(sku: string, title: string, quantity: int, salePrice: real,
                                         date: string, raw: OMap<string, string>)

  datatype MatchedSale = MatchedSale(row: ParsedSaleRow, minifig: Option<CatalogMinifig>,
                                     entry: Option<CollectionEntry>, minifigId: Option<string>)

  /** The loop body for one row; `today` is the date a row without a date column gets. */
  function MatchRow(raw: OMap<string, string>, cols: Columns, skuToId: map<string, string>,
                    collection: OMap<string, CollectionEntry>, catalogById: map<string, CatalogMinifig>,
                    today: string): MatchedSale
  {
    var sku := Cell(raw, cols.sku, "");
    var title := Cell(raw, cols.title, "");
    var parsed := ParsedSaleRow(sku, title, Quantity(Cell(raw, cols.qty, "1")),
                                SalePrice(Cell(raw, cols.price, "0")), Cell(raw, cols.date, today), raw);
    var id := MatchId(sku, title, skuToId, collection);
    var minifig := if Found(id) && id.value in catalogById then Some(catalogById[id.value]) else None;
    var entry := if Found(id) then collection.Get(id.value) else None;
    MatchedSale(parsed, minifig, entry, id)
  }

  /** `parseSalesCSV`'s result: nothing without data rows, otherwise one match per row, in row order. */
  function Sales(text: string, collection: OMap<string, CollectionEntry>, catalog: seq<CatalogMinifig>,
                 today: string): (r: seq<MatchedSale>)
    requires collection.Valid()
    ensures |r| == |ParsedRows(text)|
  {
    var rows := ParsedRows(text);
    if rows == [] then []
    else Seqs.MapSeq(rows, Matcher(DetectColumns(rows[0].keys), SkuIndex(collection.keys, collection.values),
                                   collection, CatalogById(catalog), today))
  }

  function Matcher(cols: Columns, skuToId: map<string, string>, collection: OMap<string, CollectionEntry>,
                   byId: map<string, CatalogMinifig>, today: string): OMap<string, string> -> MatchedSale
  {
    raw => MatchRow(raw, cols, skuToId, collection, byId, today)
  }

  /** `parseSalesCSV`: parse, detect the columns, index the collection and match every row. */
  method ParseSalesCSV(text: string, collection: OMap<string, CollectionEntry>, catalog: seq<CatalogMinifig>,
                       today: string) returns (results: seq<MatchedSale>)
    requires collection.Valid()
    ensures results == Sales(text, collection, catalog, today)
  {
    var rows := ParseCSV(text);
    if |rows| == 0 {
      return [];
    }
    var cols := DetectColumns(rows[0].keys);
    var skuToId := BuildSkuIndex(collection);
    var byId := CatalogById(catalog);
    var f := Matcher(cols, skuToId, collection, byId, today);
    results := Seqs.MapEach(rows, f);
  }

  /**
   * Every id the index or the title yields is a collection key, so a row
   * has an entry exactly when its id is truthy, and that entry is the
   * collection's record for the id; the quantity is at least 1.
   */
  lemma MatchRowEntry(raw: OMap<string, string>, cols: Columns, collection: OMap<string, CollectionEntry>,
                      byId: map<string, CatalogMinifig>, today: string)
    requires collection.Valid()
    ensures var r := MatchRow(raw, cols, SkuIndex(collection.keys, collection.values), collection, byId, today);
      && r.row.raw == raw && r.row.quantity >= 1
      && (r.entry.Some? <==> Found(r.minifigId))
      && (r.entry.Some? ==> collection.values[r.minifigId.value] == r.entry.value)
  {
    var skuToId := SkuIndex(collection.keys, collection.values);
    var id := MatchId(Cell(raw, cols.sku, ""), Cell(raw, cols.title, ""), skuToId, collection);
    if Found(id) {
      IdInCollection(Cell(raw, cols.sku, ""), Cell(raw, cols.title, ""), skuToId, collection);
    }
  }

  /** A row's catalog record is the catalog's entry for its truthy id, when the catalog lists it. */
  lemma MatchRowMinifig(raw: OMap<string, string>, cols: Columns, skuToId: map<string, string>,
                        collection: OMap<string, CollectionEntry>, catalog: seq<CatalogMinifig>, today: string)
    ensures var r := MatchRow(raw, cols, skuToId, collection, CatalogById(catalog), today);
      && (r.minifig.Some? <==> Found(r.minifigId) && exists j :: 0 <= j < |catalog| && catalog[j].id == r.minifigId.value)
      && (r.minifig.Some? ==> r.minifig.value in catalog && r.minifig.value.id == r.minifigId.value)
  {
  }

  /**
   * Row `i` of a sales file: its entry is present exactly when its id is
   * truthy, and its catalog record exactly when the catalog also lists the
   * id, in which case the record carries that id.
   */
  lemma SaleFacts(text: string, collection: OMap<string, CollectionEntry>, catalog: seq<CatalogMinifig>,
                  today: string, i: nat)
    requires collection.Valid() && i < |ParsedRows(text)|
    ensures var r := Sales(text, collection, catalog, today)[i];
      && r.row.raw == ParsedRows(text)[i] && r.row.quantity >= 1
      && (r.entry.Some? <==> Found(r.minifigId))
      && (r.minifig.Some? <==> Found(r.minifigId) && exists j :: 0 <= j < |catalog| && catalog[j].id == r.minifigId.value)
      && (r.minifig.Some? ==> r.minifig.value in catalog && r.minifig.value.id == r.minifigId.value)
  {
    var rows := ParsedRows(text);
    var cols := DetectColumns(rows[0].keys);
    var skuToId := SkuIndex(collection.keys, collection.values);
    var f := Matcher(cols, skuToId, collection, CatalogById(catalog), today);
    Seqs.MapSeqAt(rows, f, i);
    assert Sales(text, collection, catalog, today)[i] == MatchRow(rows[i], cols, skuToId, collection, CatalogById(catalog), today);
    MatchRowEntry(rows[i], cols, collection, CatalogById(catalog), today);
    MatchRowMinifig(rows[i], cols, skuToId, collection, catalog, today);
  }

  /** A truthy match is a key of the collection. */
  lemma IdInCollection(sku: string, title: string, skuToId: map<string, string>, collection: OMap<string, CollectionEntry>)
    requires collection.Valid() && skuToId == SkuIndex(collection.keys, collection.values)
    requires Found(MatchId(sku, title, skuToId, collection))
    ensures MatchId(sku, title, skuToId, collection).value in collection.values
  {
    var lower := ToLower(sku);
    if lower in skuToId {
      SkuIndexTargets(collection.keys, collection.values, lower);
    }
    if |sku| >= 8 && ToLower(sku[..|sku| - 8]) in skuToId {
      SkuIndexTargets(collection.keys, collection.values, ToLower(sku[..|sku| - 8]));
    }
  }

  lemma LowerCracked()
    ensures ToLower("-CRACKED") == "-cracked"
  {
  }

  /** The SKU is matched without regard to case. */
  lemma MatchIdIgnoresCase(sku: string, sku': string, title: string, skuToId: map<string, string>,
                           collection: OMap<string, CollectionEntry>)
    requires ToLower(sku) == ToLower(sku')
    ensures MatchId(sku, title, skuToId, collection) == MatchId(sku', title, skuToId, collection)
  {
    if |sku| >= 8 {
      var n := |sku| - 8;
      assert ToLower(sku[..n]) == ToLower(sku)[..n];
      assert ToLower(sku'[..n]) == ToLower(sku')[..n];
    }
  }

  /**
   * The SKU an export writes for the cracked copies of an entry,
   * `<sku>-CRACKED`, matches that entry when the SKU itself maps to it and
   * nothing maps the cracked SKU.
   */
  lemma CrackedSkuMatches(sku: string, id: string, skuToId: map<string, string>,
                          collection: OMap<string, CollectionEntry>)
    requires Lookup(skuToId, ToLower(sku)) == Some(id)
    requires ToLower(sku) + "-cracked" !in skuToId
    ensures MatchId(sku + "-CRACKED", "", skuToId, collection) == Some(id)
  {
    var s := sku + "-CRACKED";
    ToLowerAppend(sku, "-CRACKED");
    LowerCracked();
    assert s[..|s| - 8] == sku;
    assert EndsWith(ToLower(s), "-cracked") by {
      assert ToLower(s)[|ToLower(s)| - 8..] == "-cracked";
    }
  }
}
