/**
 * The BrickLink price run: collect the BrickLink numbers the price records
 * use, fetch each number's six-month sold averages (or, failing those, the
 * averages of the items currently listed) through a resumable cache, and
 * write them into the records. Requests are signed with OAuth 1.0 (module
 * OAuth); the network, the clock and the nonce are parameters.
 */
module BricklinkPrices {
  import opened Wrappers
  import opened Types
  import opened Strings
  import opened OrderedMap
  import opened ResumableCache
  import opened KeyedUpdate
  import opened PriceTable
  import opened Seqs
  import NameMatch
  import KeyIndex
  import OAuth

  // ---------------------------------------------------------------------
  // apiRequest
  // ---------------------------------------------------------------------

  const ApiBase: string := "https://api.bricklink.com/api/store/v1"

  /** `encodeURIComponent(k)=encodeURIComponent(v)` for each key, in order. */
  function QueryPairs(keys: seq<string>, values: map<string, string>): (r: seq<string>)
    requires forall k :: k in keys ==> k in values
    ensures |r| == |keys|
    ensures forall i :: 0 <= i < |keys| ==> r[i] == OAuth.EncodeURIComponent(keys[i]) + "=" + OAuth.EncodeURIComponent(values[keys[i]])
  {
    seq(|keys|, i requires 0 <= i < |keys| => OAuth.EncodeURIComponent(keys[i]) + "=" + OAuth.EncodeURIComponent(values[keys[i]]))
  }

  /** `queryString`: the pairs in insertion order, joined by `&`. */
  function QueryString(params: OMap<string, string>): string
    requires params.Valid()
  {
    Join(QueryPairs(params.keys, params.values), "&")
  }

  /** `fullUrl`: the query string is appended after `?` only when there are parameters. */
  function FullUrl(url: string, params: OMap<string, string>): (r: string)
    requires params.Valid()
    ensures params.keys == [] ==> r == url
    ensures params.keys != [] ==> r == url + "?" + QueryString(params)
  {
    QueryStringNonEmpty(params);
    var qs := QueryString(params);
    if qs != "" then url + "?" + qs else url
  }

  /** Every pair holds `=`, so there is a query string exactly when there are parameters. */
  lemma QueryStringNonEmpty(params: OMap<string, string>)
    requires params.Valid()
    ensures QueryString(params) == "" <==> params.keys == []
  {
    if params.keys != [] {
      var pairs := QueryPairs(params.keys, params.values);
      var e := OAuth.EncodeURIComponent(params.keys[0]);
      assert pairs[0][|e|] == '=';
      if |pairs| > 1 {
        assert QueryString(params) == pairs[0] + "&" + Join(pairs[1..], "&");
      }
    }
  }

  /** The fields of BrickLink's price guide the fetcher reads, as the strings the API sends. */
  datatype PriceGuide = PriceGuide(avgPrice: string, qtyAvgPrice: string)

  /** A parsed reply body: `meta.code` when present, and `data`, absent when missing or falsy. */
  datatype ReplyJson = ReplyJson(metaCode: Option<int>, data: Option<PriceGuide>)

  /** An HTTP reply: its status and its body, `None` when the body is not JSON. */
  datatype HttpReply = HttpReply(statusCode: int, json: Option<ReplyJson>)

  /** How the promise of `apiRequest` settles: rejected, or resolved with `json.data`. */
  datatype ApiOutcome = Rejected | Resolved(data: Option<PriceGuide>)

  /**
   * A reply resolves exactly when its status is 200, its body is JSON and
   * its `meta.code` is 200 or absent; it then resolves with the body's data.
   */
  function Settle(reply: HttpReply): (r: ApiOutcome)
    ensures r.Resolved? <==> reply.statusCode == 200 && reply.json.Some?
                             && reply.json.value.metaCode in {None, Some(200)}
    ensures r.Resolved? ==> r.data == reply.json.value.data
  {
    if reply.statusCode != 200 then Rejected
    else match reply.json
      case None => Rejected
      case Some(j) => if j.metaCode == Some(200) || j.metaCode == None then Resolved(j.data) else Rejected
  }

  /**
   * `apiRequest(endpoint, queryParams, credentials)`: a signed GET of the
   * full URL; `network` answers a URL and an `Authorization` header with a
   * reply, or `None` when the connection fails or times out. The signature
   * covers the URL without its query string, with the query parameters
   * among the signed parameters.
   */
  function ApiRequest(endpoint: string, query: OMap<string, string>, creds: OAuth.Credentials, now: nat, nonce: string,
                      hmacSha1: (string, string) -> string, network: (string, string) -> Option<HttpReply>): (r: ApiOutcome)
    requires query.Valid()
    ensures network(FullUrl(ApiBase + endpoint, query), OAuth.BuildOAuthHeader("GET", ApiBase + endpoint, query, creds, now, nonce, hmacSha1)).None?
            ==> r == Rejected
  {
    var url := ApiBase + endpoint;
    match network(FullUrl(url, query), OAuth.BuildOAuthHeader("GET", url, query, creds, now, nonce, hmacSha1))
    case None => Rejected
    case Some(reply) => Settle(reply)
  }

  // ---------------------------------------------------------------------
  // fetchPriceForItem
  // ---------------------------------------------------------------------

  /** `guide_type`: sales of the last six months, or items currently listed. */
  datatype Guide = SoldGuide | StockGuide

  /** `new_or_used`. */
  datatype Wear = N | U

  /** One price-guide request for a number, as the fetcher sends it. */
  datatype Ask = Ask(guide: Guide, wear: Wear)

  /** The request path of a number's price guide. */
  function Endpoint(blId: string): string
  {
    "/items/MINIFIG/" + blId + "/price"
  }

  /** The query of a price-guide request, in the order the fetcher writes it. */
  function PriceQuery(ask: Ask): (r: OMap<string, string>)
    ensures r.Valid() && |r.keys| == 3
  {
    OMap(["guide_type", "new_or_used", "currency_code"],
         map["guide_type" := (if ask.guide == SoldGuide then "sold" else "stock"),
             "new_or_used" := (if ask.wear == N then "N" else "U"),
             "currency_code" := "USD"])
  }

  /** The API as the fetcher sees it: an endpoint and a query to the settled promise. */
  type Api = (string, OMap<string, string>) -> ApiOutcome

  function Request(api: Api, blId: string, ask: Ask): ApiOutcome
  {
    api(Endpoint(blId), PriceQuery(ask))
  }

  /** `parseFloat(s) > 0`: false for NaN. */
  predicate Positive(v: Option<real>)
  {
    v.Some? && v.value > 0.0
  }

  /**
   * A price field the fetcher accepts: `parseFloat(parseFloat(s).toFixed(2))`
   * when `parseFloat(s) > 0`, otherwise nothing. The value is a whole number
   * of cents within half a cent of the parsed one.
   */
  function Price(s: string): (r: Option<real>)
    ensures r.Some? <==> Positive(ParseFloat(s))
    ensures r.Some? ==> r.value >= 0.0 && IsCents(r.value)
    ensures r.Some? ==> ParseFloat(s).value - 0.005 < r.value <= ParseFloat(s).value + 0.005
  {
    var v := ParseFloat(s);
    if Positive(v) then Some(ToFixed2(v.value)) else None
  }

  /** `parseFloat(x.toFixed(2))` for a positive `x`: to the nearest cent, halves up. */
  function ToFixed2(x: real): (r: real)
    requires x > 0.0
    ensures r >= 0.0 && IsCents(r)
    ensures x - 0.005 < r <= x + 0.005
  {
    var n := Round(x * 100.0);
    assert n >= 0;
    RoundCents(x)
  }

  /**
   * A sold average: the quantity-weighted average when the fetcher accepts
   * it, otherwise the plain average when it accepts that; nothing when the
   * request failed or had no data.
   */
  function SoldAverage(o: ApiOutcome): (r: Option<real>)
    ensures !(o.Resolved? && o.data.Some?) ==> r.None?
    ensures o.Resolved? && o.data.Some? ==>
      var g := o.data.value;
      && (Price(g.qtyAvgPrice).Some? ==> r == Price(g.qtyAvgPrice))
      && (Price(g.qtyAvgPrice).None? ==> r == Price(g.avgPrice))
  {
    match o
    case Resolved(Some(g)) => Price(g.qtyAvgPrice).Or(Price(g.avgPrice))
    case _ => None
  }

  /** A stock average: the plain average only. */
  function StockAverage(o: ApiOutcome): (r: Option<real>)
    ensures !(o.Resolved? && o.data.Some?) ==> r.None?
    ensures o.Resolved? && o.data.Some? ==> r == Price(o.data.value.avgPrice)
  {
    match o
    case Resolved(Some(g)) => Price(g.avgPrice)
    case _ => None
  }

  /** `BLPriceResult`: the new and used averages, null when unknown. */
  datatype PriceResult = PriceResult(avgNew: Option<real>, avgUsed: Option<real>)

  /** `bl.avgNew !== null || bl.avgUsed !== null`. */
  predicate Priced(r: PriceResult)
  {
    r.avgNew.Some? || r.avgUsed.Some?
  }

  /** Both sold averages; when neither is known, both stock averages instead. */
  function FetchPrice(blId: string, api: Api): PriceResult
  {
    var soldNew := SoldAverage(Request(api, blId, Ask(SoldGuide, N)));
    var soldUsed := SoldAverage(Request(api, blId, Ask(SoldGuide, U)));
    if soldNew.None? && soldUsed.None? then
      PriceResult(StockAverage(Request(api, blId, Ask(StockGuide, N))), StockAverage(Request(api, blId, Ask(StockGuide, U))))
    else PriceResult(soldNew, soldUsed)
  }

  /** The requests the fetcher sends for a number: the stock requests only when neither sold average is known. */
  function Asked(blId: string, api: Api): (r: seq<Ask>)
  {
    var sold := [Ask(SoldGuide, N), Ask(SoldGuide, U)];
    if SoldAverage(Request(api, blId, Ask(SoldGuide, N))).None? && SoldAverage(Request(api, blId, Ask(SoldGuide, U))).None?
    then sold + [Ask(StockGuide, N), Ask(StockGuide, U)]
    else sold
  }

  /**
   * `fetchPriceForItem`: every failure is swallowed, so it always settles
   * with a result. It also reports the requests it sent, in order.
   */
  method FetchPriceForItem(blId: string, api: Api) returns (r: PriceResult, asked: seq<Ask>)
    ensures r == FetchPrice(blId, api) && asked == Asked(blId, api)
    ensures r.avgNew.Some? ==> r.avgNew.value >= 0.0 && IsCents(r.avgNew.value)
    ensures r.avgUsed.Some? ==> r.avgUsed.value >= 0.0 && IsCents(r.avgUsed.value)
  {
    var avgNew: Option<real> := None;
    var avgUsed: Option<real> := None;
    var newData := api(Endpoint(blId), PriceQuery(Ask(SoldGuide, N)));
    avgNew := SoldAverage(newData);
    var usedData := api(Endpoint(blId), PriceQuery(Ask(SoldGuide, U)));
    avgUsed := SoldAverage(usedData);
    asked := [Ask(SoldGuide, N), Ask(SoldGuide, U)];
    if avgNew.None? && avgUsed.None? {
      var stockNew := api(Endpoint(blId), PriceQuery(Ask(StockGuide, N)));
      avgNew := StockAverage(stockNew);
      var stockUsed := api(Endpoint(blId), PriceQuery(Ask(StockGuide, U)));
      avgUsed := StockAverage(stockUsed);
      asked := asked + [Ask(StockGuide, N), Ask(StockGuide, U)];
    }
    r := PriceResult(avgNew, avgUsed);
  }

  /**
   * When either sold average is known the stock requests are never sent,
   * so their answers cannot change the result; and an API that answers the
   * sold requests alike gives the same result.
   */
  lemma SoldFirst(blId: string, api1: Api, api2: Api)
    requires Request(api1, blId, Ask(SoldGuide, N)) == Request(api2, blId, Ask(SoldGuide, N))
    requires Request(api1, blId, Ask(SoldGuide, U)) == Request(api2, blId, Ask(SoldGuide, U))
    requires Priced(PriceResult(SoldAverage(Request(api1, blId, Ask(SoldGuide, N))), SoldAverage(Request(api1, blId, Ask(SoldGuide, U)))))
    ensures FetchPrice(blId, api1) == FetchPrice(blId, api2)
    ensures |Asked(blId, api1)| == 2 && Ask(StockGuide, N) !in Asked(blId, api1) && Ask(StockGuide, U) !in Asked(blId, api1)
  {
  }

  /** The stock fallback is taken exactly when both sold averages are unknown, and then both values come from it. */
  lemma StockFallback(blId: string, api: Api)
    ensures |Asked(blId, api)| == 4 <==> !Priced(PriceResult(SoldAverage(Request(api, blId, Ask(SoldGuide, N))), SoldAverage(Request(api, blId, Ask(SoldGuide, U)))))
    ensures |Asked(blId, api)| == 4 ==> FetchPrice(blId, api) == PriceResult(StockAverage(Request(api, blId, Ask(StockGuide, N))), StockAverage(Request(api, blId, Ask(StockGuide, U))))
  {
  }

  // ---------------------------------------------------------------------
  // main: credentials
  // ---------------------------------------------------------------------

  /**
   * The four credentials read from the environment; the run stops at once
   * unless every one of them is set and non-empty.
   */
  function CredentialsFrom(consumerKey: Option<string>, consumerSecret: Option<string>, token: Option<string>,
                           tokenSecret: Option<string>): (r: Option<OAuth.Credentials>)
    ensures r.Some? <==> consumerKey.Some? && consumerKey.value != "" && consumerSecret.Some? && consumerSecret.value != ""
                          && token.Some? && token.value != "" && tokenSecret.Some? && tokenSecret.value != ""
    ensures r.Some? ==> r.value == OAuth.Credentials(consumerKey.value, consumerSecret.value, token.value, tokenSecret.value)
  {
    if consumerKey.None? || consumerKey.value == "" || consumerSecret.None? || consumerSecret.value == ""
       || token.None? || token.value == "" || tokenSecret.None? || tokenSecret.value == ""
    then None
    else Some(OAuth.Credentials(consumerKey.value, consumerSecret.value, token.value, tokenSecret.value))
  }

  // ---------------------------------------------------------------------
  // main: the numbers to fetch
  // ---------------------------------------------------------------------

  /** `p?.bricklinkId` is truthy: the id has a record with a non-empty number. */
  predicate HasBlId(prices: map<string, PriceEntry>, id: string)
  {
    id in prices && prices[id].bricklinkId.Some? && prices[id].bricklinkId.value != ""
  }

  /** The ids, in order, whose record carries a number. */
  function Linked(ids: seq<string>, prices: map<string, PriceEntry>): (r: seq<string>)
    ensures forall id :: id in r <==> id in ids && HasBlId(prices, id)
    ensures forall i :: 0 <= i < |r| ==> HasBlId(prices, r[i])
  {
    if ids == [] then []
    else
      var n := |ids| - 1;
      assert ids == ids[..n] + [ids[n]];
      Linked(ids[..n], prices) + (if HasBlId(prices, ids[n]) then [ids[n]] else [])
  }

  /** The number of each id of `Linked`, position by position. */
  function LinkedBl(ids: seq<string>, prices: map<string, PriceEntry>): (r: seq<string>)
    ensures |r| == |Linked(ids, prices)|
    ensures forall i :: 0 <= i < |r| ==> r[i] == prices[Linked(ids, prices)[i]].bricklinkId.value
  {
    var linked := Linked(ids, prices);
    seq(|linked|, i requires 0 <= i < |linked| => prices[linked[i]].bricklinkId.value)
  }

  lemma LinkedStep(ids: seq<string>, prices: map<string, PriceEntry>, i: nat)
    requires i < |ids|
    ensures Linked(ids[..i + 1], prices) == Linked(ids[..i], prices) + (if HasBlId(prices, ids[i]) then [ids[i]] else [])
    ensures LinkedBl(ids[..i + 1], prices)
         == LinkedBl(ids[..i], prices) + (if HasBlId(prices, ids[i]) then [prices[ids[i]].bricklinkId.value] else [])
  {
    assert ids[..i + 1][..i] == ids[..i];
  }

  /** The grouping `idToFigNums` is meant to be: each number to the ids carrying it, numbers in first-appearance order. */
  ghost predicate GroupsIds(m: OMap<string, seq<string>>, ids: seq<string>, prices: map<string, PriceEntry>)
  {
    m.keys == Dedup(LinkedBl(ids, prices)) && m.values == KeyIndex.GroupByKey(LinkedBl(ids, prices), Linked(ids, prices))
  }

  /** The loop that fills `idToFigNums`: the catalog ids grouped by their record's number, records without one skipped. */
  method GroupIds(catalog: seq<NameMatch.CatalogName>, prices: map<string, PriceEntry>)
    returns (idToFigNums: OMap<string, seq<string>>)
    ensures idToFigNums.Valid() && GroupsIds(idToFigNums, NameMatch.CatalogIds(catalog), prices)
  {
    ghost var ids := NameMatch.CatalogIds(catalog);
    idToFigNums := OMap([], map[]);
    for i := 0 to |catalog|
      invariant idToFigNums.Valid() && GroupsIds(idToFigNums, ids[..i], prices)
    {
      GroupIdsStep(ids, prices, i, idToFigNums);
      var id := catalog[i].id;
      if id in prices && prices[id].bricklinkId.Some? && prices[id].bricklinkId.value != "" {
        var blId := prices[id].bricklinkId.value;
        var figNums := if blId in idToFigNums.values then idToFigNums.values[blId] else [];
        idToFigNums := idToFigNums.Put(blId, figNums + [id]);
      }
    }
    assert ids[..|catalog|] == ids;
  }

  /** One more catalog id: pushed onto its number's list, the number added last when it is new. */
  lemma GroupIdsStep(ids: seq<string>, prices: map<string, PriceEntry>, i: nat, m: OMap<string, seq<string>>)
    requires i < |ids| && m.Valid() && GroupsIds(m, ids[..i], prices)
    ensures HasBlId(prices, ids[i]) ==>
      var b := prices[ids[i]].bricklinkId.value;
      var m' := m.Put(b, (if b in m.values then m.values[b] else []) + [ids[i]]);
      m'.Valid() && GroupsIds(m', ids[..i + 1], prices)
    ensures !HasBlId(prices, ids[i]) ==> GroupsIds(m, ids[..i + 1], prices)
  {
    LinkedStep(ids, prices, i);
    if HasBlId(prices, ids[i]) {
      var b := prices[ids[i]].bricklinkId.value;
      var bls, linked := LinkedBl(ids[..i], prices), Linked(ids[..i], prices);
      KeyIndex.GroupByKeyGroups(bls, linked, b);
      assert b in m.values <==> b in bls;
      GroupSnoc(bls, linked, b, ids[i]);
      DedupSnoc(bls, b);
      var m' := m.Put(b, (if b in m.values then m.values[b] else []) + [ids[i]]);
      assert m'.keys == Dedup(bls + [b]);
      assert m'.values == KeyIndex.GroupByKey(bls + [b], linked + [ids[i]]);
      assert LinkedBl(ids[..i + 1], prices) == bls + [b] && Linked(ids[..i + 1], prices) == linked + [ids[i]];
      assert GroupsIds(m', ids[..i + 1], prices);
    } else {
      assert LinkedBl(ids[..i + 1], prices) == LinkedBl(ids[..i], prices);
      assert Linked(ids[..i + 1], prices) == Linked(ids[..i], prices);
    }
  }

  lemma GroupSnoc(keys: seq<string>, recs: seq<string>, k: string, x: string)
    requires |keys| == |recs|
    ensures var g := KeyIndex.GroupByKey(keys, recs);
      KeyIndex.GroupByKey(keys + [k], recs + [x]) == g[k := (if k in g then g[k] else []) + [x]]
  {
    assert (keys + [k])[..|keys|] == keys && (recs + [x])[..|recs|] == recs;
  }

  /** Every catalog id whose record carries a number is listed under that number. */
  lemma FigNumsHas(ids: seq<string>, prices: map<string, PriceEntry>, m: OMap<string, seq<string>>, id: string)
    requires GroupsIds(m, ids, prices) && id in ids && HasBlId(prices, id)
    ensures prices[id].bricklinkId.value in m.values && id in m.values[prices[id].bricklinkId.value]
  {
    var linked, bls := Linked(ids, prices), LinkedBl(ids, prices);
    var b := prices[id].bricklinkId.value;
    var k :| 0 <= k < |linked| && linked[k] == id;
    assert bls[k] == b;
    KeyIndex.GroupByKeyGroups(bls, linked, b);
    KeyIndex.GroupHas(bls, linked, b, k);
  }

  /** Only catalog ids whose record carries the number are listed under it. */
  lemma FigNumsFrom(ids: seq<string>, prices: map<string, PriceEntry>, m: OMap<string, seq<string>>, blId: string, id: string)
    requires GroupsIds(m, ids, prices) && blId in m.values && id in m.values[blId]
    ensures id in ids && HasBlId(prices, id) && prices[id].bricklinkId.value == blId
  {
    var linked, bls := Linked(ids, prices), LinkedBl(ids, prices);
    KeyIndex.GroupByKeyGroups(bls, linked, blId);
    var k := KeyIndex.GroupFrom(bls, linked, blId, id);
    assert linked[k] in linked;
  }

  /** `uniqueIds`: the keys of `idToFigNums`, the numbers in order of first appearance. */
  function UniqueIds(catalog: seq<NameMatch.CatalogName>, prices: map<string, PriceEntry>): seq<string>
  {
    Dedup(LinkedBl(NameMatch.CatalogIds(catalog), prices))
  }

  /** `uncached`: the numbers, in first-appearance order, that the price cache lacks; a null result counts as cached. */
  function Uncached(catalog: seq<NameMatch.CatalogName>, prices: map<string, PriceEntry>, blCache: map<string, PriceResult>)
    : (r: seq<string>)
    ensures forall b :: b in r <==> b in UniqueIds(catalog, prices) && b !in blCache
  {
    Pending(UniqueIds(catalog, prices), blCache)
  }

  // ---------------------------------------------------------------------
  // main: the fetch loop
  // ---------------------------------------------------------------------

  /**
   * One number's fetch as the loop sees it: the result, or `None` when the
   * call threw. The fetcher as written never throws (see `AsWrittenFetch`).
   */
  type Fetch = string -> Option<PriceResult>

  /** What the loop stores for a number: the result, or `{avgNew: null, avgUsed: null}` when the call threw. */
  function Stored(fetch: Fetch): string -> PriceResult
  {
    b => fetch(b).GetOr(PriceResult(None, None))
  }

  /** How many of `ids` have a result with a known average. */
  function PricedCount(ids: seq<string>, results: string -> PriceResult): (r: nat)
    ensures r <= |ids|
  {
    if ids == [] then 0
    else
      var n := |ids| - 1;
      PricedCount(ids[..n], results) + (if Priced(results(ids[n])) then 1 else 0)
  }

  /** How many of `ids` the fetch throws for. */
  function FailedCount(ids: seq<string>, fetch: Fetch): (r: nat)
    ensures r <= |ids|
  {
    if ids == [] then 0
    else
      var n := |ids| - 1;
      FailedCount(ids[..n], fetch) + (if fetch(ids[n]).None? then 1 else 0)
  }

  lemma CountsStep(ids: seq<string>, fetch: Fetch, i: nat)
    requires i < |ids|
    ensures PricedCount(ids[..i + 1], Stored(fetch)) == PricedCount(ids[..i], Stored(fetch)) + (if Priced(Stored(fetch)(ids[i])) then 1 else 0)
    ensures FailedCount(ids[..i + 1], fetch) == FailedCount(ids[..i], fetch) + (if fetch(ids[i]).None? then 1 else 0)
  {
    assert ids[..i + 1][..i] == ids[..i];
  }

  /**
   * The fetch loop of `main`. The first number is fetched alone to test the
   * credentials, and the run stops when that throws. The others are
   * fetched in order, a throw storing `{null, null}` and counting an error;
   * the cache is saved after every 100 numbers and at the end, and the
   * first number is counted last.
   */
  method FetchUncached(uncached: seq<string>, blCache0: map<string, PriceResult>, fetch: Fetch)
    returns (aborted: bool, blCache: map<string, PriceResult>, fetched: nat, withPrices: nat, noPrices: nat, errors: nat,
             saves: seq<map<string, PriceResult>>)
    ensures aborted <==> |uncached| > 0 && fetch(uncached[0]).None?
    ensures aborted ==> saves == []
    ensures !aborted ==> blCache == Filled(blCache0, uncached, Stored(fetch))
    ensures !aborted ==> saves == SavePoints(blCache0, uncached, Stored(fetch), 100, |uncached|) + [blCache]
    ensures !aborted ==> fetched + errors == |uncached| && errors == FailedCount(uncached, fetch)
    ensures !aborted ==> withPrices == PricedCount(uncached, Stored(fetch)) && withPrices + noPrices == fetched
  {
    blCache := blCache0;
    fetched, withPrices, noPrices, errors := 0, 0, 0, 0;
    saves := [];
    aborted := false;
    if |uncached| > 0 {
      var testId := uncached[0];
      var test := fetch(testId);
      if test.None? {
        aborted := true;
        return;
      }
      blCache := blCache[testId := test.value];
      FilledStep(blCache0, uncached, Stored(fetch), 0);
      CountsStep(uncached, fetch, 0);
      assert uncached[..0] == [];
      ghost var firstPriced := if Priced(test.value) then 1 else 0;
      var i := 1;
      while i < |uncached|
        invariant 1 <= i <= |uncached|
        invariant blCache == Filled(blCache0, uncached[..i], Stored(fetch))
        invariant saves == SavePoints(blCache0, uncached, Stored(fetch), 100, i)
        invariant fetched + errors == i - 1 && errors == FailedCount(uncached[..i], fetch)
        invariant withPrices + firstPriced == PricedCount(uncached[..i], Stored(fetch)) && withPrices + noPrices == fetched
      {
        blCache, saves, fetched, withPrices, noPrices, errors :=
          FetchNext(blCache0, uncached, fetch, i, firstPriced, blCache, saves, fetched, withPrices, noPrices, errors);
        i := i + 1;
      }
      assert uncached[..|uncached|] == uncached;
      FilledAt(blCache0, uncached, Stored(fetch), testId);
      var firstResult := blCache[testId];
      fetched := fetched + 1;
      if firstResult.avgNew.Some? || firstResult.avgUsed.Some? {
        withPrices := withPrices + 1;
      } else {
        noPrices := noPrices + 1;
      }
    }
    saves := saves + [blCache];
  }

  /** One turn of the fetch loop: number `i` is fetched, stored, counted, and the cache saved every hundredth number. */
  method FetchNext(ghost blCache0: map<string, PriceResult>, uncached: seq<string>, fetch: Fetch, i: nat, ghost firstPriced: nat,
                   blCache: map<string, PriceResult>, saves: seq<map<string, PriceResult>>,
                   fetched: nat, withPrices: nat, noPrices: nat, errors: nat)
    returns (blCache': map<string, PriceResult>, saves': seq<map<string, PriceResult>>,
             fetched': nat, withPrices': nat, noPrices': nat, errors': nat)
    requires 1 <= i < |uncached|
    requires blCache == Filled(blCache0, uncached[..i], Stored(fetch))
    requires saves == SavePoints(blCache0, uncached, Stored(fetch), 100, i)
    requires fetched + errors == i - 1 && errors == FailedCount(uncached[..i], fetch)
    requires withPrices + firstPriced == PricedCount(uncached[..i], Stored(fetch)) && withPrices + noPrices == fetched
    ensures blCache' == Filled(blCache0, uncached[..i + 1], Stored(fetch))
    ensures saves' == SavePoints(blCache0, uncached, Stored(fetch), 100, i + 1)
    ensures fetched' + errors' == i && errors' == FailedCount(uncached[..i + 1], fetch)
    ensures withPrices' + firstPriced == PricedCount(uncached[..i + 1], Stored(fetch)) && withPrices' + noPrices' == fetched'
  {
    var blId := uncached[i];
    FilledStep(blCache0, uncached, Stored(fetch), i);
    SavePointsStep(blCache0, uncached, Stored(fetch), 100, i);
    CountsStep(uncached, fetch, i);
    blCache', saves', fetched', withPrices', noPrices', errors' := blCache, saves, fetched, withPrices, noPrices, errors;
    var result := fetch(blId);
    match result {
      case Some(r) =>
        blCache' := blCache[blId := r];
        fetched' := fetched + 1;
        if r.avgNew.Some? || r.avgUsed.Some? {
          withPrices' := withPrices + 1;
        } else {
          noPrices' := noPrices + 1;
        }
      case None =>
        errors' := errors + 1;
        blCache' := blCache[blId := PriceResult(None, None)];
    }
    if (i + 1) % 100 == 0 {
      saves' := saves' + [blCache'];
    }
  }

  /** A rerun after a completed run fetches nothing: every number is cached, a null result included. */
  lemma RerunFetchesNothing(catalog: seq<NameMatch.CatalogName>, prices: map<string, PriceEntry>,
                            blCache0: map<string, PriceResult>, fetch: Fetch)
    ensures Uncached(catalog, prices, Filled(blCache0, Uncached(catalog, prices, blCache0), Stored(fetch))) == []
  {
    NothingPending(UniqueIds(catalog, prices), blCache0, Stored(fetch));
  }

  /** The fetch of `main` as written: `fetchPriceForItem` catches every failure, so it never throws. */
  function AsWrittenFetch(api: Api): Fetch
  {
    b => Some(FetchPrice(b, api))
  }

  /**
   * With the fetcher as written, the credential test always passes and no
   * error is ever counted: an API that rejects every request (bad
   * credentials) yields an empty result for each number instead.
   */
  lemma {:induction false} AsWrittenNeverThrows(uncached: seq<string>, api: Api)
    ensures |uncached| > 0 ==> AsWrittenFetch(api)(uncached[0]).Some?
    ensures FailedCount(uncached, AsWrittenFetch(api)) == 0
  {
    if uncached != [] {
      AsWrittenNeverThrows(uncached[..|uncached| - 1], api);
    }
  }

  /** An API that rejects every request, as with revoked or mistyped credentials. */
  function RejectAll(): Api
  {
    (e: string, q: OMap<string, string>) => Rejected
  }

  /** With such an API, the fetcher as written reports every number as having no price data. */
  lemma RejectionLooksUnpriced(b: string)
    ensures AsWrittenFetch(RejectAll())(b) == Some(PriceResult(None, None))
  {
  }

  /**
   * The fetch as intended: a number whose two sold requests are both
   * rejected throws, so that the credential test stops the run and the
   * loop counts the error; any other number gets `fetchPriceForItem`'s
   * result.
   */
  function CheckedFetch(api: Api): Fetch
  {
    b => if Request(api, b, Ask(SoldGuide, N)).Rejected? && Request(api, b, Ask(SoldGuide, U)).Rejected? then None
         else Some(FetchPrice(b, api))
  }

  /**
   * The intended fetch stops the run on an API that rejects every request,
   * and agrees with the fetcher as written whenever the API answers either
   * sold request.
   */
  lemma CheckedFetchReportsRejection(api: Api, b: string)
    ensures CheckedFetch(RejectAll())(b) == None
    ensures Request(api, b, Ask(SoldGuide, N)).Resolved? || Request(api, b, Ask(SoldGuide, U)).Resolved?
            ==> CheckedFetch(api)(b) == AsWrittenFetch(api)(b)
  {
  }

  // ---------------------------------------------------------------------
  // main: applying the prices
  // ---------------------------------------------------------------------

  /**
   * The record the apply loop writes over `p`, if any: when `p` carries a
   * number whose cached result has an average, both values are replaced
   * by the cached ones (a null included) and everything else is kept.
   */
  function ApplyEntry(p: PriceEntry, blCache: map<string, PriceResult>): (r: Option<PriceEntry>)
    ensures r.Some? <==> p.bricklinkId.Some? && p.bricklinkId.value != "" && p.bricklinkId.value in blCache
                          && Priced(blCache[p.bricklinkId.value])
    ensures r.Some? ==> r.value == PriceEntry(blCache[p.bricklinkId.value].avgNew, blCache[p.bricklinkId.value].avgUsed, p.bricklinkId)
  {
    match p.bricklinkId
    case Some(b) =>
      if b != "" && b in blCache && Priced(blCache[b]) then Some(p.(valueNew := blCache[b].avgNew, valueUsed := blCache[b].avgUsed))
      else None
    case None => None
  }

  function Applier(blCache: map<string, PriceResult>): (string, Option<PriceEntry>) -> Option<PriceEntry>
  {
    (id: string, existing: Option<PriceEntry>) => match existing case Some(p) => ApplyEntry(p, blCache) case None => None
  }

  /** Applying keeps the number, so applying again writes the same values. */
  lemma ApplierStable(blCache: map<string, PriceResult>)
    ensures Stable(Applier(blCache))
  {
  }

  /** `prices` after the apply loop. */
  function Applied(catalog: seq<NameMatch.CatalogName>, prices: map<string, PriceEntry>, blCache: map<string, PriceResult>)
    : map<string, PriceEntry>
  {
    UpdateAll(prices, NameMatch.CatalogIds(catalog), Applier(blCache))
  }

  /**
   * The apply loop's result for each id: a catalog id whose record carries a
   * number with a priced cached result takes both cached values, keeping
   * its number; every other id keeps its record, or its absence.
   */
  lemma AppliedAt(catalog: seq<NameMatch.CatalogName>, prices: map<string, PriceEntry>, blCache: map<string, PriceResult>, id: string)
    ensures var r := Applied(catalog, prices, blCache);
      && (id in r <==> id in prices)
      && (id in prices && id in NameMatch.CatalogIds(catalog) && HasBlId(prices, id)
          && prices[id].bricklinkId.value in blCache && Priced(blCache[prices[id].bricklinkId.value]) ==>
            var bl := blCache[prices[id].bricklinkId.value];
            r[id] == prices[id].(valueNew := bl.avgNew, valueUsed := bl.avgUsed))
      && (id in prices && !(id in NameMatch.CatalogIds(catalog) && HasBlId(prices, id)
          && prices[id].bricklinkId.value in blCache && Priced(blCache[prices[id].bricklinkId.value])) ==>
            r[id] == prices[id])
  {
    ApplierStable(blCache);
    UpdateAllAt(prices, NameMatch.CatalogIds(catalog), Applier(blCache), id);
  }

  /** Applying the prices a second time changes nothing. */
  lemma AppliedTwice(catalog: seq<NameMatch.CatalogName>, prices: map<string, PriceEntry>, blCache: map<string, PriceResult>)
    ensures Applied(catalog, Applied(catalog, prices, blCache), blCache) == Applied(catalog, prices, blCache)
  {
    ApplierStable(blCache);
    UpdateAllTwice(prices, NameMatch.CatalogIds(catalog), Applier(blCache));
  }

  /** How the apply loop classifies a record: skipped, `updated`, `kept`, or left without a price. */
  datatype ApplyKind = Skipped | Updated | Kept | Unpriced

  function ApplyKindOf(existing: Option<PriceEntry>, blCache: map<string, PriceResult>): ApplyKind
  {
    match existing
    case None => Skipped
    case Some(p) =>
      if p.bricklinkId.None? || p.bricklinkId.value == "" || p.bricklinkId.value !in blCache then Skipped
      else if Priced(blCache[p.bricklinkId.value]) then Updated
      else if HasPrice(p) then Kept
      else Unpriced
  }

  /** The kind of each catalog entry, given the record it had before the loop. */
  function ApplyKinds(catalog: seq<NameMatch.CatalogName>, prices: map<string, PriceEntry>, blCache: map<string, PriceResult>)
    : (r: seq<ApplyKind>)
    ensures |r| == |catalog|
  {
    seq(|catalog|, i requires 0 <= i < |catalog| => ApplyKindOf(Lookup(prices, catalog[i].id), blCache))
  }

  /** Applying changes neither the number nor the kind: a revisited record is classified as on its first visit. */
  lemma KindOfFound(catalog: seq<NameMatch.CatalogName>, prices: map<string, PriceEntry>, blCache: map<string, PriceResult>, i: nat)
    requires i < |catalog|
    ensures ApplyKindOf(Found(prices, NameMatch.CatalogIds(catalog), Applier(blCache), i), blCache)
         == ApplyKindOf(Lookup(prices, catalog[i].id), blCache)
  {
    ApplierStable(blCache);
    FoundAt(prices, NameMatch.CatalogIds(catalog), Applier(blCache), i);
  }

  /** The body of the apply loop for one catalog entry. */
  method ApplyOne(prices: map<string, PriceEntry>, id: string, blCache: map<string, PriceResult>)
    returns (prices': map<string, PriceEntry>, kind: ApplyKind)
    ensures prices' == Update(prices, id, Applier(blCache))
    ensures kind == ApplyKindOf(Lookup(prices, id), blCache)
  {
    assert Applier(blCache)(id, Lookup(prices, id)) == if id in prices then ApplyEntry(prices[id], blCache) else None;
    if id !in prices || prices[id].bricklinkId.None? || prices[id].bricklinkId.value == "" {
      return prices, Skipped;
    }
    var p := prices[id];
    var b := p.bricklinkId.value;
    if b !in blCache {
      return prices, Skipped;
    }
    var bl := blCache[b];
    if bl.avgNew.Some? || bl.avgUsed.Some? {
      return prices[id := p.(valueNew := bl.avgNew, valueUsed := bl.avgUsed)], Updated;
    }
    if p.valueNew.Some? || p.valueUsed.Some? {
      return prices, Kept;
    }
    return prices, Unpriced;
  }

  /** The apply loop with its counters. */
  method ApplyPrices(catalog: seq<NameMatch.CatalogName>, prices0: map<string, PriceEntry>, blCache: map<string, PriceResult>)
    returns (prices: map<string, PriceEntry>, updated: nat, kept: nat)
    ensures prices == Applied(catalog, prices0, blCache)
    ensures var kinds := ApplyKinds(catalog, prices0, blCache);
      updated == multiset(kinds)[Updated] && kept == multiset(kinds)[Kept]
  {
    ghost var ids := NameMatch.CatalogIds(catalog);
    ghost var kinds := ApplyKinds(catalog, prices0, blCache);
    ghost var seen: multiset<ApplyKind> := multiset{};
    prices := prices0;
    updated, kept := 0, 0;
    for i := 0 to |catalog|
      invariant prices == UpdateAll(prices0, ids[..i], Applier(blCache))
      invariant seen == multiset(kinds[..i])
      invariant updated == seen[Updated] && kept == seen[Kept]
    {
      UpdateAllStep(prices0, ids, Applier(blCache), i);
      MultisetStep(kinds, i);
      KindOfFound(catalog, prices0, blCache, i);
      var kind;
      prices, kind := ApplyOne(prices, catalog[i].id, blCache);
      seen := seen + multiset{kind};
      if kind == Updated {
        updated := updated + 1;
      } else if kind == Kept {
        kept := kept + 1;
      }
    }
    assert ids[..|catalog|] == ids && kinds[..|catalog|] == kinds;
  }

  // ---------------------------------------------------------------------
  // main
  // ---------------------------------------------------------------------

  /** How a run ends: stopped for missing credentials, stopped by the credential test, or finished. */
  datatype RunEnd =
    | MissingCredentials
    | CredentialTestFailed
    | Finished(prices: map<string, PriceEntry>, blCache: map<string, PriceResult>, totalWithPrices: nat)

  /**
   * `main`: check the credentials, group the catalog ids by number, fetch
   * the uncached numbers, apply the cached prices to the records and count
   * the priced records. `fetchWith` is the fetch made with the credentials.
   */
  method Run(consumerKey: Option<string>, consumerSecret: Option<string>, token: Option<string>, tokenSecret: Option<string>,
             catalog: seq<NameMatch.CatalogName>, prices0: map<string, PriceEntry>, blCache0: map<string, PriceResult>,
             fetchWith: OAuth.Credentials -> Fetch)
    returns (end: RunEnd)
    ensures var creds := CredentialsFrom(consumerKey, consumerSecret, token, tokenSecret);
      && (end == MissingCredentials <==> creds.None?)
      && (creds.Some? ==>
            var fetch := fetchWith(creds.value);
            var uncached := Uncached(catalog, prices0, blCache0);
            && (end == CredentialTestFailed <==> |uncached| > 0 && fetch(uncached[0]).None?)
            && (end.Finished? ==>
                  && end.blCache == Filled(blCache0, uncached, Stored(fetch))
                  && end.prices == Applied(catalog, prices0, end.blCache)
                  && end.totalWithPrices == WithPrices(end.prices)))
  {
    var creds := CredentialsFrom(consumerKey, consumerSecret, token, tokenSecret);
    if creds.None? {
      return MissingCredentials;
    }
    var idToFigNums := GroupIds(catalog, prices0);
    var uncached := Pending(idToFigNums.keys, blCache0);
    var aborted, blCache, fetched, withPrices, noPrices, errors, saves := FetchUncached(uncached, blCache0, fetchWith(creds.value));
    if aborted {
      return CredentialTestFailed;
    }
    var prices, updated, kept := ApplyPrices(catalog, prices0, blCache);
    var totalWithPrices := |set id | id in prices && HasPrice(prices[id])|;
    assert (set id | id in prices && HasPrice(prices[id])) == PricedIds(prices);
    return Finished(prices, blCache, totalWithPrices);
  }
}
