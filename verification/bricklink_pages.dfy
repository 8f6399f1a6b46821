/**
 * Reading a BrickLink item number off a Rebrickable minifigure page, as the
 * two id repair scripts do: the page address, the ordered patterns tried on
 * the page, and the Brickset records indexed by their BrickLink number.
 * The patterns themselves are regular expressions over HTML; each is a
 * parameter here, a partial extractor whose result is its first capture.
 */
module BricklinkPages {
  import opened Wrappers
  import opened Strings
  import NameMatch
  import KeyIndex

  /** A pattern: the first capture group of its match in a page, or `None` when it does not match. */
  type Extractor = string -> Option<string>

  /** The Rebrickable page of a catalog minifigure. */
  function PageUrl(id: string): string
  {
    "https://rebrickable.com/minifigs/" + id + "/"
  }

  /** The capture of the first pattern, in list order, that matches `html`. */
  function FirstCapture(patterns: seq<Extractor>, html: string): Option<string>
  {
    if patterns == [] then None
    else if patterns[0](html).Some? then patterns[0](html)
    else FirstCapture(patterns[1..], html)
  }

  /**
   * The patterns before position `i` do not match, and the result is the
   * capture of pattern `i`, or `None` when `i` is past the last pattern.
   */
  lemma {:induction false} FirstCaptureIs(patterns: seq<Extractor>, html: string) returns (i: nat)
    ensures i <= |patterns|
    ensures forall j :: 0 <= j < i ==> patterns[j](html).None?
    ensures i < |patterns| ==> patterns[i](html).Some? && FirstCapture(patterns, html) == patterns[i](html)
    ensures i == |patterns| ==> FirstCapture(patterns, html) == None
  {
    if patterns == [] {
      i := 0;
    } else if patterns[0](html).Some? {
      i := 0;
    } else {
      var rest := FirstCaptureIs(patterns[1..], html);
      i := rest + 1;
    }
  }

  /** `extractBricklinkId`: the first capture, lower-cased, or `None`. */
  function ExtractedId(patterns: seq<Extractor>, html: string): (r: Option<string>)
    ensures r.Some? <==> FirstCapture(patterns, html).Some?
    ensures r.Some? ==> |r.value| == |FirstCapture(patterns, html).value|
    ensures r.Some? ==> forall k :: 0 <= k < |r.value| ==> !IsUpper(r.value[k])
  {
    match FirstCapture(patterns, html)
    case Some(c) => Some(ToLower(c))
    case None => None
  }

  /** The first-match loop of `extractBricklinkId`. */
  method ExtractBricklinkId(patterns: seq<Extractor>, html: string) returns (r: Option<string>)
    ensures r == ExtractedId(patterns, html)
  {
    var k := 0;
    while k < |patterns|
      invariant k <= |patterns|
      invariant FirstCapture(patterns[k..], html) == FirstCapture(patterns, html)
    {
      var m := patterns[k](html);
      assert patterns[k..][0] == patterns[k] && patterns[k..][1..] == patterns[k + 1..];
      if m.Some? {
        return Some(ToLower(m.value));
      }
      k := k + 1;
    }
    return None;
  }

  /** What fetching and reading a minifigure's page gives: a failed request, or the extracted number. */
  datatype PageLookup = FetchFailed | Read(blId: Option<string>)

  /** The page of `id` fetched with `fetch` (`None`: the request failed) and read with `patterns`. */
  function LookUp(patterns: seq<Extractor>, fetch: string -> Option<string>, id: string): PageLookup
  {
    match fetch(PageUrl(id))
    case Some(html) => Read(ExtractedId(patterns, html))
    case None => FetchFailed
  }

  /** The `try { fetchPage; extractBricklinkId } catch` of both scripts. */
  method LookUpPage(patterns: seq<Extractor>, fetch: string -> Option<string>, id: string) returns (r: PageLookup)
    ensures r == LookUp(patterns, fetch, id)
  {
    var page := fetch(PageUrl(id));
    if page.None? {
      return FetchFailed;
    }
    var blId := ExtractBricklinkId(patterns, page.value);
    return Read(blId);
  }

  /** The BrickLink numbers of the Brickset records, in order. */
  function BlIds(brickset: seq<NameMatch.BricksetMinifig>): (r: seq<string>)
    ensures |r| == |brickset| && forall i :: 0 <= i < |r| ==> r[i] == brickset[i].bricklinkId
  {
    seq(|brickset|, i requires 0 <= i < |brickset| => brickset[i].bricklinkId)
  }

  /** `bricksetById`: each BrickLink number to the last Brickset record carrying it. */
  function BricksetById(brickset: seq<NameMatch.BricksetMinifig>): map<string, NameMatch.BricksetMinifig>
  {
    KeyIndex.LastByKey(BlIds(brickset), brickset)
  }

  /** A number is indexed iff some record carries it, and it maps to a record carrying it. */
  lemma BricksetByIdHas(brickset: seq<NameMatch.BricksetMinifig>, k: string)
    ensures k in BricksetById(brickset) <==> exists i :: 0 <= i < |brickset| && brickset[i].bricklinkId == k
    ensures k in BricksetById(brickset) ==> BricksetById(brickset)[k] in brickset && BricksetById(brickset)[k].bricklinkId == k
  {
    KeyIndex.LastByKeyLast(BlIds(brickset), brickset, k);
    if exists i :: 0 <= i < |brickset| && brickset[i].bricklinkId == k {
      var i :| 0 <= i < |brickset| && brickset[i].bricklinkId == k;
      assert BlIds(brickset)[i] == k;
    }
  }

  /** The loop that fills `bricksetById`. */
  method BuildBricksetById(brickset: seq<NameMatch.BricksetMinifig>) returns (bricksetById: map<string, NameMatch.BricksetMinifig>)
    ensures bricksetById == BricksetById(brickset)
  {
    bricksetById := map[];
    for i := 0 to |brickset|
      invariant bricksetById == KeyIndex.LastByKey(BlIds(brickset)[..i], brickset[..i])
    {
      KeyIndex.LastByKeyStep(BlIds(brickset), brickset, i);
      bricksetById := bricksetById[brickset[i].bricklinkId := brickset[i]];
    }
    assert BlIds(brickset)[..|brickset|] == BlIds(brickset) && brickset[..|brickset|] == brickset;
  }
}
