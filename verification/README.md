# lego-sw-tracker in Dafny

This project models the logic of lego-sw-tracker, a tracker for a collection of
LEGO Star Wars minifigures, together with a small resale business built on it.
The model has two halves.

**The offline data scripts** build the catalog and the price table:

- `fetch-catalog.ts`: the Star Wars theme closure, the inventory choice, the
  set-to-figure join, the minimum-year rule and the faction classifier
  (`CatalogBuild`).
- `fetch-prices.ts`: the name-matching engine. It has four strategies in a fixed
  order: exact normalized name, base-name bucket, weighted scan and Levenshtein
  distance (`Similarity`, `EditDistances`, `KeyIndex`, `NameMatch`).
- The price and identifier reconciliation scripts: `fix-all-bricklink-ids.ts`,
  `fix-unmatched.ts`, `fetch-bricklink-prices.ts`, `refresh.ts`,
  `apply-bricklink-names.ts` and `fill-last-6.cjs` (`FixIds`, `FixUnmatched`,
  `BricklinkPages`, `BricklinkPrices`, `OAuth`, `Refresh`, `ManualPrices`,
  `FillLastSix`, `Coverage`, `ApplyNames`). They share two generic parts:
  - `KeyedUpdate` is the "update every listed key of the price table" loop;
  - `ResumableCache` is the cache that is filled with periodic save points and
    resumed after an interruption.
- The OAuth 1.0 request signing normalizes its parameters as section 3.4.1 of
  RFC 5849 describes, and percent-encodes them as section 3.6 describes.

**The React app** keeps the collection, the sales and the purchase lots:

- its services:
  - money arithmetic (`Finance`);
  - the CSV codec of section 2 of RFC 4180 (`CsvImport`, `CsvExport`);
  - price lookups (`PriceService`);
  - catalog filtering (`CatalogService`);
  - statistics (`StatsService`, `BusinessStatsService`, `InventoryStats`);
  - scan-result ranking (`GeminiService`);
- its hooks:
  - the collection map (`CollectionStore`);
  - the lot list (`PurchaseLots`);
  - the sales log (`SalesLog`);
  - the capped export history (`ExportLog`);
  - the catalog page (`CatalogView`);
  - the want list (`WantList`);
- the state rules of its components:
  - the page strip (`Pagination`);
  - the lot wizard and cost allocation (`LotForm`);
  - lot item selection (`LotItemSelector`);
  - the photo cap (`PhotoManager`);
  - the quantity and for-sale clamps (`MinifigDetail`);
  - the sales import (`ImportSales`);
  - the sales table sort (`SalesTable`).

**How it is modelled.**

- The source's records become datatypes (`Types`).
- A JavaScript object or `Map` whose insertion order matters becomes an
  `OrderedMap.OMap`: a key sequence plus a map.
- `Array.prototype.sort` becomes a stable insertion sort under a three-way
  comparator (`Sorting`).
- Money is an exact `real` in dollars, with `Math.round(x * 100) / 100` written
  out as `Types.RoundCents`.
- Code that updates state in place is written imperatively:
  - the collection, the lots, the sales, the export history, the catalog page,
    the lot wizard, the item picker and the sales-table sort state are classes
    whose methods reassign their fields;
  - the script loops are methods with loop invariants, proved against the
    specification functions beside them.
- Everything else is functions and lemmas.

`Wrappers` (Option), `Strings`, `Seqs`, `Sorting`, `OrderedMap` and `Grouping`
are shared helpers.

## Model

| member | source | states |
|---|---|---|
| Similarity.KeepNameChars | scripts/fetch-prices.ts:88 | every kept character is a lower-case letter, a digit or white space, and each such character of the input is kept exactly as many times as it occurs there |
| Similarity.KeepNameCharsAppend | scripts/fetch-prices.ts:88 | the kept characters stay in input order: filtering a concatenation filters each part and concatenates the results |
| Similarity.CollapseSpaces | scripts/fetch-prices.ts:89 | no two spaces are adjacent, all white space left is ' ', the other characters are kept in order, and a leading run gives a leading space |
| Similarity.CollapseKeepsChar | scripts/fetch-prices.ts:89 | a character that is not white space is kept, followed by the collapse of the rest |
| Similarity.CollapseRun | scripts/fetch-prices.ts:89 | a whole run of white space, however long, becomes exactly one space |
| Similarity.NormalizeIsNormal | scripts/fetch-prices.ts:85-91 | a normalized name holds only a–z, 0–9 and single interior spaces, with no leading or trailing space |
| Similarity.NormalizeIdempotent | scripts/fetch-prices.ts:85-91 | normalizing twice gives the same name as normalizing once |
| Similarity.BeforeDelimiter | scripts/fetch-prices.ts:95 | the result is a prefix of the name containing no ',' or '(', and it stops at the first one |
| Similarity.DropTrailingDash | scripts/fetch-prices.ts:96 | a final '-' and the white space around it are removed; otherwise the text is kept |
| Similarity.BaseNameIsNormal | scripts/fetch-prices.ts:94-98 | a base name is already normalized |
| Similarity.BaseNameIdempotent | scripts/fetch-prices.ts:94-98 | taking the base name of a base name changes nothing |
| Similarity.Overlap | scripts/fetch-prices.ts:104-109 | the overlap is 0 when either word set is empty, else the common-word count over the larger set size, so it lies in [0,1] |
| Similarity.WordSimilaritySymmetric | scripts/fetch-prices.ts:101-110 | the word similarity does not depend on argument order |
| Similarity.WordSimilaritySelf | scripts/fetch-prices.ts:101-110 | a name with a word longer than one character scores 1 against itself |
| Similarity.WeightedSimilarity | scripts/fetch-prices.ts:113-132 | 0 when the catalog base name has words but shares none; otherwise 0.7·base overlap + 0.3·word similarity, in [0,1] |
| Similarity.WeightedSimilaritySelf | scripts/fetch-prices.ts:113-132 | a name whose base and full name have words scores 1 against itself |
| EditDistances.CellIsEdit | scripts/fetch-prices.ts:136-144 | every cell of the table equals the edit distance of the two prefixes |
| EditDistances.FillRow | scripts/fetch-prices.ts:140-144 | the filled row is the table row of edit distances for prefix i |
| EditDistances.Levenshtein | scripts/fetch-prices.ts:134-147 | the result is the insert/delete/substitute edit distance of the two strings |
| EditDistances.EditZeroIff | scripts/fetch-prices.ts:134-147 | the distance is 0 exactly when the strings are equal |
| EditDistances.EditSymmetric | scripts/fetch-prices.ts:134-147 | the distance does not depend on argument order |
| EditDistances.EditUpper | scripts/fetch-prices.ts:134-147 | the distance is at most the longer length |
| EditDistances.EditLower | scripts/fetch-prices.ts:134-147 | the distance is at least the difference of the lengths |
| EditDistances.EditDistanceProperties | scripts/fetch-prices.ts:134-147 | the distance from the empty string is the other length, plus the four properties above |
| KeyIndex.LastByKeyLast | scripts/fetch-prices.ts:203-205 | a keyed Map filled by `set` maps each key to the last record listed under it, and holds only listed keys |
| KeyIndex.GroupMembers | scripts/fetch-prices.ts:206-208 | a bucket holds exactly the records listed under its key |
| KeyIndex.GroupAppend | scripts/fetch-prices.ts:206-208 | buckets keep list order: the bucket of a concatenated list is the parts' buckets, concatenated |
| NameMatch.ExactIndexLast | scripts/fetch-prices.ts:203-204 | the exact index maps a normalized name to the last pool record with that name |
| NameMatch.BaseIndexGroups | scripts/fetch-prices.ts:206-208 | each base-name bucket is nonempty and holds that base name's records in pool order |
| NameMatch.FirstMax | scripts/fetch-prices.ts:229-236 | the index of the first strict maximum, present only when that maximum is above 0 |
| NameMatch.FirstMin | scripts/fetch-prices.ts:265-274 | the index of the first minimum, reached and not beaten by any element |
| NameMatch.BuildIndexes | scripts/fetch-prices.ts:197-209 | the loop builds the exact index and the base-name buckets of the whole pool |
| NameMatch.ScanBucket | scripts/fetch-prices.ts:229-236 | the running best similarity and record are those of the first strict maximum in the bucket |
| NameMatch.MatchByBaseName | scripts/fetch-prices.ts:224-243 | strategy 2 keeps the bucket's best only when its similarity is at least 0.2 |
| NameMatch.MatchByWeighted | scripts/fetch-prices.ts:245-260 | strategy 3 keeps the pool's first strict maximum only when it is at least 0.4 |
| NameMatch.ScanDistances | scripts/fetch-prices.ts:264-274 | the scan returns the first record at the least edit distance |
| NameMatch.MatchByEditDistance | scripts/fetch-prices.ts:262-279 | strategy 4 runs only for base names of at most 15 characters and accepts a distance at most max(2, 0.3·length) |
| NameMatch.Cascade | scripts/fetch-prices.ts:218-279 | the outcome is the first strategy, in order exact, base name, weighted, edit distance, that found a record |
| NameMatch.MatchOne | scripts/fetch-prices.ts:215-279 | one catalog entry's outcome equals the cascade's |
| NameMatch.MatchCatalog | scripts/fetch-prices.ts:197-288 | the price table holds a record for exactly the matched ids, from the last matched entry, and the four counters count matches per strategy |
| NameMatch.WrittenHas | scripts/fetch-prices.ts:281-287 | a matched entry's id has a price record |
| NameMatch.WrittenFrom | scripts/fetch-prices.ts:281-287 | every price record comes from the last matched entry with that id and carries its record's values and bricklinkId |
| NameMatch.CountsPartition | scripts/fetch-prices.ts:213-278 | the four strategy counters add up to the number of matches |
| NameMatch.BucketOf | scripts/fetch-prices.ts:206-208 | a base name's bucket holds exactly the pool records with that base name |
| NameMatch.BaseNameMatchNone | scripts/fetch-prices.ts:228-242 | strategy 2 finds nothing exactly when every record with that base name scores below 0.2 |
| NameMatch.BaseNameMatchBest | scripts/fetch-prices.ts:228-242 | a strategy-2 match shares the base name, reaches 0.2 and scores at least as high as its whole bucket |
| NameMatch.WeightedMatchNone | scripts/fetch-prices.ts:246-260 | strategy 3 finds nothing exactly when every record scores below 0.4 |
| NameMatch.WeightedMatchBest | scripts/fetch-prices.ts:246-260 | a strategy-3 match is the first record with the top weighted score, which reaches 0.4 |
| NameMatch.EditMatchNone | scripts/fetch-prices.ts:263-279 | strategy 4 finds nothing exactly when the base name is longer than 15 or every record is too far |
| NameMatch.EditMatchNearest | scripts/fetch-prices.ts:263-279 | a strategy-4 match is the first record at the least distance, within the limit |
| NameMatch.ExactNameCase | scripts/fetch-prices.ts:218-222 | strategy 1 applies exactly when some record normalizes to the same name, and then picks the last one |
| NameMatch.SameBaseNameCase | scripts/fetch-prices.ts:225 | strategy 2 runs only when strategy 1 found nothing |
| NameMatch.WeightedScanCase | scripts/fetch-prices.ts:246 | strategy 3 runs only when strategies 1 and 2 found nothing |
| NameMatch.ShortNameEditCase | scripts/fetch-prices.ts:263 | strategy 4 runs only when strategies 1 to 3 found nothing |
| NameMatch.UnmatchedCase | scripts/fetch-prices.ts:281-287 | a name no strategy matches failed all four: no record with its normalized name, every same-base-name record below 0.2, every record below 0.4 weighted, and a base name over 15 characters or every record too far |
| NameMatch.PricedIffMatched | scripts/fetch-prices.ts:281-287 | an id has a price record exactly when some catalog entry with that id was matched, so an unmatched entry writes none |
| CatalogBuild.ThemePass | scripts/fetch-catalog.ts:70-76 | one pass adds only themes whose parent is already in the set, and adds none exactly when the set is closed |
| CatalogBuild.StarWarsThemeIds | scripts/fetch-catalog.ts:64-79 | the loop terminates; the result holds '158' and '18', is closed under parent links and lies inside every closed set holding both roots |
| CatalogBuild.ClosureUnique | scripts/fetch-catalog.ts:64-79 | any two least closed sets are equal, so the result does not depend on theme order |
| CatalogBuild.FirstLabelFirstMatch | scripts/fetch-catalog.ts:82-98 | the first rule, in source order, whose keyword occurs in the lower-cased name decides the label |
| CatalogBuild.FirstLabelNoMatch | scripts/fetch-catalog.ts:98 | with no matching rule the label is "Other" |
| CatalogBuild.GuessFactionLabel | scripts/fetch-catalog.ts:82-99 | the label is always one of the fourteen fixed labels |
| CatalogBuild.SwSetsHas | scripts/fetch-catalog.ts:136-141 | a set row of a Star Wars theme is kept under its number |
| CatalogBuild.SwSetsFrom | scripts/fetch-catalog.ts:136-141 | every kept set is a row of a Star Wars theme under its own number |
| CatalogBuild.SelectStarWarsSets | scripts/fetch-catalog.ts:136-141 | the loop builds exactly that map of Star Wars sets |
| CatalogBuild.SetToInventoryKeys | scripts/fetch-catalog.ts:145-151 | exactly the sets with an inventory row get a chosen inventory |
| CatalogBuild.LastVersionOneChosen | scripts/fetch-catalog.ts:148-149 | a set's last version-1 row is its chosen inventory |
| CatalogBuild.FirstRowChosen | scripts/fetch-catalog.ts:147-149 | a set with no version-1 row keeps its first row's inventory |
| CatalogBuild.ChooseInventories | scripts/fetch-catalog.ts:145-151 | the loop builds that set-to-inventory map |
| CatalogBuild.InventoryToSetBack | scripts/fetch-catalog.ts:154-158 | an inventory maps back to a Star Wars set that chose it |
| CatalogBuild.InventoryToSetHas | scripts/fetch-catalog.ts:154-158 | every Star Wars set's chosen inventory is mapped back |
| CatalogBuild.ReverseInventories | scripts/fetch-catalog.ts:154-158 | the loop builds that reverse map |
| CatalogBuild.FigToSetsHas | scripts/fetch-catalog.ts:161-168 | a row whose inventory belongs to a Star Wars set adds that set to its figure |
| CatalogBuild.FigToSetsFrom | scripts/fetch-catalog.ts:161-168 | every set listed for a figure comes from such a row |
| CatalogBuild.FigToSetsLists | scripts/fetch-catalog.ts:165-166 | each figure's set list is nonempty and free of repeats |
| CatalogBuild.LinkFigures | scripts/fetch-catalog.ts:161-168 | the loop builds that figure-to-sets map |
| CatalogBuild.FigNumsAreLinked | scripts/fetch-catalog.ts:187-198 | the collected figure numbers are exactly the figures with Star Wars sets, each once |
| CatalogBuild.CollectFigNums | scripts/fetch-catalog.ts:187-198 | the two loops collect those figure numbers |
| CatalogBuild.ResolveFrom | scripts/fetch-catalog.ts:212-218 | every resolved set is a Star Wars set listed for the figure |
| CatalogBuild.MinYear | scripts/fetch-catalog.ts:210-218 | the running minimum is the least year below 9999, or 9999 when there is none |
| CatalogBuild.EntryShape | scripts/fetch-catalog.ts:208-230 | an entry's sets are sorted by year, numSets is their count, and year is the least set year, or 2000 when none |
| CatalogBuild.ResolveSets | scripts/fetch-catalog.ts:208-220 | the loop computes the resolved sets and the running minimum |
| CatalogBuild.EmitFrom | scripts/fetch-catalog.ts:203-231 | each entry belongs to a listed figure that has a minifigure row |
| CatalogBuild.EmitHas | scripts/fetch-catalog.ts:204-206 | every listed figure with a minifigure row gets an entry, and the others are skipped |
| CatalogBuild.EmitDistinct | scripts/fetch-catalog.ts:203-231 | entries of distinct figures have distinct ids |
| CatalogBuild.EmitEntries | scripts/fetch-catalog.ts:203-231 | the loop emits those entries in figure order |
| CatalogBuild.BuildCatalog | scripts/fetch-catalog.ts:132-233 | the catalog is the emitted entries sorted by id |
| CatalogBuild.CatalogSortedUnique | scripts/fetch-catalog.ts:233 | the catalog is sorted by id and lists each id once |
| CatalogBuild.CatalogEntryOf | scripts/fetch-catalog.ts:161-231 | every catalog entry is a figure linked to a Star Wars set through a chosen inventory, and it has a minifigure row |
| CatalogBuild.CatalogHas | scripts/fetch-catalog.ts:161-231 | every figure linked to a Star Wars set that has a minifigure row is in the catalog |
| FixIds.ToScrape | scripts/fix-all-bricklink-ids.ts:87 | the ids to scrape are the catalog ids the cache lacks, in catalog order; an id cached as null is not among them |
| FixIds.ScrapeIds | scripts/fix-all-bricklink-ids.ts:96-127 | every id to scrape gets its extracted number, or null when none was read or the request failed; the cache is saved after every 50 ids and at the end; the counters count successes and failures |
| FixIds.ScrapeResult | scripts/fix-all-bricklink-ids.ts:96-127 | afterwards every catalog id has a cache entry, and an id cached before keeps its entry |
| FixIds.CorrectId | scripts/fix-all-bricklink-ids.ts:136-140 | the cached number is used only when it is present and non-empty |
| FixIds.CorrectedAt | scripts/fix-all-bricklink-ids.ts:135-164 | an id without a cached number keeps its record; a record with the same number is unchanged; a different number takes Brickset's values, falling back per field to the old ones; a missing record is created with Brickset's values or null |
| FixIds.FixerStable | scripts/fix-all-bricklink-ids.ts:142-163 | a corrected record carries the cached number, so correcting it again writes nothing |
| FixIds.CorrectedTwice | scripts/fix-all-bricklink-ids.ts:135-164 | running the correction a second time changes nothing |
| FixIds.FixOne | scripts/fix-all-bricklink-ids.ts:136-163 | one entry's record is corrected and its kind (no number, same, updated, added) reported |
| FixIds.CorrectPrices | scripts/fix-all-bricklink-ids.ts:131-164 | the loop's table is the correction of every catalog id, and noBlId, updated and added count the entries of each kind |
| FixIds.KindsPartition | scripts/fix-all-bricklink-ids.ts:131-164 | noBlId + updated + added + the unchanged entries equals the catalog size |
| FixIds.DuplicateReport | scripts/fix-all-bricklink-ids.ts:169-175 | the report gives the number of distinct bricklinkIds and of ids filed more than once, and changes no data |
| FixIds.CountByKey | scripts/fix-all-bricklink-ids.ts:171-172 | each key is counted as often as it occurs |
| FixIds.SharedKeyDuplicated | scripts/fix-all-bricklink-ids.ts:173 | two records with the same id make that id a duplicate |
| FixIds.NoDuplicatesIffDistinct | scripts/fix-all-bricklink-ids.ts:169-175 | the report shows no duplicates exactly when all ids are distinct |
| FixIds.Changes | scripts/fix-all-bricklink-ids.ts:181-192 | namesUpdated counts the entries whose name the rewrite changes |
| FixIds.RewriteNames | scripts/fix-all-bricklink-ids.ts:181-192 | each name becomes "<Brickset name> (<id>)" only when Brickset has a name for the record's id; nothing else changes |
| FixIds.RenameAgain | scripts/fix-all-bricklink-ids.ts:181-192 | rewriting the names a second time changes nothing and counts nothing |
| FixUnmatched.Unmatched | scripts/fix-unmatched.ts:81 | the unmatched ids are the catalog ids without a price record, in catalog order |
| FixUnmatched.NewRecord | scripts/fix-unmatched.ts:96-128 | a found number known to Brickset gives its values; a found number unknown to Brickset gives a record with both values null; no number or a failed request gives no record |
| FixUnmatched.RecorderStable | scripts/fix-unmatched.ts:100-120 | writing the same record again changes nothing |
| FixUnmatched.RepairedAt | scripts/fix-unmatched.ts:81-131 | an id that had a record keeps it, an id outside the catalog stays absent, and an unmatched id holds the record its page gives, or stays absent |
| FixUnmatched.RerunVisits | scripts/fix-unmatched.ts:81-131 | a second run visits exactly the entries the first one could not give a record |
| FixUnmatched.RepairOne | scripts/fix-unmatched.ts:96-128 | one entry's record and the counter it bumps |
| FixUnmatched.RepairUnmatched | scripts/fix-unmatched.ts:86-131 | the loop's table is the repair of every unmatched id, and found + noPrice + notOnBricklink + errors equals the number of unmatched entries |
| FixUnmatched.Tally | scripts/fix-unmatched.ts:100-128 | each outcome bumps exactly its own counter |
| FixUnmatched.Run | scripts/fix-unmatched.ts:70-141 | the run indexes Brickset by number, repairs the unmatched entries and reports the priced records and all records |
| ResumableCache.Pending | scripts/fix-all-bricklink-ids.ts:87 | the pending keys are exactly the listed keys the cache lacks, in order |
| ResumableCache.SavePoints | scripts/fix-all-bricklink-ids.ts:117-120 | a save is taken after every `every` stored keys |
| ResumableCache.FilledAt | scripts/fix-all-bricklink-ids.ts:96-116 | a stored key holds its fetched value and every other key keeps its cached value |
| ResumableCache.NothingPending | scripts/fix-all-bricklink-ids.ts:87 | after a full run nothing is pending, so a rerun fetches nothing |
| ResumableCache.ResumeEquivalent | scripts/fix-all-bricklink-ids.ts:74-127 | a run interrupted after any number of fetches and then rerun ends with the same cache as an uninterrupted run |
| KeyedUpdate.UpdateAt | scripts/fix-all-bricklink-ids.ts:135-164 | one step of a per-key price loop changes its own key as the step says and no other key |
| KeyedUpdate.UpdateAllAt | scripts/fix-all-bricklink-ids.ts:135-164 | with a stable step, a visited key holds the step's effect on its original value and every other key is untouched |
| KeyedUpdate.UpdateAllTwice | scripts/fix-all-bricklink-ids.ts:135-164 | with a stable step, running the loop a second time changes nothing |
| BricklinkPages.FirstCaptureIs | scripts/fix-all-bricklink-ids.ts:62-66 | the patterns before the chosen one do not match, and the result is that pattern's capture, or nothing when none matches |
| BricklinkPages.ExtractedId | scripts/fix-all-bricklink-ids.ts:52-67 | the result is the first pattern's capture, lower-cased, or nothing when no pattern matches |
| BricklinkPages.ExtractBricklinkId | scripts/fix-unmatched.ts:50-68 | the first-match loop returns exactly that lower-cased first capture |
| BricklinkPages.LookUpPage | scripts/fix-unmatched.ts:96-98 | a fetched page gives its extracted number; a failed request is reported as an error |
| BricklinkPages.BricksetByIdHas | scripts/fix-unmatched.ts:76-79 | a number is indexed exactly when some Brickset record carries it, and it maps to a record carrying it |
| BricklinkPages.BuildBricksetById | scripts/fix-all-bricklink-ids.ts:82-85 | the loop builds that index |
| BricklinkPrices.QueryPairs | scripts/fetch-bricklink-prices.ts:121-123 | each query pair is the encoded key, '=', and the encoded value, in order |
| BricklinkPrices.FullUrl | scripts/fetch-bricklink-prices.ts:124 | the URL gets '?' and the query string only when there are parameters |
| BricklinkPrices.QueryStringNonEmpty | scripts/fetch-bricklink-prices.ts:121-124 | the query string is empty exactly when there are no parameters |
| BricklinkPrices.Settle | scripts/fetch-bricklink-prices.ts:146-160 | a reply resolves exactly when its status is 200, its body is JSON and meta.code is 200 or absent, and then with the body's data |
| BricklinkPrices.ApiRequest | scripts/fetch-bricklink-prices.ts:115-166 | the request goes to the full URL with the header built over the base URL and query; a failed connection rejects |
| BricklinkPrices.PriceQuery | scripts/fetch-bricklink-prices.ts:183 | the price-guide query lists guide_type, new_or_used and currency_code USD, in that order |
| BricklinkPrices.Price | scripts/fetch-bricklink-prices.ts:186-189 | a price field is accepted only when it parses to a positive number, and then it is rounded to whole cents within half a cent |
| BricklinkPrices.ToFixed2 | scripts/fetch-bricklink-prices.ts:187 | the value is a whole number of cents within half a cent of the input |
| BricklinkPrices.SoldAverage | scripts/fetch-bricklink-prices.ts:186-190 | the quantity-weighted average is preferred over the plain one, each used only if positive; a failed request gives nothing |
| BricklinkPrices.StockAverage | scripts/fetch-bricklink-prices.ts:220-222 | a stock average uses the plain average only, if positive |
| BricklinkPrices.FetchPriceForItem | scripts/fetch-bricklink-prices.ts:172-240 | the result comes from the two sold requests, and from the two stock requests only when both sold averages are unknown; it reports the requests sent, in order |
| BricklinkPrices.SoldFirst | scripts/fetch-bricklink-prices.ts:213 | when either sold average is known the stock requests are never sent, so their answers cannot change the result |
| BricklinkPrices.StockFallback | scripts/fetch-bricklink-prices.ts:213-237 | the stock fallback is taken exactly when both sold averages are unknown, and then both values come from it |
| BricklinkPrices.CredentialsFrom | scripts/fetch-bricklink-prices.ts:247-262 | the run continues only when all four credentials are set and non-empty |
| BricklinkPrices.GroupIds | scripts/fetch-bricklink-prices.ts:278-286 | the loop groups catalog ids by their record's number in catalog order, skipping records without one |
| BricklinkPrices.FigNumsHas | scripts/fetch-bricklink-prices.ts:278-286 | every catalog id whose record carries a number is listed under that number |
| BricklinkPrices.FigNumsFrom | scripts/fetch-bricklink-prices.ts:278-286 | only catalog ids whose record carries the number are listed under it |
| BricklinkPrices.Uncached | scripts/fetch-bricklink-prices.ts:288-289 | the numbers to fetch are those the cache lacks, in first-appearance order; a null result counts as cached |
| BricklinkPrices.FetchUncached | scripts/fetch-bricklink-prices.ts:301-373 | the first number is fetched alone and a throw stops the run; every other number gets a cache entry, a throw storing {null, null} and counting an error; the cache is saved every 100 numbers and at the end; the counters add up |
| BricklinkPrices.FetchNext | scripts/fetch-bricklink-prices.ts:322-359 | one turn stores the number's result and bumps exactly one counter |
| BricklinkPrices.RerunFetchesNothing | scripts/fetch-bricklink-prices.ts:288-289 | after a completed run nothing is left to fetch |
| BricklinkPrices.AsWrittenNeverThrows | scripts/fetch-bricklink-prices.ts:305-313 | with the fetcher as written, the credential test always passes and no error is ever counted |
| BricklinkPrices.RejectionLooksUnpriced | scripts/fetch-bricklink-prices.ts:305-313 | with an API that rejects every request, the fetcher as written reports every number as unpriced |
| BricklinkPrices.CheckedFetchReportsRejection | scripts/fetch-bricklink-prices.ts:305-313 | the corrected fetch stops the run on an API that rejects every request, and agrees with the one as written whenever a sold request is answered |
| BricklinkPrices.ApplyEntry | scripts/fetch-bricklink-prices.ts:387-405 | when the record's number has a cached result with an average, both values are replaced by the cached ones (a null included) and everything else is kept; otherwise nothing is written |
| BricklinkPrices.AppliedAt | scripts/fetch-bricklink-prices.ts:387-406 | a catalog id whose number has a priced cached result takes both cached values and keeps its number; every other id keeps its record or its absence |
| BricklinkPrices.AppliedTwice | scripts/fetch-bricklink-prices.ts:387-406 | applying the prices a second time changes nothing |
| BricklinkPrices.ApplyOne | scripts/fetch-bricklink-prices.ts:388-405 | one entry is applied and counted as updated, kept or neither |
| BricklinkPrices.ApplyPrices | scripts/fetch-bricklink-prices.ts:384-406 | the loop's table is the applied table, and updated and kept count their entries |
| BricklinkPrices.Run | scripts/fetch-bricklink-prices.ts:246-413 | the run checks the credentials, groups ids, fetches the uncached numbers, applies the cached prices and counts the priced records |
| OAuth.RfcEncode | scripts/fetch-bricklink-prices.ts:53-60 | every character of the encoding is '%' or unreserved, and an unreserved string is its own encoding |
| OAuth.PercentEncodeIsRfc | scripts/fetch-bricklink-prices.ts:53-60 | percentEncode is exactly the parameter encoding of section 3.6 of RFC 5849, so ! * ' ( ) are escaped too |
| OAuth.DecodeEncode | scripts/fetch-bricklink-prices.ts:53-60 | decoding the encoding of an ASCII string gives it back |
| OAuth.ProtocolParams | scripts/fetch-bricklink-prices.ts:78-85 | the six protocol parameters, in source order, with their given values |
| OAuth.PutAll | scripts/fetch-bricklink-prices.ts:88 | the merged parameters take the query's value on a shared key and the protocol's otherwise |
| OAuth.SortedKeys | scripts/fetch-bricklink-prices.ts:89 | the keys, each once, sorted in code-unit order |
| OAuth.Pairs | scripts/fetch-bricklink-prices.ts:90-91 | each pair is the encoded key, '=', and the encoded value, in sorted key order |
| OAuth.BaseStringParts | scripts/fetch-bricklink-prices.ts:95 | the base string splits at '&' into exactly the method, the encoded URL and the encoded parameter string |
| OAuth.SigningKeyParts | scripts/fetch-bricklink-prices.ts:98 | the signing key splits at '&' into the two encoded secrets |
| OAuth.SortedKeysOrderFree | scripts/fetch-bricklink-prices.ts:88-89 | the order parameters were added in does not change the sorted key list |
| OAuth.ParamStringOrderFree | scripts/fetch-bricklink-prices.ts:88-92 | nor does it change the parameter string |
| OAuth.HeaderIgnoresQueryOrder | scripts/fetch-bricklink-prices.ts:66-109 | the signature, and so the header, depend on the query's parameters and values, not on the order they were written in |
| PriceTable.WithPrices | scripts/fix-unmatched.ts:139 | the number of priced records is at most the number of records |
| PriceTable.WithPricesAfterWrite | scripts/fix-unmatched.ts:103-119 | writing one record moves the priced count by at most one |
| Refresh.NeedsOverrideIffUnpriced | scripts/refresh.ts:55 | an override is needed for a missing record, and for a present one exactly when both its values are null |
| Refresh.OverriderStable | scripts/refresh.ts:55-56 | an overridden record is priced, so a second visit leaves it alone |
| Refresh.OverriddenAt | scripts/refresh.ts:52-59 | a listed id whose record is missing or unpriced gets its own override; every other id keeps what it had |
| Refresh.NeedCount | scripts/refresh.ts:51-58 | applied counts the listed ids whose record needs an override, at most the table size |
| Refresh.SkippedArePriced | scripts/refresh.ts:62 | the table size less applied is the number of listed ids already priced |
| Refresh.ApplyManualOverrides | scripts/refresh.ts:47-63 | the loop writes the overrides and counts them |
| Refresh.OverridesRerun | scripts/refresh.ts:52-59 | a second run writes nothing |
| Refresh.OverridesKeepCoverage | scripts/refresh.ts:52-59 | overrides never unprice a record |
| Refresh.WampaEachOwn | scripts/refresh.ts:38-45 | the two ids sharing bricklinkId 'wampa' each get their own values, whatever the other holds |
| Refresh.FirstTen | scripts/refresh.ts:78 | the missing sample has at most ten lines, the first ones in order |
| Refresh.PrintSummary | scripts/refresh.ts:65-93 | withPrices + noPrices is the catalog length, an entry counts as priced iff either value is non-null, and up to ten unpriced entries are listed in catalog order |
| Refresh.Steps | scripts/refresh.ts:96-116 | the cache is cleared first unless --use-cache is passed or it is absent; then catalog, id mapping, fix unmatched, API prices, overrides, summary |
| Refresh.UntilFailurePrefix | scripts/refresh.ts:95-121 | the steps that run are a prefix of the pipeline, stopping only at a step that failed, and all of them when none fails |
| Refresh.RunRefresh | scripts/refresh.ts:95-117 | main runs those steps in order, stopping at the first that throws |
| Refresh.RunSteps | scripts/refresh.ts:103-116 | awaiting the steps in turn: a throwing step ends the run |
| ManualPrices.Overlay | scripts/refresh.ts:56 | an overlaid record takes every field from the fix and is priced |
| ManualPrices.ManualOverridesValid | scripts/refresh.ts:38-45 | the table lists six distinct ids, each with its record |
| Coverage.Covered | scripts/fill-last-6.cjs:22-32 | the priced count lies between 0 and the number of entries |
| Coverage.CoveredAll | scripts/fill-last-6.cjs:22-32 | every entry is counted when every entry is priced, and none when none is |
| Coverage.CoveredMonotone | scripts/fill-last-6.cjs:22-32 | a change that never unprices a record never lowers the count |
| Coverage.MissingLinesCount | scripts/fill-last-6.cjs:27-31 | there is one Missing line per entry the count leaves out |
| FillLastSix.FillerStable | scripts/fill-last-6.cjs:16 | writing the same fix again changes nothing |
| FillLastSix.FilledAt | scripts/fill-last-6.cjs:15-17 | a listed id holds its fix whether or not it was priced before; every other id keeps what it had |
| FillLastSix.FillVersusOverride | scripts/fill-last-6.cjs:15-17 | the fill and the conditional overrides differ only at a listed id that was already priced |
| FillLastSix.FillFixes | scripts/fill-last-6.cjs:15-17 | the loop writes every fix unconditionally |
| FillLastSix.FillCoverage | scripts/fill-last-6.cjs:6-17 | after the fill every listed id is priced and no record was unpriced |
| FillLastSix.CountCoverage | scripts/fill-last-6.cjs:22-32 | withPrices + noPrices is the catalog length, and an entry is priced iff either value is non-null |
| FillLastSix.Run | scripts/fill-last-6.cjs:1-33 | the script fills the six records and then counts the coverage |
| ApplyNames.NameMapHas | scripts/apply-bricklink-names.ts:41-46 | a record with a non-empty number and name is in the map, with its name unless a later such record has the same number |
| ApplyNames.NameMapFrom | scripts/apply-bricklink-names.ts:41-46 | every mapped number comes from a named record whose name it holds, with no later named record for it |
| ApplyNames.NameMapNamed | scripts/apply-bricklink-names.ts:43 | every mapped name is non-empty |
| ApplyNames.BuildNameMap | scripts/apply-bricklink-names.ts:41-46 | the loop builds that map |
| ApplyNames.BricklinkIdOf | scripts/apply-bricklink-names.ts:57-58 | the record's number, only when it is present and non-empty |
| ApplyNames.Rename | scripts/apply-bricklink-names.ts:56-75 | an entry takes the mapped name of its record's number when there is one; otherwise it is left as it was, and only the name can change |
| ApplyNames.CountsOutcomes | scripts/apply-bricklink-names.ts:52-75 | updated + notFound + the already-equal entries is the catalog length |
| ApplyNames.ApplyBricklinkNames | scripts/apply-bricklink-names.ts:52-75 | the loop renames each entry in place as Rename says, updated counts renames and notFound the entries without a mapped name |
| ApplyNames.RenameAgain | scripts/apply-bricklink-names.ts:56-75 | a second pass renames nothing and changes nothing |
| ApplyNames.Run | scripts/apply-bricklink-names.ts:35-75 | the script builds the name map and then renames |
| ApplyNames.RenameOne | scripts/apply-bricklink-names.ts:57-74 | one turn of the loop leaves the entry as Rename says and reports which of the four branches it took |
| ApplyNames.Tally | scripts/apply-bricklink-names.ts:59-73 | a rename bumps updated, an entry without a mapped name bumps notFound, an already-named entry bumps neither |
| Types.RoundCents | src/services/financialService.ts:13 | Math.round(x*100)/100 gives whole cents within half a cent of x |
| Types.FloorCents | src/services/financialService.ts:42 | Math.floor(x*100)/100 gives whole cents at most x and less than a cent below it |
| Finance.PlatformFee | src/services/financialService.ts:4-14 | the fee is price × the platform's rate to the nearest cent, and 0 for 'other' |
| Finance.NetProfit | src/services/financialService.ts:16-24 | the profit is sale − fee − cost − shipping cost + shipping charged, to the nearest cent |
| Finance.NetProfitExact | src/services/financialService.ts:16-24 | with whole-cent inputs the profit is exactly that sum |
| Finance.ApplyMarkup | src/services/financialService.ts:26-28 | the cost raised by the markup percentage, to the nearest cent |
| Finance.ApplyMarkupZero | src/services/financialService.ts:26-28 | a zero markup leaves a whole-cent cost unchanged |
| Finance.RoundTo99 | src/services/financialService.ts:30-32 | the whole-dollar part is kept and the cents become 99: floor(result) == floor(price) |
| Finance.RoundTo99Idempotent | src/services/financialService.ts:30-32 | a price ending in .99 keeps it |
| Finance.ApplyMarkupAndRound | src/services/financialService.ts:34-38 | the markup, then the .99 ending only when doRound is set |
| Finance.EqualSplitSum | src/services/financialService.ts:41-51 | the equal split has itemCount parts summing to the total, to the nearest cent |
| Finance.EqualSplitBalanced | src/services/financialService.ts:41-51 | every part is whole cents and no two parts differ by more than one cent |
| Finance.EqualSplitNearShare | src/services/financialService.ts:41-51 | each part is within a cent of totalCost / itemCount |
| Finance.EqualSplitInCents | src/services/financialService.ts:41-51 | with a total of C cents over n items, each part is C/n cents and the first C mod n parts get one cent more |
| Finance.SplitCostEqual | src/services/financialService.ts:41-51 | the array filled with the base share and then bumped by the leftover cents is the equal split |
| Finance.ValuesOrZero | src/services/financialService.ts:58 | a missing market value counts as 0, position by position |
| Finance.FloorShares | src/services/financialService.ts:62 | each part is the item's proportional share rounded down to the cent |
| Finance.MarketLeftover | src/services/financialService.ts:62-64 | the floors lose less than a cent per item, so the leftover is in [0, n) cents |
| Finance.MarketSplitSum | src/services/financialService.ts:54-69 | the by-value split has one part per item and the parts sum to the total, to the nearest cent |
| Finance.MarketSplitFallback | src/services/financialService.ts:60 | when every value is null or 0 the split is the equal split |
| Finance.MarketSplitNearShare | src/services/financialService.ts:62-67 | each part is within a cent of the item's proportional share |
| Finance.SplitCostByMarketValue | src/services/financialService.ts:54-69 | the array of floored shares, bumped one cent each at the front by the leftover, is the by-value split |
| PriceService.GetPrice | src/services/priceService.ts:11-13 | the stored record, or nothing for an unknown id |
| PriceService.MarketPrice | src/services/priceService.ts:15-18 | the used value when present, else the new value, else nothing; nothing for an unknown id |
| PriceService.MarketPriceIffPriced | src/services/priceService.ts:15-18 | an id has a market price exactly when its record counts as priced |
| PriceService.MarketPriceIgnoresNew | src/services/priceService.ts:17 | the new value never matters while a used value is present |
| PriceService.BricklinkIdOfRecord | src/services/priceService.ts:20-22 | the number is exactly the stored record's bricklinkId, and nothing for an unknown id |
| CsvImport.Scan | src/services/csvImport.ts:46-62 | the character scan's fields: a comma outside quotes ends a field, quote characters toggle quoting and are dropped, and "" inside quotes gives one quote |
| CsvImport.SplitCSVLine | src/services/csvImport.ts:41-64 | the character loop returns exactly the line's fields |
| CsvImport.FieldCount | src/services/csvImport.ts:41-64 | a line has one field more than it has commas outside quotes |
| CsvImport.QuoteFreeFields | src/services/csvImport.ts:41-64 | a line without quote characters splits at every comma |
| CsvImport.SplitLines | src/services/csvImport.ts:22 | the pieces between newlines, a `\r` before a newline dropped |
| CsvImport.NonBlank | src/services/csvImport.ts:22 | the lines that are not blank, in order |
| CsvImport.Row | src/services/csvImport.ts:31-34 | one row's object: the trimmed headers, each holding a trimmed value |
| CsvImport.RowKeys | src/services/csvImport.ts:31-34 | a row's keys are the trimmed headers in order of first appearance |
| CsvImport.RowTrimmed | src/services/csvImport.ts:33 | every value of a row is trimmed |
| CsvImport.RowAt | src/services/csvImport.ts:32-34 | a header holds the trimmed value of the last column under it, and '' when the line has no such column |
| CsvImport.BuildRow | src/services/csvImport.ts:31-34 | the forEach builds that row |
| CsvImport.RowsOf | src/services/csvImport.ts:21-39 | no rows for fewer than two non-blank lines; otherwise one per line after the header line |
| CsvImport.RowsAt | src/services/csvImport.ts:29-36 | row i holds line i + 1 under the header line's fields |
| CsvImport.RowsShareKeys | src/services/csvImport.ts:26-35 | every row has exactly the header line's trimmed fields as keys, in the same order |
| CsvImport.RowsTrimmed | src/services/csvImport.ts:33 | every value of every row is trimmed |
| CsvImport.BuildRows | src/services/csvImport.ts:29-36 | the loop builds those rows |
| CsvImport.ParseCSV | src/services/csvImport.ts:21-39 | parseCSV returns exactly those rows |
| CsvImport.FindColumnAt | src/services/csvImport.ts:67-74 | the first pattern any lower-cased trimmed header contains, and the first header containing it |
| CsvImport.FindColumn | src/services/csvImport.ts:67-74 | the original text of that header, or nothing when no pattern occurs |
| CsvImport.Quantity | src/services/csvImport.ts:114 | the quantity is max(1, the parsed integer), and 1 when it does not parse |
| CsvImport.QuantityOfCount | src/services/csvImport.ts:114 | a written positive count reads back as itself |
| CsvImport.StripMoney | src/services/csvImport.ts:115 | every '$' and ',' is removed and nothing else |
| CsvImport.SalePrice | src/services/csvImport.ts:115 | the parsed price, or 0 when it does not parse |
| CsvImport.SalePriceOfDollars | src/services/csvImport.ts:115 | a whole-dollar amount with '$' and ',' reads back as itself |
| CsvImport.SkuIndexTargets | src/services/csvImport.ts:98-103 | every indexed text leads to a collection entry it names |
| CsvImport.SkuIndexCovers | src/services/csvImport.ts:98-103 | every id and every non-empty custom SKU, lower-cased, is indexed |
| CsvImport.BuildSkuIndex | src/services/csvImport.ts:94-103 | the loop builds that SKU index |
| CsvImport.CatalogById | src/services/csvImport.ts:96 | the last catalog entry with an id wins |
| CsvImport.FigMatch | src/services/csvImport.ts:122 | the first match of fig- followed by every digit after it, case-insensitively |
| CsvImport.Sales | src/services/csvImport.ts:77-143 | nothing without data rows, otherwise one match per row in row order |
| CsvImport.ParseSalesCSV | src/services/csvImport.ts:77-143 | parseSalesCSV returns exactly those matches |
| CsvImport.MatchRowEntry | src/services/csvImport.ts:118-137 | a row has an entry exactly when its id is set, that entry is the collection's record, and the quantity is at least 1 |
| CsvImport.MatchRowMinifig | src/services/csvImport.ts:136 | a row's catalog record is the catalog entry for its id, when the catalog lists it |
| CsvImport.SaleFacts | src/services/csvImport.ts:105-142 | row i's entry is present exactly when its id is set, and its catalog record exactly when the catalog lists the id too |
| CsvImport.IdInCollection | src/services/csvImport.ts:118-133 | every matched id is a key of the collection |
| CsvImport.MatchIdIgnoresCase | src/services/csvImport.ts:118 | the SKU is matched without regard to case |
| CsvImport.CrackedSkuMatches | src/services/csvImport.ts:130-133 | an exported `<sku>-CRACKED` matches the entry its SKU maps to, when nothing maps the cracked SKU itself |
| CsvExport.DoubleQuotes | src/services/csvExport.ts:7 | every quote is doubled and nothing else changes |
| CsvExport.EscapeCSV | src/services/csvExport.ts:5-10 | the value is unchanged unless it holds ',', '"' or a newline; then it is quoted with inner quotes doubled |
| CsvExport.SplitEscaped | src/services/csvExport.ts:5-10 | splitCSVLine reads an escaped field without a newline back as that one field |
| CsvExport.SplitEscapedLine | src/services/csvExport.ts:120-121 | splitCSVLine reads a line of escaped fields joined by ',' back as those fields |
| CsvExport.LineNewline | src/services/csvExport.ts:120-121 | a line holds a line break only when one of its fields does |
| CsvExport.Cells | src/services/csvExport.ts:121 | a row's cells under the headers, in header order |
| CsvExport.ConditionLabel | src/services/csvExport.ts:26-42 | new gives 'Brand New', used and damaged give 'Used' |
| CsvExport.ExportPrice | src/services/csvExport.ts:33-38 | askingPrice ?? market ?? 0; the markup over pricePaid only when markupPercent > 0 and pricePaid is set; otherwise the .99 ending only when rounding is on and the price is positive |
| CsvExport.SplitCopies | src/services/csvExport.ts:45-109 | two rows when there are cracked and intact copies, else one, marked cracked only when every copy is, with condition 'Used' when any is |
| CsvExport.WhatnotRows | src/services/csvExport.ts:12-113 | the items' rows, in item order |
| CsvExport.BuildItemRows | src/services/csvExport.ts:19-109 | the loop body computes one item's rows |
| CsvExport.CopyRows | src/services/csvExport.ts:45-109 | the branch emits the copies' rows |
| CsvExport.BuildWhatnotRows | src/services/csvExport.ts:12-113 | the loop returns exactly those rows |
| CsvExport.CopiesQuantity | src/services/csvExport.ts:47-95 | the rows' quantities add up to the entry's quantity |
| CsvExport.SplitRows | src/services/csvExport.ts:49-86 | with both kinds of copies, the second row has the " (Cracked)" title, the "-CRACKED" SKU, condition 'Used' and the cracked count |
| CsvExport.SingleRow | src/services/csvExport.ts:87-108 | otherwise one row with the whole quantity, cracked suffixes exactly when every copy is cracked, condition 'Used' whenever one is |
| CsvExport.CopiesShare | src/services/csvExport.ts:51-107 | every row keeps the description, SKU prefix, price, shipping and photos |
| CsvExport.ExportedPriceReadsBack | src/services/csvExport.ts:96 | with a formatter that writes whole numbers as String(n) does, a whole-dollar export price is read back by the sales import's price parser as that price |
| CsvExport.PlainRowFields | src/services/csvExport.ts:41-67 | SKU is the custom SKU or the id; photo 1 the custom image or the catalog image; photos 2–5 the first four extra photos or '' |
| CsvExport.DescriptionOfPlainTemplate | src/services/csvExport.ts:19-24 | a template without placeholders is the description as it stands |
| CsvExport.OnlyFirstName | src/services/csvExport.ts:20 | only the first {name} is filled in |
| CsvExport.GenerateCSV | src/services/csvExport.ts:115-124 | '' for no rows, else the header line and one line per row joined by '\n' |
| CsvExport.GenerateCSVLines | src/services/csvExport.ts:115-124 | when no cell holds a newline, the file splits into the header line and one line per row, each read back by splitCSVLine as its cells |
| CsvExport.SplitFile | src/services/csvExport.ts:123 | the file splits back into the header line and the row lines |
| Strings.Trim | src/services/csvImport.ts:33 | trim keeps the longest infix that neither starts nor ends with white space |
| Strings.TrimEmptyIffBlank | src/services/csvImport.ts:22 | a string trims to '' exactly when all of it is white space |
| Strings.TrimIdempotent | src/services/csvImport.ts:33 | trimming twice is trimming once |
| Strings.Split | scripts/fetch-prices.ts:102 | split on a one-character separator |
| Strings.SplitJoin | src/services/csvExport.ts:123 | splitting undoes joining when no part holds the separator |
| Strings.ReplaceFirst | src/services/csvExport.ts:20-24 | a string pattern replaces only its first occurrence |
| Strings.ParseIntOfIntToString | src/services/csvImport.ts:114 | parseInt(String(n)) is n for every integer |
| Strings.ParseFloatOfIntToString | src/services/csvImport.ts:115 | parseFloat(String(n)) is n for every integer |
| Strings.Compare | scripts/fetch-catalog.ts:233 | a three-way order on strings that is antisymmetric and transitive |
| Strings.ToLower | src/components/inventory/LotItemSelector.tsx:24 | the same length, each character lower-cased |
| Strings.IndexOf | src/components/inventory/LotItemSelector.tsx:29 | the first place where the pattern occurs, or nothing exactly when it occurs nowhere |
| Strings.CompareAntisymmetric | src/hooks/useWantList.ts:41 | comparing b with a gives the negated answer |
| Strings.CompareTransitive | src/hooks/useWantList.ts:41 | the order is transitive |
| CatalogService.GetMinifig | src/services/catalogService.ts:10-12 | the first catalog entry with that id, and nothing when no entry has it |
| CatalogService.GetAllFactions | src/services/catalogService.ts:14-18 | every faction of some entry, each once, in sorted order |
| CatalogService.GetYearRange | src/services/catalogService.ts:20-27 | the least and greatest years, each reached, or (9999, 0) for an empty catalog |
| CatalogService.SearchStageIsFilter | src/services/catalogService.ts:35-42 | an empty search keeps everything; otherwise an entry stays iff its name, id or a set's name or id contains the lower-cased query |
| CatalogService.YearMinStageIsFilter | src/services/catalogService.ts:44-46 | the lower year bound is inclusive and a null bound keeps everything |
| CatalogService.YearMaxStageIsFilter | src/services/catalogService.ts:47-49 | the upper year bound is inclusive and a null bound keeps everything |
| CatalogService.FactionStageIsFilter | src/services/catalogService.ts:51-53 | faction 'all' or empty keeps everything, otherwise only that faction |
| CatalogService.StatusStageIsFilter | src/services/catalogService.ts:55-61 | 'none' keeps entries absent from the collection, another status keeps entries with that status, 'all' keeps everything |
| CatalogService.FilteredIsKeep | src/services/catalogService.ts:33-61 | the chain of filters is one filter by the conjunction of the conditions |
| CatalogService.DescNegates | src/services/catalogService.ts:63-75 | 'desc' exactly negates the comparator |
| CatalogService.FilterCatalogSpec | src/services/catalogService.ts:29-79 | the result holds exactly the kept entries, with their multiplicities, ordered by the chosen comparator; the value key is askingPrice ?? pricePaid ?? 0 |
| CatalogView.MergedLaws | src/hooks/useCatalog.ts:33 | an empty update changes nothing, merging twice is merging once, and set fields win |
| CatalogView.TotalPages | src/hooks/useCatalog.ts:26 | ceil(n / 48) |
| CatalogView.PageItems | src/hooks/useCatalog.ts:27-30 | the slice [page·48, page·48 + 48) clamped to the list: at most 48 items, empty past the last page |
| CatalogView.PagesCoverFiltered | src/hooks/useCatalog.ts:26-30 | the pages 0 .. totalPages − 1, concatenated, are the filtered list |
| CatalogView.CatalogPage.constructor | src/hooks/useCatalog.ts:7-19 | the view starts with the default filter (name asc, all, no bounds) on page 0 |
| CatalogView.CatalogPage.Shown | src/hooks/useCatalog.ts:21-30 | the current page's items of the filtered catalog |
| CatalogView.CatalogPage.UpdateFilter | src/hooks/useCatalog.ts:32-35 | the update is merged into the filter and the page goes back to 0 |
| CatalogView.CatalogPage.ResetFilter | src/hooks/useCatalog.ts:37-40 | the default filter is restored and the page goes back to 0 |
| CatalogView.CatalogPage.SetPage | src/hooks/useCatalog.ts:49 | only the page changes |
| StatsService.StatusQuantities | src/services/statsService.ts:9-12 | totalOwned, totalForSale and totalSold sum quantities by status, and with the wanted quantities they share out all quantities |
| StatsService.TotalPaidAllStatuses | src/services/statsService.ts:21 | totalPaid sums (pricePaid ?? 0)·quantity over entries of every status |
| StatsService.TotalInCollectionCounts | src/services/statsService.ts:14-17 | in a collection keyed by id, totalInCollection is the number of owned, for-sale or sold entries |
| StatsService.CompletionBounded | src/services/statsService.ts:19 | completion is at most 100 percent when every held id is a catalog id |
| StatsService.CountFactions | src/services/statsService.ts:30-42 | the two loops fill the faction counts |
| StatsService.TallyTotals | src/services/statsService.ts:32-35 | the first loop gives each catalog faction, in first-seen order, its catalog total |
| StatsService.TallyCounts | src/services/statsService.ts:36-42 | the second loop counts each owned or for-sale entry in the catalog for its faction |
| StatsService.FactionBreakdownSorted | src/services/statsService.ts:43-45 | faction rows are sorted by total, descending |
| StatsService.FactionTotalsSum | src/services/statsService.ts:30-45 | the faction totals add up to the catalog size |
| StatsService.FactionBreakdownDistinct | src/services/statsService.ts:43-45 | no two rows name the same faction |
| StatsService.FactionBreakdownCounts | src/services/statsService.ts:30-45 | each row is a catalog faction with its catalog total and its count of owned or for-sale entries |
| StatsService.FactionBreakdownCovers | src/services/statsService.ts:30-45 | every catalog faction has a row |
| StatsService.CountYears | src/services/statsService.ts:48-56 | the loop fills the year counts |
| StatsService.YearBreakdownAscending | src/services/statsService.ts:57-59 | years strictly ascend |
| StatsService.YearBreakdownCounts | src/services/statsService.ts:48-59 | each row is the year of an owned or for-sale catalog figure, with the number of such entries |
| StatsService.YearBreakdownCovers | src/services/statsService.ts:48-59 | every such year has a row |
| StatsService.WithFigures | src/services/statsService.ts:65-69 | entries missing from the catalog are dropped, the rest are paired with their figure |
| StatsService.NewestSpec | src/services/statsService.ts:62-64 | at most ten entries of the collection, newest dateModified first |
| StatsService.RecentActivitySpec | src/services/statsService.ts:62-69 | at most ten items, newest first, each a collection entry paired with its catalog figure |
| StatsService.Stats | src/services/statsService.ts:3-85 | completion is 0 for an empty catalog, catalogSize is the catalog length, at most ten recent items |
| StatsService.ComputeStats | src/services/statsService.ts:3-85 | computeStats, with the breakdowns counted by the loops, equals those statistics |
| BusinessStatsService.Margin | src/services/businessStatsService.ts:26 | 0 when there is no revenue, else profit as a percentage of revenue |
| BusinessStatsService.RoundTenth | src/services/businessStatsService.ts:77 | to the nearest tenth |
| BusinessStatsService.MonthOf | src/services/businessStatsService.ts:31 | the first 7 characters of the date |
| BusinessStatsService.Gain | src/services/businessStatsService.ts:83-89 | round(marketValue − costBasis) from the unrounded sums, whole cents within half a cent |
| BusinessStatsService.BusinessStatsOf | src/services/businessStatsService.ts:4-85 | totalSales is the number of sales, margin is 0 without revenue, at most ten top sellers |
| BusinessStatsService.ComputeBusinessStats | src/services/businessStatsService.ts:4-85 | the loops compute exactly those statistics |
| BusinessStatsService.SalesTotals | src/services/businessStatsService.ts:17-24 | the six running sums are the sums over the sales |
| BusinessStatsService.MonthlyTable | src/services/businessStatsService.ts:29-40 | the month grouping loop, sorted by month |
| BusinessStatsService.MonthlyAscending | src/services/businessStatsService.ts:38-40 | months strictly ascend |
| BusinessStatsService.MonthlyCountsSum | src/services/businessStatsService.ts:29-40 | the monthly counts add up to the number of sales |
| BusinessStatsService.MonthlyRows | src/services/businessStatsService.ts:29-40 | each row is a month some sale falls in, with its sale count, revenue and profit |
| BusinessStatsService.MonthlyCovers | src/services/businessStatsService.ts:29-40 | every month with a sale has its row |
| BusinessStatsService.TopSellersTable | src/services/businessStatsService.ts:43-57 | the seller grouping loop, sorted by profit, first ten |
| BusinessStatsService.TopSellersOrder | src/services/businessStatsService.ts:50-57 | at most ten rows, most profit first, one per figure |
| BusinessStatsService.TopSellersRows | src/services/businessStatsService.ts:43-57 | each row is a sold figure, named from the catalog or by its id, with its sale count and total profit |
| BusinessStatsService.TopSellersCoverFew | src/services/businessStatsService.ts:50-57 | with ten or fewer figures sold, each has its row |
| BusinessStatsService.InventoryValue | src/services/businessStatsService.ts:60-68 | cost and worth of owned and for-sale entries, worth from askingPrice ?? market ?? 0 |
| BusinessStatsService.InventoryOnHand | src/services/businessStatsService.ts:62-63 | the inventory sums run over owned and for-sale entries only |
| InventoryStats.CountEntry | src/hooks/useInventoryStats.ts:25-45 | one entry updates the six counters as the loop body does |
| InventoryStats.Summarize | src/hooks/useInventoryStats.ts:15-58 | the loop and the rounding give the inventory summary |
| InventoryStats.OwnedPlusForSale | src/hooks/useInventoryStats.ts:26-42 | totalItems == ownedCount + forSaleCount |
| InventoryStats.NoPriceCount | src/hooks/useInventoryStats.ts:44 | noPriceCount is 0 exactly when every owned or for-sale entry has a nonzero pricePaid |
| InventoryStats.AgreesWithBusinessStats | src/hooks/useInventoryStats.ts:27-31 | cost basis and market value agree with the business report's inventory figures |
| InventoryStats.GainFromUnrounded | src/hooks/useInventoryStats.ts:52 | the gain is within half a cent of marketValue − costBasis, unrounded |
| Grouping.GroupBy | src/services/businessStatsService.ts:29-37 | the grouping loop adds each element to its key's accumulator, keys in first-seen order |
| Grouping.GroupRows | src/services/businessStatsService.ts:38-39 | the spread map's rows are one per distinct key in first-seen order |
| Grouping.GroupFoldCount | src/services/businessStatsService.ts:35 | a counting accumulator counts the group's elements |
| Grouping.GroupFoldSum | src/services/businessStatsService.ts:33-34 | a summing accumulator sums over the group's elements |
| GeminiService.Pieces | src/services/geminiService.ts:44 | the text between separators, one piece more than there are separators |
| GeminiService.PiecesKeepText | src/services/geminiService.ts:44 | splitting loses exactly the separators |
| GeminiService.Words | src/services/geminiService.ts:44-57 | the pieces longer than one character, in order |
| GeminiService.WordPoints | src/services/geminiService.ts:58-63 | 10 for an equal name word, else 5 when one contains the other, else 0 |
| GeminiService.TermPoints | src/services/geminiService.ts:47-64 | a term inside the name earns exactly 50 + 2·length and its words are not scored; otherwise its words' points |
| GeminiService.Score | src/services/geminiService.ts:42-68 | the score is ≥ 0, and 0 for an empty term list |
| GeminiService.ScoreAppend | src/services/geminiService.ts:47-65 | terms score independently: two term lists together score the sum of their scores |
| GeminiService.ScoreWords | src/services/geminiService.ts:58-64 | the inner loop adds each term word's points |
| GeminiService.ScoreTerm | src/services/geminiService.ts:48-64 | one outer turn adds one term's points |
| GeminiService.ScoreTerms | src/services/geminiService.ts:47-65 | the outer loop adds every term's points |
| GeminiService.ScoreMatch | src/services/geminiService.ts:42-68 | scoreMatch returns exactly the score |
| GeminiService.SearchTerms | src/services/geminiService.ts:128 | the non-empty ones of character, variant and faction, in that order |
| GeminiService.FactionBonus | src/services/geminiService.ts:136-137 | 15 only when the model named a faction and the figure's faction contains it, ignoring case |
| GeminiService.RankOfShape | src/services/geminiService.ts:132-140 | the ranking is sorted highest first and holds exactly the positively scored figures |
| GeminiService.ShortlistShape | src/services/geminiService.ts:143-146 | at most six, still sorted, each at least 30% of the top score, led by the top entry |
| GeminiService.ConfidenceRange | src/services/geminiService.ts:150 | a score in (0, top] has a confidence in (0, 0.99], the top score exactly 0.99 |
| GeminiService.MatchesShape | src/services/geminiService.ts:143-155 | at most six matches, each a catalog figure under its own id and name, confidences in (0, 0.99] never rising and starting at 0.99, none exactly when no figure scored |
| GeminiService.IdentifyResults | src/services/geminiService.ts:127-155 | the same, for the whole ranking chain from the model's answer |
| CollectionStore.SetStatusOf | src/hooks/useCollection.ts:10-36 | an existing entry changes only status and dateModified; a missing id gets a default entry (quantity 1, for sale 0, 'used', null prices, empty strings, dateAdded == dateModified); other keys are unchanged |
| CollectionStore.SetStatusIdempotent | src/hooks/useCollection.ts:10-36 | setting the same status twice at the same time is setting it once |
| CollectionStore.ForSaleOf | src/hooks/useCollection.ts:40 | max(0, total − 1) |
| CollectionStore.AddWithQuantityOf | src/hooks/useCollection.ts:38-76 | the entry becomes owned with the given quantity, condition and price, max(0, total − 1) for sale; an existing entry keeps its other fields; other keys are unchanged |
| CollectionStore.AddWithQuantityForSaleWithin | src/hooks/useCollection.ts:40 | no more copies are for sale than are held |
| CollectionStore.MergeLaws | src/hooks/useCollection.ts:84 | merging a patch twice is merging it once, and an empty patch changes nothing |
| CollectionStore.UpdateEntryOf | src/hooks/useCollection.ts:78-87 | nothing happens for a missing id; otherwise the updates are merged and dateModified is forced to now; other keys are unchanged |
| CollectionStore.RemoveEntryOf | src/hooks/useCollection.ts:89-95 | exactly that key goes; the others keep their entries |
| CollectionStore.RemoveUndoesNewStatus | src/hooks/useCollection.ts:10-95 | giving a missing id a status and then removing it restores the collection |
| CollectionStore.BulkOne | src/hooks/useCollection.ts:102-128 | one item: a wanted entry becomes owned, other statuses are kept, the price and lot are set; a new id gets an owned default entry |
| CollectionStore.BulkAddOf | src/hooks/useCollection.ts:97-132 | the items taken in order |
| CollectionStore.BulkAddEffect | src/hooks/useCollection.ts:97-132 | an id no item names is untouched; otherwise its entry, or a fresh owned one, carries the price and lot of the last item naming it |
| CollectionStore.BulkAddKeyed | src/hooks/useCollection.ts:97-132 | every entry stays under its own id |
| CollectionStore.Collection.constructor | src/hooks/useCollection.ts:8 | the store starts empty |
| CollectionStore.Collection.SetStatus | src/hooks/useCollection.ts:10-36 | the stored record becomes SetStatusOf of the old one |
| CollectionStore.Collection.AddWithQuantity | src/hooks/useCollection.ts:38-76 | the stored record becomes AddWithQuantityOf of the old one |
| CollectionStore.Collection.UpdateEntry | src/hooks/useCollection.ts:78-87 | the stored record becomes UpdateEntryOf of the old one |
| CollectionStore.Collection.RemoveEntry | src/hooks/useCollection.ts:89-95 | the stored record becomes RemoveEntryOf of the old one |
| CollectionStore.Collection.BulkAdd | src/hooks/useCollection.ts:97-132 | the loop over a copy leaves BulkAddOf of the old record |
| PurchaseLots.NewLot | src/hooks/usePurchaseLots.ts:10-17 | the new lot has the draft's fields, the fresh id, and dateCreated == dateModified |
| PurchaseLots.MergeLot | src/hooks/usePurchaseLots.ts:25 | the merged lot keeps its id and dateCreated and takes the new dateModified |
| PurchaseLots.UpdateLotOf | src/hooks/usePurchaseLots.ts:22-28 | only lots with that id change, by the merge; order and length are kept |
| PurchaseLots.DeleteLotOf | src/hooks/usePurchaseLots.ts:30-32 | every lot with that id goes and every other lot stays |
| PurchaseLots.DeleteUndoesAdd | src/hooks/usePurchaseLots.ts:10-32 | deleting a lot just added under a fresh id restores the list |
| PurchaseLots.Find | src/hooks/usePurchaseLots.ts:35-39 | the first lot satisfying the test, or nothing when none does |
| PurchaseLots.LookupsFindNewest | src/hooks/usePurchaseLots.ts:34-40 | getLot and getLotForMinifig find the most recently added lot |
| PurchaseLots.BuildLotMap | src/hooks/usePurchaseLots.ts:42-46 | each lot is set under its id, so the last lot with an id wins |
| PurchaseLots.LotMapIsGetLot | src/hooks/usePurchaseLots.ts:34-46 | with unique ids, lotMap.get(id) == getLot(id) |
| PurchaseLots.Lots.constructor | src/hooks/usePurchaseLots.ts:8 | the list starts empty |
| PurchaseLots.Lots.AddLot | src/hooks/usePurchaseLots.ts:10-20 | the new lot is prepended and returned; the length grows by one |
| PurchaseLots.Lots.UpdateLot | src/hooks/usePurchaseLots.ts:22-28 | the list becomes UpdateLotOf of the old one |
| PurchaseLots.Lots.DeleteLot | src/hooks/usePurchaseLots.ts:30-32 | the list becomes DeleteLotOf of the old one |
| SalesLog.NewSale | src/hooks/useSales.ts:10-15 | the new record has the draft's fields, the fresh id and dateCreated |
| SalesLog.DeleteSaleOf | src/hooks/useSales.ts:20-22 | every record with that id goes and the rest stay in order |
| SalesLog.DeleteUndoesAdd | src/hooks/useSales.ts:10-22 | deleting a sale just added under a fresh id restores the log |
| SalesLog.SalesFor | src/hooks/useSales.ts:24-26 | that figure's sales, in list order |
| SalesLog.SalesForAfterAdd | src/hooks/useSales.ts:16-26 | a sale just added heads its figure's list and the other figures' lists are unchanged |
| SalesLog.SalesForRevenueSplit | src/hooks/useSales.ts:24-37 | the revenue of one figure's sales plus that of all the others' is the whole log's |
| SalesLog.TotalsOf | src/hooks/useSales.ts:28-57 | count is the list length, each amount its sum to the cent, margin 0 without revenue |
| SalesLog.TotalsAfterAdd | src/hooks/useSales.ts:16-43 | a new sale adds its own amounts to each running sum and one to the count |
| SalesLog.Sales.constructor | src/hooks/useSales.ts:8 | the log starts empty |
| SalesLog.Sales.AddSale | src/hooks/useSales.ts:10-18 | the new sale is prepended and returned; the length grows by one |
| SalesLog.Sales.DeleteSale | src/hooks/useSales.ts:20-22 | the log becomes DeleteSaleOf of the old one |
| SalesLog.Sales.Totals | src/hooks/useSales.ts:28-57 | the loop's totals are TotalsOf the log |
| ExportLog.Logged | src/hooks/useExportHistory.ts:17 | the new entry first, then the older ones in order; the length is min(old + 1, 50) |
| ExportLog.LoggedTwice | src/hooks/useExportHistory.ts:17 | logging twice keeps both entries, newest first, while there is room |
| ExportLog.History.constructor | src/hooks/useExportHistory.ts:8 | the history starts empty |
| ExportLog.History.LogExport | src/hooks/useExportHistory.ts:10-18 | the history becomes Logged with an entry carrying the given itemCount and filename |
| WantList.FigureIds | src/hooks/useWantList.ts:16 | one id per catalog figure, in catalog order |
| WantList.CatalogMapOf | src/hooks/useWantList.ts:14-18 | the map holds exactly the catalog's ids, each under the last figure with that id |
| WantList.ItemFor | src/hooks/useWantList.ts:22-29 | an item exactly for a wanted entry whose figure is in the catalog, with that figure, its market price, and a deal flag set exactly when both prices exist and the market price is at most the target |
| WantList.WantedItems | src/hooks/useWantList.ts:20-31 | the items are exactly those of the entries that get one |
| WantList.WantedItemsAreWanted | src/hooks/useWantList.ts:20-31 | every item belongs to a wanted entry in the catalog, and every such entry has an item |
| WantList.Rank | src/hooks/useWantList.ts:35-39 | high, medium, low rank 0 to 2, and no priority ranks 3 |
| WantList.WantOrderAntisymmetric | src/hooks/useWantList.ts:36-42 | a before b exactly when b after a |
| WantList.WantOrderTransitive | src/hooks/useWantList.ts:36-42 | the comparator's order is transitive |
| WantList.WantOrderConsistent | src/hooks/useWantList.ts:36-42 | the comparator is a total preorder, as a sort needs |
| WantList.SortedWantsOrder | src/hooks/useWantList.ts:33-43 | the sorted list is a permutation of the items, deals first, then by rank, then by name |
| WantList.DealCountLeads | src/hooks/useWantList.ts:45 | dealCount is the number of deals, and they are exactly the first dealCount items of the sorted list |
| Pagination.StepInv | src/components/ui/Pagination.tsx:14-20 | one turn of the loop keeps the strip ordered, complete and gap-separated |
| Pagination.PageStrip | src/components/ui/Pagination.tsx:11-20 | nothing for at most one page; otherwise the strip starts at page 0 and ends at the last page, pages rise, a page has a button exactly when it is first, last or next to the current one, and each ellipsis stands between two buttons for non-consecutive pages |
| Pagination.NoAdjacentGaps | src/components/ui/Pagination.tsx:17-18 | two ellipses are never side by side |
| Pagination.ButtonsStayInRange | src/components/ui/Pagination.tsx:27-52 | from a page in range, an enabled previous or next button leads to a page in range |
| PhotoManager.AddPhoto | src/components/export/PhotoManager.tsx:16-22 | nothing happens exactly for a blank URL or a list of five; otherwise the trimmed URL is appended and the list stays within five |
| PhotoManager.RemovePhotoCutsOne | src/components/export/PhotoManager.tsx:24-28 | a valid index cuts out exactly that photo; any other index changes nothing |
| PhotoManager.RemoveUndoesAdd | src/components/export/PhotoManager.tsx:16-28 | removing the photo just added restores the list |
| SalesTable.DescendingNegates | src/components/sales/SalesLogTable.tsx:25-33 | descending is the ascending comparison negated, on every column |
| SalesTable.ByFieldAntisymmetric | src/components/sales/SalesLogTable.tsx:27-33 | each column's comparison is antisymmetric |
| SalesTable.ByFieldTransitive | src/components/sales/SalesLogTable.tsx:27-33 | each column's comparison is transitive |
| SalesTable.ByFieldConsistent | src/components/sales/SalesLogTable.tsx:27-33 | each column's comparison is a total preorder |
| SalesTable.NegatedConsistent | src/components/sales/SalesLogTable.tsx:25 | negating a total preorder gives one |
| SalesTable.OrderedConsistent | src/components/sales/SalesLogTable.tsx:24-35 | every column in either direction orders the sales consistently |
| SalesTable.SortedSalesShape | src/components/sales/SalesLogTable.tsx:24-35 | the table shows a permutation of the sales, sorted by the chosen column and direction |
| SalesTable.SortState.constructor | src/components/sales/SalesLogTable.tsx:15-16 | sorted by date, descending |
| SalesTable.SortState.ToggleSort | src/components/sales/SalesLogTable.tsx:37-44 | the clicked column becomes the sort column; the direction flips when it already was, else becomes descending |
| LotItemSelector.SearchResults | src/components/inventory/LotItemSelector.tsx:22-32 | nothing for a query under two characters; at most ten results, each a catalog figure not yet picked whose name or id contains the lower-cased query |
| LotItemSelector.FewMatchesAllListed | src/components/inventory/LotItemSelector.tsx:26-31 | with at most ten matches every match is listed |
| LotItemSelector.FilterPositions | src/components/inventory/LotItemSelector.tsx:26-30 | the filter keeps its elements in their order, and keeps every element that passes |
| LotItemSelector.FirstPassing | src/components/inventory/LotItemSelector.tsx:26-31 | the first n passing elements stand in the list in order, and every passing element up to the last one listed is listed |
| LotItemSelector.SearchResultsInCatalogOrder | src/components/inventory/LotItemSelector.tsx:22-32 | the results follow catalog order and are the first matches: every match up to the last one listed is listed, and all are when the list is not full |
| LotItemSelector.AddItem | src/components/inventory/LotItemSelector.tsx:34-35 | the figure is appended with nothing allocated, the others are kept |
| LotItemSelector.RemoveItem | src/components/inventory/LotItemSelector.tsx:39-41 | exactly the items for that figure go and the figure is no longer picked |
| LotItemSelector.AddFromResultsStaysDistinct | src/components/inventory/LotItemSelector.tsx:25-35 | picking from the results never picks a figure twice |
| LotItemSelector.RemoveUndoesAdd | src/components/inventory/LotItemSelector.tsx:34-41 | removing a figure just added restores the list |
| LotItemSelector.Picker.constructor | src/components/inventory/LotItemSelector.tsx:13-14 | empty query, the given items |
| LotItemSelector.Picker.Add | src/components/inventory/LotItemSelector.tsx:34-37 | the items become AddItem of the old ones and the query is cleared |
| LotItemSelector.Picker.Remove | src/components/inventory/LotItemSelector.tsx:39-41 | the items become RemoveItem of the old ones and the query stays |
| ImportSales.Matched | src/components/sales/ImportSalesModal.tsx:41 | exactly the rows with a figure and an entry |
| ImportSales.Unmatched | src/components/sales/ImportSalesModal.tsx:42 | exactly the other rows |
| ImportSales.EveryRowListedOnce | src/components/sales/ImportSalesModal.tsx:41-42 | matched and unmatched together list every row once |
| ImportSales.SaleFor | src/components/sales/ImportSalesModal.tsx:50-67 | a Whatnot sale at the row's price with Whatnot's fee, the entry's price paid or 0 as cost, no shipping, net profit to the cent, and the row's date or today |
| ImportSales.SoldQty | src/components/sales/ImportSalesModal.tsx:70-71 | min(quantity, copies held) |
| ImportSales.StockPatch | src/components/sales/ImportSalesModal.tsx:72-88 | sold out: only the sale price; otherwise the copies left, for-sale and cracked copies cut to fit, and the sale price |
| ImportSales.PartialSaleKeepsForSaleWithinStock | src/components/sales/ImportSalesModal.tsx:78-88 | a partial sale keeps the copies for sale within the copies held |
| ImportSales.ApplyRow | src/components/sales/ImportSalesModal.tsx:69-88 | only that figure changes; sold out leaves it sold, otherwise its quantity is what the row left |
| ImportSales.ApplyRowAsWritten | src/components/sales/ImportSalesModal.tsx:69-88 | the row's patch from the entry as the file was read; other figures are kept |
| ImportSales.ApplyRowToCurrent | src/components/sales/ImportSalesModal.tsx:69-88 | the row's patch from the entry as it stands; other figures are kept |
| ImportSales.AsWrittenLosesEarlierRows | src/components/sales/ImportSalesModal.tsx:70-88 | two partial rows for one figure leave the file-time stock less only the second row's copies |
| ImportSales.CurrentCountsEveryRow | src/components/sales/ImportSalesModal.tsx:70-88 | read from the current entry, two partial rows take both rows' copies off the stock |
| ImportSales.RecordedLength | src/components/sales/ImportSalesModal.tsx:47-67 | one sale per matched row |
| ImportSales.RecordedAt | src/components/sales/ImportSalesModal.tsx:47-67 | the i-th row's sale, under the i-th fresh id, sits i places from the end of the new sales |
| ImportSales.MatchedAreMatched | src/components/sales/ImportSalesModal.tsx:41-48 | every row handleImport loops over passes its guard |
| ImportSales.StockedKeepsEntries | src/components/sales/ImportSalesModal.tsx:69-88 | no row removes an entry |
| ImportSales.LastRowDecides | src/components/sales/ImportSalesModal.tsx:70-88 | the last row for a figure sets its stock to the file-time count less that row's copies |
| ImportSales.StockedKeepsOthers | src/components/sales/ImportSalesModal.tsx:69-88 | a figure no row names keeps its entry |
| ImportSales.ImportRow | src/components/sales/ImportSalesModal.tsx:47-91 | an unmatched row changes nothing; a matched one prepends its sale and applies its patch as written |
| ImportSales.ImportNext | src/components/sales/ImportSalesModal.tsx:47-91 | one loop turn extends the recorded sales and the stock fold by one row |
| ImportSales.Import | src/components/sales/ImportSalesModal.tsx:44-95 | the count is the number of matched rows, their sales are prepended newest first, and the collection is the fold of their patches |
| LotForm.StepIndex | src/components/inventory/AddPurchaseLotModal.tsx:49-50 | a step's place among the four |
| LotForm.StepAt | src/components/inventory/AddPurchaseLotModal.tsx:49-50 | the step at each place, inverse of StepIndex |
| LotForm.Diff | src/components/inventory/CostAllocationView.tsx:32-33 | what is left to allocate, a whole number of cents |
| LotForm.BalancedIsZeroDiff | src/components/inventory/CostAllocationView.tsx:105-114 | "Balanced" shows exactly when nothing is left to allocate |
| LotForm.BalanceOf | src/components/inventory/CostAllocationView.tsx:105-114 | balanced iff nothing is left; remaining or over shows at least a cent, the right amount |
| LotForm.GuardDisagreesWithView | src/components/inventory/AddPurchaseLotModal.tsx:55-57 | a total of 10 with 9.995 allocated passes the costs guard while the view shows a cent remaining |
| LotForm.CanLeaveCostsWhenBalanced | src/components/inventory/AddPurchaseLotModal.tsx:52-60 | the corrected guard passes exactly when the view shows nothing left, and implies the written guard |
| LotForm.WithCosts | src/components/inventory/CostAllocationView.tsx:35-47 | each item keeps its figure and takes its cost |
| LotForm.WithCostsTotal | src/components/inventory/CostAllocationView.tsx:32-47 | the allocated total is the sum of the costs assigned |
| LotForm.MarketValues | src/components/inventory/CostAllocationView.tsx:40-42 | each item's market price |
| LotForm.SplitCosts | src/components/inventory/CostAllocationView.tsx:35-47 | nothing exactly for the manual method; otherwise the equal or market split of the total |
| LotForm.SplitCostsSum | src/components/inventory/CostAllocationView.tsx:35-47 | a split of a non-empty lot gives one cost per figure, summing to the total to the cent |
| LotForm.RoundingLeftover | src/components/inventory/CostAllocationView.tsx:33 | a total less its own rounding rounds to zero |
| LotForm.SplitBalances | src/components/inventory/CostAllocationView.tsx:35-114 | after an equal or market split of a non-empty lot the view shows balanced |
| LotForm.SplitLetsCostsPass | src/components/inventory/AddPurchaseLotModal.tsx:52-60 | after such a split, Next is enabled on the costs step |
| LotForm.SetItemCost | src/components/inventory/CostAllocationView.tsx:49-54 | that figure's items take the cost; the others and every figure id are unchanged |
| LotForm.Form.constructor | src/components/inventory/AddPurchaseLotModal.tsx:25-31 | an empty form on the details step |
| LotForm.Form.Next | src/components/inventory/AddPurchaseLotModal.tsx:52-60 | moves one step on exactly when not on the last step and the guard passes; the fields are kept |
| LotForm.Form.Back | src/components/inventory/AddPurchaseLotModal.tsx:154-158 | moves one step back except on the first; the fields are kept |
| LotForm.Form.Save | src/components/inventory/AddPurchaseLotModal.tsx:33-47 | hands over the lot with the form's fields and empties the form |
| LotForm.Form.ApplySplit | src/components/inventory/CostAllocationView.tsx:35-47 | records the method; unless manual, the items take the split costs |
| LotForm.Form.UpdateItemCost | src/components/inventory/CostAllocationView.tsx:49-54 | switches to manual and sets that figure's cost |
| MinifigDetail.QuantityEdit | src/components/catalog/MinifigDetailModal.tsx:121-125 | at least one copy, the typed count when it is; for-sale kept when it fits below the new total, else cut to total − 1 |
| MinifigDetail.QuantityEditKeepsOneBack | src/components/catalog/MinifigDetailModal.tsx:121-125 | after the edit the entry keeps at least one copy back from sale |
| MinifigDetail.ForSaleEdit | src/components/catalog/MinifigDetailModal.tsx:137-147 | the typed count clamped to between 0 and total − 1 |
| MinifigDetail.ForSaleEditKeepsOneBack | src/components/catalog/MinifigDetailModal.tsx:137-147 | a shown for-sale field keeps a copy back and never goes negative |
| MinifigDetail.PriceInput | src/components/catalog/MinifigDetailModal.tsx:155 | an empty field is no price, otherwise the number typed |
| MinifigDetail.PriceFieldsSetOnePrice | src/components/catalog/MinifigDetailModal.tsx:155-212 | the price paid and target fields set only their own price, to nothing when emptied |
| MinifigDetail.SalePriceEditSetsShownPrice | src/components/catalog/MinifigDetailModal.tsx:164-172 | the field edits the sale price of a sold figure and the asking price of any other, nothing else |
| MinifigDetail.UseMarketPrice | src/components/catalog/MinifigDetailModal.tsx:41-49 | no update exactly without a market price; otherwise it sets the sale price of a sold figure, else the asking price |
| MinifigDetail.UseMarketPriceSetsOnePrice | src/components/catalog/MinifigDetailModal.tsx:41-49 | the store after the button: unchanged without a market price, else just that one price set |
| MinifigDetail.LastSale | src/components/catalog/MinifigDetailModal.tsx:38-39 | only for a sold figure, the newest of its sales, present whenever it has one |
| MinifigDetail.NewSaleIsLastSale | src/components/catalog/MinifigDetailModal.tsx:38-39 | a sale just recorded for a sold figure is the one shown |

## Left out

- BricklinkPrices.ToFixed2: `parseFloat(x.toFixed(2))` is rounded half up on the exact value. `toFixed` rounds the binary double, so an amount written as x.xx5 that is stored just below it (1.005, say) rounds down in the source and up here.
- Types.RoundCents: `Math.round(x * 100) / 100` is computed on exact reals. In doubles, `x * 100` can land just below a half cent and round down, and the quotient carries float noise. Every member that rounds money through it inherits this, such as `Finance.NetProfit`, `SalesLog.TotalsOf` and `LotForm.Diff`.
- Finance.EqualSplit: the floor-to-cent share and the leftover cents are computed on exact reals. In doubles, `Math.floor(total / n * 100)` can come out one cent lower for shares that are whole cents in decimal. The proved conservation (the parts sum to the total) holds for the exact model only.
- Finance.MarketSplit: the same for the shares by market value and the leftover cent.
- BusinessStatsService.RoundTenth: `Math.round(x * 10) / 10` is rounded half up on exact reals, not on the binary double.
- LotForm.CostsCloseAsWritten: the `0.01` guard compares exact reals. The double difference (0.005000000000000782 for 10 − 9.995) is on the same side of the guard for the counterexample used in the findings, but it is not modelled in general.
- Similarity.WeightedSimilarity: the similarities and the 0.2 / 0.4 thresholds are exact rationals, not doubles.
- Strings.Compare: `localeCompare` is modelled as lexicographic order on characters, a fixed total order, not the locale's collation. The sorts that use it inherit this: `WantList.WantOrder`, `CatalogService.FieldOrder` (by name and by id), `CatalogBuild.IdOrder`, `SalesTable.ByField` (date and platform), `StatsService.NewestFirst` and `BusinessStatsService.ByMonth`. What is proved about these sorts needs only the total-order laws `Strings.CompareAntisymmetric` and `Strings.CompareTransitive`. `OAuth.SortedKeys` uses the same order for the default `sort()`, which does compare by code unit.
- Strings.ToLower: `toLowerCase` and `toUpperCase` fold ASCII letters only. Other characters are left as they are.
- Strings.ParseFloat: it accepts an optional sign, digits, a fraction and an exponent. `Infinity`, hexadecimal forms and results that overflow to infinity are not modelled.
- Strings.Trim: the white-space set is the JavaScript one. String lengths are counted in Dafny characters, not UTF-16 code units, so a character outside the Basic Multilingual Plane counts once here and twice in the source, for example in the two-character search minimum of `LotItemSelector.SearchResults`.
- OAuth.Utf8: `encodeURIComponent` is modelled on characters. Lone surrogates, which make it throw, are not modelled.
- Types: `null` and `undefined` are both `None` of `Option`, and an absent optional field is `None` too.
- OrderedMap: JavaScript objects list integer-like keys first, in numeric order. The model keeps plain insertion order for every key; the keys here are figure ids, set numbers and dates, which are not integer-like.
- BricklinkPages.ExtractBricklinkId: the regular expressions that scrape a BrickLink number from a page are opaque extractors, and only their first-match-wins order is modelled. `parsePricesFromHTML` in `scripts/fetch-prices.ts` is not part of this model, so the scraped pool is an input of `NameMatch.MatchCatalog`.
- CatalogBuild.GuessFactionLabel: the keyword regular expressions are modelled as word-boundary keyword tests, not as general regular expressions.
- BricklinkPrices.ApiRequest: the network is a parameter, and so are the HMAC-SHA1 function, the nonce and the timestamp. `OAuth.SigningKeyParts` and `OAuth.BaseStringParts` give the key and the base string that are signed. The redirects and `sleep` delays are not modelled.
- Clocks and identifiers are parameters: `new Date().toISOString()`, `Date.now()` and `crypto.randomUUID()` (`PurchaseLots.NewLot`, `SalesLog.NewSale`, `CollectionStore.SetStatusOf` and the others that take `now` or an id).
- File reading and writing, `mkdir`, `process.exit` and the CSV gunzip streams are not modelled. A script's cache flushes are returned as the sequence of tables it would have written (`ResumableCache.SavePoints`, `FixIds.ScrapeIds`).
- Console output is not modelled. `Refresh.PrintSummary` returns its counts; the per-entry `unchanged` lines of `apply-bricklink-names.ts` and the progress lines of every script are left out.
- GeminiService.IdentifyResults: the image resizing, the model request and the clean-up of its JSON reply are left out. The parsed reply (character, variant, faction) is an input.
- `scripts/fix-remaining.ts` (network and regular expressions only) and `scripts/debug-unmatched.cjs` (diagnostic printing) are not part of this model.
- Browser storage and sync (`storage.ts`, `useLocalStorage.ts`, `syncService.ts`, `useSync.ts`), debounced inputs and the rendering-only components are not part of this model. The hooks' state is held by the classes directly.
- ImportSales.Import: the React state setters are modelled as immediate updates of the `Collection` and `Sales` objects. React batches them, but every patch is computed from the row's own entry snapshot, so the batching does not change the result.

- MinifigDetail.QuantityEdit, MinifigDetail.ForSaleEdit: the typed field is taken as a whole number; `Number()` also passes a fractional entry such as 2.5 through, and such non-integer input is not modelled.
- CsvExport.PlainRow: the Price cell's number formatting (`String(price)`) is a parameter; only its agreement with `String(n)` on whole numbers is assumed, where ExportedPriceReadsBack proves the round trip, and the text of fractional prices is not stated.

## Findings

| source | as written | input that shows it | evidently intended | confidence | as-written member | corrected member |
|---|---|---|---|---|---|---|
| scripts/fetch-bricklink-prices.ts:305-313 | the credential test relies on `fetchPriceForItem` throwing, but the fetcher catches every request failure itself and returns empty prices | credentials the API rejects: the test passes, and every figure is cached with no prices and no error counted, so the run looks like one where nothing has price data | a rejected request makes the credential test stop the run and is counted as an error | medium (not executed) | BricklinkPrices.RejectionLooksUnpriced | BricklinkPrices.CheckedFetchReportsRejection |
| src/components/inventory/AddPurchaseLotModal.tsx:55-57 | leaving the costs step needs `Math.abs(totalCost - allocated) < 0.01` on the unrounded difference | total 10.00 with one item allocated 9.995: Next is enabled, while the cost view (CostAllocationView.tsx:33, 105-114) shows $0.01 remaining | the step can be left exactly when the view shows the costs balanced | medium (not executed) | LotForm.GuardDisagreesWithView | LotForm.CanLeaveCostsWhenBalanced |
| src/components/sales/ImportSalesModal.tsx:50-88 | every row's stock patch is computed from `m.entry`, the entry as it was when the file was read | an entry holding 5 copies and two rows for it selling 1 and 2: the figure ends with 3 copies, not 2 | each row sells from the stock the earlier rows left | low (not executed) | ImportSales.AsWrittenLosesEarlierRows | ImportSales.CurrentCountsEveryRow |

The operations follow the code as written: `LotForm.CanNext` uses the unrounded guard, and `ImportSales.Import` folds `ImportSales.ApplyRowAsWritten` (`ImportSales.Stocked`). The corrected behaviours sit beside them: `LotForm.CostsClose` for the guard, and `ImportSales.ApplyRowToCurrent` folded by `ImportSales.StockedToCurrent` for the import.
