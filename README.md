# NAICS procurement analysis: a Dafny model

This project models the record-processing core of a Los Angeles procurement
analysis. The analysis compares the NAICS industry codes of city contract
opportunities with the codes of local businesses. It also measures how many
contracts, and how many dollars, went to DBE, MBE and WBE firms. The model has
three parts:

- **Geography** (`src/geography.py`).
  - The cleaning of city names, ZIP codes and NAICS codes.
  - The reference collections built from the ZIP-to-postal-city table: city ZIPs, county ZIPs and county city names.
  - The business buckets (city, county, other) and the award buckets (city, county, in-state, out-of-state).
  - The four "sanity check" expressions (lines 140, 143, 302 and 305).
  - The per-NAICS `value_counts` tallies, their outer merge, the filling of missing counts with 0, and the sort by opportunity count.
- **Salesforce reshaping** (`src/naics_code_data_generation.py`).
  - The conversion of a SOQL statement into its URL form and back.
  - The URL prefixing.
  - `remove_a_key`, `flatten` and `create_df_from_req` on a JSON-like tree.
  - The exclusion of three proprietary departments.
  - The per-NAICS opportunity count.
  - The final row filter of `data_to_sheet`.
- **Temporal percentages** (`src/temporal.py`): `get_percents`, with its nested loops and the guard that makes an empty timeframe report 0.

Modules:

| file | module | what it holds |
|---|---|---|
| `common.dfy` | `Seqs` | `Filter` (a `loc[mask]` selection), occurrence counts, `Unique`, a descending sort |
| `geo_normalize.dfy` | `GeoNormalize` | cell values, string cleaning, and the frame classes whose columns are rewritten in place |
| `geo_buckets.dfy` | `GeoBuckets` | reference collections, bucket masks, the sanity checks |
| `geo_tally.dfy` | `GeoTally` | tallies, the outer merge, the fill, the sort, and the `MergedFrame` class |
| `sf_query.dfy` | `SfQuery` | the query-string helpers |
| `sf_records.dfy` | `SfRecords` | `remove_a_key`, `flatten` and `create_df_from_req` |
| `naics_sheet.dfy` | `NaicsSheet` | the department exclusion, the opportunity counts, the sheet filter |
| `temporal.dfy` | `Temporal` | `get_percents` |

A pandas cell is `Missing`, `Text(s)` or `Int(n)`. This keeps `fillna`,
`astype(str)` and `replace('-', 000000)` faithful: `str` of a missing cell is
`"nan"`, and the replaced ZIP is the integer 0.

Behaviours the model follows from the code, where the variable names and
comments suggest otherwise:

- The city and county ZIP collections are not disjoint. A ZIP shared by the primary city and a neighbouring city lands in both (`GeoBuckets.ZipSetsMayOverlap`).
- A business ZIP of exactly `'-'` becomes the integer 0. Its text is then `"0"`, not `"00000"` (`GeoNormalize.Zip5`).
- The business buckets neither partition nor cover the table. A business can be in both the city and the county bucket, or in none (`GeoBuckets.BucketOverlapExample`, `GeoBuckets.BucketGapExample`). There is no bucket for unresolved businesses. The line-140 check shows exactly the uncovered businesses that have no duplicate row (`GeoBuckets.SanityResidueExactly`).
- An award with a missing STATE counts as out-of-state, since `NaN != 'CA'`.
- An award's ZIP is the raw billing postal code. It is not cut to five digits.

## Model

| member | source | states |
|---|---|---|
| Seqs.Filter | src/geography.py:110 | `frame.loc[mask]`: a subsequence of the rows, each satisfying the mask, containing every row that satisfies it |
| Seqs.SortDesc | src/geography.py:203 | `sort_values(ascending=False)` returns a permutation of its input |
| Seqs.SortDescSorted | src/geography.py:203 | the sorted rows are in descending order of the key |
| GeoNormalize.Decimal | src/geography.py:85 | `str(n)`: decimal digits denoting `abs(n)` with no leading zero, after a `-` when `n` is negative |
| GeoNormalize.Strip | src/geography.py:28 | `str.strip()`: a slice `s[i..j]` with only whitespace before `i` and from `j` on, itself without leading or trailing whitespace; a trimmed string is unchanged |
| GeoNormalize.LowerChar | src/geography.py:28 | an ASCII capital becomes the letter 32 code points up, any other character is kept |
| GeoNormalize.Lower | src/geography.py:28 | `str.lower()`: each character lowered in place, so no upper-case letter is left and lower-case input is unchanged |
| GeoNormalize.RemoveSpaces | src/geography.py:28 | `replace(' ', '')`: no space is left, every other character occurs as often as in the input, and text without spaces is unchanged |
| GeoNormalize.RemoveSpacesAppend | src/geography.py:28 | removing spaces distributes over concatenation, so the kept characters stay in order |
| GeoNormalize.NormalizeCity | src/geography.py:28 | the cleaned city name has no space, is lower-case and is trimmed |
| GeoNormalize.NormalizeCityIdempotent | src/geography.py:77 | cleaning a city name twice equals cleaning it once |
| GeoNormalize.Prefix | src/naics_code_data_generation.py:369 | `s[:n]`: the prefix of `s` of length `min(n, len(s))` |
| GeoNormalize.Zip5 | src/geography.py:80-85 | a business ZIP5 has at most 5 characters: the first five of the raw ZIP, except that `'-'` becomes `"0"` |
| GeoNormalize.CutAtDot | src/geography.py:88 | `split('.')[0]`: a prefix with no dot that ends at the first dot |
| GeoNormalize.PadNaics | src/geography.py:91 | right-padding with `'0'` to length `max(6, len)`, keeping the code as a prefix |
| GeoNormalize.NaicsMissing | src/geography.py:65 | a missing code becomes `"999999"` |
| GeoNormalize.NaicsShape | src/geography.py:88-91 | a present code is cut at the first dot and padded; the result has length `max(6, len)` of the cut |
| GeoNormalize.NormalizedShaped | src/geography.py:65-91 | whatever the cell held, its cleaned code has no dot and at least six characters |
| GeoNormalize.NaicsLongUnchanged | src/geography.py:88-91 | a code of six or more characters without a dot is left as it is |
| GeoNormalize.NaicsExamples | src/geography.py:173-180 | `"54"` becomes `"540000"` and `"541213.0"` becomes `"541213"` |
| GeoNormalize.RewriteNaics | src/geography.py:173-181 | the column rewritten element by element is the normalised column |
| GeoNormalize.BusinessFrame.Clean | src/geography.py:65-92 | the in-place cleaning of NAICS, CITY and ZIP5; the other columns are untouched |
| GeoNormalize.BusinessFrame.Rows | src/geography.py:77-92 | the cleaned frame read row by row: each row holds that row's NAICS, CITY, ZIP5 and ZIP9 text and its other columns, so rows that differ only in ZIP9 stay distinct |
| GeoNormalize.OpportunityFrame.Clean | src/geography.py:170-181 | the in-place NAICS cleaning of the opportunities |
| GeoNormalize.OpportunityFrame.Codes | src/geography.py:187 | the NAICS column read as text, element by element |
| GeoNormalize.AwardFrame.Clean | src/geography.py:276-285 | the in-place city cleaning of the awards; the ZIP, STATE and other columns are untouched |
| GeoNormalize.AwardFrame.Rows | src/geography.py:276-285 | the award frame read row by row |
| GeoNormalize.ZipFrame.Clean | src/geography.py:28-32 | the in-place postal-city cleaning of the ZIP table |
| GeoNormalize.ZipFrame.Rows | src/geography.py:28-32 | the ZIP table read row by row |
| GeoBuckets.BuildReference | src/geography.py:35-48 | the three reference collections have no duplicates (`unique()`) |
| GeoBuckets.CityZipsMembers | src/geography.py:35-37 | a ZIP is a city ZIP exactly when some row with postal city `losangeles` has it |
| GeoBuckets.CountyZipsMembers | src/geography.py:41-43 | a ZIP is a county ZIP exactly when some row with another postal city has it |
| GeoBuckets.CountyNamesMembers | src/geography.py:46-47 | a name is a county name exactly when some row not of the primary city has it |
| GeoBuckets.PrimaryCityNotCountyName | src/geography.py:46-47 | `losangeles` is never a county name |
| GeoBuckets.ZipSetsMayOverlap | src/geography.py:35-44 | the city and county ZIP collections can share a ZIP |
| GeoBuckets.ReportSharedZips | src/geography.py:50-52 | the loop prints, in order, exactly the city ZIPs that are also county ZIPs |
| GeoBuckets.PrimaryCityBusiness | src/geography.py:110-131 | a business in `losangeles` is a city business, and neither a county nor an other business |
| GeoBuckets.OtherBizDisjoint | src/geography.py:131 | other businesses are in neither the city nor the county bucket |
| GeoBuckets.CityAndCountyBiz | src/geography.py:110-119 | a business is in both the city and county buckets exactly when its ZIP is in both collections and its city is not the primary city |
| GeoBuckets.UnbucketedExactly | src/geography.py:110-131 | a business is in no bucket exactly when its ZIP is in neither collection, its city is not the primary city, and its city is a county name |
| GeoBuckets.BucketOverlapExample | src/geography.py:110-119 | a concrete business in both the city and county buckets |
| GeoBuckets.BucketGapExample | src/geography.py:110-131 | a concrete business in no bucket |
| GeoBuckets.SanityCount | src/geography.py:143 | the line-143 difference (in rows) is the unbucketed count minus the count in both city and county |
| GeoBuckets.ResidueOccurrences | src/geography.py:140 | a business occurs in the line-140 concatenation once per table copy, times one plus its bucket count |
| GeoBuckets.NoSingleInBucket | src/geography.py:140 | no bucket row occurs only once in that concatenation |
| GeoBuckets.SanityResidueExactly | src/geography.py:140 | `drop_duplicates(keep=False)` leaves exactly the unbucketed businesses without a duplicate row, in table order |
| GeoBuckets.InStateDisjoint | src/geography.py:291-294 | in-state awards are neither county awards nor out-of-state awards |
| GeoBuckets.StatePartition | src/geography.py:294-300 | out-of-state awards are exactly those whose STATE is not `CA`, and with the California awards they make up the table |
| GeoBuckets.InStateCityOverlapExample | src/geography.py:292-293 | an award can be both in-state and a city award, through its city name |
| GeoBuckets.AwardBucketsCover | src/geography.py:291-294 | every award is in at least one of the four buckets |
| GeoBuckets.AwardSanityNonPositive | src/geography.py:305 | the line-305 difference is never positive |
| GeoBuckets.AwardStateSanityNonPositive | src/geography.py:299-302 | the line-302 difference is never positive: every California award is in-state, city or county |
| GeoBuckets.AwardSanityChecks | src/geography.py:285-305 | the award cities cleaned in place, and the two sanity values computed from the cleaned rows, both never positive |
| GeoTally.Tally | src/geography.py:96 | `value_counts`: distinct codes, each with its positive occurrence count, covering every code |
| GeoTally.TallySum | src/geography.py:96 | the counts of a tally add up to the number of rows |
| GeoTally.BucketTallySums | src/geography.py:146-158 | each bucket's tally adds up to the bucket's row count |
| GeoTally.Lookup | src/geography.py:193-195 | the count of a code in a tally, or none when the code is absent |
| GeoTally.LookupTally | src/geography.py:187 | looking up a code in a tally gives its occurrence count, or none when it does not occur |
| GeoTally.TallyKeys | src/geography.py:96 | a code is a tally key exactly when it occurs |
| GeoTally.ColsOfRow | src/geography.py:193-195 | with unique keys, a row's columns are found by its code |
| GeoTally.StartCols | src/geography.py:193 | the first frame of the merge holds each code's opportunity count |
| GeoTally.MergeOuter | src/geography.py:193-195 | an outer merge keys the union of both key lists |
| GeoTally.MergeOuterKeys | src/geography.py:193-195 | the merged keys are unique and are exactly the keys of either side |
| GeoTally.MergeStepCols | src/geography.py:193-195 | each merge appends the right side's count (or none) to the code's columns |
| GeoTally.MergedKeys | src/geography.py:193-195 | after three merges, the keys are unique and are the codes of any of the four tallies |
| GeoTally.MergedCols | src/geography.py:193-195 | after three merges, a code's columns are its four lookups |
| GeoTally.MergedRows | src/geography.py:193-195 | every merged row has four columns holding its code's four lookups |
| GeoTally.FillRow | src/geography.py:197 | `replace(np.nan, 0)` on a row: each missing count becomes 0 and each present one is kept |
| GeoTally.Fill | src/geography.py:197-201 | the fill keeps the rows, their keys and their order |
| GeoTally.MergedFrame.constructor | src/geography.py:193-195 | the frame starts as the merge of the four tallies |
| GeoTally.MergedFrame.FillMissing | src/geography.py:197-201 | in place: every count of every row is filled |
| GeoTally.MergedFrame.SortByOppCount | src/geography.py:203 | in place: rows sorted by opportunity count, descending, as a permutation |
| GeoTally.MergeCounts | src/geography.py:146-203 | the final table is sorted, has a row for exactly the codes of any input, one row per code, and holds each code's four occurrence counts |
| GeoTally.BusinessCounts | src/geography.py:28-203 | from the raw tables: each postal city, NAICS code, business city and ZIP5 is replaced in place by the cleaned form of its old value (ZIP codes, ZIP9 and other columns unchanged), the businesses are bucketed by the reference built from the cleaned ZIP table, and the result is a sorted table with one row per cleaned code and its four occurrence counts |
| GeoTally.PermutedKeysUnique | src/geography.py:203 | reordering the merged table keeps its codes unique |
| GeoTally.FinalKeysUnique | src/geography.py:193-203 | the outer merges on NAICS followed by the sort give one row per code |
| GeoTally.TableShaped | src/geography.py:146-203 | a merged table drawn from cleaned codes holds only cleaned codes |
| GeoTally.PermutedKeys | src/geography.py:203 | sorting keeps the row count and the key set |
| GeoTally.FinalTableKeys | src/geography.py:193-203 | the final table has a row for exactly the codes occurring in any input |
| GeoTally.FinalTableCounts | src/geography.py:193-203 | every final row holds its code's occurrence counts, 0 where absent |
| SfQuery.Split | src/naics_code_data_generation.py:34 | `str.split(sep)`: at least one piece, no piece contains the separator, one more piece than separators |
| SfQuery.JoinSplit | src/naics_code_data_generation.py:34-41 | joining the pieces of a split on another character replaces one character by the other |
| SfQuery.SoqlToPython | src/naics_code_data_generation.py:30-34 | every space becomes `+`, and no space is left |
| SfQuery.PythonToSoql | src/naics_code_data_generation.py:37-41 | every `+` becomes a space, and no `+` is left |
| SfQuery.SoqlRoundTrip | src/naics_code_data_generation.py:30-41 | a statement without `+` survives the round trip |
| SfQuery.PythonRoundTrip | src/naics_code_data_generation.py:30-41 | a URL form without spaces survives the reverse round trip |
| SfQuery.SoqlRoundTripFails | src/naics_code_data_generation.py:30-41 | `"a+b"` comes back as `"a b"` |
| SfQuery.GetHttp | src/naics_code_data_generation.py:23-27 | the Salesforce domain followed by the endpoint |
| SfQuery.GetEndpoint | src/naics_code_data_generation.py:44-48 | the query path followed by the query |
| SfQuery.QueryUrl | src/naics_code_data_generation.py:208 | the requested URL is domain, path and the statement with `+` for spaces, has no space, and gives the statement back when it has no `+` |
| SfRecords.RemoveKeyGone | src/naics_code_data_generation.py:68-79 | after removal, no dict reachable through dicts has the key |
| SfRecords.RemoveInKeys | src/naics_code_data_generation.py:74-78 | a dict keeps its other keys, in order |
| SfRecords.RemoveInUnchanged | src/naics_code_data_generation.py:68-79 | a tree without the key is unchanged |
| SfRecords.RemoveKeyIdempotent | src/naics_code_data_generation.py:68-79 | removing a key twice equals removing it once |
| SfRecords.RemoveKeyNotDict | src/naics_code_data_generation.py:73-79 | a value that is not a dict is returned as it is |
| SfRecords.ListsNotSearched | src/naics_code_data_generation.py:73 | a dict inside a list keeps the key |
| SfRecords.RemoveAKey | src/naics_code_data_generation.py:68-79 | the loop over the key snapshot computes the removal |
| SfRecords.PutKeys | src/naics_code_data_generation.py:94 | storing an entry gives the old keys plus its key |
| SfRecords.PutNew | src/naics_code_data_generation.py:94 | a new key is appended at the end |
| SfRecords.PutUnique | src/naics_code_data_generation.py:94 | storing keeps the keys unique |
| SfRecords.PutAllFacts | src/naics_code_data_generation.py:94 | `dict(items)` has the keys of its items, and every entry comes from them |
| SfRecords.PutAllFresh | src/naics_code_data_generation.py:94 | items with fresh keys are appended in order |
| SfRecords.ToDict | src/naics_code_data_generation.py:94 | `dict(items)`: unique keys, exactly the item keys, entries from the items, and the items themselves when their keys are unique |
| SfRecords.LastValueNone | src/naics_code_data_generation.py:94 | the last item's value for a key is none exactly when no item has the key |
| SfRecords.LastValueAt | src/naics_code_data_generation.py:94 | otherwise it is the value of an item with that key and no later item of that key |
| SfRecords.PutAllSnoc | src/naics_code_data_generation.py:94 | building a dict from items plus one more stores that one last |
| SfRecords.GetPut | src/naics_code_data_generation.py:94 | after `d[k] = v`, `d[k]` is `v` and every other key reads as before |
| SfRecords.PutKeyOrder | src/naics_code_data_generation.py:94 | storing keeps the key order, appending a new key at the end |
| SfRecords.ToDictOrder | src/naics_code_data_generation.py:94 | each key appears once, in the order of its first item |
| SfRecords.ToDictLastWins | src/naics_code_data_generation.py:94 | the value under each key is that of its last item |
| SfRecords.ToDictDuplicateExample | src/naics_code_data_generation.py:94 | two items with one key give one entry holding the second value |
| SfRecords.JoinKey | src/naics_code_data_generation.py:89 | `parent + sep + k` when the parent is non-empty, else `k` |
| SfRecords.ItemsAppend | src/naics_code_data_generation.py:87-93 | the items of two entry lists are concatenated |
| SfRecords.ItemsNoDict | src/naics_code_data_generation.py:90-93 | no collected item holds a dict |
| SfRecords.ItemsKeys | src/naics_code_data_generation.py:87-93 | the collected keys are the leaf paths |
| SfRecords.ItemsAreLeaves | src/naics_code_data_generation.py:87-93 | with distinct leaf paths, the collected items are the leaves in tree order |
| SfRecords.FlattenFacts | src/naics_code_data_generation.py:82-94 | the flattened dict holds no dict, has unique keys equal to the leaf paths, and holds the leaves when no two paths collide |
| SfRecords.TopLevelLeaf | src/naics_code_data_generation.py:89 | a top-level leaf keeps its own key, with no separator |
| SfRecords.NestedLeaf | src/naics_code_data_generation.py:89-91 | a leaf one level down is keyed `parent + sep + key` |
| SfRecords.LeafUnderPath | src/naics_code_data_generation.py:89-93 | every leaf is listed under its joined path |
| SfRecords.SubLeaves | src/naics_code_data_generation.py:90-91 | a nested dict's leaves are listed under its path |
| SfRecords.LeafPathsAvoid | src/naics_code_data_generation.py:82-94 | a key absent from the tree is no leaf path, when the separator does not start inside it |
| SfRecords.FlattenDict | src/naics_code_data_generation.py:82-94 | the loop with `extend`/`append` then `dict(items)` computes the flattening |
| SfRecords.Get | src/naics_code_data_generation.py:144 | `data[key]`: none exactly when the key is absent, otherwise the stored value |
| SfRecords.CreateRecords | src/naics_code_data_generation.py:139-148 | an error exactly when the response has no list of dict records; otherwise one converted record per record, in order |
| SfRecords.ConvertedFacts | src/naics_code_data_generation.py:146 | a converted record holds no dict, has unique keys, and has no `attributes` key |
| NaicsSheet.DropExcludedExactly | src/naics_code_data_generation.py:234 | a row survives the department filter exactly when its department is not one of the three |
| NaicsSheet.ExcludedNames | src/naics_code_data_generation.py:332-336 | the excluded departments are exactly Water & Power, LAWA and POLA; a missing department is kept |
| NaicsSheet.Codes | src/naics_code_data_generation.py:339 | the group keys: exactly the present NAICS codes |
| NaicsSheet.NaicsOppCounts | src/naics_code_data_generation.py:328-348 | the counts are in descending order and are a permutation of the per-code counts |
| NaicsSheet.NaicsOppCountsValues | src/naics_code_data_generation.py:332-341 | each count is the number of kept-department rows with that code and an opportunity id |
| NaicsSheet.NaicsOppCountsKeys | src/naics_code_data_generation.py:332-340 | a code is listed exactly when a row of a kept department carries it |
| NaicsSheet.WithTwoDigit | src/naics_code_data_generation.py:369-370 | one sheet row per row, whose two-digit column is the code's first two characters |
| NaicsSheet.FinalizeSheet | src/naics_code_data_generation.py:369-382 | the sheet is the rows, in order, with at least 100 opportunities, minus a lone `999999` row |
| NaicsSheet.FinalSheetExactly | src/naics_code_data_generation.py:377-382 | a row reaches the sheet exactly when it has at least 100 opportunities and is not the only `999999` row |
| NaicsSheet.LegacyRowFate | src/naics_code_data_generation.py:377-380 | a lone `999999` row never reaches the sheet; repeated ones with enough opportunities do |
| NaicsSheet.SheetSorted | src/naics_code_data_generation.py:363-382 | when the merged table is in descending order of opportunities, so is the sheet |
| NaicsSheet.TwoDigitPrefix | src/naics_code_data_generation.py:369 | for codes of two or more characters, the two-digit column has exactly two characters |
| Temporal.Percent | src/temporal.py:34 | `100*a/b if b != 0 else 0`: 0 for a zero whole, otherwise `r * b == 100 * a` |
| Temporal.PercentBounds | src/temporal.py:34 | a part of a non-negative whole is between 0 and 100 percent |
| Temporal.PercentZero | src/temporal.py:34 | the percentage is 0 exactly when the whole or the part is 0 |
| Temporal.PercentFull | src/temporal.py:34 | of a non-zero whole, it is 100 exactly when the part is the whole |
| Temporal.ColumnNamesDistinct | src/temporal.py:24-25 | the six output column names are pairwise different |
| Temporal.PerTimeframe | src/temporal.py:30-35 | the inner `for t in timeframes` loop: one appended value per timeframe, in the given order, each that timeframe's percentage |
| Temporal.ContractValues | src/temporal.py:30-35 | the inner loop yields each timeframe's contract percentage for the flag, in order |
| Temporal.DollarValues | src/temporal.py:40-45 | the inner loop yields each timeframe's dollar percentage for the flag, in order |
| Temporal.GetPercents | src/temporal.py:7-51 | one row per timeframe in order, exactly the six columns, each column from its own flag |
| Temporal.FlaggedWithinFrame | src/temporal.py:32-33 | the flagged count never exceeds the timeframe count |
| Temporal.ContractPercentBounds | src/temporal.py:32-34 | the contract percentage lies between 0 and 100 |
| Temporal.ContractPercentZero | src/temporal.py:32-34 | it is 0 exactly when the timeframe has no records or no flagged records |
| Temporal.AllFlagged | src/temporal.py:32-33 | the flagged count equals the timeframe count exactly when every record of the timeframe is flagged |
| Temporal.ContractPercentFull | src/temporal.py:32-34 | it is 100 exactly when the timeframe has records and all are flagged |
| Temporal.DollarPercentNoDollars | src/temporal.py:42-44 | a timeframe whose amounts add up to 0 reports 0 |
| Temporal.EmptyFrameNoDollars | src/temporal.py:42-44 | a timeframe without records has no dollars and reports 0 |
| Temporal.AmountSumFilter | src/temporal.py:42-43 | with no negative amount, a part of the rows adds up to between 0 and the whole |
| Temporal.DollarPercentBounds | src/temporal.py:42-44 | with no negative amount, the dollar percentage lies between 0 and 100 |
| Temporal.AmountSumSame | src/temporal.py:42-43 | rows that agree on the mask and the amount add up to the same sum |
| Temporal.OwnFlagOnly | src/temporal.py:29-46 | a flag's two percentages depend only on that flag, the timeframe column and the amounts |

## Left out

- HTTP requests, credentials, the OAuth token refresh, the retry on error and pagination through `nextRecordsUrl`: network I/O. The model starts from a decoded response value.
- CSV reads and writes, the Socrata client, the drive mount, and the Google Sheets export: I/O. Their data are given input sequences.
- `data_to_business_enterprise` and `data_to_category_counts` are pandas groupby and pivot aggregations with float output. The merge of their results with the opportunity counts (lines 359-365 of `src/naics_code_data_generation.py`) and its `fillna` are therefore not modelled. `NaicsSheet.FinalizeSheet` takes the merged table as input, with an integer opportunity count. A row present only on the award side would get the fill text in its count column, and its comparison with 100 would raise. The model does not represent this.
- The column reordering of lines 373-375: it moves columns without changing rows.
- `value_counts` orders its rows by descending count and `groupby` by ascending key; `GeoTally.Tally` and `NaicsSheet.CodeCounts` keep first-appearance order instead. The order does not matter after the sorts at line 203 of `src/geography.py` and line 340 of `src/naics_code_data_generation.py`, whose tie order pandas does not fix: the model sorts with an insertion sort, and its contracts state sortedness and permutation.
- Float arithmetic, dtype coercion and `astype(str, errors='ignore')`: counts are integers, amounts and percentages are exact reals.
- `str.lower()` is modelled on ASCII letters only.
- Nothing guards line 28 against a missing postal city, line 285 against a missing award city, or line 80 against a missing ZIP: a missing value raises. The model takes postal cities, award cities and raw ZIPs as strings.
- SfRecords.CreateRecords: a `records` value that is not a list is an error. The source builds an empty frame when that value is an empty dict or an empty string.
- SfRecords.RemoveAKey: `remove_a_key` mutates the dict in place and returns it. The model works on a tree value and returns the new tree, so it does not capture aliasing between the argument and the result.
- The construction of the pandas DataFrame from the converted records: column alignment and missing cells.
- The timeframe values of `get_percents` are modelled as strings compared for equality. A missing timeframe cell matches no timeframe.
- The `to_gsheet` branch of `get_percents` does nothing, and `main` prints: both left out.
- `Temporal.DollarPercentBounds` needs non-negative amounts. The source promises no bound on dollar percentages.
- Temporal.GetPercents: requires every record to carry the timeframe column and the three flag columns. In the source a missing column raises `KeyError`, which the model does not represent; a missing cell of a present column is modelled as none.
