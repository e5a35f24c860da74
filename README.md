# argon-search: the search pipeline, modelled and proved in Dafny

The model covers the clinical-trial search of argon-search:

- **Synonym index** (`lib/synonymUtils.ts`, `lib/synonyms.ts`):
  - term normalization;
  - the symmetric one-hop map built from the static synonym table;
  - query-term expansion.
- **POST /api/search handler** (`pages/api/search.ts`):
  - the method and sort-key checks;
  - the body defaults;
  - the six-predicate record filter: full text (ANY/ALL, optionally with synonyms), title, sponsor, status, start date, end date;
  - the stable sort by a lower-cased key;
  - the page of ten.
- **Search page** (`pages/search.tsx`):
  - the comma-split query;
  - the two option switches;
  - the request body it posts.
- **Results table** (`components/SearchResults.tsx`):
  - page, sort and column-filter state as a class;
  - `totalPages`;
  - the previous, next and sort handlers;
  - title truncation.
- **Loader** (`lib/loadClinicalTrialsData.ts`): the loop that maps parsed study rows to trials and collects their statuses.

One module per file:

| file | module | models |
|---|---|---|
| `wrappers.dfy` | `Wrappers` | `Option`, `Result` |
| `text.dfy` | `Text` | JavaScript string operations: `toLowerCase` (ASCII), `includes`, `trim`, `split`/`join`, `<` on strings |
| `trials.dfy` | `Trials` | the `ClinicalTrial` record, `STATUSES` |
| `synonyms.dfy` | `Synonyms` | `normalizeTerm`, `buildNormalizedSynonymMap` (imperative), `normalizeAndExpandQueryTerm` |
| `matching.dfy` | `Matching` | the filter callback, `compareDates`, `allTrials.filter` |
| `ranking.dfy` | `Ranking` | `validSortKeys`, `normalize`, the comparator, the stable sort |
| `search_api.dfy` | `SearchApi` | body defaults, `slice` and paging, the handler, the `expandedFilters` loop as written |
| `search_page.dfy` | `SearchPage` | the query split, `handleToggle`, submit, the posted body; class `Page` |
| `results_table.dfy` | `ResultsTable` | `totalPages`, title truncation; class `Table` with the three handlers |
| `loader.dfy` | `Loader` | the row-mapping loop |

## How the model is organized

- **The handler is two functions.**
  - `SearchApi.Handle` takes the HTTP method, the body, the trials and the synonym map. It models the handler with the synonym lookup restricted to the map's own keys, which is the corrected behaviour of the one finding below. The handler exactly as written is `SearchApi.HandleAsWritten`; it differs from `Handle` only for a phrase that normalizes to "constructor", which it answers with 500 (`SearchApi.ConstructorQueryCrashes`).
  - `SearchApi.Respond` is the part after the method check.
  - `SearchApi.Serve` is the method that runs the loader loop, builds the map with the imperative `BuildNormalizedSynonymMap`, and answers.
  - The synonym table is a parameter of `Serve` and `HandleAsWritten`, as it is of `BuildNormalizedSynonymMap`. The application's table is `Synonyms.SYNONYM_TABLE` (lib/synonyms.ts:4-14), and the lemmas about the crash are stated for that table.
  - The response does not depend on the order of the lists in the map, which comes from JavaScript `Set` iteration (`HandleIgnoresListOrder`).
- **Synonyms are specified by the relation the table declares.**
  - `Declared(table, a, b)`: some line's key normalizes to `a` and one of its values to `b`.
  - The built map holds exactly the one-hop closure of that relation in both directions (`IndexKeyAt`, `IndexValueAt`).
- **Sorting is a stable insertion sort on sequences.**
  - It is proved sorted, a permutation and stable.
  - It is also proved to be the only ordering with those properties (`SortIsTheStableSort`). So it agrees with any stable sort, which is what `Array.prototype.sort` must be (ECMA-262, section 23.1.3.30).
- **Paging uses the full `Array.prototype.slice` semantics.**
  - A page number of 0 gives an empty page.
  - A negative page counts from the end of the list (`NegativePageFromEnd`).
- **Dates are compared as strings in lexicographic order.** The loader copies `startDateStruct.date` and `completionDateStruct.date` without checking them (lib/loadClinicalTrialsData.ts:44-45). The model assumes that every date and every date filter is a full `YYYY-MM-DD` date with a four-digit year. For such dates the string order is the order of the `new Date(...)` comparisons at pages/api/search.ts:132-135. For dates of reduced precision it is not (see "## Left out").
- **Quirks of the code the model reproduces:**
  - With synonym expansion on, the candidate terms of a phrase are the normalized phrase and its neighbours only (pages/api/search.ts:81-82, :88-89). The dead `expandedFilters` loop also adds the raw lower-cased phrase (pages/api/search.ts:63-64), but the filter never reads that loop's result. `Matching.ExpansionDropsRawPhrase` shows a phrase that matches without expansion and not with it.
  - The table sends `startDateMin`/`endDateMax` (components/SearchResults.tsx:87-88), which the handler never reads (pages/api/search.ts:29, :31). `ResultsTable.DateBoundsIgnored` shows that they change nothing.
  - The table counts pages of 20 (components/SearchResults.tsx:33, :94) while the handler serves pages of 10 (pages/api/search.ts:114). As a result, paging through the table never reaches the later results of any search with more than ten matches (`ResultsTable.UiPagingMissesResults`).
  - Requests sent by the table carry neither `matchAll` nor `synonymExpansion`, so re-sorting or paging falls back to ANY matching without synonyms (`ResultsTable.TableRequestAsReceived`).
  - An empty or blank query is sent as the single phrase `""`, which every record contains (`SearchPage.BlankQuery`, `Matching.EmptyPhraseMatchesAll`).

## Model

| member | source | states |
|---|---|---|
| Text.Lower | pages/api/search.ts:76 | lower-casing keeps the length and maps each character independently, leaving no upper-case letter |
| Text.LowerAppend | pages/api/search.ts:69-76 | lower-casing a concatenation is the concatenation of the lower-cased parts |
| Text.Trim | pages/search.tsx:45-46 | definition: `trimStart` followed by `trimEnd` (its properties are the `Trim…` lemmas below) |
| Text.Join | pages/api/search.ts:69-75 | definition: `join(sep)`, the pieces with the separator between neighbours (inverted by `Split`, see `SplitJoin`) |
| Text.Less | pages/api/search.ts:109-110 | definition: `<` on strings, lexicographic by character; a proper prefix comes first (its order laws are the `Less…` lemmas below) |
| Text.Includes | pages/api/search.ts:85 | `hay.includes(needle)` holds exactly when the needle occurs at some position of the haystack |
| Text.IncludesEmpty | pages/api/search.ts:85 | the empty string is contained in every string |
| Text.IncludesParts | pages/api/search.ts:69-75 | both parts of a concatenation are contained in it |
| Text.IncludesTransitive | pages/api/search.ts:69-85 | containment is transitive |
| Text.TrimStart | pages/search.tsx:45-46 | removes a prefix made only of white space and stops at a non-white-space character |
| Text.TrimEnd | pages/search.tsx:45-46 | removes a suffix made only of white space and stops at a non-white-space character |
| Text.TrimIsTrimmed | pages/search.tsx:45-46 | `trim` leaves no white space at either end |
| Text.TrimIsSlice | pages/search.tsx:45-46 | `trim` returns a contiguous slice of its input |
| Text.TrimKeepsNonWhiteSpace | pages/search.tsx:45-46 | every non-white-space character of the input survives `trim` |
| Text.TrimOfTrimmed | pages/search.tsx:45-46 | a string with no outer white space is its own trim |
| Text.TrimIdempotent | pages/search.tsx:45-46 | trimming twice is trimming once |
| Text.Split | pages/search.tsx:45 | `split(sep)` gives at least one piece, no piece contains the separator, and joining the pieces with it restores the input |
| Text.SplitJoin | pages/search.tsx:45 | splitting a join of separator-free pieces gives back those pieces |
| Text.LessIrreflexive | pages/api/search.ts:109-110 | no string sorts before itself |
| Text.LessTransitive | pages/api/search.ts:109-110 | string order is transitive |
| Text.LessTotal | pages/api/search.ts:109-110 | two different strings are ordered one way or the other |
| Text.LessAsymmetric | pages/api/search.ts:109-110 | string order is asymmetric |
| Text.LessAntisymmetric | pages/api/search.ts:109-110 | no two strings are each before the other |
| Synonyms.NormalizeTerm | lib/synonymUtils.ts:3-5 | the result holds only `[a-z0-9]` and is no longer than the term |
| Synonyms.NormalizeNormalized | lib/synonymUtils.ts:3-5 | a term already made of `[a-z0-9]` is left unchanged |
| Synonyms.NormalizeIdempotent | lib/synonymUtils.ts:3-5 | normalizing twice is normalizing once |
| Synonyms.NormalizeIgnoresCase | lib/synonymUtils.ts:3-5 | normalizing a lower-cased term gives the same result as normalizing the term |
| Synonyms.Index | lib/synonymUtils.ts:10-23 | definition, independent of the loop: the one-hop relation the table declares, both directions, as a map of sets (characterized by `IndexKeyAt` and `IndexValueAt`) |
| Synonyms.IndexKeyAt | lib/synonymUtils.ts:10-21 | the keys of the built map are exactly the normalized keys and values of the table |
| Synonyms.IndexValueAt | lib/synonymUtils.ts:17-21 | under each term the map holds exactly the terms declared with it in one line of the table, in either direction, and nothing transitive |
| Synonyms.TermsAreKeys | lib/synonymUtils.ts:11-20 | every normalized key and every normalized value of the table is a key of the map |
| Synonyms.IndexSymmetric | lib/synonymUtils.ts:19-21 | if `v` is listed under `k` then `k` is listed under `v` |
| Synonyms.DeclaredTerms | lib/synonymUtils.ts:11-20 | both ends of a declared pair are terms of the table |
| Synonyms.PartialKeyAt | lib/synonymUtils.ts:17-21 | part-way through a line, the keys so far are the terms of the earlier lines, the line's key and its values so far |
| Synonyms.PartialValueAt | lib/synonymUtils.ts:17-21 | part-way through a line, each set holds the pairs declared so far, in both directions |
| Synonyms.SetToList | lib/synonymUtils.ts:26 | `[...set]` lists every element of the set once and nothing else |
| Synonyms.FillSynonymSets | lib/synonymUtils.ts:8-23 | the map of sets the first loop fills is the one-hop index of the table |
| Synonyms.CopyToLists | lib/synonymUtils.ts:24-27 | the copy has the same keys, and each list holds exactly its set's elements, once each |
| Synonyms.BuildNormalizedSynonymMap | lib/synonymUtils.ts:7-29 | the returned map has the keys of the one-hop index, each list duplicate-free with exactly the index's neighbours |
| Synonyms.NormalizeAndExpandQueryTerm | lib/synonymUtils.ts:31-35 | the expansion starts with the normalized term, followed by the map's list under it, or by nothing when that key is absent |
| Synonyms.ExpansionMeaning | lib/synonymUtils.ts:31-35 | with the built map, a term expands exactly to itself (normalized) and the terms declared with it in the table |
| Synonyms.ExpansionNormalized | lib/synonymUtils.ts:31-35 | every term of an expansion is normalized |
| Synonyms.PropertyLookup | lib/synonymUtils.ts:33 | `obj[key]` finds an own key, else an inherited `Object.prototype` property, else nothing |
| Synonyms.NormalizeAndExpandAsWritten | lib/synonymUtils.ts:31-35 | the expansion as written throws exactly when the lookup finds an inherited property |
| Synonyms.InheritedNormalizedName | lib/synonymUtils.ts:33 | of the inherited property names, only `constructor` can be a normalized term |
| Synonyms.UnderscoreNamesNotNormalized | lib/synonymUtils.ts:3-5 | the inherited names that begin with an underscore are not normalized terms |
| Synonyms.CamelCaseNamesNotNormalized | lib/synonymUtils.ts:3-5 | the camel-case inherited names are not normalized terms |
| Synonyms.NotConstructor | lib/synonymUtils.ts:3-5 | a short term, or one whose first two kept characters are not "co", does not normalize to "constructor" |
| Synonyms.LineAvoidsConstructor | lib/synonyms.ts:4-14 | a line whose strings all pass that test has no term "constructor" |
| Synonyms.FirstLineAvoidsConstructor | lib/synonyms.ts:5-10 | the `nsclc` line has no term "constructor" |
| Synonyms.SecondLineAvoidsConstructor | lib/synonyms.ts:11 | the `cancer` line has no term "constructor" |
| Synonyms.ThirdLineAvoidsConstructor | lib/synonyms.ts:12 | the `lung` line has no term "constructor" |
| Synonyms.LastLineAvoidsConstructor | lib/synonyms.ts:13 | the `immunotherapy` line has no term "constructor" |
| Synonyms.TableAvoidsConstructor | lib/synonyms.ts:4-14 | no line of the synonym table has a term "constructor" |
| Synonyms.ConstructorNotInTable | lib/synonyms.ts:4-14 | "constructor" is not a key of the map built from the synonym table |
| Synonyms.AsWrittenAgreesExceptConstructor | lib/synonymUtils.ts:31-35 | the lookup as written fails exactly for a term that normalizes to "constructor" absent from the map, and otherwise agrees with the own-key lookup |
| Synonyms.ConstructorPhraseThrows | lib/synonymUtils.ts:33-34 | "constructor" is its own normal form, makes the expansion as written throw, and expands to itself under the own-key lookup |
| Matching.CombinedText | pages/api/search.ts:69-76 | definition: the lower-cased join of title, conditions, interventions and sponsor (shape stated by `CombinedTextShape`) |
| Matching.Candidates | pages/api/search.ts:81-83 | definition: the lower-cased expansion with synonyms on, else the lower-cased phrase (meaning stated by `PhraseMeaning`) |
| Matching.MatchesFullText | pages/api/search.ts:78-94 | definition: an empty list, or every phrase (ALL) or some phrase (ANY) matching (meaning stated by `FullTextMeaning`) |
| Matching.CompareDates | pages/api/search.ts:130-137 | definition: a missing or empty date fails; `>=` and `<=` compare the strings; any other operator passes (properties stated by the `DateBound…` lemmas) |
| Matching.Matches | pages/api/search.ts:78-103 | definition: the conjunction of the full-text, title, sponsor, status, start and end tests |
| Matching.CombinedTextShape | pages/api/search.ts:69-76 | the haystack is the lower-cased title, conditions, interventions and sponsor, joined by spaces |
| Matching.TitleAndSponsorInCombinedText | pages/api/search.ts:69-76 | the lower-cased title and sponsor are contained in the haystack |
| Matching.LowerAll | pages/api/search.ts:82 | definition of `.map(t => t.toLowerCase())`: each term lower-cased in place |
| Matching.SomeIncluded | pages/api/search.ts:85 | `terms.some(t => hay.includes(t))` holds exactly when some term is contained in the haystack |
| Matching.EveryPhrase | pages/api/search.ts:80-86 | holds exactly when every phrase matches |
| Matching.SomePhrase | pages/api/search.ts:87-93 | holds exactly when some phrase matches |
| Matching.FullTextMeaning | pages/api/search.ts:78-94 | an empty phrase list passes every record; otherwise under ALL every phrase must match, under ANY at least one |
| Matching.PhraseMeaning | pages/api/search.ts:81-85 | without expansion a phrase matches when its lower-cased form is contained in the haystack; with expansion when its normalized form or a term from its list is |
| Matching.SynonymPhraseMeaning | pages/api/search.ts:81-85 | with the built map, a phrase matches exactly when its normalized form, or a term declared with it in the table, is contained in the haystack |
| Matching.ExpansionDropsRawPhrase | pages/api/search.ts:81-83 | with expansion on, the raw phrase is not a candidate: "a b" matches the haystack "a b" without expansion and not with it |
| Matching.AllModeAddedPhrase | pages/api/search.ts:79-86 | under ALL, adding a phrase never adds a match |
| Matching.AnyModeAddedPhrase | pages/api/search.ts:87-93 | under ANY, adding a phrase to a non-empty list never removes a match |
| Matching.AnyModeFirstPhrase | pages/api/search.ts:78 | under ANY, the first phrase can remove matches, because an empty list passes every record |
| Matching.EmptyPhraseMatchesAll | pages/api/search.ts:78-94 | the single phrase "" matches every record, in both modes, with or without expansion |
| Matching.DateBoundEdges | pages/api/search.ts:130-137 | a missing or empty date fails a date bound; an operator other than `>=` and `<=` lets a present date pass |
| Matching.DateBoundMonotone | pages/api/search.ts:130-137 | a `>=` bound passed by a date is passed by every later date; a `<=` bound passed by a date is passed by every earlier non-empty date |
| Matching.DateBoundsMeet | pages/api/search.ts:130-137 | a date passes both `>=` and `<=` against the same filter exactly when it equals the filter |
| Matching.FilterSubsequence | pages/api/search.ts:68 | `filter` keeps elements in their order and never lengthens the list |
| Matching.FilterCounts | pages/api/search.ts:68 | `filter` keeps each passing element exactly as often as it occurs and drops every other |
| Matching.FilterMeaning | pages/api/search.ts:68 | `filter` returns a subsequence whose elements all pass, contains every passing element, with the multiplicities of the input for passing elements and none for the others |
| Matching.FilterMonotone | pages/api/search.ts:68 | a weaker test keeps at least as many elements |
| Matching.FilterExtensional | pages/api/search.ts:68 | two tests that agree on every element keep the same list |
| Matching.FilterKeepsAll | pages/api/search.ts:68 | a test every element passes keeps the whole list |
| Matching.FilterTrials | pages/api/search.ts:68-104 | the kept trials are a subsequence of the input in order, every kept trial matches, and each matching trial is kept exactly as often as it occurs in the data set |
| Ranking.ParseSortKey | pages/api/search.ts:49-51 | a sort key is accepted exactly when it is one of the five valid keys, and names the key it denotes |
| Ranking.ParseKeyName | pages/api/search.ts:7 | each of the five keys is accepted under its own name |
| Ranking.SortValue | pages/api/search.ts:124-128 | definition: `normalize(a[sortBy])` for a string field, a missing field as "" (stated by `SortValueMeaning`) |
| Ranking.Before | pages/api/search.ts:106-112 | definition: the comparator returns a negative number, i.e. the sort value is smaller (asc) or larger (desc) (its laws are the `Before…` lemmas) |
| Ranking.SortValueMeaning | pages/api/search.ts:124-128 | the sort value is lower-cased; a missing field is "", which sorts before any other value |
| Ranking.NotBeforeEitherWay | pages/api/search.ts:106-112 | when the comparator returns 0 the two sort values are equal |
| Ranking.BeforeAsymmetric | pages/api/search.ts:106-112 | if `a` goes before `b` then `b` does not go before `a`, and their sort values differ |
| Ranking.BeforeIrreflexive | pages/api/search.ts:106-112 | no trial goes before itself |
| Ranking.NotBeforeTransitive | pages/api/search.ts:106-112 | "does not go before" is transitive, in both directions of sorting |
| Ranking.Insert | pages/api/search.ts:106-112 | inserting adds exactly the one element to the multiset |
| Ranking.SortTrials | pages/api/search.ts:106-112 | the sorted list is a permutation of the filtered list |
| Ranking.FilterAppend | pages/api/search.ts:106-112 | filtering a concatenation is concatenating the filtered parts |
| Ranking.InsertMembers | pages/api/search.ts:106-112 | insertion adds the new trial and nothing else |
| Ranking.InsertSorted | pages/api/search.ts:106-112 | inserting into a sorted list keeps it sorted |
| Ranking.SortIsSorted | pages/api/search.ts:106-112 | the sorted list is in non-decreasing (asc) or non-increasing (desc) order of sort values |
| Ranking.InsertWithValue | pages/api/search.ts:106-112 | inserting an element puts it in front of its group of equal sort values |
| Ranking.SortIsStable | pages/api/search.ts:106-112 | trials with equal sort values keep their relative order |
| Ranking.StableSortUnique | pages/api/search.ts:106-112 | two sorted lists that agree on the order of every tie group are equal |
| Ranking.SortIsTheStableSort | pages/api/search.ts:106-112 | every sorted, tie-preserving ordering of the filtered list is the model's sorted list |
| SearchApi.WithDefaults | pages/api/search.ts:19-33 | definition: each missing body field takes the default of the destructuring |
| SearchApi.PageOf | pages/api/search.ts:114-116 | definition: `slice((page - 1) * 10, (page - 1) * 10 + 10)` (stated by the `Page…` lemmas) |
| SearchApi.Respond | pages/api/search.ts:49-121 | definition: 400 for an invalid sort key, else the filtered count and the page of the sorted filtered list; own-key synonym lookup |
| SearchApi.Handle | pages/api/search.ts:12-121 | definition: 405 for a method other than POST, else `Respond` on the body with its defaults; own-key synonym lookup |
| SearchApi.RelativeIndex | pages/api/search.ts:116 | definition of `slice`'s argument rule: counts from the end when negative and is clamped to the length |
| SearchApi.PageBounds | pages/api/search.ts:114-116 | a page holds at most ten elements, all from the list |
| SearchApi.PageContents | pages/api/search.ts:114-116 | page `p` (from 1) is the list from position 10(p-1) to 10p, cut at the end |
| SearchApi.PageEmpty | pages/api/search.ts:114-116 | a page from 1 on is empty exactly when it starts at or past the end; page 0 is empty |
| SearchApi.NegativePageFromEnd | pages/api/search.ts:115-116 | a negative page counts back from the end of the list |
| SearchApi.FirstPagesPrefix | pages/api/search.ts:114-116 | pages 1 to k in turn are the first 10k elements |
| SearchApi.PageCount | pages/api/search.ts:114 | ceil(n/10) pages hold n elements, and one fewer do not |
| SearchApi.PagesCoverList | pages/api/search.ts:114-116 | pages 1 to ceil(n/10) give back the whole list, each element once; later pages are empty |
| SearchApi.PageSorted | pages/api/search.ts:106-116 | a page of a sorted list is sorted |
| SearchApi.HandleErrors | pages/api/search.ts:13-51 | a non-POST method gets 405 "Method not allowed"; a sort key outside the five gets 400 "Invalid sortBy key: ..."; every other request succeeds under the own-key lookup (the handler as written also answers 500 for a "constructor" phrase, see `HandleAsWritten`) |
| SearchApi.RespondOk | pages/api/search.ts:68-121 | `total` counts every matching trial; the page has at most ten trials, each from the data set and matching, in the requested order |
| SearchApi.RespondPage | pages/api/search.ts:106-116 | the results are page `page` of any stable sorted ordering of the matching trials |
| SearchApi.EmptyBodyFirstPage | pages/api/search.ts:19-33 | an empty body gets every trial counted and the first ten by start date, ascending |
| SearchApi.DefaultRequestMatches | pages/api/search.ts:96-101 | with the defaults, every structured filter passes every trial |
| SearchApi.FilterCountMonotone | pages/api/search.ts:68-104 | a weaker filter keeps at least as many trials |
| SearchApi.FilterSame | pages/api/search.ts:68-104 | two filters that accept the same trials keep the same list |
| SearchApi.TotalIgnoresPaging | pages/api/search.ts:114-120 | `total` does not depend on the page number, the sort key or the direction |
| SearchApi.AllModeNarrows | pages/api/search.ts:79-86 | under ALL, one more phrase never raises `total` |
| SearchApi.AnyModeWidens | pages/api/search.ts:87-93 | under ANY, one more phrase never lowers `total` once there is a phrase |
| SearchApi.HandleIgnoresListOrder | lib/synonymUtils.ts:24-27 | any two maps built from the same table give the same response, whatever the order of their lists |
| SearchApi.Serve | pages/api/search.ts:12-122 | the handler end to end with the own-key synonym lookup answers as `Handle` does with the loaded trials and any map built from the synonym table (the handler as written is `HandleAsWritten`) |
| SearchApi.PhraseVariants | pages/api/search.ts:59-64 | the variants of one phrase are duplicate-free and are exactly the lower-cased phrase and its lower-cased expansion |
| SearchApi.AddOnce | pages/api/search.ts:59-64 | `set.add` keeps the elements distinct and adds exactly the one element |
| SearchApi.ExpandFiltersAsWritten | pages/api/search.ts:54-66 | the loop as written throws exactly when the lookup for some phrase finds an inherited property; otherwise it collects exactly the lower-cased phrases and their lower-cased expansions |
| SearchApi.HandleAsWritten | pages/api/search.ts:12-122 | the handler as written answers 500 for a valid POST with a phrase that normalizes to "constructor" when the map lacks that key; otherwise it answers as `Handle` |
| SearchApi.ConstructorQueryCrashes | pages/api/search.ts:56-57 | with the real synonym table, the single phrase "constructor" makes the handler as written fail |
| SearchPage.TrimKeepsCommaFree | pages/search.tsx:45 | trimming a comma-free piece leaves it comma-free |
| SearchPage.NonEmptyIndices | pages/search.tsx:45 | the positions of the non-empty strings, increasing, and every non-empty position among them |
| SearchPage.DropEmpty | pages/search.tsx:45 | `.filter(Boolean)`: the k-th result is the string at the k-th non-empty position |
| SearchPage.PiecesAreTrimmed | pages/search.tsx:45 | every kept piece is non-empty and has no outer white space |
| SearchPage.PiecesAreCommaFree | pages/search.tsx:45 | when no split piece has a comma, no kept piece has one |
| SearchPage.TrimmedPieces | pages/search.tsx:45 | the k-th phrase is the trimmed k-th piece that is not blank, so the phrases are the trimmed pieces in order with the blank ones dropped; each is non-empty and trimmed, and comma-free when the split pieces are |
| SearchPage.IncludesChar | pages/search.tsx:44 | `query.includes(',')` holds exactly when the query has a comma |
| SearchPage.QueryWithoutComma | pages/search.tsx:44-46 | a query without a comma is sent as one phrase, the trimmed query, which may be empty |
| SearchPage.QueryFilters | pages/search.tsx:44-46 | definition of the `filters` field: the split, trimmed, non-blank pieces when the query has a comma, else the trimmed query (stated by `QueryWithComma`, `QueryWithoutComma`, `QueryRoundTrip`) |
| SearchPage.QueryWithComma | pages/search.tsx:44-45 | with a comma, the phrases sent are the pieces between the commas, trimmed, in order, with the blank ones dropped, and every non-blank piece is sent; each is non-empty, trimmed and comma-free |
| SearchPage.DropEmptyOfNonEmpty | pages/search.tsx:45 | `.filter(Boolean)` keeps a list of non-empty strings unchanged |
| SearchPage.TrimmedPiecesOfClean | pages/search.tsx:45 | pieces that are already non-empty and trimmed are kept as they are |
| SearchPage.QueryRoundTrip | pages/search.tsx:44-46 | non-empty, trimmed, comma-free phrases typed with commas between them are sent back as exactly those phrases |
| SearchPage.BlankQuery | pages/search.tsx:46 | an empty or blank query is sent as the single phrase "" |
| SearchPage.Toggled | pages/search.tsx:62 | toggling flips exactly the named switch and leaves the other one |
| SearchPage.ToggleTwice | pages/search.tsx:60-62 | toggling the same switch twice restores the switches |
| SearchPage.FetchBody | pages/search.tsx:43-51 | the body carries the split query, the page, the sort key and the direction, and never a date bound the handler reads |
| SearchPage.Page.constructor | pages/search.tsx:22-25 | the page starts with an empty query and both switches off |
| SearchPage.Page.SetQuery | pages/search.tsx:97 | typing replaces the query and keeps the switches |
| SearchPage.Page.HandleToggle | pages/search.tsx:60-73 | flips one switch; fetches page 1 by start date ascending with the new switches exactly when the trimmed query is not empty |
| SearchPage.Page.Submit | pages/search.tsx:81-89 | submitting always requests page 1, by start date, ascending, with the current switches |
| SearchPage.SubmitIsAnswered | pages/search.tsx:81-89 | under the own-key lookup a submitted search always succeeds: `total` counts every match and the results are the first ten matches by start date, ascending (as written, a phrase normalizing to "constructor" gets 500, see `HandleAsWritten`) |
| ResultsTable.TotalPages | components/SearchResults.tsx:94 | the page count is at least 1 and is the least number of 20-row pages holding the total |
| ResultsTable.DisplayTitle | components/SearchResults.tsx:328 | a title over 80 characters is shown as its first 77 characters and "...", exactly 80; any other title is shown unchanged |
| ResultsTable.Table.constructor | components/SearchResults.tsx:67-75 | the table starts on page 1, by start date, ascending, with all five filters empty |
| ResultsTable.Table.HandlePrev | components/SearchResults.tsx:96 | goes back one page, never below 1, and changes nothing else |
| ResultsTable.Table.HandleNext | components/SearchResults.tsx:97 | goes on one page, never past `totalPages`, and changes nothing else |
| ResultsTable.Table.HandleSort | components/SearchResults.tsx:99-106 | on the current column flips the direction; on another column sorts by it ascending; keeps the page and the filters |
| ResultsTable.Table.ApplyFilter | components/SearchResults.tsx:71-75 | sets exactly one filter and keeps the page and the sort |
| ResultsTable.TableBody | components/SearchResults.tsx:78-91 | definition: the body the table's effect posts: the page's query, the table's page, sort key, direction and five column filters |
| ResultsTable.StatusOptionSelects | components/SearchResults.tsx:253-257 | each status the popover offers (lib/statuses.ts) is non-empty and distinct, so picking it keeps exactly the trials with that status; the empty placeholder keeps every trial |
| ResultsTable.TableRequestAsReceived | components/SearchResults.tsx:78-92 | the handler sees a valid sort key, the table's direction, page and column filters, no date bound and both switches off |
| ResultsTable.DateBoundsIgnored | components/SearchResults.tsx:87-88 | the table's date bounds do not change the response |
| ResultsTable.UiPagingMissesResults | components/SearchResults.tsx:94 | with more than ten matches, paging from 1 to `totalPages` shows only the first 10 * `totalPages` results, fewer than the total |
| Loader.CityIndices | lib/loadClinicalTrialsData.ts:42 | the positions of the present, non-empty cities, increasing, and every such position among them |
| Loader.Cities | lib/loadClinicalTrialsData.ts:42-43 | the k-th kept city is the k-th present, non-empty one, so order and repeats are kept; membership is exactly the present, non-empty cities |
| Loader.ToTrial | lib/loadClinicalTrialsData.ts:32-47 | definition: the record pushed for a kept row, with the defaults of the `??` operators (stated by `ToTrialDefaults`) |
| Loader.LoadedTrials | lib/loadClinicalTrialsData.ts:17-48 | definition, independent of the loop: the kept rows mapped by `ToTrial`, in order (stated by `LoadedTrialsFollowRows`; the loop is `LoadTrials`) |
| Loader.KeptIndices | lib/loadClinicalTrialsData.ts:17-25 | the kept rows are exactly those with an id and a title, in increasing position |
| Loader.LoadedTrialsFollowRows | lib/loadClinicalTrialsData.ts:17-47 | the k-th trial comes from the k-th kept row, so trials keep the row order |
| Loader.LoadedTrialsWellFormed | lib/loadClinicalTrialsData.ts:22-46 | every trial has a non-empty id and title, a study URL made from its id, and only non-empty cities |
| Loader.ToTrialDefaults | lib/loadClinicalTrialsData.ts:35-46 | a missing sponsor becomes "Unknown Sponsor"; missing conditions, interventions and cities become empty lists; the URL ends with the id |
| Loader.InsertSorted | lib/loadClinicalTrialsData.ts:52 | inserting into a strictly sorted list keeps it strictly sorted and adds exactly the one element |
| Loader.StrictlySortedUnique | lib/loadClinicalTrialsData.ts:52 | a set has only one strictly sorted listing |
| Loader.LoadTrials | lib/loadClinicalTrialsData.ts:14-53 | the loop returns the mapped kept rows, and statuses that are strictly sorted and exactly the non-empty statuses of the kept rows |

## Left out

- Reading and parsing `data/ctg-studies.json` (I/O): the loader takes the parsed rows as input.
- HTTP plumbing and the Next.js framework: a response is a status with a message or with `total` and `results`. An uncaught exception is answered with status 500, which is the framework's behaviour.
- React rendering, the `fetch` call and its loading state, and the `useEffect` re-fetch: the handlers return the body they would post, and the table's `Request` gives the body its effect posts.
- Unicode: `toLowerCase` and the `normalizeTerm` regex are modelled on ASCII letters, and lengths count characters, not UTF-16 code units. `trim` uses the ECMAScript white-space and line-terminator set. `Text.Less` orders strings by code point, while JavaScript's `<` compares UTF-16 code units; the two differ between a character above U+FFFF and one in U+E000–U+FFFF, so `Ranking.Before` can order such sort values differently.
- `new Date(...)` parsing: dates are compared as strings, which matches the date order only when both the date and the filter are full `YYYY-MM-DD` dates with four-digit years. Dates of reduced precision differ: `new Date("2021-05")` and `new Date("2021-05-01")` are the same time, so a trial dated "2021-05" passes the bound `>= "2021-05-01"` in the source, while `CompareDates` puts "2021-05" first and rejects it.
- Matching.CompareDates: does not model a filter or a date that `Date` cannot parse, which makes every comparison false.
- Ranking.SortValue: a `Date` value or a non-string field is never a sort key here (every sort key is a string field), so those branches of `normalize` are left out.
- Loader.InterventionNames: an intervention without a name becomes "". That is how `join` renders it in the haystack, but the trial record itself would hold `undefined`.
- The table's sort key `id` (allowed by its type) is never passed to `handleSort` by any column, so the table's key is one of the five valid keys.
- The body's fields are assumed to have the declared JSON types: `null` values, non-integer page numbers and non-string phrases are not modelled.
- The built synonym map's lists are modelled as duplicate-free lists of the right elements in some order, not in the exact `Set` insertion order. The response does not depend on that order (`SearchApi.HandleIgnoresListOrder`).

## Findings

| source | as written | input that shows it | evidently intended | confidence | as-written member | corrected member |
|---|---|---|---|---|---|---|
| lib/synonymUtils.ts:33 | `synonymMap[normalized] \|\| []` on a plain object also finds inherited properties; for "constructor" it finds `Object`, a function, and the spread on line 34 throws a TypeError. The dead `expandedFilters` loop (pages/api/search.ts:56-57) expands every phrase whatever `synonymExpansion` says, so the handler fails | a POST body `{"filters": ["constructor"]}` (or the query "Constructor") | look up only the map's own keys, so that "constructor" expands to itself | high (not executed) | SearchApi.HandleAsWritten | Synonyms.NormalizeAndExpandQueryTerm |
