/**
 * The POST /api/search handler (pages/api/search.ts:12-122): method and
 * sort-key checks, the destructuring defaults, filtering, the stable sort and
 * the page of ten.
 */
module SearchApi {
  import opened Wrappers
  import opened Text
  import opened Trials
  import opened Synonyms
  import opened Matching
  import opened Ranking
  import Loader

  /** The JSON body as sent: every field may be absent. */
  datatype RawBody = RawBody(
    filters: Option<seq<string>>,
    matchAll: Option<bool>,
    synonymExpansion: Option<bool>,
    page: Option<int>,
    sortBy: Option<string>,
    sortDir: Option<string>,
    titleFilter: Option<string>,
    sponsorFilter: Option<string>,
    statusFilter: Option<string>,
    startDateFilter: Option<string>,
    startComparison: Option<string>,
    endDateFilter: Option<string>,
    endComparison: Option<string>)

  const EMPTY_BODY := RawBody(None, None, None, None, None, None, None, None, None, None, None, None, None)

  datatype Response =
    | Error(status: int, message: string)
    | Ok(total: nat, results: seq<ClinicalTrial>)

  const PAGE_SIZE: nat := 10

  /** The destructuring defaults of the request body. */
  function WithDefaults(b: RawBody): (r: Request)
  {
    Request(
      b.filters.GetOr([]), b.matchAll.GetOr(false), b.synonymExpansion.GetOr(false),
      b.page.GetOr(1), b.sortBy.GetOr("startDate"), b.sortDir.GetOr("asc"),
      b.titleFilter.GetOr(""), b.sponsorFilter.GetOr(""), b.statusFilter.GetOr(""),
      b.startDateFilter.GetOr(""), b.startComparison.GetOr(">="),
      b.endDateFilter.GetOr(""), b.endComparison.GetOr("<="))
  }

  // ---------------------------------------------------------------- Array.prototype.slice

  /** A `slice` argument made absolute: negative counts from the end, then clamped to the length. */
  function RelativeIndex(k: int, len: nat): (r: nat)
    ensures r <= len
    ensures 0 <= k <= len ==> r == k
    ensures k > len ==> r == len
    ensures k < 0 ==> r == if len + k < 0 then 0 else len + k
  {
    if k < 0 then (if len + k < 0 then 0 else len + k)
    else if k > len then len
    else k
  }

  /** `xs.slice(start, end)` */
  function Slice<T>(xs: seq<T>, start: int, end: int): (r: seq<T>)
    ensures |r| <= |xs|
  {
    var from := RelativeIndex(start, |xs|);
    var to := RelativeIndex(end, |xs|);
    if from < to then xs[from..to] else []
  }

  /** `filtered.slice((page - 1) * pageSize, (page - 1) * pageSize + pageSize)` */
  function PageOf<T>(xs: seq<T>, page: int): seq<T>
  {
    var startIdx := (page - 1) * PAGE_SIZE;
    Slice(xs, startIdx, startIdx + PAGE_SIZE)
  }

  /** A page holds at most ten elements, all taken from the list. */
  lemma PageBounds<T>(xs: seq<T>, page: int)
    ensures |PageOf(xs, page)| <= PAGE_SIZE
    ensures forall i :: 0 <= i < |PageOf(xs, page)| ==> PageOf(xs, page)[i] in xs
  {
  }

  function Min(a: int, b: int): int { if a < b then a else b }

  /** Page `p` (from 1) holds the elements at positions 10(p-1) up to 10p, as far as the list goes. */
  lemma PageContents<T>(xs: seq<T>, page: int)
    requires page >= 1
    ensures PageOf(xs, page) == xs[Min((page - 1) * PAGE_SIZE, |xs|)..Min(page * PAGE_SIZE, |xs|)]
  {
  }

  /** A page is empty exactly when it starts at or past the end, or its number is 0. */
  lemma PageEmpty<T>(xs: seq<T>, page: int)
    ensures page >= 1 ==> (PageOf(xs, page) == [] <==> (page - 1) * PAGE_SIZE >= |xs|)
    ensures page == 0 ==> PageOf(xs, page) == []
  {
  }

  /** A negative page number counts from the end: page -1 is the ten before the last ten. */
  lemma NegativePageFromEnd<T>(xs: seq<T>, page: int)
    requires page < 0 && |xs| + (page - 1) * PAGE_SIZE >= 0
    ensures PageOf(xs, page) == xs[|xs| + (page - 1) * PAGE_SIZE..|xs| + page * PAGE_SIZE]
  {
  }

  /** The pages 1 to `k`, one after the other. */
  function FirstPages<T>(xs: seq<T>, k: nat): seq<T>
  {
    if k == 0 then [] else FirstPages(xs, k - 1) + PageOf(xs, k)
  }

  lemma {:induction false} FirstPagesPrefix<T>(xs: seq<T>, k: nat)
    ensures FirstPages(xs, k) == xs[..Min(k * PAGE_SIZE, |xs|)]
  {
    if k > 0 {
      FirstPagesPrefix(xs, k - 1);
      PageContents(xs, k);
      assert xs[..Min((k - 1) * PAGE_SIZE, |xs|)] + xs[Min((k - 1) * PAGE_SIZE, |xs|)..Min(k * PAGE_SIZE, |xs|)]
        == xs[..Min(k * PAGE_SIZE, |xs|)];
    }
  }

  /** `ceil(n / 10)`: the number of non-empty pages. */
  function PageCount(n: nat): (r: nat)
    ensures r * PAGE_SIZE >= n && (r == 0 || (r - 1) * PAGE_SIZE < n)
  {
    (n + PAGE_SIZE - 1) / PAGE_SIZE
  }

  /** Reading the pages 1 to ceil(n/10) in turn gives back the whole list, each element once. */
  lemma PagesCoverList<T>(xs: seq<T>)
    ensures FirstPages(xs, PageCount(|xs|)) == xs
    ensures forall p :: p > PageCount(|xs|) ==> PageOf(xs, p) == []
  {
    FirstPagesPrefix(xs, PageCount(|xs|));
    forall p | p > PageCount(|xs|) ensures PageOf(xs, p) == [] {
      PageEmpty(xs, p);
    }
  }

  /** A contiguous piece of a sorted list is sorted. */
  lemma PageSorted(xs: seq<ClinicalTrial>, page: int, key: SortKey, ascending: bool)
    requires Sorted(xs, key, ascending)
    ensures Sorted(PageOf(xs, page), key, ascending)
  {
    var p := PageOf(xs, page);
    var startIdx := (page - 1) * PAGE_SIZE;
    var from := RelativeIndex(startIdx, |xs|);
    if from < RelativeIndex(startIdx + PAGE_SIZE, |xs|) {
      forall i, j | 0 <= i < j < |p| ensures !Before(p[j], p[i], key, ascending) {
        assert p[i] == xs[from + i] && p[j] == xs[from + j];
      }
    }
  }

  // ---------------------------------------------------------------- the handler

  /** The handler once the body has its defaults: sort-key check, filter, sort, page. */
  function Respond(req: Request, allTrials: seq<ClinicalTrial>, synonymMap: map<string, seq<string>>): Response
  {
    match ParseSortKey(req.sortBy)
    case None => Error(400, "Invalid sortBy key: " + req.sortBy)
    case Some(key) =>
      var filtered := SortTrials(FilterTrials(allTrials, req, synonymMap), key, req.sortDir == "asc");
      Ok(|filtered|, PageOf(filtered, req.page))
  }

  /** `handler(req, res)`, with the trials and the synonym map passed in. */
  function Handle(httpMethod: string, body: RawBody, allTrials: seq<ClinicalTrial>, synonymMap: map<string, seq<string>>): Response
  {
    if httpMethod != "POST" then Error(405, "Method not allowed")
    else Respond(WithDefaults(body), allTrials, synonymMap)
  }

  /** The two error responses, and exactly when each is sent. */
  lemma HandleErrors(httpMethod: string, body: RawBody, allTrials: seq<ClinicalTrial>, synonymMap: map<string, seq<string>>)
    ensures var r := Handle(httpMethod, body, allTrials, synonymMap);
      && (httpMethod != "POST" ==> r == Error(405, "Method not allowed"))
      && (httpMethod == "POST" && WithDefaults(body).sortBy !in VALID_SORT_KEYS ==>
            r == Error(400, "Invalid sortBy key: " + WithDefaults(body).sortBy))
      && (r.Ok? <==> httpMethod == "POST" && WithDefaults(body).sortBy in VALID_SORT_KEYS)
  {
  }

  lemma {:induction false} SubsequenceMembers<T>(sub: seq<T>, s: seq<T>)
    requires IsSubsequence(sub, s)
    ensures forall x :: x in sub ==> x in s
    decreases |s|
  {
    if sub != [] && s != [] {
      if sub[0] == s[0] && IsSubsequence(sub[1..], s[1..]) {
        SubsequenceMembers(sub[1..], s[1..]);
        forall x | x in sub ensures x in s {
          if x != sub[0] { assert x in sub[1..]; }
        }
      } else {
        SubsequenceMembers(sub, s[1..]);
      }
    }
  }

  /**
   * A successful response: the total counts every matching trial, the page
   * holds at most ten of them, each one from the data set and matching, in
   * the requested order.
   */
  lemma RespondOk(req: Request, allTrials: seq<ClinicalTrial>, synonymMap: map<string, seq<string>>)
    requires req.sortBy in VALID_SORT_KEYS
    ensures var r := Respond(req, allTrials, synonymMap);
      && r.Ok?
      && r.total == |FilterTrials(allTrials, req, synonymMap)|
      && (forall t :: t in allTrials && Matches(t, req, synonymMap) ==> t in multiset(FilterTrials(allTrials, req, synonymMap)))
      && |r.results| <= PAGE_SIZE
      && (forall i :: 0 <= i < |r.results| ==> r.results[i] in allTrials && Matches(r.results[i], req, synonymMap))
      && Sorted(r.results, ParseSortKey(req.sortBy).value, req.sortDir == "asc")
  {
    var key := ParseSortKey(req.sortBy).value;
    var filtered := FilterTrials(allTrials, req, synonymMap);
    var sorted := SortTrials(filtered, key, req.sortDir == "asc");
    var r := Respond(req, allTrials, synonymMap);
    SubsequenceMembers(filtered, allTrials);
    PageBounds(sorted, req.page);
    forall i | 0 <= i < |r.results| ensures r.results[i] in allTrials && Matches(r.results[i], req, synonymMap) {
      assert r.results[i] in multiset(sorted);
      assert r.results[i] in filtered;
    }
    forall t | t in allTrials && Matches(t, req, synonymMap) ensures t in multiset(filtered) {
      var i :| 0 <= i < |allTrials| && allTrials[i] == t;
    }
    SortIsSorted(filtered, key, req.sortDir == "asc");
    PageSorted(sorted, req.page, key, req.sortDir == "asc");
  }

  /**
   * The page shown is page `req.page` of the stable order: any ordering of
   * the matching trials that is sorted and keeps ties in data-set order
   * gives the same page.
   */
  lemma RespondPage(req: Request, allTrials: seq<ClinicalTrial>, synonymMap: map<string, seq<string>>, order: seq<ClinicalTrial>)
    requires req.sortBy in VALID_SORT_KEYS
    requires Sorted(order, ParseSortKey(req.sortBy).value, req.sortDir == "asc")
    requires StableFrom(order, FilterTrials(allTrials, req, synonymMap), ParseSortKey(req.sortBy).value)
    ensures Respond(req, allTrials, synonymMap) == Ok(|order|, PageOf(order, req.page))
  {
    SortIsTheStableSort(FilterTrials(allTrials, req, synonymMap), order, ParseSortKey(req.sortBy).value, req.sortDir == "asc");
  }

  /** An empty body: every trial matches, ordered by start date ascending, first ten shown. */
  lemma EmptyBodyFirstPage(allTrials: seq<ClinicalTrial>, synonymMap: map<string, seq<string>>)
    ensures Handle("POST", EMPTY_BODY, allTrials, synonymMap) ==
      Ok(|allTrials|, SortTrials(allTrials, StartDate, true)[..Min(PAGE_SIZE, |allTrials|)])
  {
    var req := WithDefaults(EMPTY_BODY);
    assert req == DEFAULT_REQUEST;
    forall t ensures Matches(t, DEFAULT_REQUEST, synonymMap) {
      DefaultRequestMatches(t, synonymMap);
    }
    FilterAll(allTrials, DEFAULT_REQUEST, synonymMap);
    PageContents(SortTrials(allTrials, StartDate, true), 1);
  }

  const DEFAULT_REQUEST := Request([], false, false, 1, "startDate", "asc", "", "", "", "", ">=", "", "<=")

  lemma DefaultRequestMatches(t: ClinicalTrial, synonymMap: map<string, seq<string>>)
    ensures Matches(t, DEFAULT_REQUEST, synonymMap)
  {
  }

  lemma FilterAll(trials: seq<ClinicalTrial>, req: Request, synonymMap: map<string, seq<string>>)
    requires forall t :: Matches(t, req, synonymMap)
    ensures FilterTrials(trials, req, synonymMap) == trials
  {
    FilterKeepsAll(trials, MatchesWith(req, synonymMap));
  }

  // ---------------------------------------------------------------- counts

  lemma FilterCountMonotone(trials: seq<ClinicalTrial>, req1: Request, sm1: map<string, seq<string>>, req2: Request, sm2: map<string, seq<string>>)
    requires forall t :: Matches(t, req1, sm1) ==> Matches(t, req2, sm2)
    ensures |FilterTrials(trials, req1, sm1)| <= |FilterTrials(trials, req2, sm2)|
  {
    FilterMonotone(trials, MatchesWith(req1, sm1), MatchesWith(req2, sm2));
  }

  lemma FilterSame(trials: seq<ClinicalTrial>, req1: Request, sm1: map<string, seq<string>>, req2: Request, sm2: map<string, seq<string>>)
    requires forall t :: Matches(t, req1, sm1) == Matches(t, req2, sm2)
    ensures FilterTrials(trials, req1, sm1) == FilterTrials(trials, req2, sm2)
  {
    FilterExtensional(trials, MatchesWith(req1, sm1), MatchesWith(req2, sm2));
  }

  /** The total does not depend on the page number or the sort order. */
  lemma TotalIgnoresPaging(req: Request, page: int, sortBy: string, sortDir: string, allTrials: seq<ClinicalTrial>, synonymMap: map<string, seq<string>>)
    requires req.sortBy in VALID_SORT_KEYS && sortBy in VALID_SORT_KEYS
    ensures Respond(req, allTrials, synonymMap).total ==
      Respond(req.(page := page, sortBy := sortBy, sortDir := sortDir), allTrials, synonymMap).total
  {
    var req2 := req.(page := page, sortBy := sortBy, sortDir := sortDir);
    FilterSame(allTrials, req, synonymMap, req2, synonymMap);
  }

  /** Under ALL, one more phrase never raises the total. */
  lemma AllModeNarrows(req: Request, phrase: string, allTrials: seq<ClinicalTrial>, synonymMap: map<string, seq<string>>)
    requires req.sortBy in VALID_SORT_KEYS && req.matchAll
    ensures Respond(req.(filters := req.filters + [phrase]), allTrials, synonymMap).total <=
      Respond(req, allTrials, synonymMap).total
  {
    var req2 := req.(filters := req.filters + [phrase]);
    forall t | Matches(t, req2, synonymMap) ensures Matches(t, req, synonymMap) {
      AllModeAddedPhrase(CombinedText(t), req.filters, phrase, req.synonymExpansion, synonymMap);
    }
    FilterCountMonotone(allTrials, req2, synonymMap, req, synonymMap);
  }

  /** Under ANY, one more phrase never lowers the total once there is a phrase. */
  lemma AnyModeWidens(req: Request, phrase: string, allTrials: seq<ClinicalTrial>, synonymMap: map<string, seq<string>>)
    requires req.sortBy in VALID_SORT_KEYS && !req.matchAll && |req.filters| > 0
    ensures Respond(req, allTrials, synonymMap).total <=
      Respond(req.(filters := req.filters + [phrase]), allTrials, synonymMap).total
  {
    var req2 := req.(filters := req.filters + [phrase]);
    forall t | Matches(t, req, synonymMap) ensures Matches(t, req2, synonymMap) {
      AnyModeAddedPhrase(CombinedText(t), req.filters, phrase, req.synonymExpansion, synonymMap);
    }
    FilterCountMonotone(allTrials, req, synonymMap, req2, synonymMap);
  }

  /**
   * The response does not depend on the order of the lists in the synonym
   * map: any two maps built from the same table give the same answer.
   */
  lemma HandleIgnoresListOrder(table: Table, sm1: map<string, seq<string>>, sm2: map<string, seq<string>>,
                               httpMethod: string, body: RawBody, allTrials: seq<ClinicalTrial>)
    requires Represents(sm1, table) && Represents(sm2, table)
    ensures Handle(httpMethod, body, allTrials, sm1) == Handle(httpMethod, body, allTrials, sm2)
  {
    var req := WithDefaults(body);
    forall t ensures Matches(t, req, sm1) == Matches(t, req, sm2) {
      var hay := CombinedText(t);
      forall p ensures PhraseMatches(hay, p, req.synonymExpansion, sm1) == PhraseMatches(hay, p, req.synonymExpansion, sm2) {
        if req.synonymExpansion {
          SynonymPhraseMeaning(table, sm1, hay, p);
          SynonymPhraseMeaning(table, sm2, hay, p);
        }
      }
      assert EveryPhrase(hay, req.filters, req.synonymExpansion, sm1) == EveryPhrase(hay, req.filters, req.synonymExpansion, sm2);
      assert SomePhrase(hay, req.filters, req.synonymExpansion, sm1) == SomePhrase(hay, req.filters, req.synonymExpansion, sm2);
    }
    FilterSame(allTrials, req, sm1, req, sm2);
  }

  /**
   * The handler end to end: the trials loaded from the parsed rows, the map
   * built from the synonym table.
   */
  method Serve(table: Table, httpMethod: string, body: RawBody, rows: seq<Loader.Row>) returns (r: Response)
    ensures forall sm :: Represents(sm, table) ==> r == Handle(httpMethod, body, Loader.LoadedTrials(rows), sm)
  {
    if httpMethod != "POST" {
      return Error(405, "Method not allowed");
    }
    var allTrials, _ := Loader.LoadTrials(rows);
    var req := WithDefaults(body);
    if ParseSortKey(req.sortBy).None? {
      return Error(400, "Invalid sortBy key: " + req.sortBy);
    }
    var synonymMap := BuildNormalizedSynonymMap(table);
    r := Respond(req, allTrials, synonymMap);
    forall sm | Represents(sm, table) ensures r == Handle(httpMethod, body, allTrials, sm) {
      HandleIgnoresListOrder(table, synonymMap, sm, httpMethod, body, allTrials);
    }
  }

  // ---------------------------------------------------------------- as written

  /** Some phrase normalizes to "constructor", which the map lacks as an own key. */
  predicate HitsConstructor(filters: seq<string>, synonymMap: map<string, seq<string>>)
  {
    "constructor" !in synonymMap && exists i :: 0 <= i < |filters| && NormalizeTerm(filters[i]) == "constructor"
  }

  /** `w` is one of the variants the loop collects for `phrase`. */
  predicate IsVariant(w: string, phrase: string, synonymMap: map<string, seq<string>>)
  {
    w == Lower(phrase) || w in LowerAll(NormalizeAndExpandQueryTerm(phrase, synonymMap))
  }

  /** `set.add(w)`, the set kept as a list in insertion order. */
  function AddOnce(xs: seq<string>, w: string): (r: seq<string>)
    ensures forall x :: x in r <==> x in xs || x == w
    ensures Distinct(xs) ==> Distinct(r)
  {
    if w in xs then xs else xs + [w]
  }

  /** The `phraseVariants` set of one phrase: its lower-cased expansion, then the lower-cased phrase. */
  method PhraseVariants(phrase: string, terms: seq<string>) returns (phraseVariants: seq<string>)
    ensures Distinct(phraseVariants)
    ensures forall w :: w in phraseVariants <==> w == Lower(phrase) || w in LowerAll(terms)
  {
    ghost var lowered := LowerAll(terms);
    phraseVariants := [];
    for j := 0 to |terms|
      invariant Distinct(phraseVariants)
      invariant forall w :: w in phraseVariants <==> w in lowered[..j]
    {
      assert lowered[..j + 1] == lowered[..j] + [Lower(terms[j])];
      phraseVariants := AddOnce(phraseVariants, Lower(terms[j]));
    }
    assert lowered[..|terms|] == lowered;
    phraseVariants := AddOnce(phraseVariants, Lower(phrase));
  }

  /**
   * The `expandedFilters` loop as written (its result is never read): every
   * phrase is expanded whatever `synonymExpansion` says, so a phrase that
   * normalizes to "constructor" makes the expansion throw.
   */
  method ExpandFiltersAsWritten(filters: seq<string>, synonymMap: map<string, seq<string>>) returns (r: Result<seq<string>>)
    ensures r.Failure? <==> HitsConstructor(filters, synonymMap)
    ensures r.Success? ==> forall w :: w in r.value <==> exists i :: 0 <= i < |filters| && IsVariant(w, filters[i], synonymMap)
  {
    var expandedFilters: seq<string> := [];
    for k := 0 to |filters|
      invariant forall i :: 0 <= i < k ==> NormalizeTerm(filters[i]) != "constructor" || "constructor" in synonymMap
      invariant forall w :: w in expandedFilters <==> exists i :: 0 <= i < k && IsVariant(w, filters[i], synonymMap)
    {
      var phrase := filters[k];
      var expandedTerms := NormalizeAndExpandAsWritten(phrase, synonymMap);
      AsWrittenAgreesExceptConstructor(phrase, synonymMap);
      if expandedTerms.Failure? {
        return Failure(expandedTerms.error);
      }
      var phraseVariants := PhraseVariants(phrase, expandedTerms.value);
      assert forall w :: w in phraseVariants <==> IsVariant(w, phrase, synonymMap);
      expandedFilters := expandedFilters + phraseVariants;
    }
    return Success(expandedFilters);
  }

  /**
   * The handler as written: past the method and sort-key checks, the throw in
   * the expansion loop escapes and the framework answers 500.
   */
  method HandleAsWritten(table: Table, httpMethod: string, body: RawBody, rows: seq<Loader.Row>) returns (r: Response)
    ensures forall sm :: Represents(sm, table) ==>
      r == if httpMethod == "POST" && WithDefaults(body).sortBy in VALID_SORT_KEYS && HitsConstructor(WithDefaults(body).filters, sm)
           then Error(500, "Internal Server Error")
           else Handle(httpMethod, body, Loader.LoadedTrials(rows), sm)
  {
    if httpMethod != "POST" {
      return Error(405, "Method not allowed");
    }
    var allTrials, _ := Loader.LoadTrials(rows);
    var req := WithDefaults(body);
    if ParseSortKey(req.sortBy).None? {
      return Error(400, "Invalid sortBy key: " + req.sortBy);
    }
    var synonymMap := BuildNormalizedSynonymMap(table);
    var expanded := ExpandFiltersAsWritten(req.filters, synonymMap);
    if expanded.Failure? {
      r := Error(500, "Internal Server Error");
    } else {
      r := Respond(req, allTrials, synonymMap);
    }
    forall sm | Represents(sm, table)
      ensures r == if HitsConstructor(req.filters, sm) then Error(500, "Internal Server Error") else Handle(httpMethod, body, allTrials, sm)
    {
      assert ("constructor" in sm) == ("constructor" in synonymMap);
      HandleIgnoresListOrder(table, synonymMap, sm, httpMethod, body, allTrials);
    }
  }

  /** With the synonym table as it is, the phrase "constructor" alone is enough to crash the handler. */
  lemma ConstructorQueryCrashes(sm: map<string, seq<string>>)
    requires Represents(sm, SYNONYM_TABLE)
    ensures HitsConstructor(["constructor"], sm)
  {
    ConstructorNotInTable();
    ConstructorPhraseThrows(sm);
    assert ["constructor"][0] == "constructor";
  }
}
