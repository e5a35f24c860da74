/**
 * The per-record filter of the search handler (pages/api/search.ts:68-104)
 * and `compareDates` (pages/api/search.ts:130-137).
 */
module Matching {
  import opened Wrappers
  import opened Text
  import opened Trials
  import opened Synonyms
  import Ranking

  /** The request body after the handler's destructuring defaults. */
  datatype Request = Request(
    filters: seq<string>,
    matchAll: bool,
    synonymExpansion: bool,
    page: int,
    sortBy: string,
    sortDir: string,
    titleFilter: string,
    sponsorFilter: string,
    statusFilter: string,
    startDateFilter: string,
    startComparison: string,
    endDateFilter: string,
    endComparison: string)

  // ---------------------------------------------------------------- full text

  /** The lower-cased haystack: title, conditions, interventions and sponsor, space-joined. */
  function CombinedText(t: ClinicalTrial): string
  {
    Lower(Join([t.title, Join(t.conditions, " "), Join(t.interventions, " "), t.sponsor], " "))
  }

  /** The haystack, before lower-casing, spelled out. */
  lemma CombinedTextShape(t: ClinicalTrial)
    ensures CombinedText(t) ==
      Lower(t.title + " " + (Join(t.conditions, " ") + " " + (Join(t.interventions, " ") + " " + t.sponsor)))
  {
    var c, i := Join(t.conditions, " "), Join(t.interventions, " ");
    assert [t.title, c, i, t.sponsor][1..] == [c, i, t.sponsor];
    assert [c, i, t.sponsor][1..] == [i, t.sponsor];
    assert [i, t.sponsor][1..] == [t.sponsor];
    assert Join([i, t.sponsor], " ") == i + " " + t.sponsor;
    assert Join([c, i, t.sponsor], " ") == c + " " + (i + " " + t.sponsor);
  }

  /** Both halves of a concatenation, lower-cased, occur in the lower-cased whole. */
  lemma LowerIncludesParts(a: string, b: string)
    ensures Includes(Lower(a + b), Lower(a)) && Includes(Lower(a + b), Lower(b))
  {
    LowerAppend(a, b);
    IncludesParts(Lower(a), Lower(b));
  }

  /** The title and the sponsor, lower-cased, both occur in the haystack. */
  lemma TitleAndSponsorInCombinedText(t: ClinicalTrial)
    ensures Includes(CombinedText(t), Lower(t.title))
    ensures Includes(CombinedText(t), Lower(t.sponsor))
  {
    var c, i := Join(t.conditions, " "), Join(t.interventions, " ");
    var last := i + " " + t.sponsor;
    var tail := c + " " + last;
    CombinedTextShape(t);
    LowerIncludesParts(t.title + " ", tail);
    LowerIncludesParts(t.title, " ");
    IncludesTransitive(CombinedText(t), Lower(t.title + " "), Lower(t.title));
    LowerIncludesParts(c + " ", last);
    LowerIncludesParts(i + " ", t.sponsor);
    IncludesTransitive(CombinedText(t), Lower(tail), Lower(last));
    IncludesTransitive(CombinedText(t), Lower(last), Lower(t.sponsor));
  }

  function LowerAll(xs: seq<string>): (r: seq<string>)
    ensures |r| == |xs| && forall i :: 0 <= i < |xs| ==> r[i] == Lower(xs[i])
  {
    seq(|xs|, i requires 0 <= i < |xs| => Lower(xs[i]))
  }

  /**
   * The candidate terms of one phrase: with synonym expansion, the normalized
   * phrase and the terms the map lists under it (the raw phrase is not among
   * them); without, the lower-cased phrase alone.
   */
  function Candidates(phrase: string, synonymExpansion: bool, synonymMap: map<string, seq<string>>): seq<string>
  {
    if synonymExpansion then LowerAll(NormalizeAndExpandQueryTerm(phrase, synonymMap)) else [Lower(phrase)]
  }

  /** `terms.some((term) => hay.includes(term))` */
  function SomeIncluded(hay: string, terms: seq<string>): (b: bool)
    ensures b <==> exists i :: 0 <= i < |terms| && Includes(hay, terms[i])
  {
    if terms == [] then false
    else Includes(hay, terms[0]) || SomeIncluded(hay, terms[1..])
  }

  predicate PhraseMatches(hay: string, phrase: string, synonymExpansion: bool, synonymMap: map<string, seq<string>>)
  {
    SomeIncluded(hay, Candidates(phrase, synonymExpansion, synonymMap))
  }

  /** `filters.every(...)` */
  function EveryPhrase(hay: string, phrases: seq<string>, synonymExpansion: bool, synonymMap: map<string, seq<string>>): (b: bool)
    ensures b <==> forall i :: 0 <= i < |phrases| ==> PhraseMatches(hay, phrases[i], synonymExpansion, synonymMap)
  {
    if phrases == [] then true
    else PhraseMatches(hay, phrases[0], synonymExpansion, synonymMap) && EveryPhrase(hay, phrases[1..], synonymExpansion, synonymMap)
  }

  /** `filters.some(...)` */
  function SomePhrase(hay: string, phrases: seq<string>, synonymExpansion: bool, synonymMap: map<string, seq<string>>): (b: bool)
    ensures b <==> exists i :: 0 <= i < |phrases| && PhraseMatches(hay, phrases[i], synonymExpansion, synonymMap)
  {
    if phrases == [] then false
    else PhraseMatches(hay, phrases[0], synonymExpansion, synonymMap) || SomePhrase(hay, phrases[1..], synonymExpansion, synonymMap)
  }

  /** `matchesFullText` */
  predicate MatchesFullText(hay: string, filters: seq<string>, matchAll: bool, synonymExpansion: bool, synonymMap: map<string, seq<string>>)
  {
    |filters| == 0 ||
    (if matchAll then EveryPhrase(hay, filters, synonymExpansion, synonymMap)
     else SomePhrase(hay, filters, synonymExpansion, synonymMap))
  }

  // ---------------------------------------------------------------- structured filters

  /** `compareDates`: a missing or empty date fails; an unknown operator passes. */
  predicate CompareDates(actual: Option<string>, filter: string, operator: string)
  {
    if actual.None? || actual.value == "" then false
    else if operator == ">=" then !Less(actual.value, filter)
    else if operator == "<=" then !Less(filter, actual.value)
    else true
  }

  predicate MatchesTitle(t: ClinicalTrial, titleFilter: string)
  {
    titleFilter == "" || Includes(Lower(t.title), Lower(titleFilter))
  }

  predicate MatchesSponsor(t: ClinicalTrial, sponsorFilter: string)
  {
    sponsorFilter == "" || Includes(Lower(t.sponsor), Lower(sponsorFilter))
  }

  predicate MatchesStatus(t: ClinicalTrial, statusFilter: string)
  {
    statusFilter == "" || t.status == Some(statusFilter)
  }

  predicate MatchesStart(t: ClinicalTrial, req: Request)
  {
    req.startDateFilter == "" || CompareDates(t.startDate, req.startDateFilter, req.startComparison)
  }

  predicate MatchesEnd(t: ClinicalTrial, req: Request)
  {
    req.endDateFilter == "" || CompareDates(t.endDate, req.endDateFilter, req.endComparison)
  }

  /** The filter callback: the conjunction of the six predicates. */
  predicate Matches(t: ClinicalTrial, req: Request, synonymMap: map<string, seq<string>>)
  {
    && MatchesFullText(CombinedText(t), req.filters, req.matchAll, req.synonymExpansion, synonymMap)
    && MatchesTitle(t, req.titleFilter)
    && MatchesSponsor(t, req.sponsorFilter)
    && MatchesStatus(t, req.statusFilter)
    && MatchesStart(t, req)
    && MatchesEnd(t, req)
  }

  /** A missing or empty date never passes a date bound; an operator other than ">=" and "<=" lets any present date pass. */
  lemma DateBoundEdges(actual: Option<string>, filter: string, operator: string)
    ensures actual.None? || actual == Some("") ==> !CompareDates(actual, filter, operator)
    ensures actual.Some? && actual.value != "" && operator != ">=" && operator != "<=" ==> CompareDates(actual, filter, operator)
  {
  }

  /** A ">=" bound passes every later date once it passes a date; a "<=" bound every earlier non-empty one. */
  lemma DateBoundMonotone(a: string, b: string, filter: string)
    requires a != "" && b != "" && Less(a, b)
    ensures CompareDates(Some(a), filter, ">=") ==> CompareDates(Some(b), filter, ">=")
    ensures CompareDates(Some(b), filter, "<=") ==> CompareDates(Some(a), filter, "<=")
  {
    if Less(b, filter) {
      LessTransitive(a, b, filter);
    }
    if Less(filter, a) {
      LessTransitive(filter, a, b);
    }
  }

  /** A ">=" and a "<=" bound on the same date both pass exactly at that date. */
  lemma DateBoundsMeet(actual: string, filter: string)
    requires actual != ""
    ensures CompareDates(Some(actual), filter, ">=") && CompareDates(Some(actual), filter, "<=") <==> actual == filter
  {
    LessIrreflexive(actual);
    if actual != filter {
      LessTotal(actual, filter);
    }
  }

  // ---------------------------------------------------------------- allTrials.filter(...)

  /** `sub` is `s` with some elements left out, the rest in their original order. */
  ghost predicate IsSubsequence<T>(sub: seq<T>, s: seq<T>)
    decreases |s|
  {
    if sub == [] then true
    else if s == [] then false
    else (sub[0] == s[0] && IsSubsequence(sub[1..], s[1..])) || IsSubsequence(sub, s[1..])
  }

  /** `filter` keeps the elements in their order. */
  lemma {:induction false} FilterSubsequence<T>(s: seq<T>, keep: T -> bool)
    ensures IsSubsequence(Ranking.Filter(s, keep), s)
    ensures |Ranking.Filter(s, keep)| <= |s|
  {
    if s != [] {
      var r, rest := Ranking.Filter(s, keep), Ranking.Filter(s[1..], keep);
      FilterSubsequence(s[1..], keep);
      if keep(s[0]) {
        assert r == [s[0]] + rest;
        assert r[0] == s[0] && r[1..] == rest;
      } else {
        assert r == rest;
      }
    }
  }

  /** `filter` keeps each passing element as often as it occurs and drops every other. */
  lemma {:induction false} FilterCounts<T>(s: seq<T>, keep: T -> bool)
    ensures forall x :: multiset(Ranking.Filter(s, keep))[x] == if keep(x) then multiset(s)[x] else 0
  {
    if s != [] {
      var r, rest := Ranking.Filter(s, keep), Ranking.Filter(s[1..], keep);
      FilterCounts(s[1..], keep);
      assert s == [s[0]] + s[1..];
      assert multiset(s) == multiset{s[0]} + multiset(s[1..]);
      if keep(s[0]) {
        assert r == [s[0]] + rest;
        assert multiset(r) == multiset{s[0]} + multiset(rest);
      } else {
        assert r == rest;
      }
    }
  }

  /**
   * `filter` keeps exactly the elements that pass, in their order, each as
   * often as it occurs.
   */
  lemma FilterMeaning<T>(s: seq<T>, keep: T -> bool)
    ensures IsSubsequence(Ranking.Filter(s, keep), s)
    ensures forall i :: 0 <= i < |Ranking.Filter(s, keep)| ==> keep(Ranking.Filter(s, keep)[i])
    ensures forall i :: 0 <= i < |s| && keep(s[i]) ==> s[i] in Ranking.Filter(s, keep)
    ensures forall x :: multiset(Ranking.Filter(s, keep))[x] == if keep(x) then multiset(s)[x] else 0
    ensures |Ranking.Filter(s, keep)| <= |s|
  {
    var r := Ranking.Filter(s, keep);
    FilterSubsequence(s, keep);
    FilterCounts(s, keep);
    forall i | 0 <= i < |r| ensures keep(r[i]) {
      assert r[i] in multiset(r);
    }
    forall i | 0 <= i < |s| && keep(s[i]) ensures s[i] in r {
      assert s[i] in multiset(s);
      assert s[i] in multiset(r);
    }
  }

  /** A weaker test keeps at least as many elements. */
  lemma {:induction false} FilterMonotone<T>(s: seq<T>, keep1: T -> bool, keep2: T -> bool)
    requires forall x :: keep1(x) ==> keep2(x)
    ensures |Ranking.Filter(s, keep1)| <= |Ranking.Filter(s, keep2)|
  {
    if s != [] {
      FilterMonotone(s[1..], keep1, keep2);
    }
  }

  /** Tests that agree on every element keep the same list. */
  lemma {:induction false} FilterExtensional<T>(s: seq<T>, keep1: T -> bool, keep2: T -> bool)
    requires forall x :: keep1(x) == keep2(x)
    ensures Ranking.Filter(s, keep1) == Ranking.Filter(s, keep2)
  {
    if s != [] {
      FilterExtensional(s[1..], keep1, keep2);
    }
  }

  /** A test every element passes keeps the whole list. */
  lemma {:induction false} FilterKeepsAll<T>(s: seq<T>, keep: T -> bool)
    requires forall x :: keep(x)
    ensures Ranking.Filter(s, keep) == s
  {
    if s != [] {
      FilterKeepsAll(s[1..], keep);
      assert s == [s[0]] + s[1..];
    }
  }

  /** The filter callback as the test `allTrials.filter` applies. */
  function MatchesWith(req: Request, synonymMap: map<string, seq<string>>): ClinicalTrial -> bool
  {
    t => Matches(t, req, synonymMap)
  }

  /**
   * `allTrials.filter(...)`: the trials that match, in their original order,
   * and no other; a matching trial that occurs several times is kept as
   * often as it occurs.
   */
  function FilterTrials(trials: seq<ClinicalTrial>, req: Request, synonymMap: map<string, seq<string>>): (r: seq<ClinicalTrial>)
    ensures IsSubsequence(r, trials)
    ensures forall i :: 0 <= i < |r| ==> Matches(r[i], req, synonymMap)
    ensures forall i :: 0 <= i < |trials| && Matches(trials[i], req, synonymMap) ==> trials[i] in r
    ensures forall x :: multiset(r)[x] == if Matches(x, req, synonymMap) then multiset(trials)[x] else 0
    ensures |r| <= |trials|
  {
    FilterMeaning(trials, MatchesWith(req, synonymMap));
    Ranking.Filter(trials, MatchesWith(req, synonymMap))
  }

  // ---------------------------------------------------------------- full-text properties

  /** With no phrase every record passes; with ALL every phrase, with ANY some phrase must match. */
  lemma FullTextMeaning(hay: string, filters: seq<string>, matchAll: bool, synonymExpansion: bool, synonymMap: map<string, seq<string>>)
    ensures |filters| == 0 ==> MatchesFullText(hay, filters, matchAll, synonymExpansion, synonymMap)
    ensures |filters| > 0 && matchAll ==>
      (MatchesFullText(hay, filters, matchAll, synonymExpansion, synonymMap) <==>
       forall i :: 0 <= i < |filters| ==> PhraseMatches(hay, filters[i], synonymExpansion, synonymMap))
    ensures |filters| > 0 && !matchAll ==>
      (MatchesFullText(hay, filters, matchAll, synonymExpansion, synonymMap) <==>
       exists i :: 0 <= i < |filters| && PhraseMatches(hay, filters[i], synonymExpansion, synonymMap))
  {
  }

  /** A phrase matches when one of its candidates occurs in the haystack. */
  lemma PhraseMeaning(hay: string, phrase: string, synonymExpansion: bool, synonymMap: map<string, seq<string>>)
    ensures !synonymExpansion ==> (PhraseMatches(hay, phrase, synonymExpansion, synonymMap) <==> Includes(hay, Lower(phrase)))
    ensures synonymExpansion ==> (PhraseMatches(hay, phrase, synonymExpansion, synonymMap) <==>
      exists c :: c in NormalizeAndExpandQueryTerm(phrase, synonymMap) && Includes(hay, Lower(c)))
  {
    if synonymExpansion {
      var xs := NormalizeAndExpandQueryTerm(phrase, synonymMap);
      if PhraseMatches(hay, phrase, synonymExpansion, synonymMap) {
        var i :| 0 <= i < |xs| && Includes(hay, LowerAll(xs)[i]);
        assert xs[i] in xs;
      }
      if c :| c in xs && Includes(hay, Lower(c)) {
        var i :| 0 <= i < |xs| && xs[i] == c;
        assert Includes(hay, LowerAll(xs)[i]);
      }
    }
  }

  /**
   * With the map built from `table` and expansion on, a phrase matches exactly
   * when its normalized form, or a term declared with it in one line of the
   * table, occurs in the haystack.
   */
  lemma SynonymPhraseMeaning(table: Table, synonymMap: map<string, seq<string>>, hay: string, phrase: string)
    requires Represents(synonymMap, table)
    ensures PhraseMatches(hay, phrase, true, synonymMap) <==>
      Includes(hay, NormalizeTerm(phrase)) ||
      exists c :: Synonymous(table, NormalizeTerm(phrase), c) && Includes(hay, c)
  {
    PhraseMeaning(hay, phrase, true, synonymMap);
    var n := NormalizeTerm(phrase);
    NormalizedIsLowered(n);
    forall c | c in NormalizeAndExpandQueryTerm(phrase, synonymMap)
      ensures Lower(c) == c && (c == n || Synonymous(table, n, c))
    {
      ExpansionNormalized(table, synonymMap, phrase, c);
      NormalizedIsLowered(c);
      ExpansionMeaning(table, synonymMap, phrase, c);
    }
    forall c | Synonymous(table, n, c) ensures c in NormalizeAndExpandQueryTerm(phrase, synonymMap) {
      ExpansionMeaning(table, synonymMap, phrase, c);
    }
  }

  /**
   * With expansion on, the raw lower-cased phrase is not a candidate: "a b"
   * occurs in the haystack "a b", but its normalized form "ab" does not.
   */
  lemma ExpansionDropsRawPhrase()
    ensures PhraseMatches("a b", "a b", false, map[])
    ensures !PhraseMatches("a b", "a b", true, map[])
  {
    assert Lower("a b") == "a b";
    assert OccursAt("a b", "a b", 0);
    assert NormalizeTerm("a b") == "ab" by {
      assert "a b"[1..] == " b" && " b"[1..] == "b" && "b"[1..] == [];
    }
    assert !Includes("a b", "ab") by {
      forall i ensures !OccursAt("ab", "a b", i) {
        if 0 <= i <= 3 {
          assert i == 0 || i == 1 || i == 2 || i == 3;
        }
      }
    }
    assert Lower("ab") == "ab";
  }

  /** Under ALL, a phrase added to the list never adds a match. */
  lemma AllModeAddedPhrase(hay: string, filters: seq<string>, phrase: string, synonymExpansion: bool, synonymMap: map<string, seq<string>>)
    ensures MatchesFullText(hay, filters + [phrase], true, synonymExpansion, synonymMap) ==>
      MatchesFullText(hay, filters, true, synonymExpansion, synonymMap)
  {
    var g := filters + [phrase];
    assert forall i :: 0 <= i < |filters| ==> filters[i] == g[i];
  }

  /** Under ANY, a phrase added to a non-empty list never removes a match. */
  lemma AnyModeAddedPhrase(hay: string, filters: seq<string>, phrase: string, synonymExpansion: bool, synonymMap: map<string, seq<string>>)
    requires |filters| > 0
    ensures MatchesFullText(hay, filters, false, synonymExpansion, synonymMap) ==>
      MatchesFullText(hay, filters + [phrase], false, synonymExpansion, synonymMap)
  {
    var g := filters + [phrase];
    if MatchesFullText(hay, filters, false, synonymExpansion, synonymMap) {
      var i :| 0 <= i < |filters| && PhraseMatches(hay, filters[i], synonymExpansion, synonymMap);
      assert g[i] == filters[i];
    }
  }

  /** Under ANY, the first phrase can remove matches: an empty list passes every record. */
  lemma AnyModeFirstPhrase(synonymMap: map<string, seq<string>>)
    ensures MatchesFullText("", [], false, false, synonymMap)
    ensures !MatchesFullText("", [] + ["x"], false, false, synonymMap)
  {
    assert !OccursAt("x", "", 0);
  }

  /** The empty phrase, which the page sends for an empty query, matches every record. */
  lemma EmptyPhraseMatchesAll(hay: string, matchAll: bool, synonymExpansion: bool, synonymMap: map<string, seq<string>>)
    ensures MatchesFullText(hay, [""], matchAll, synonymExpansion, synonymMap)
  {
    IncludesEmpty(hay);
    assert NormalizeTerm("") == "";
    assert Candidates("", synonymExpansion, synonymMap)[0] == "";
  }
}
