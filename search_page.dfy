/**
 * The search page (pages/search.tsx): the comma-split query, the two option
 * switches and the request body `fetchResults` sends.
 */
module SearchPage {
  import opened Wrappers
  import opened Text
  import opened SearchApi

  // ---------------------------------------------------------------- the query

  /** A slice of a comma-free string is comma-free. */
  lemma TrimKeepsCommaFree(s: string)
    requires ',' !in s
    ensures ',' !in Trim(s)
  {
    TrimIsSlice(s);
    var i := |s| - |TrimStart(s)|;
    forall k | 0 <= k < |Trim(s)| ensures Trim(s)[k] != ',' {
      assert Trim(s)[k] == s[i + k];
    }
  }

  /** `.map((w) => w.trim())` */
  function TrimAll(parts: seq<string>): seq<string>
  {
    seq(|parts|, k requires 0 <= k < |parts| => Trim(parts[k]))
  }

  /** The positions of the non-empty strings, in increasing order. */
  function NonEmptyIndices(ws: seq<string>): (r: seq<nat>)
    ensures forall k :: 0 <= k < |r| ==> r[k] < |ws| && ws[r[k]] != ""
    ensures forall k, l :: 0 <= k < l < |r| ==> r[k] < r[l]
    ensures forall j :: 0 <= j < |ws| && ws[j] != "" ==> j in r
  {
    if ws == [] then []
    else
      var init, last := ws[..|ws| - 1], |ws| - 1;
      var r0 := NonEmptyIndices(init);
      var tail: seq<nat> := if ws[last] != "" then [last] else [];
      assert forall j :: 0 <= j < last ==> ws[j] == init[j];
      assert forall k :: 0 <= k < |r0| ==> r0[k] < last;
      assert forall x :: x in r0 + tail <==> x in r0 || x in tail;
      r0 + tail
  }

  /** `.filter(Boolean)`: the k-th result is the k-th non-empty string. */
  function DropEmpty(ws: seq<string>): (r: seq<string>)
    ensures |r| == |NonEmptyIndices(ws)|
    ensures forall k :: 0 <= k < |r| ==> r[k] == ws[NonEmptyIndices(ws)[k]]
  {
    if ws == [] then []
    else
      var init, last := ws[..|ws| - 1], ws[|ws| - 1];
      assert forall j :: 0 <= j < |init| ==> ws[j] == init[j];
      if last != "" then DropEmpty(init) + [last] else DropEmpty(init)
  }

  /**
   * `query.split(',').map((w) => w.trim()).filter(Boolean)` after the split:
   * the k-th phrase is the trimmed k-th piece that is not blank, so the
   * phrases are the trimmed pieces in order with the blank ones dropped;
   * none is empty or has outer white space, and none has a comma when no
   * piece has one.
   */
  function TrimmedPieces(parts: seq<string>): (r: seq<string>)
    ensures var idx := NonEmptyIndices(TrimAll(parts));
      |r| == |idx| && forall k :: 0 <= k < |r| ==> idx[k] < |parts| && r[k] == Trim(parts[idx[k]])
    ensures forall k :: 0 <= k < |r| ==> r[k] != "" && IsTrimmed(r[k])
    ensures (forall j :: 0 <= j < |parts| ==> ',' !in parts[j]) ==> forall k :: 0 <= k < |r| ==> ',' !in r[k]
  {
    PiecesFollowParts(parts);
    PiecesAreTrimmed(parts);
    PiecesAreCommaFree(parts);
    DropEmpty(TrimAll(parts))
  }

  /** The k-th kept piece is the trimmed piece at the k-th position that is not blank. */
  lemma PiecesFollowParts(parts: seq<string>)
    ensures var idx, r := NonEmptyIndices(TrimAll(parts)), DropEmpty(TrimAll(parts));
      |r| == |idx| && forall k :: 0 <= k < |r| ==> idx[k] < |parts| && r[k] == Trim(parts[idx[k]])
  {
    var ws := TrimAll(parts);
    var idx, r := NonEmptyIndices(ws), DropEmpty(ws);
    forall k | 0 <= k < |r| ensures idx[k] < |parts| && r[k] == Trim(parts[idx[k]]) {
      assert r[k] == ws[idx[k]];
    }
  }

  lemma PiecesAreTrimmed(parts: seq<string>)
    ensures var r := DropEmpty(TrimAll(parts)); forall k :: 0 <= k < |r| ==> r[k] != "" && IsTrimmed(r[k])
  {
    var ws := TrimAll(parts);
    var r := DropEmpty(ws);
    forall k | 0 <= k < |r| ensures IsTrimmed(r[k]) {
      TrimIsTrimmed(parts[NonEmptyIndices(ws)[k]]);
    }
  }

  lemma PiecesAreCommaFree(parts: seq<string>)
    ensures (forall j :: 0 <= j < |parts| ==> ',' !in parts[j]) ==>
      var r := DropEmpty(TrimAll(parts)); forall k :: 0 <= k < |r| ==> ',' !in r[k]
  {
    if forall j :: 0 <= j < |parts| ==> ',' !in parts[j] {
      var ws := TrimAll(parts);
      var r := DropEmpty(ws);
      forall k | 0 <= k < |r| ensures ',' !in r[k] {
        TrimKeepsCommaFree(parts[NonEmptyIndices(ws)[k]]);
      }
    }
  }

  /** The `filters` field of the request body. */
  function QueryFilters(query: string): seq<string>
  {
    if Includes(query, ",") then TrimmedPieces(Split(query, ',')) else [Trim(query)]
  }

  /** `s.includes(c)` for a one-character string is membership. */
  lemma IncludesChar(s: string, c: char)
    ensures Includes(s, [c]) <==> c in s
  {
    if c in s {
      var i :| 0 <= i < |s| && s[i] == c;
      assert OccursAt([c], s, i);
    }
    if Includes(s, [c]) {
      var i :| OccursAt([c], s, i);
      assert s[i] == c;
    }
  }

  /** A query without a comma is sent as one phrase, the trimmed query, which may be empty. */
  lemma QueryWithoutComma(query: string)
    requires ',' !in query
    ensures QueryFilters(query) == [Trim(query)]
  {
    IncludesChar(query, ',');
  }

  /**
   * A query with a comma is sent as the pieces between its commas, trimmed,
   * in order, with the blank ones dropped: the k-th phrase is the trimmed
   * k-th non-blank piece, and every non-blank piece is sent.
   */
  lemma QueryWithComma(query: string)
    requires ',' in query
    ensures QueryFilters(query) == TrimmedPieces(Split(query, ','))
    ensures var parts, r := Split(query, ','), QueryFilters(query);
      var idx := NonEmptyIndices(TrimAll(parts));
      && |r| == |idx|
      && (forall k :: 0 <= k < |r| ==> idx[k] < |parts| && r[k] == Trim(parts[idx[k]]))
      && (forall k, l :: 0 <= k < l < |r| ==> idx[k] < idx[l])
      && (forall j :: 0 <= j < |parts| && Trim(parts[j]) != "" ==> j in idx)
    ensures forall k :: 0 <= k < |QueryFilters(query)| ==>
      var w := QueryFilters(query)[k]; w != "" && IsTrimmed(w) && ',' !in w
  {
    IncludesChar(query, ',');
  }

  /** `.filter(Boolean)` keeps a list of non-empty strings as it is. */
  lemma {:induction false} DropEmptyOfNonEmpty(ws: seq<string>)
    requires forall k :: 0 <= k < |ws| ==> ws[k] != ""
    ensures DropEmpty(ws) == ws
  {
    if ws != [] {
      var init, last := ws[..|ws| - 1], ws[|ws| - 1];
      DropEmptyOfNonEmpty(init);
      assert DropEmpty(ws) == DropEmpty(init) + [last];
      assert ws == init + [last];
    }
  }

  /** Pieces that are already non-empty and trimmed are sent unchanged. */
  lemma TrimmedPiecesOfClean(ps: seq<string>)
    requires forall k :: 0 <= k < |ps| ==> ps[k] != "" && IsTrimmed(ps[k])
    ensures TrimmedPieces(ps) == ps
  {
    forall k | 0 <= k < |ps| ensures TrimAll(ps)[k] == ps[k] {
      TrimOfTrimmed(ps[k]);
    }
    assert TrimAll(ps) == ps;
    DropEmptyOfNonEmpty(ps);
  }

  /**
   * Round trip: phrases that are non-empty, trimmed and comma-free, typed
   * separated by commas, are sent back as exactly those phrases.
   */
  lemma QueryRoundTrip(ps: seq<string>)
    requires |ps| >= 1
    requires forall k :: 0 <= k < |ps| ==> ps[k] != "" && IsTrimmed(ps[k]) && ',' !in ps[k]
    ensures QueryFilters(Join(ps, ",")) == ps
  {
    var q := Join(ps, ",");
    if |ps| == 1 {
      assert q == ps[0];
      QueryWithoutComma(q);
      TrimOfTrimmed(ps[0]);
    } else {
      assert q == ps[0] + "," + Join(ps[1..], ",");
      assert q[|ps[0]|] == ',';
      assert Includes(q, ",") by { IncludesChar(q, ','); }
      assert QueryFilters(q) == TrimmedPieces(Split(q, ','));
      assert Split(q, ',') == ps by { SplitJoin(ps, ','); }
      TrimmedPiecesOfClean(ps);
    }
  }

  /** An empty or blank query is sent as the one phrase "", which every record contains. */
  lemma BlankQuery(query: string)
    requires forall k :: 0 <= k < |query| ==> IsWhiteSpace(query[k])
    ensures QueryFilters(query) == [""]
  {
    forall k | 0 <= k < |query| ensures query[k] != ',' {
      assert IsWhiteSpace(query[k]);
    }
    QueryWithoutComma(query);
    var t := TrimStart(query);
    assert t == query[|query| - |t|..];
    assert t == [];
  }

  // ---------------------------------------------------------------- the switches

  datatype Flag = MatchAll | SynonymExpansion

  /** The `filters` state: the two switches. */
  datatype Flags = Flags(matchAll: bool, synonymExpansion: bool)

  /** `DEFAULT_FILTERS` */
  const DEFAULT_FILTERS := Flags(false, false)

  function Get(f: Flags, key: Flag): bool
  {
    match key
    case MatchAll => f.matchAll
    case SynonymExpansion => f.synonymExpansion
  }

  /** `{ ...prev, [key]: !prev[key] }` */
  function Toggled(prev: Flags, key: Flag): (r: Flags)
    ensures Get(r, key) == !Get(prev, key)
    ensures forall other :: other != key ==> Get(r, other) == Get(prev, other)
  {
    match key
    case MatchAll => prev.(matchAll := !prev.matchAll)
    case SynonymExpansion => prev.(synonymExpansion := !prev.synonymExpansion)
  }

  /** Toggling the same switch twice restores the flags. */
  lemma ToggleTwice(f: Flags, key: Flag)
    ensures Toggled(Toggled(f, key), key) == f
  {
  }

  // ---------------------------------------------------------------- the request body

  /** The `extraFilters` spread into the body. */
  datatype Extra =
    | Toggles(flags: Flags)
    | TableFilters(titleFilter: string, sponsorFilter: string, statusFilter: string,
                   startDateMin: string, endDateMax: string)

  /**
   * The body `fetchResults` posts. The table's `startDateMin` and `endDateMax`
   * are fields the handler never reads, so they do not reach it.
   */
  function FetchBody(query: string, page: int, sortBy: string, sortDir: string, extra: Extra): (b: RawBody)
    ensures b.filters == Some(QueryFilters(query)) && b.page == Some(page)
    ensures b.sortBy == Some(sortBy) && b.sortDir == Some(sortDir)
    ensures b.startDateFilter.None? && b.endDateFilter.None?
  {
    match extra
    case Toggles(f) =>
      RawBody(Some(QueryFilters(query)), Some(f.matchAll), Some(f.synonymExpansion), Some(page), Some(sortBy), Some(sortDir),
              None, None, None, None, None, None, None)
    case TableFilters(title, sponsor, status, _, _) =>
      RawBody(Some(QueryFilters(query)), None, None, Some(page), Some(sortBy), Some(sortDir),
              Some(title), Some(sponsor), Some(status), None, None, None, None)
  }

  /** The page's state and its event handlers; the network call is the returned body. */
  class Page {
    var query: string
    var filters: Flags

    constructor()
      ensures query == "" && filters == DEFAULT_FILTERS
    {
      query := "";
      filters := DEFAULT_FILTERS;
    }

    /** The input's `onChange`. */
    method SetQuery(q: string)
      modifies this
      ensures query == q && filters == old(filters)
    {
      query := q;
    }

    /** `handleToggle(key)`: flip one switch; refetch page 1 by start date only when the query is not blank. */
    method HandleToggle(key: Flag) returns (request: Option<RawBody>)
      modifies this
      ensures filters == Toggled(old(filters), key) && query == old(query)
      ensures request.Some? <==> Trim(query) != ""
      ensures request.Some? ==> request.value == FetchBody(query, 1, "startDate", "asc", Toggles(filters))
    {
      var newFilters := Toggled(filters, key);
      if Trim(query) != "" {
        request := Some(FetchBody(query, 1, "startDate", "asc", Toggles(newFilters)));
      } else {
        request := None;
      }
      filters := newFilters;
    }

    /** The form's `onSubmit`: always page 1, by start date, ascending, with the current switches. */
    method Submit() returns (request: RawBody)
      ensures request.page == Some(1) && request.sortBy == Some("startDate") && request.sortDir == Some("asc")
      ensures request.filters == Some(QueryFilters(query))
      ensures request.matchAll == Some(filters.matchAll) && request.synonymExpansion == Some(filters.synonymExpansion)
    {
      request := FetchBody(query, 1, "startDate", "asc", Toggles(filters));
    }
  }

  /** A submitted search never hits the sort-key check and shows the first page in start-date order. */
  lemma SubmitIsAnswered(query: string, f: Flags, allTrials: seq<Trials.ClinicalTrial>, synonymMap: map<string, seq<string>>)
    ensures var body := FetchBody(query, 1, "startDate", "asc", Toggles(f));
      var sorted := Ranking.SortTrials(Matching.FilterTrials(allTrials, WithDefaults(body), synonymMap), Ranking.StartDate, true);
      Handle("POST", body, allTrials, synonymMap) == Ok(|sorted|, sorted[..Min(PAGE_SIZE, |sorted|)])
  {
    var req := WithDefaults(FetchBody(query, 1, "startDate", "asc", Toggles(f)));
    PageContents(Ranking.SortTrials(Matching.FilterTrials(allTrials, req, synonymMap), Ranking.StartDate, true), 1);
  }
}
