/**
 * The results table (components/SearchResults.tsx): its page, sort and
 * column-filter state, `totalPages`, the previous/next/sort handlers, the
 * request each state change sends, and the truncated title shown in a row.
 */
module ResultsTable {
  import opened Wrappers
  import opened Trials
  import opened Ranking
  import opened SearchApi
  import opened SearchPage
  import Matching

  /** The table's own page size. */
  const UI_PAGE_SIZE: nat := 20

  datatype Direction = Asc | Desc

  function DirectionName(d: Direction): string
  {
    match d
    case Asc => "asc"
    case Desc => "desc"
  }

  function Flip(d: Direction): Direction
  {
    match d
    case Asc => Desc
    case Desc => Asc
  }

  /** The five column filters, by the state variable each popover sets. */
  datatype FilterField = TitleField | SponsorField | StatusField | StartDateMinField | EndDateMaxField

  function Max(a: int, b: int): int { if a < b then b else a }

  /** `Math.max(1, Math.ceil(totalCount / PAGE_SIZE))` */
  function TotalPages(totalCount: nat): (r: nat)
    ensures r >= 1
    ensures totalCount > 0 ==> (r - 1) * UI_PAGE_SIZE < totalCount <= r * UI_PAGE_SIZE
    ensures totalCount == 0 ==> r == 1
  {
    Max(1, (totalCount + UI_PAGE_SIZE - 1) / UI_PAGE_SIZE)
  }

  /** The title as a row shows it: over 80 characters, the first 77 and "...". */
  function DisplayTitle(title: string): (r: string)
    ensures |r| <= 80
    ensures |title| <= 80 ==> r == title
    ensures |title| > 80 ==> |r| == 80 && r[..77] == title[..77] && r[77..] == "..."
  {
    if |title| > 80 then title[..77] + "..." else title
  }

  class Table {
    var currentPage: int
    var sortKey: SortKey
    var sortDirection: Direction
    var titleFilter: string
    var sponsorFilter: string
    var statusFilter: string
    var startDateMin: string
    var endDateMax: string

    /** The filters are unchanged between two states. */
    twostate predicate FiltersUnchanged()
      reads this
    {
      && titleFilter == old(titleFilter) && sponsorFilter == old(sponsorFilter)
      && statusFilter == old(statusFilter) && startDateMin == old(startDateMin) && endDateMax == old(endDateMax)
    }

    /** The initial state: page 1, by start date ascending, no column filter. */
    constructor()
      ensures currentPage == 1 && sortKey == StartDate && sortDirection == Asc
      ensures titleFilter == "" && sponsorFilter == "" && statusFilter == ""
      ensures startDateMin == "" && endDateMax == ""
    {
      currentPage := 1;
      sortKey := StartDate;
      sortDirection := Asc;
      titleFilter := "";
      sponsorFilter := "";
      statusFilter := "";
      startDateMin := "";
      endDateMax := "";
    }

    /** `handlePrev`: one page back, never below 1. */
    method HandlePrev()
      modifies this
      ensures currentPage == Max(old(currentPage) - 1, 1)
      ensures currentPage >= 1
      ensures old(currentPage) > 1 ==> currentPage == old(currentPage) - 1
      ensures sortKey == old(sortKey) && sortDirection == old(sortDirection) && FiltersUnchanged()
    {
      currentPage := Max(currentPage - 1, 1);
    }

    /** `handleNext`: one page on, never past the last page. */
    method HandleNext(totalCount: nat)
      modifies this
      ensures currentPage == Min(old(currentPage) + 1, TotalPages(totalCount))
      ensures currentPage <= TotalPages(totalCount)
      ensures old(currentPage) < TotalPages(totalCount) ==> currentPage == old(currentPage) + 1
      ensures old(currentPage) >= 0 ==> currentPage >= 1
      ensures sortKey == old(sortKey) && sortDirection == old(sortDirection) && FiltersUnchanged()
    {
      currentPage := Min(currentPage + 1, TotalPages(totalCount));
    }

    /** `handleSort(key)`: the same column flips the direction, another column sorts ascending by it. */
    method HandleSort(key: SortKey)
      modifies this
      ensures sortKey == key
      ensures old(sortKey) == key ==> sortDirection == Flip(old(sortDirection))
      ensures old(sortKey) != key ==> sortDirection == Asc
      ensures currentPage == old(currentPage) && FiltersUnchanged()
    {
      if sortKey == key {
        sortDirection := Flip(sortDirection);
      } else {
        sortKey := key;
        sortDirection := Asc;
      }
    }

    /** A popover's `onApply`: set one filter; the page is kept. */
    method ApplyFilter(field: FilterField, value: string)
      modifies this
      ensures titleFilter == (if field == TitleField then value else old(titleFilter))
      ensures sponsorFilter == (if field == SponsorField then value else old(sponsorFilter))
      ensures statusFilter == (if field == StatusField then value else old(statusFilter))
      ensures startDateMin == (if field == StartDateMinField then value else old(startDateMin))
      ensures endDateMax == (if field == EndDateMaxField then value else old(endDateMax))
      ensures currentPage == old(currentPage) && sortKey == old(sortKey) && sortDirection == old(sortDirection)
    {
      match field
      case TitleField => titleFilter := value;
      case SponsorField => sponsorFilter := value;
      case StatusField => statusFilter := value;
      case StartDateMinField => startDateMin := value;
      case EndDateMaxField => endDateMax := value;
    }

    /** The body the effect posts for the current state, given the page's query. */
    function Request(query: string): RawBody
      reads this
    {
      TableBody(query, currentPage, sortKey, sortDirection,
                titleFilter, sponsorFilter, statusFilter, startDateMin, endDateMax)
    }
  }

  /**
   * The status popover offers the statuses of lib/statuses.ts and an empty
   * placeholder: each offered status is non-empty and distinct from the
   * others, so picking it keeps exactly the trials with that status, and the
   * placeholder keeps every trial.
   */
  lemma StatusOptionSelects(option: string, t: ClinicalTrial)
    requires option in STATUSES || option == ""
    ensures option in STATUSES ==> (Matching.MatchesStatus(t, option) <==> t.status == Some(option))
    ensures option == "" ==> Matching.MatchesStatus(t, option)
    ensures forall i, j :: 0 <= i < j < |STATUSES| ==> STATUSES[i] != STATUSES[j]
  {
  }

  /** The `fetchResults` call in the table's effect. */
  function TableBody(query: string, page: int, key: SortKey, dir: Direction,
                     titleFilter: string, sponsorFilter: string, statusFilter: string,
                     startDateMin: string, endDateMax: string): RawBody
  {
    FetchBody(query, page, KeyName(key), DirectionName(dir),
              TableFilters(titleFilter, sponsorFilter, statusFilter, startDateMin, endDateMax))
  }

  /**
   * What the handler makes of a table request: the sort key is always valid,
   * the direction is the table's, the column filters arrive, and the date
   * bounds and the two switches do not.
   */
  lemma TableRequestAsReceived(query: string, page: int, key: SortKey, dir: Direction,
                               titleFilter: string, sponsorFilter: string, statusFilter: string,
                               startDateMin: string, endDateMax: string)
    ensures var req := WithDefaults(TableBody(query, page, key, dir, titleFilter, sponsorFilter, statusFilter, startDateMin, endDateMax));
      && req.sortBy in VALID_SORT_KEYS && ParseSortKey(req.sortBy) == Some(key)
      && (req.sortDir == "asc" <==> dir == Asc)
      && req.page == page && req.filters == QueryFilters(query)
      && req.titleFilter == titleFilter && req.sponsorFilter == sponsorFilter && req.statusFilter == statusFilter
      && req.startDateFilter == "" && req.endDateFilter == ""
      && !req.matchAll && !req.synonymExpansion
  {
    ParseKeyName(key);
  }

  /** The table's date bounds change nothing in the response. */
  lemma DateBoundsIgnored(query: string, page: int, key: SortKey, dir: Direction,
                          titleFilter: string, sponsorFilter: string, statusFilter: string,
                          min1: string, max1: string, min2: string, max2: string,
                          allTrials: seq<ClinicalTrial>, synonymMap: map<string, seq<string>>)
    ensures Handle("POST", TableBody(query, page, key, dir, titleFilter, sponsorFilter, statusFilter, min1, max1), allTrials, synonymMap)
         == Handle("POST", TableBody(query, page, key, dir, titleFilter, sponsorFilter, statusFilter, min2, max2), allTrials, synonymMap)
  {
  }

  /**
   * The table counts pages of 20 while the handler serves pages of 10, so
   * paging from 1 to `totalPages` shows only the first 10 * `totalPages`
   * results: beyond ten results, some are never shown.
   */
  lemma UiPagingMissesResults<T>(xs: seq<T>)
    ensures |xs| <= PAGE_SIZE ==> FirstPages(xs, TotalPages(|xs|)) == xs
    ensures |xs| > PAGE_SIZE ==> |FirstPages(xs, TotalPages(|xs|))| == PAGE_SIZE * TotalPages(|xs|) < |xs|
  {
    var n := |xs|;
    var p := TotalPages(n);
    FirstPagesPrefix(xs, p);
    if n > PAGE_SIZE {
      assert p * UI_PAGE_SIZE < n + UI_PAGE_SIZE;
      assert 2 * (p * PAGE_SIZE) < n + UI_PAGE_SIZE;
    }
  }
}
