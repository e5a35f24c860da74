/**
 * The row-mapping loop of `loadClinicalTrialsData`
 * (lib/loadClinicalTrialsData.ts:14-53): rows without an id or a title are
 * skipped, the others become trials with their defaults, and the truthy
 * statuses of the kept rows are collected and sorted. Reading and parsing the
 * file is not modelled: the parsed rows are the input.
 */
module Loader {
  import opened Wrappers
  import opened Text
  import opened Trials

  /** The fields of one parsed study the loader reads; each may be missing. */
  datatype Row = Row(
    nctId: Option<string>,
    briefTitle: Option<string>,
    overallStatus: Option<string>,
    conditions: Option<seq<string>>,
    interventionNames: Option<seq<Option<string>>>,
    leadSponsorName: Option<string>,
    phases: Option<seq<string>>,
    locationCities: Option<seq<Option<string>>>,
    startDate: Option<string>,
    endDate: Option<string>)

  const STUDY_URL_PREFIX: string := "https://clinicaltrials.gov/study/"
  const UNKNOWN_SPONSOR: string := "Unknown Sponsor"

  /** A present, non-empty string: JavaScript truthiness of a string field. */
  predicate Truthy(o: Option<string>)
  {
    o.Some? && o.value != ""
  }

  /** `!nctId || !title` does not hold: the row is kept. */
  predicate Kept(row: Row)
  {
    Truthy(row.nctId) && Truthy(row.briefTitle)
  }

  /** The positions of the present, non-empty cities, in increasing order. */
  function CityIndices(cities: seq<Option<string>>): (r: seq<nat>)
    ensures forall k :: 0 <= k < |r| ==> r[k] < |cities| && Truthy(cities[r[k]])
    ensures forall k, l :: 0 <= k < l < |r| ==> r[k] < r[l]
    ensures forall i :: 0 <= i < |cities| && Truthy(cities[i]) ==> i in r
  {
    if cities == [] then []
    else
      var init, last := cities[..|cities| - 1], |cities| - 1;
      var r0 := CityIndices(init);
      var tail: seq<nat> := if Truthy(cities[last]) then [last] else [];
      assert forall i :: 0 <= i < last ==> cities[i] == init[i];
      assert forall k :: 0 <= k < |r0| ==> r0[k] < last;
      assert forall x :: x in r0 + tail <==> x in r0 || x in tail;
      r0 + tail
  }

  /**
   * `.map((l) => l.city).filter(Boolean)`: the k-th city kept is the k-th
   * present, non-empty one, so the order and repeats of the locations stay.
   */
  function Cities(cities: seq<Option<string>>): (r: seq<string>)
    ensures |r| == |CityIndices(cities)|
    ensures forall k :: 0 <= k < |r| ==> Some(r[k]) == cities[CityIndices(cities)[k]]
    ensures forall c :: c in r <==> c != "" && Some(c) in cities
  {
    if cities == [] then []
    else
      var init, last := cities[..|cities| - 1], cities[|cities| - 1];
      var rest := Cities(init);
      assert forall i :: 0 <= i < |init| ==> cities[i] == init[i];
      assert forall c :: Some(c) in cities <==> Some(c) in init || Some(c) == last;
      if Truthy(last) then rest + [last.value] else rest
  }

  /** `.map((i) => i.name)`, a missing name as "" (which is how `join` renders it). */
  function InterventionNames(names: seq<Option<string>>): (r: seq<string>)
  {
    seq(|names|, k requires 0 <= k < |names| => names[k].GetOr(""))
  }

  /** The object pushed for a kept row. */
  function ToTrial(row: Row): (t: ClinicalTrial)
  {
    var id := row.nctId.GetOr("");
    ClinicalTrial(
      id,
      Some(STUDY_URL_PREFIX + id),
      row.briefTitle.GetOr(""),
      row.conditions.GetOr([]),
      if row.interventionNames.Some? then InterventionNames(row.interventionNames.value) else [],
      row.leadSponsorName.GetOr(UNKNOWN_SPONSOR),
      if row.phases.Some? && |row.phases.value| > 0 then Some(row.phases.value[0]) else None,
      row.overallStatus,
      Some(if row.locationCities.Some? then Cities(row.locationCities.value) else []),
      row.startDate,
      row.endDate)
  }

  /** The `trials` array after the loop over `rows`. */
  function LoadedTrials(rows: seq<Row>): seq<ClinicalTrial>
  {
    if rows == [] then []
    else
      var init, last := rows[..|rows| - 1], rows[|rows| - 1];
      LoadedTrials(init) + (if Kept(last) then [ToTrial(last)] else [])
  }

  /** The positions of the kept rows, in increasing order. */
  function KeptIndices(rows: seq<Row>): (r: seq<nat>)
    ensures forall k :: 0 <= k < |r| ==> r[k] < |rows| && Kept(rows[r[k]])
    ensures forall k, l :: 0 <= k < l < |r| ==> r[k] < r[l]
    ensures forall i :: 0 <= i < |rows| && Kept(rows[i]) ==> i in r
  {
    if rows == [] then []
    else
      var init, last := rows[..|rows| - 1], |rows| - 1;
      var r0 := KeptIndices(init);
      var tail: seq<nat> := if Kept(rows[last]) then [last] else [];
      assert forall i :: 0 <= i < last ==> rows[i] == init[i];
      assert forall k :: 0 <= k < |r0| ==> r0[k] < last;
      assert forall x :: x in r0 + tail <==> x in r0 || x in tail;
      r0 + tail
  }

  /**
   * The loaded trials are the kept rows, mapped, in row order: the k-th trial
   * comes from the k-th kept row.
   */
  lemma {:induction false} LoadedTrialsFollowRows(rows: seq<Row>)
    ensures |LoadedTrials(rows)| == |KeptIndices(rows)|
    ensures forall k :: 0 <= k < |LoadedTrials(rows)| ==>
      LoadedTrials(rows)[k] == ToTrial(rows[KeptIndices(rows)[k]])
  {
    if rows != [] {
      var init, last := rows[..|rows| - 1], rows[|rows| - 1];
      LoadedTrialsFollowRows(init);
      var trials, kept := LoadedTrials(init), KeptIndices(init);
      var tail: seq<ClinicalTrial> := if Kept(last) then [ToTrial(last)] else [];
      var keptTail: seq<nat> := if Kept(last) then [|rows| - 1] else [];
      assert LoadedTrials(rows) == trials + tail;
      assert KeptIndices(rows) == kept + keptTail;
      forall k | 0 <= k < |LoadedTrials(rows)|
        ensures LoadedTrials(rows)[k] == ToTrial(rows[KeptIndices(rows)[k]])
      {
        if k < |trials| {
          assert rows[kept[k]] == init[kept[k]];
        }
      }
    }
  }

  /**
   * Every loaded trial has a non-empty id and title, a study URL built from
   * its id, and only non-empty location cities.
   */
  lemma LoadedTrialsWellFormed(rows: seq<Row>)
    ensures forall t :: t in LoadedTrials(rows) ==>
      && t.id != "" && t.title != ""
      && t.url == Some(STUDY_URL_PREFIX + t.id)
      && t.locations.Some? && (forall c :: c in t.locations.value ==> c != "")
  {
    LoadedTrialsFollowRows(rows);
    forall t | t in LoadedTrials(rows)
      ensures t.id != "" && t.title != "" && t.url == Some(STUDY_URL_PREFIX + t.id)
      ensures t.locations.Some? && (forall c :: c in t.locations.value ==> c != "")
    {
      var k :| 0 <= k < |LoadedTrials(rows)| && LoadedTrials(rows)[k] == t;
      assert Kept(rows[KeptIndices(rows)[k]]);
    }
  }

  /** The defaults of a kept row's missing fields. */
  lemma ToTrialDefaults(row: Row)
    ensures row.leadSponsorName.None? ==> ToTrial(row).sponsor == UNKNOWN_SPONSOR
    ensures row.leadSponsorName.Some? ==> ToTrial(row).sponsor == row.leadSponsorName.value
    ensures row.conditions.None? ==> ToTrial(row).conditions == []
    ensures row.interventionNames.None? ==> ToTrial(row).interventions == []
    ensures row.locationCities.None? ==> ToTrial(row).locations == Some([])
    ensures ToTrial(row).url.value[|STUDY_URL_PREFIX|..] == ToTrial(row).id
  {
  }

  // ---------------------------------------------------------------- statuses

  /** `row` is kept and has the truthy status `s`. */
  predicate KeptWithStatus(row: Row, s: string)
  {
    Kept(row) && row.overallStatus == Some(s) && s != ""
  }

  ghost predicate KeptStatus(rows: seq<Row>, s: string)
  {
    exists i :: 0 <= i < |rows| && KeptWithStatus(rows[i], s)
  }

  /** In strictly increasing string order, hence without duplicates. */
  predicate StrictlySorted(xs: seq<string>)
  {
    forall i, j :: 0 <= i < j < |xs| ==> Less(xs[i], xs[j])
  }

  /** `x` put into its place in a sorted list, unless already there. */
  function InsertSorted(x: string, xs: seq<string>): (r: seq<string>)
    requires StrictlySorted(xs)
    ensures StrictlySorted(r)
    ensures forall y :: y in r <==> y in xs || y == x
  {
    if xs == [] then [x]
    else if x == xs[0] then xs
    else if Less(x, xs[0]) then
      assert forall j :: 0 < j < |xs| ==> Less(x, xs[j]) by {
        forall j | 0 < j < |xs| ensures Less(x, xs[j]) { LessTransitive(x, xs[0], xs[j]); }
      }
      [x] + xs
    else
      LessTotal(x, xs[0]);
      var rest := InsertSorted(x, xs[1..]);
      assert forall y :: y in rest ==> Less(xs[0], y) by {
        forall y | y in rest ensures Less(xs[0], y) {
          if y != x {
            var j :| 0 <= j < |xs[1..]| && xs[1..][j] == y;
            assert xs[j + 1] == y;
          }
        }
      }
      assert forall y :: y in xs <==> y == xs[0] || y in xs[1..];
      [xs[0]] + rest
  }

  /** Two strictly sorted lists with the same elements are equal: the sorted status list is determined by the set. */
  lemma {:induction false} StrictlySortedUnique(a: seq<string>, b: seq<string>)
    requires StrictlySorted(a) && StrictlySorted(b)
    requires forall y :: y in a <==> y in b
    ensures a == b
    decreases |a|
  {
    if a != [] && b != [] {
      assert a[0] in b && b[0] in a;
      var i :| 0 <= i < |a| && a[i] == b[0];
      var j :| 0 <= j < |b| && b[j] == a[0];
      assert i == 0 || Less(a[0], b[0]);
      assert j == 0 || Less(b[0], a[0]);
      LessAntisymmetric(a[0], b[0]);
      forall y ensures y in a[1..] <==> y in b[1..] {
        if y in a[1..] {
          var k :| 0 <= k < |a[1..]| && a[1..][k] == y;
          assert Less(a[0], a[k + 1]);
          LessIrreflexive(y);
        }
        if y in b[1..] {
          var k :| 0 <= k < |b[1..]| && b[1..][k] == y;
          assert Less(b[0], b[k + 1]);
          LessIrreflexive(y);
        }
        assert forall z :: z in a <==> z == a[0] || z in a[1..];
        assert forall z :: z in b <==> z == b[0] || z in b[1..];
      }
      StrictlySortedUnique(a[1..], b[1..]);
      assert a == [a[0]] + a[1..] && b == [b[0]] + b[1..];
    } else {
      NonEmptyHasElement(a);
      NonEmptyHasElement(b);
    }
  }

  lemma NonEmptyHasElement(a: seq<string>)
    ensures a != [] ==> a[0] in a
  {
  }

  /** `loadClinicalTrialsData` on the parsed rows. */
  method LoadTrials(rows: seq<Row>) returns (trials: seq<ClinicalTrial>, statuses: seq<string>)
    ensures trials == LoadedTrials(rows)
    ensures StrictlySorted(statuses)
    ensures forall s :: s in statuses <==> KeptStatus(rows, s)
  {
    trials := [];
    var statusSet: seq<string> := [];
    for k := 0 to |rows|
      invariant trials == LoadedTrials(rows[..k])
      invariant forall s :: s in statusSet <==> KeptStatus(rows[..k], s)
    {
      var row := rows[k];
      assert rows[..k + 1][..k] == rows[..k];
      assert forall s :: KeptStatus(rows[..k + 1], s) <==> KeptStatus(rows[..k], s) || KeptWithStatus(row, s) by {
        forall s ensures KeptStatus(rows[..k + 1], s) <==> KeptStatus(rows[..k], s) || KeptWithStatus(row, s) {
          if KeptStatus(rows[..k + 1], s) {
            var i :| 0 <= i < k + 1 && KeptWithStatus(rows[..k + 1][i], s);
            if i < k { assert rows[..k][i] == rows[i]; }
          }
          if KeptStatus(rows[..k], s) {
            var i :| 0 <= i < k && KeptWithStatus(rows[..k][i], s);
            assert rows[..k + 1][i] == rows[i];
          }
          if KeptWithStatus(row, s) {
            assert rows[..k + 1][k] == row;
          }
        }
      }
      if !Truthy(row.nctId) || !Truthy(row.briefTitle) {
        continue;
      }
      var status := row.overallStatus;
      if Truthy(status) && status.value !in statusSet {
        statusSet := statusSet + [status.value];
      }
      trials := trials + [ToTrial(row)];
    }
    assert rows[..|rows|] == rows;
    statuses := [];
    for k := 0 to |statusSet|
      invariant StrictlySorted(statuses)
      invariant forall s :: s in statuses <==> s in statusSet[..k]
    {
      assert forall s :: s in statusSet[..k + 1] <==> s in statusSet[..k] || s == statusSet[k] by {
        assert statusSet[..k + 1] == statusSet[..k] + [statusSet[k]];
      }
      statuses := InsertSorted(statusSet[k], statuses);
    }
    assert statusSet[..|statusSet|] == statusSet;
  }
}
