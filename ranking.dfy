/**
 * Sorting the filtered trials (pages/api/search.ts:7, 106-112, 124-128):
 * the five sort keys, the lower-cased sort value, and the stable sort that
 * `Array.prototype.sort` performs with the handler's comparator.
 */
module Ranking {
  import opened Wrappers
  import opened Text
  import opened Trials

  datatype SortKey = StartDate | EndDate | Title | Sponsor | Status

  /** `validSortKeys` */
  const VALID_SORT_KEYS: seq<string> := ["startDate", "endDate", "title", "sponsor", "status"]

  function KeyName(k: SortKey): string
  {
    match k
    case StartDate => "startDate"
    case EndDate => "endDate"
    case Title => "title"
    case Sponsor => "sponsor"
    case Status => "status"
  }

  /** `validSortKeys.includes(sortBy)`, returning the key it names. */
  function ParseSortKey(name: string): (r: Option<SortKey>)
    ensures r.Some? <==> name in VALID_SORT_KEYS
    ensures r.Some? ==> KeyName(r.value) == name
  {
    if name == "startDate" then Some(StartDate)
    else if name == "endDate" then Some(EndDate)
    else if name == "title" then Some(Title)
    else if name == "sponsor" then Some(Sponsor)
    else if name == "status" then Some(Status)
    else None
  }

  lemma ParseKeyName(k: SortKey)
    ensures ParseSortKey(KeyName(k)) == Some(k)
  {
  }

  /** `normalize(trial[key])`: the field lower-cased, a missing field as "". */
  function SortValue(t: ClinicalTrial, key: SortKey): string
  {
    match key
    case StartDate => Lower(t.startDate.GetOr(""))
    case EndDate => Lower(t.endDate.GetOr(""))
    case Title => Lower(t.title)
    case Sponsor => Lower(t.sponsor)
    case Status => Lower(t.status.GetOr(""))
  }

  /** The sort value is lower-cased, so the order ignores case; a missing field sorts as "", before any other value. */
  lemma SortValueMeaning(t: ClinicalTrial, key: SortKey, u: ClinicalTrial)
    ensures IsLowered(SortValue(t, key))
    ensures key == Status && t.status.None? ==> SortValue(t, key) == ""
    ensures key == StartDate && t.startDate.None? ==> SortValue(t, key) == ""
    ensures key == EndDate && t.endDate.None? ==> SortValue(t, key) == ""
    ensures SortValue(t, key) == "" && SortValue(u, key) != "" ==> Less(SortValue(t, key), SortValue(u, key))
  {
  }

  /** The comparator returns a negative number for `(a, b)`: `a` goes first. */
  predicate Before(a: ClinicalTrial, b: ClinicalTrial, key: SortKey, ascending: bool)
  {
    if ascending then Less(SortValue(a, key), SortValue(b, key))
    else Less(SortValue(b, key), SortValue(a, key))
  }

  /** Neither goes first: the comparator returns 0. */
  lemma NotBeforeEitherWay(a: ClinicalTrial, b: ClinicalTrial, key: SortKey, ascending: bool)
    requires !Before(a, b, key, ascending) && !Before(b, a, key, ascending)
    ensures SortValue(a, key) == SortValue(b, key)
  {
    if SortValue(a, key) != SortValue(b, key) {
      LessTotal(SortValue(a, key), SortValue(b, key));
    }
  }

  lemma BeforeAsymmetric(a: ClinicalTrial, b: ClinicalTrial, key: SortKey, ascending: bool)
    requires Before(a, b, key, ascending)
    ensures !Before(b, a, key, ascending) && SortValue(a, key) != SortValue(b, key)
  {
    if ascending {
      LessAsymmetric(SortValue(a, key), SortValue(b, key));
    } else {
      LessAsymmetric(SortValue(b, key), SortValue(a, key));
    }
    LessIrreflexive(SortValue(a, key));
  }

  /** "Not before" is transitive. */
  lemma NotBeforeTransitive(a: ClinicalTrial, b: ClinicalTrial, c: ClinicalTrial, key: SortKey, ascending: bool)
    requires !Before(b, a, key, ascending) && !Before(c, b, key, ascending)
    ensures !Before(c, a, key, ascending)
  {
    var va, vb, vc := SortValue(a, key), SortValue(b, key), SortValue(c, key);
    if va != vb { LessTotal(va, vb); }
    if vb != vc { LessTotal(vb, vc); }
    if Before(c, a, key, ascending) {
      if ascending {
        if va != vb && vb != vc { LessTransitive(va, vb, vc); LessAsymmetric(va, vc); }
        else if va != vb { LessAsymmetric(va, vb); }
        else if vb != vc { LessAsymmetric(vb, vc); }
        else { LessIrreflexive(va); }
      } else {
        if va != vb && vb != vc { LessTransitive(vc, vb, va); LessAsymmetric(vc, va); }
        else if va != vb { LessAsymmetric(vb, va); }
        else if vb != vc { LessAsymmetric(vc, vb); }
        else { LessIrreflexive(va); }
      }
    }
  }

  /** In order: no element goes before an earlier one. */
  ghost predicate Sorted(s: seq<ClinicalTrial>, key: SortKey, ascending: bool)
  {
    forall i, j :: 0 <= i < j < |s| ==> !Before(s[j], s[i], key, ascending)
  }

  /** `s.filter(keep)`: the elements that `keep` accepts, in their order. */
  function Filter<T>(s: seq<T>, keep: T -> bool): seq<T>
  {
    if s == [] then [] else (if keep(s[0]) then [s[0]] else []) + Filter(s[1..], keep)
  }

  lemma FilterCons<T>(h: T, tail: seq<T>, keep: T -> bool)
    ensures Filter([h] + tail, keep) == (if keep(h) then [h] else []) + Filter(tail, keep)
  {
    var t := [h] + tail;
    assert t[0] == h && t[1..] == tail;
  }

  lemma {:induction false} FilterAppend<T>(a: seq<T>, b: seq<T>, keep: T -> bool)
    ensures Filter(a + b, keep) == Filter(a, keep) + Filter(b, keep)
  {
    if a == [] {
      assert a + b == b;
    } else {
      FilterAppend(a[1..], b, keep);
      FilterCons(a[0], a[1..] + b, keep);
      FilterCons(a[0], a[1..], keep);
      assert [a[0]] + (a[1..] + b) == a + b;
      assert [a[0]] + a[1..] == a;
    }
  }

  /** Has sort value `v` under `key`. */
  function HasValue(key: SortKey, v: string): ClinicalTrial -> bool
  {
    t => SortValue(t, key) == v
  }

  /** The elements whose sort value is `v`, in their order. */
  function WithValue(s: seq<ClinicalTrial>, key: SortKey, v: string): seq<ClinicalTrial>
  {
    Filter(s, HasValue(key, v))
  }

  /** Stable: elements with equal sort values keep their relative order. */
  ghost predicate StableFrom(r: seq<ClinicalTrial>, s: seq<ClinicalTrial>, key: SortKey)
  {
    forall v :: WithValue(r, key, v) == WithValue(s, key, v)
  }

  /** Insert `x` after every element that goes before it. */
  function Insert(x: ClinicalTrial, s: seq<ClinicalTrial>, key: SortKey, ascending: bool): (r: seq<ClinicalTrial>)
    ensures multiset(r) == multiset(s) + multiset{x}
  {
    if s == [] || !Before(s[0], x, key, ascending) then [x] + s
    else
      var rest := Insert(x, s[1..], key, ascending);
      assert multiset(s) == multiset{s[0]} + multiset(s[1..]) by { assert s == [s[0]] + s[1..]; }
      assert multiset([s[0]] + rest) == multiset{s[0]} + multiset(rest);
      [s[0]] + rest
  }

  /** The result of `filtered.sort(comparator)`, as a stable insertion sort. */
  function SortTrials(xs: seq<ClinicalTrial>, key: SortKey, ascending: bool): (r: seq<ClinicalTrial>)
    ensures multiset(r) == multiset(xs) && |r| == |xs|
  {
    if xs == [] then []
    else
      assert xs == [xs[0]] + xs[1..];
      Insert(xs[0], SortTrials(xs[1..], key, ascending), key, ascending)
  }

  /** Insertion adds `x` and nothing else. */
  lemma InsertMembers(x: ClinicalTrial, s: seq<ClinicalTrial>, key: SortKey, ascending: bool, y: ClinicalTrial)
    requires y in Insert(x, s, key, ascending)
    ensures y == x || y in s
  {
    assert y in multiset(Insert(x, s, key, ascending));
  }

  /** A sorted sequence stays sorted under a new head that nothing in it goes before. */
  lemma ConsSorted(h: ClinicalTrial, rest: seq<ClinicalTrial>, key: SortKey, ascending: bool)
    requires Sorted(rest, key, ascending)
    requires forall y :: y in rest ==> !Before(y, h, key, ascending)
    ensures Sorted([h] + rest, key, ascending)
  {
    var r := [h] + rest;
    forall i, j | 0 <= i < j < |r| ensures !Before(r[j], r[i], key, ascending) {
      assert r[j] == rest[j - 1];
      if i > 0 {
        assert r[i] == rest[i - 1];
      }
    }
  }

  lemma {:induction false} InsertSorted(x: ClinicalTrial, s: seq<ClinicalTrial>, key: SortKey, ascending: bool)
    requires Sorted(s, key, ascending)
    ensures Sorted(Insert(x, s, key, ascending), key, ascending)
  {
    if s == [] || !Before(s[0], x, key, ascending) {
      forall y | y in s ensures !Before(y, x, key, ascending) {
        FirstNotAfter(s, y, key, ascending);
        NotBeforeTransitive(x, s[0], y, key, ascending);
      }
      ConsSorted(x, s, key, ascending);
    } else {
      var rest := Insert(x, s[1..], key, ascending);
      assert Sorted(s[1..], key, ascending) by {
        forall i, j | 0 <= i < j < |s[1..]| ensures !Before(s[1..][j], s[1..][i], key, ascending) {
          assert s[1..][j] == s[j + 1] && s[1..][i] == s[i + 1];
        }
      }
      InsertSorted(x, s[1..], key, ascending);
      BeforeAsymmetric(s[0], x, key, ascending);
      forall y | y in rest ensures !Before(y, s[0], key, ascending) {
        InsertMembers(x, s[1..], key, ascending, y);
        if y != x {
          assert y in s;
          FirstNotAfter(s, y, key, ascending);
        }
      }
      ConsSorted(s[0], rest, key, ascending);
    }
  }

  /** The sort puts the trials in order of their sort values. */
  lemma {:induction false} SortIsSorted(xs: seq<ClinicalTrial>, key: SortKey, ascending: bool)
    ensures Sorted(SortTrials(xs, key, ascending), key, ascending)
  {
    if xs != [] {
      SortIsSorted(xs[1..], key, ascending);
      InsertSorted(xs[0], SortTrials(xs[1..], key, ascending), key, ascending);
    }
  }

  lemma WithValueAppend(a: seq<ClinicalTrial>, b: seq<ClinicalTrial>, key: SortKey, v: string)
    ensures WithValue(a + b, key, v) == WithValue(a, key, v) + WithValue(b, key, v)
  {
    FilterAppend(a, b, HasValue(key, v));
  }

  lemma {:induction false} InsertWithValue(x: ClinicalTrial, s: seq<ClinicalTrial>, key: SortKey, ascending: bool, v: string)
    ensures WithValue(Insert(x, s, key, ascending), key, v) ==
      (if SortValue(x, key) == v then [x] else []) + WithValue(s, key, v)
  {
    if s == [] || !Before(s[0], x, key, ascending) {
      WithValueAppend([x], s, key, v);
    } else {
      InsertWithValue(x, s[1..], key, ascending, v);
      BeforeAsymmetric(s[0], x, key, ascending);
      SkipWithValue(x, s, Insert(x, s[1..], key, ascending), key, v);
    }
  }

  lemma WithValueCons(h: ClinicalTrial, tail: seq<ClinicalTrial>, key: SortKey, v: string)
    ensures WithValue([h] + tail, key, v) == (if SortValue(h, key) == v then [h] else []) + WithValue(tail, key, v)
  {
    FilterCons(h, tail, HasValue(key, v));
  }

  lemma SkipWithValue(x: ClinicalTrial, s: seq<ClinicalTrial>, rest: seq<ClinicalTrial>, key: SortKey, v: string)
    requires s != [] && SortValue(s[0], key) != SortValue(x, key)
    requires WithValue(rest, key, v) == (if SortValue(x, key) == v then [x] else []) + WithValue(s[1..], key, v)
    ensures WithValue([s[0]] + rest, key, v) == (if SortValue(x, key) == v then [x] else []) + WithValue(s, key, v)
  {
    WithValueCons(s[0], rest, key, v);
    WithValueCons(s[0], s[1..], key, v);
    assert [s[0]] + s[1..] == s;
    var mine: seq<ClinicalTrial> := if SortValue(x, key) == v then [x] else [];
    var theirs: seq<ClinicalTrial> := if SortValue(s[0], key) == v then [s[0]] else [];
    assert mine == [] || theirs == [];
    if mine == [] {
      assert mine + WithValue(s, key, v) == WithValue(s, key, v);
      assert WithValue(rest, key, v) == WithValue(s[1..], key, v);
    } else {
      assert theirs + WithValue(rest, key, v) == WithValue(rest, key, v);
      assert WithValue(s, key, v) == WithValue(s[1..], key, v);
    }
  }

  /** Ties keep their order: the sort is stable. */
  lemma {:induction false} SortIsStable(xs: seq<ClinicalTrial>, key: SortKey, ascending: bool, v: string)
    ensures WithValue(SortTrials(xs, key, ascending), key, v) == WithValue(xs, key, v)
  {
    if xs != [] {
      SortIsStable(xs[1..], key, ascending, v);
      InsertWithValue(xs[0], SortTrials(xs[1..], key, ascending), key, ascending, v);
    }
  }

  lemma {:induction false} WithValueHead(s: seq<ClinicalTrial>, key: SortKey)
    requires s != []
    ensures WithValue(s, key, SortValue(s[0], key)) == [s[0]] + WithValue(s[1..], key, SortValue(s[0], key))
  {
  }

  lemma {:induction false} WithValueMember(s: seq<ClinicalTrial>, key: SortKey, v: string, y: ClinicalTrial)
    requires y in WithValue(s, key, v)
    ensures y in s && SortValue(y, key) == v
  {
    if s != [] && y != s[0] {
      WithValueMember(s[1..], key, v, y);
    } else if s != [] && SortValue(s[0], key) != v {
      WithValueMember(s[1..], key, v, y);
    }
  }

  /** Nothing in a sorted sequence goes before its first element. */
  lemma FirstNotAfter(s: seq<ClinicalTrial>, y: ClinicalTrial, key: SortKey, ascending: bool)
    requires Sorted(s, key, ascending) && y in s
    ensures !Before(y, s[0], key, ascending)
  {
    var j :| 0 <= j < |s| && s[j] == y;
    if j > 0 {
      assert !Before(s[j], s[0], key, ascending);
    } else {
      BeforeIrreflexive(y, key, ascending);
    }
  }

  lemma BeforeIrreflexive(a: ClinicalTrial, key: SortKey, ascending: bool)
    ensures !Before(a, a, key, ascending)
  {
    LessIrreflexive(SortValue(a, key));
  }

  /** Two sorted sequences that agree group by group start with the same element. */
  lemma SameHead(a: seq<ClinicalTrial>, b: seq<ClinicalTrial>, key: SortKey, ascending: bool)
    requires a != [] && b != []
    requires Sorted(a, key, ascending) && Sorted(b, key, ascending)
    requires StableFrom(a, b, key)
    ensures a[0] == b[0]
  {
    var va, vb := SortValue(a[0], key), SortValue(b[0], key);
    WithValueHead(a, key);
    WithValueHead(b, key);
    assert WithValue(a, key, va) == WithValue(b, key, va);
    assert WithValue(a, key, vb) == WithValue(b, key, vb);
    WithValueMember(b, key, va, a[0]);
    WithValueMember(a, key, vb, b[0]);
    FirstNotAfter(b, a[0], key, ascending);
    FirstNotAfter(a, b[0], key, ascending);
    NotBeforeEitherWay(a[0], b[0], key, ascending);
    assert WithValue(a, key, va)[0] == a[0];
    assert WithValue(b, key, vb)[0] == b[0];
  }

  lemma {:induction false} StableTails(a: seq<ClinicalTrial>, b: seq<ClinicalTrial>, key: SortKey)
    requires a != [] && b != [] && a[0] == b[0]
    requires StableFrom(a, b, key)
    ensures StableFrom(a[1..], b[1..], key)
  {
    forall v ensures WithValue(a[1..], key, v) == WithValue(b[1..], key, v) {
      var head: seq<ClinicalTrial> := if SortValue(a[0], key) == v then [a[0]] else [];
      assert WithValue(a, key, v) == WithValue(b, key, v);
      assert WithValue(a, key, v) == head + WithValue(a[1..], key, v);
      assert WithValue(b, key, v) == head + WithValue(b[1..], key, v);
      assert WithValue(a[1..], key, v) == WithValue(a, key, v)[|head|..];
    }
  }

  /** A non-empty sequence has a non-empty group: its first element's. */
  lemma NonEmptyHasGroup(a: seq<ClinicalTrial>, key: SortKey)
    ensures a != [] ==> WithValue(a, key, SortValue(a[0], key)) != []
  {
    if a != [] {
      WithValueHead(a, key);
    }
  }

  /**
   * A stable sort has exactly one possible result: two sorted sequences that
   * agree on the order of every group of equal sort values are equal.
   */
  lemma {:induction false} StableSortUnique(a: seq<ClinicalTrial>, b: seq<ClinicalTrial>, key: SortKey, ascending: bool)
    requires Sorted(a, key, ascending) && Sorted(b, key, ascending)
    requires StableFrom(a, b, key)
    ensures a == b
    decreases |a|
  {
    if a == [] || b == [] {
      NonEmptyHasGroup(a, key);
      NonEmptyHasGroup(b, key);
    } else {
      SameHead(a, b, key, ascending);
      StableTails(a, b, key);
      StableSortUnique(a[1..], b[1..], key, ascending);
      assert a == [a[0]] + a[1..] && b == [b[0]] + b[1..];
    }
  }

  /**
   * `SortTrials` is the stable sort: any ordering of `xs` that is sorted and
   * keeps ties in their original order is exactly `SortTrials(xs)`.
   */
  lemma SortIsTheStableSort(xs: seq<ClinicalTrial>, r: seq<ClinicalTrial>, key: SortKey, ascending: bool)
    requires Sorted(r, key, ascending) && StableFrom(r, xs, key)
    ensures r == SortTrials(xs, key, ascending)
  {
    var s := SortTrials(xs, key, ascending);
    SortIsSorted(xs, key, ascending);
    forall v ensures WithValue(r, key, v) == WithValue(s, key, v) {
      SortIsStable(xs, key, ascending, v);
    }
    StableSortUnique(r, s, key, ascending);
  }
}
