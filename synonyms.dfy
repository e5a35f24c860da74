/**
 * The synonym index: term normalization, the symmetric one-hop map built from
 * the static synonym table, and query-term expansion (lib/synonymUtils.ts,
 * lib/synonyms.ts).
 */
module Synonyms {
  import opened Wrappers
  import opened Text

  /** One `key: [values]` line of the synonym table. */
  datatype Entry = Entry(key: string, values: seq<string>)

  /** The table in `Object.entries` order. */
  type Table = seq<Entry>

  const SYNONYM_TABLE: Table := [
    Entry("nsclc", [
      "non small cell lung cancer",
      "non-small cell lung cancer",
      "non small cell lung carcinoma",
      "carcinoma of the lungs, non small cell"]),
    Entry("cancer", ["carcinoma", "tumor"]),
    Entry("lung", ["pulmonary", "respiratory"]),
    Entry("immunotherapy", ["immune therapy", "checkpoint inhibitors"])
  ]

  // ---------------------------------------------------------------- normalizeTerm

  /** A term made of lower-case ASCII letters and digits only. */
  predicate IsNormalized(t: string)
  {
    forall i :: 0 <= i < |t| ==> IsLowerAlnum(t[i])
  }

  /** `normalizeTerm`: lower-case, then drop every character outside `[a-z0-9]`. */
  function NormalizeTerm(term: string): (r: string)
    ensures IsNormalized(r)
    ensures |r| <= |term|
  {
    if term == [] then []
    else
      var c := LowerChar(term[0]);
      (if IsLowerAlnum(c) then [c] else []) + NormalizeTerm(term[1..])
  }

  /** A normalized term is its own normal form. */
  lemma {:induction false} NormalizeNormalized(t: string)
    requires IsNormalized(t)
    ensures NormalizeTerm(t) == t
  {
    if t != [] {
      assert !IsUpper(t[0]);
      NormalizeNormalized(t[1..]);
    }
  }

  /** `normalizeTerm` is idempotent. */
  lemma NormalizeIdempotent(term: string)
    ensures NormalizeTerm(NormalizeTerm(term)) == NormalizeTerm(term)
  {
    NormalizeNormalized(NormalizeTerm(term));
  }

  /** Case does not matter to `normalizeTerm`. */
  lemma NormalizedIsLowered(t: string)
    requires IsNormalized(t)
    ensures IsLowered(t) && Lower(t) == t
  {
  }

  lemma {:induction false} NormalizeIgnoresCase(term: string)
    ensures NormalizeTerm(Lower(term)) == NormalizeTerm(term)
  {
    if term != [] {
      assert Lower(term)[1..] == Lower(term[1..]);
      NormalizeIgnoresCase(term[1..]);
    }
  }

  // ---------------------------------------------------------------- the declared relation

  /** The `i`-th key of the table normalizes to `t`. */
  predicate KeyAt(table: Table, t: string, i: int)
  {
    0 <= i < |table| && NormalizeTerm(table[i].key) == t
  }

  /** The `j`-th value under the `i`-th key normalizes to `b`, and that key to `a`. */
  predicate DeclaredAt(table: Table, a: string, b: string, i: int, j: int)
  {
    && 0 <= i < |table| && 0 <= j < |table[i].values|
    && NormalizeTerm(table[i].key) == a && NormalizeTerm(table[i].values[j]) == b
  }

  /** The table declares `b` (normalized) under a key that normalizes to `a`. */
  ghost predicate Declared(table: Table, a: string, b: string)
  {
    exists i, j :: DeclaredAt(table, a, b, i, j)
  }

  /** `a` and `b` are declared together in one line of the table, in either direction. */
  ghost predicate Synonymous(table: Table, a: string, b: string)
  {
    Declared(table, a, b) || Declared(table, b, a)
  }

  /** `t` is a normalized key or a normalized value of the table. */
  ghost predicate IsTerm(table: Table, t: string)
  {
    (exists i :: KeyAt(table, t, i)) || (exists a :: Declared(table, a, t))
  }

  lemma KeyAppend(table: Table, e: Entry, t: string)
    ensures (exists i :: KeyAt(table + [e], t, i)) <==> (exists i :: KeyAt(table, t, i)) || NormalizeTerm(e.key) == t
  {
    var t1 := table + [e];
    if i :| KeyAt(t1, t, i) {
      if i < |table| {
        assert t1[i] == table[i];
        assert KeyAt(table, t, i);
      }
    }
    if i :| KeyAt(table, t, i) {
      assert t1[i] == table[i];
      assert KeyAt(t1, t, i);
    }
    assert t1[|table|] == e;
    assert NormalizeTerm(e.key) == t ==> KeyAt(t1, t, |table|);
  }

  lemma DeclaredAppendKey(table: Table, k: string, a: string, b: string)
    ensures Declared(table + [Entry(k, [])], a, b) <==> Declared(table, a, b)
  {
    var t1 := table + [Entry(k, [])];
    if i, j :| DeclaredAt(t1, a, b, i, j) {
      assert t1[i] == table[i];
      assert DeclaredAt(table, a, b, i, j);
    }
    if i, j :| DeclaredAt(table, a, b, i, j) {
      assert t1[i] == table[i];
      assert DeclaredAt(t1, a, b, i, j);
    }
  }

  lemma DeclaredAppendValue(table: Table, k: string, vs: seq<string>, v: string, a: string, b: string)
    ensures Declared(table + [Entry(k, vs + [v])], a, b) <==>
            Declared(table + [Entry(k, vs)], a, b) || (a == NormalizeTerm(k) && b == NormalizeTerm(v))
  {
    if Declared(table + [Entry(k, vs + [v])], a, b) {
      DeclaredAppendValueBack(table, k, vs, v, a, b);
    }
    if Declared(table + [Entry(k, vs)], a, b) || (a == NormalizeTerm(k) && b == NormalizeTerm(v)) {
      DeclaredAppendValueForth(table, k, vs, v, a, b);
    }
  }

  lemma DeclaredAppendValueBack(table: Table, k: string, vs: seq<string>, v: string, a: string, b: string)
    requires Declared(table + [Entry(k, vs + [v])], a, b)
    ensures Declared(table + [Entry(k, vs)], a, b) || (a == NormalizeTerm(k) && b == NormalizeTerm(v))
  {
    var t0 := table + [Entry(k, vs)];
    var t1 := table + [Entry(k, vs + [v])];
    var i, j :| DeclaredAt(t1, a, b, i, j);
    if i < |table| {
      assert t1[i] == table[i] == t0[i];
      assert DeclaredAt(t0, a, b, i, j);
    } else if j < |vs| {
      assert t1[i].values == vs + [v] && t0[i].values == vs;
      assert t1[i].values[j] == t0[i].values[j];
      assert DeclaredAt(t0, a, b, i, j);
    } else {
      assert t1[i].values[j] == v;
    }
  }

  lemma DeclaredAppendValueForth(table: Table, k: string, vs: seq<string>, v: string, a: string, b: string)
    requires Declared(table + [Entry(k, vs)], a, b) || (a == NormalizeTerm(k) && b == NormalizeTerm(v))
    ensures Declared(table + [Entry(k, vs + [v])], a, b)
  {
    var t0 := table + [Entry(k, vs)];
    var t1 := table + [Entry(k, vs + [v])];
    var n := |table|;
    if Declared(t0, a, b) {
      var i, j :| DeclaredAt(t0, a, b, i, j);
      if i < n {
        assert t1[i] == table[i] == t0[i];
      } else {
        assert t1[i].values == vs + [v] && t0[i].values == vs;
        assert t1[i].values[j] == t0[i].values[j];
      }
      assert DeclaredAt(t1, a, b, i, j);
    } else {
      assert t1[n].values == vs + [v];
      assert DeclaredAt(t1, a, b, n, |vs|);
    }
  }

  // ---------------------------------------------------------------- the index

  /** `map[a] ??= new Set()` */
  function WithKey(m: map<string, set<string>>, a: string): (r: map<string, set<string>>)
    ensures r.Keys == m.Keys + {a}
  {
    if a in m then m else m[a := {}]
  }

  /** `map[a].add(b); map[b] ??= new Set(); map[b].add(a)` */
  function WithPair(m: map<string, set<string>>, a: string, b: string): (r: map<string, set<string>>)
    requires a in m
    ensures r.Keys == m.Keys + {b}
  {
    var m1 := m[a := m[a] + {b}];
    var m2 := WithKey(m1, b);
    m2[b := m2[b] + {a}]
  }

  /** What one bidirectional insertion changes: `b` joins `a`'s set and `a` joins `b`'s. */
  lemma WithPairAt(m: map<string, set<string>>, a: string, b: string, t: string, x: string)
    requires a in m && t in WithPair(m, a, b)
    ensures x in WithPair(m, a, b)[t] <==> (t in m && x in m[t]) || (t == a && x == b) || (t == b && x == a)
  {
  }

  /** The pairs of one table line, value by value. */
  ghost function AddValues(m: map<string, set<string>>, a: string, vals: seq<string>): (r: map<string, set<string>>)
    requires a in m
    ensures a in r
    decreases |vals|
  {
    if vals == [] then m
    else WithPair(AddValues(m, a, vals[..|vals| - 1]), a, NormalizeTerm(vals[|vals| - 1]))
  }

  /** The index `buildNormalizedSynonymMap` computes, with sets for its lists, line by line. */
  ghost function Index(table: Table): map<string, set<string>>
    decreases |table|
  {
    if table == [] then map[]
    else
      var e := table[|table| - 1];
      var a := NormalizeTerm(e.key);
      AddValues(WithKey(Index(table[..|table| - 1]), a), a, e.values)
  }

  /** The index of a table whose last line is still being read. */
  ghost function PartialIndex(table: Table, k: string, vs: seq<string>): map<string, set<string>>
  {
    AddValues(WithKey(Index(table), NormalizeTerm(k)), NormalizeTerm(k), vs)
  }

  lemma {:induction false} PartialKeyAt(table: Table, k: string, vs: seq<string>, t: string)
    ensures t in PartialIndex(table, k, vs) <==> IsTerm(table + [Entry(k, vs)], t)
    decreases |table|, 1, |vs|
  {
    var t1 := table + [Entry(k, vs)];
    KeyAppend(table, Entry(k, vs), t);
    if vs == [] {
      IndexKeyAt(table, t);
      forall b ensures Declared(t1, b, t) <==> Declared(table, b, t) {
        DeclaredAppendKey(table, k, b, t);
      }
    } else {
      var init, v := vs[..|vs| - 1], vs[|vs| - 1];
      var t0 := table + [Entry(k, init)];
      assert vs == init + [v];
      PartialKeyAt(table, k, init, t);
      KeyAppend(table, Entry(k, init), t);
      forall c ensures Declared(t1, c, t) <==> Declared(t0, c, t) || (c == NormalizeTerm(k) && t == NormalizeTerm(v)) {
        DeclaredAppendValue(table, k, init, v, c, t);
      }
      DeclaredAppendValue(table, k, init, v, NormalizeTerm(k), NormalizeTerm(v));
    }
  }

  /** Both ends of a declared pair are terms of the table. */
  lemma DeclaredTerms(table: Table, a: string, b: string)
    ensures Declared(table, a, b) ==> IsTerm(table, a) && IsTerm(table, b)
  {
    if Declared(table, a, b) {
      var i, j :| DeclaredAt(table, a, b, i, j);
      assert KeyAt(table, a, i);
    }
  }

  lemma {:induction false} PartialValueAt(table: Table, k: string, vs: seq<string>, t: string, x: string)
    requires t in PartialIndex(table, k, vs)
    ensures x in PartialIndex(table, k, vs)[t] <==>
      Declared(table + [Entry(k, vs)], t, x) || Declared(table + [Entry(k, vs)], x, t)
    decreases |table|, 1, |vs|
  {
    if vs == [] {
      DeclaredAppendKey(table, k, t, x);
      DeclaredAppendKey(table, k, x, t);
      IndexKeyAt(table, t);
      if t in Index(table) {
        IndexValueAt(table, t, x);
      } else {
        DeclaredTerms(table, t, x);
        DeclaredTerms(table, x, t);
      }
    } else {
      var init, v := vs[..|vs| - 1], vs[|vs| - 1];
      assert vs == init + [v];
      var p0 := PartialIndex(table, k, init);
      assert PartialIndex(table, k, vs) == WithPair(p0, NormalizeTerm(k), NormalizeTerm(v));
      WithPairAt(p0, NormalizeTerm(k), NormalizeTerm(v), t, x);
      DeclaredAppendValue(table, k, init, v, t, x);
      DeclaredAppendValue(table, k, init, v, x, t);
      PartialKeyAt(table, k, init, t);
      if t in PartialIndex(table, k, init) {
        PartialValueAt(table, k, init, t, x);
      } else {
        DeclaredTerms(table + [Entry(k, init)], t, x);
        DeclaredTerms(table + [Entry(k, init)], x, t);
      }
    }
  }

  /** The keys of the index are exactly the normalized terms of the table. */
  lemma {:induction false} IndexKeyAt(table: Table, t: string)
    ensures t in Index(table) <==> IsTerm(table, t)
    decreases |table|, 0
  {
    if table != [] {
      var init, e := table[..|table| - 1], table[|table| - 1];
      assert table == init + [Entry(e.key, e.values)];
      PartialKeyAt(init, e.key, e.values, t);
    } else {
      assert forall i :: !KeyAt(table, t, i);
      assert forall a, i, j :: !DeclaredAt(table, a, t, i, j);
    }
  }

  /**
   * Under each term the index holds exactly the terms declared with it in one
   * line of the table, in either direction: one hop, nothing transitive.
   */
  lemma {:induction false} IndexValueAt(table: Table, t: string, x: string)
    requires t in Index(table)
    ensures x in Index(table)[t] <==> Declared(table, t, x) || Declared(table, x, t)
    decreases |table|, 0
  {
    var init, e := table[..|table| - 1], table[|table| - 1];
    assert table == init + [Entry(e.key, e.values)];
    PartialValueAt(init, e.key, e.values, t, x);
  }

  /** Every normalized key and every normalized value becomes a key of the index. */
  lemma TermsAreKeys(table: Table, i: int, j: int)
    requires 0 <= i < |table| && 0 <= j < |table[i].values|
    ensures NormalizeTerm(table[i].key) in Index(table)
    ensures NormalizeTerm(table[i].values[j]) in Index(table)
  {
    var a, b := NormalizeTerm(table[i].key), NormalizeTerm(table[i].values[j]);
    assert KeyAt(table, a, i) && DeclaredAt(table, a, b, i, j);
    assert Declared(table, a, b);
    IndexKeyAt(table, a);
    IndexKeyAt(table, b);
  }

  /** Symmetry: `v` in `map[k]` exactly when `k` in `map[v]`. */
  lemma IndexSymmetric(table: Table, k: string, v: string)
    requires k in Index(table) && v in Index(table)[k]
    ensures v in Index(table) && k in Index(table)[v]
  {
    IndexValueAt(table, k, v);
    if i, j :| DeclaredAt(table, k, v, i, j) {
      TermsAreKeys(table, i, j);
    } else {
      var i, j :| DeclaredAt(table, v, k, i, j);
      TermsAreKeys(table, i, j);
    }
    IndexValueAt(table, v, k);
  }

  // ---------------------------------------------------------------- buildNormalizedSynonymMap

  predicate Distinct(xs: seq<string>)
  {
    forall i, j :: 0 <= i < j < |xs| ==> xs[i] != xs[j]
  }

  /** `sm` holds the index of `table`, each set as a duplicate-free list in some order. */
  ghost predicate Represents(sm: map<string, seq<string>>, table: Table)
  {
    && sm.Keys == Index(table).Keys
    && forall t :: t in sm ==> Distinct(sm[t]) && forall x :: x in sm[t] <==> x in Index(table)[t]
  }

  /** `[...set]`: the elements of a set as a list without duplicates. */
  method SetToList(s: set<string>) returns (xs: seq<string>)
    ensures Distinct(xs)
    ensures forall x :: x in xs <==> x in s
  {
    xs := [];
    var rest := s;
    while rest != {}
      invariant rest <= s
      invariant Distinct(xs)
      invariant forall x :: x in xs <==> x in s && x !in rest
      decreases rest
    {
      var x :| x in rest;
      xs := xs + [x];
      rest := rest - {x};
    }
  }

  /**
   * `buildNormalizedSynonymMap`: a map of sets filled entry by entry, each
   * (key, value) pair inserted in both directions, then copied into lists.
   *
   * The source tests `!map[normalizedKey]` on a plain object, which would
   * also see an inherited property such as `constructor`; the model tests
   * own keys (`normalizedKey !in m`). The two agree whenever no term of the
   * table normalizes to an inherited name. The application always builds
   * from `SYNONYM_TABLE` (lib/synonymUtils.ts:10), which has no such term
   * (`ConstructorNotInTable`); for an arbitrary `table` the model states the
   * own-key behaviour.
   */
  method BuildNormalizedSynonymMap(table: Table) returns (finalMap: map<string, seq<string>>)
    ensures Represents(finalMap, table)
  {
    var m := FillSynonymSets(table);
    finalMap := CopyToLists(m);
  }

  /** The first loop of `buildNormalizedSynonymMap`: the map of sets, which is the index. */
  method FillSynonymSets(table: Table) returns (m: map<string, set<string>>)
    ensures m == Index(table)
  {
    m := map[];
    for i := 0 to |table|
      invariant m == Index(table[..i])
    {
      var key, vals := table[i].key, table[i].values;
      var normalizedKey := NormalizeTerm(key);
      if normalizedKey !in m {
        m := m[normalizedKey := {}];
      }
      assert vals[..0] == [];
      for j := 0 to |vals|
        invariant m == PartialIndex(table[..i], key, vals[..j])
      {
        var normalizedVal := NormalizeTerm(vals[j]);
        assert vals[..j + 1][..j] == vals[..j];
        m := m[normalizedKey := m[normalizedKey] + {normalizedVal}];
        if normalizedVal !in m {
          m := m[normalizedVal := {}];
        }
        m := m[normalizedVal := m[normalizedVal] + {normalizedKey}];
      }
      assert vals[..|vals|] == vals;
      assert table[..i + 1][..i] == table[..i];
    }
    assert table[..|table|] == table;
  }

  /** The second loop of `buildNormalizedSynonymMap`: every set becomes a list. */
  method CopyToLists(m: map<string, set<string>>) returns (finalMap: map<string, seq<string>>)
    ensures finalMap.Keys == m.Keys
    ensures forall t :: t in finalMap ==> Distinct(finalMap[t]) && forall x :: x in finalMap[t] <==> x in m[t]
  {
    finalMap := map[];
    var pending := m.Keys;
    while pending != {}
      invariant pending <= m.Keys
      invariant finalMap.Keys == m.Keys - pending
      invariant forall t :: t in finalMap ==> Distinct(finalMap[t]) && forall x :: x in finalMap[t] <==> x in m[t]
      decreases pending
    {
      var k :| k in pending;
      var list := SetToList(m[k]);
      finalMap := finalMap[k := list];
      pending := pending - {k};
    }
  }

  // ---------------------------------------------------------------- normalizeAndExpandQueryTerm

  /**
   * `normalizeAndExpandQueryTerm`, reading only the map's own keys: the
   * normalized term first, then the list stored under it, if any.
   */
  function NormalizeAndExpandQueryTerm(term: string, synonymMap: map<string, seq<string>>): (r: seq<string>)
    ensures |r| >= 1 && r[0] == NormalizeTerm(term)
    ensures NormalizeTerm(term) !in synonymMap ==> r == [NormalizeTerm(term)]
    ensures NormalizeTerm(term) in synonymMap ==> r[1..] == synonymMap[NormalizeTerm(term)]
  {
    var normalized := NormalizeTerm(term);
    var expanded := if normalized in synonymMap then synonymMap[normalized] else [];
    [normalized] + expanded
  }

  /**
   * With the map built from `table`, a term expands to itself (normalized) and
   * to exactly the terms declared with it in one line of the table.
   */
  lemma ExpansionMeaning(table: Table, synonymMap: map<string, seq<string>>, term: string, c: string)
    requires Represents(synonymMap, table)
    ensures c in NormalizeAndExpandQueryTerm(term, synonymMap) <==>
      c == NormalizeTerm(term) || Synonymous(table, NormalizeTerm(term), c)
  {
    var n := NormalizeTerm(term);
    var r := NormalizeAndExpandQueryTerm(term, synonymMap);
    assert c in r <==> c == n || c in r[1..];
    IndexKeyAt(table, n);
    DeclaredTerms(table, n, c);
    DeclaredTerms(table, c, n);
    if n in synonymMap {
      IndexValueAt(table, n, c);
    }
  }

  /** With the map built from `table`, every candidate of an expansion is a normalized term. */
  lemma ExpansionNormalized(table: Table, synonymMap: map<string, seq<string>>, term: string, c: string)
    requires Represents(synonymMap, table)
    requires c in NormalizeAndExpandQueryTerm(term, synonymMap)
    ensures IsNormalized(c)
  {
    ExpansionMeaning(table, synonymMap, term, c);
    if c != NormalizeTerm(term) {
      if Declared(table, NormalizeTerm(term), c) {
        var i, j :| DeclaredAt(table, NormalizeTerm(term), c, i, j);
      } else {
        var i, j :| DeclaredAt(table, c, NormalizeTerm(term), i, j);
      }
    }
  }

  // ---------------------------------------------------------------- the lookup as written

  /** What the property read `obj[key]` finds on an object created by `{}`. */
  datatype Lookup = Own(terms: seq<string>) | Inherited(name: string) | Absent

  /** The properties every plain object inherits from `Object.prototype`. */
  const OBJECT_PROTOTYPE_PROPERTIES: set<string> := {
    "constructor", "__proto__", "__defineGetter__", "__defineSetter__", "__lookupGetter__",
    "__lookupSetter__", "hasOwnProperty", "isPrototypeOf", "propertyIsEnumerable",
    "toLocaleString", "toString", "valueOf"
  }

  function PropertyLookup(obj: map<string, seq<string>>, key: string): (r: Lookup)
    ensures r.Own? <==> key in obj
    ensures r.Inherited? <==> key !in obj && key in OBJECT_PROTOTYPE_PROPERTIES
  {
    if key in obj then Own(obj[key])
    else if key in OBJECT_PROTOTYPE_PROPERTIES then Inherited(key)
    else Absent
  }

  /**
   * `normalizeAndExpandQueryTerm` as written: `synonymMap[normalized] || []`
   * also finds an inherited property, which is truthy and not iterable, so
   * spreading it throws a TypeError.
   */
  function NormalizeAndExpandAsWritten(term: string, synonymMap: map<string, seq<string>>): (r: Result<seq<string>>)
    ensures r.Failure? <==> PropertyLookup(synonymMap, NormalizeTerm(term)).Inherited?
  {
    var normalized := NormalizeTerm(term);
    match PropertyLookup(synonymMap, normalized)
    case Own(terms) => Success([normalized] + terms)
    case Absent => Success([normalized])
    case Inherited(name) => Failure("TypeError: " + name + " is not iterable")
  }

  /** Of the inherited property names, only "constructor" is a normalized term. */
  lemma InheritedNormalizedName(key: string)
    requires IsNormalized(key) && key in OBJECT_PROTOTYPE_PROPERTIES
    ensures key == "constructor"
  {
    if key in UNDERSCORE_NAMES {
      UnderscoreNamesNotNormalized(key);
    } else if key in CAMEL_CASE_NAMES {
      CamelCaseNamesNotNormalized(key);
    }
  }

  const UNDERSCORE_NAMES: set<string> :=
    {"__proto__", "__defineGetter__", "__defineSetter__", "__lookupGetter__", "__lookupSetter__"}
  const CAMEL_CASE_NAMES: set<string> :=
    {"hasOwnProperty", "isPrototypeOf", "propertyIsEnumerable", "toLocaleString", "toString", "valueOf"}

  /** The inherited names that begin with an underscore are not normalized terms. */
  lemma UnderscoreNamesNotNormalized(key: string)
    requires key in UNDERSCORE_NAMES
    ensures !IsNormalized(key)
  {
    assert !IsLowerAlnum(key[0]);
  }

  /** The camel-case inherited names are not normalized terms. */
  lemma CamelCaseNamesNotNormalized(key: string)
    requires key in CAMEL_CASE_NAMES
    ensures !IsNormalized(key)
  {
    if key == "hasOwnProperty" {
      assert !IsLowerAlnum(key[3]);
    } else if key == "isPrototypeOf" || key == "toLocaleString" || key == "toString" {
      assert !IsLowerAlnum(key[2]);
    } else if key == "propertyIsEnumerable" {
      assert !IsLowerAlnum(key[8]);
    } else {
      assert !IsLowerAlnum(key[5]);
    }
  }

  /** A term that is short, or whose first two characters are kept and are not "co", is not "constructor" once normalized. */
  lemma NotConstructor(s: string)
    requires |s| < 11 || (|s| >= 2 && IsLowerAlnum(s[0]) && IsLowerAlnum(s[1]) && (s[0] != 'c' || s[1] != 'o'))
    ensures NormalizeTerm(s) != "constructor"
  {
    if |s| >= 11 {
      assert NormalizeTerm(s) == [s[0]] + NormalizeTerm(s[1..]);
      assert s[1..][0] == s[1];
      assert NormalizeTerm(s[1..]) == [s[1]] + NormalizeTerm(s[2..]);
    }
  }

  /** No term of the line normalizes to "constructor". */
  predicate AvoidsConstructor(e: Entry)
  {
    NormalizeTerm(e.key) != "constructor" &&
    forall j :: 0 <= j < |e.values| ==> NormalizeTerm(e.values[j]) != "constructor"
  }

  lemma LineAvoidsConstructor(e: Entry)
    requires var k := e.key;
      |k| < 11 || (|k| >= 2 && IsLowerAlnum(k[0]) && IsLowerAlnum(k[1]) && (k[0] != 'c' || k[1] != 'o'))
    requires forall j :: 0 <= j < |e.values| ==>
      var v := e.values[j];
      |v| < 11 || (|v| >= 2 && IsLowerAlnum(v[0]) && IsLowerAlnum(v[1]) && (v[0] != 'c' || v[1] != 'o'))
    ensures AvoidsConstructor(e)
  {
    NotConstructor(e.key);
    forall j | 0 <= j < |e.values| ensures NormalizeTerm(e.values[j]) != "constructor" {
      NotConstructor(e.values[j]);
    }
  }

  lemma FirstLineAvoidsConstructor()
    ensures AvoidsConstructor(SYNONYM_TABLE[0])
  {
    var vs := SYNONYM_TABLE[0].values;
    assert |vs| == 4;
    assert vs[0][0] == 'n' && vs[0][1] == 'o';
    assert vs[1][0] == 'n' && vs[1][1] == 'o';
    assert vs[2][0] == 'n' && vs[2][1] == 'o';
    assert vs[3][0] == 'c' && vs[3][1] == 'a';
    LineAvoidsConstructor(SYNONYM_TABLE[0]);
  }

  lemma LastLineAvoidsConstructor()
    ensures AvoidsConstructor(SYNONYM_TABLE[3])
  {
    var e := SYNONYM_TABLE[3];
    assert e.key[0] == 'i' && e.key[1] == 'm';
    assert |e.values| == 2;
    assert e.values[1][0] == 'c' && e.values[1][1] == 'h';
    LineAvoidsConstructor(e);
  }

  lemma SecondLineAvoidsConstructor()
    ensures AvoidsConstructor(SYNONYM_TABLE[1])
  {
    var vs := SYNONYM_TABLE[1].values;
    assert |vs| == 2;
    assert |vs[0]| == 9 && |vs[1]| == 5;
    LineAvoidsConstructor(SYNONYM_TABLE[1]);
  }

  lemma ThirdLineAvoidsConstructor()
    ensures AvoidsConstructor(SYNONYM_TABLE[2])
  {
    var vs := SYNONYM_TABLE[2].values;
    assert |vs| == 2;
    assert |vs[0]| == 9;
    assert vs[1][0] == 'r' && vs[1][1] == 'e';
    LineAvoidsConstructor(SYNONYM_TABLE[2]);
  }

  lemma TableAvoidsConstructor()
    ensures forall i :: 0 <= i < |SYNONYM_TABLE| ==> AvoidsConstructor(SYNONYM_TABLE[i])
  {
    FirstLineAvoidsConstructor();
    SecondLineAvoidsConstructor();
    ThirdLineAvoidsConstructor();
    LastLineAvoidsConstructor();
    forall i | 0 <= i < |SYNONYM_TABLE| ensures AvoidsConstructor(SYNONYM_TABLE[i]) {
      assert i == 0 || i == 1 || i == 2 || i == 3;
    }
  }

  /** No key and no value of the synonym table normalizes to "constructor". */
  lemma ConstructorNotInTable()
    ensures "constructor" !in Index(SYNONYM_TABLE)
  {
    var t := SYNONYM_TABLE;
    TableAvoidsConstructor();
    forall i ensures !KeyAt(t, "constructor", i) {
      if 0 <= i < |t| { assert AvoidsConstructor(t[i]); }
    }
    forall a, i, j ensures !DeclaredAt(t, a, "constructor", i, j) {
      if 0 <= i < |t| { assert AvoidsConstructor(t[i]); }
    }
    IndexKeyAt(t, "constructor");
  }

  /**
   * The lookup as written agrees with the own-key lookup on every term except
   * one that normalizes to "constructor" when the map has no such key.
   */
  lemma AsWrittenAgreesExceptConstructor(term: string, synonymMap: map<string, seq<string>>)
    ensures NormalizeAndExpandAsWritten(term, synonymMap).Failure? <==>
      NormalizeTerm(term) == "constructor" && "constructor" !in synonymMap
    ensures NormalizeAndExpandAsWritten(term, synonymMap).Success? ==>
      NormalizeAndExpandAsWritten(term, synonymMap).value == NormalizeAndExpandQueryTerm(term, synonymMap)
  {
    var n := NormalizeTerm(term);
    if n !in synonymMap && n in OBJECT_PROTOTYPE_PROPERTIES {
      InheritedNormalizedName(n);
    }
  }

  /** The phrase "constructor" makes the expansion as written throw, where an own-key lookup yields the phrase alone. */
  lemma ConstructorPhraseThrows(synonymMap: map<string, seq<string>>)
    requires "constructor" !in synonymMap
    ensures NormalizeTerm("constructor") == "constructor"
    ensures NormalizeAndExpandAsWritten("constructor", synonymMap).Failure?
    ensures NormalizeAndExpandQueryTerm("constructor", synonymMap) == ["constructor"]
  {
    assert IsNormalized("constructor") by {
      forall i | 0 <= i < |"constructor"| ensures IsLowerAlnum("constructor"[i]) {
      }
    }
    NormalizeNormalized("constructor");
  }
}
