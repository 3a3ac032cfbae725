/** The settings object of a DataTable with client-side data: the rows and the two index arrays
    over them, kept in step by adding, removing, sorting, searching and paging. */
module Table {
  import opened TableIndex
  import TableSort
  import TableSearch
  import Paging
  import Seqs
  import opened Wrappers

  /** What a row holds: an identity, its sort values and the text a search looks at. */
  datatype Content = Content(id: nat, values: seq<TableSort.Key>, text: string)

  /** `node`: the index carried by its TR node, if it has one. `cached`: _sFilterRow, absent
      while the row is new or invalidated. */
  datatype Row = Row(content: Content, node: Option<nat>, cached: Option<string>)

  /** A column search or a custom search function. */
  type Test = Content -> bool

  predicate AllPass(tests: seq<Test>, c: Content) {
    forall k :: 0 <= k < |tests| ==> tests[k](c)
  }

  /** The global search, the column searches and the custom ones together. */
  predicate Accepts(c: Content, search: string, o: TableSearch.Options, columns: seq<Test>, custom: seq<Test>) {
    TableSearch.Matches(c.text, search, o) && AllPass(columns, c) && AllPass(custom, c)
  }

  function Shown(rows: seq<Row>, search: string, o: TableSearch.Options, columns: seq<Test>, custom: seq<Test>): nat -> bool {
    (i: nat) => i < |rows| && Accepts(rows[i].content, search, o, columns, custom)
  }

  function ValueIn(rows: seq<Row>): TableSort.Values {
    (row: nat, col: nat) =>
      if row < |rows| && col < |rows[row].content.values| then rows[row].content.values[col] else TableSort.Number(0.0)
  }

  /** Both arrays hold row indexes without repetition; the master array holds them all. */
  ghost predicate Indexed(rows: seq<Row>, master: seq<nat>, display: seq<nat>) {
    && TableSort.Rows(master, |rows|) && (forall x: nat :: x < |rows| ==> x in master)
    && TableSort.Rows(display, |rows|)
  }

  predicate Numbered(rows: seq<Row>) {
    forall i :: 0 <= i < |rows| && rows[i].node.Some? ==> rows[i].node.value == i
  }

  predicate CachesRight(rows: seq<Row>) {
    forall i :: 0 <= i < |rows| && rows[i].cached.Some? ==> rows[i].cached.value == rows[i].content.text
  }

  predicate AllCached(rows: seq<Row>) {
    forall i :: 0 <= i < |rows| ==> rows[i].cached.Some?
  }

  // ------------------------------------------------------------------ one row out

  /** data.splice( row, 1 ), then the node of every row gets its new index. */
  function CutRow(rows: seq<Row>, row: nat): (r: seq<Row>)
    requires row < |rows|
    ensures |r| == |rows| - 1
  {
    Renode(rows[..row] + rows[row + 1..])
  }

  function Renode(rows: seq<Row>): (r: seq<Row>)
    ensures |r| == |rows|
    ensures forall i :: 0 <= i < |rows| ==>
              r[i] == rows[i].(node := if rows[i].node.Some? then Some(i) else None)
  {
    seq(|rows|, i requires 0 <= i < |rows| => rows[i].(node := if rows[i].node.Some? then Some(i) else None))
  }

  /** Filtering and deleting a row commute. */
  lemma {:induction false} WithoutFilter(a: seq<nat>, row: nat, p: nat -> bool, q: nat -> bool)
    requires forall x :: x in a && x != row ==> p(x) == q(Renumber(x, row))
    ensures Without(Seqs.Filter(a, p), row) == Seqs.Filter(Without(a, row), q)
  {
    if a != [] {
      var front, last := a[..|a| - 1], a[|a| - 1];
      WithoutFilter(front, row, p, q);
      if p(last) { WithoutSnoc(Seqs.Filter(front, p), last, row); }
      if last != row { FilterSnoc(Without(front, row), Renumber(last, row), q); }
    }
  }

  lemma CutKeepsShown(rows: seq<Row>, row: nat, x: nat, search: string, o: TableSearch.Options,
                                         columns: seq<Test>, custom: seq<Test>)
    requires row < |rows| && x < |rows| && x != row
    ensures Shown(rows, search, o, columns, custom)(x) ==
            Shown(CutRow(rows, row), search, o, columns, custom)(Renumber(x, row))
  {
    hide Accepts;
    var cut := rows[..row] + rows[row + 1..];
    assert cut[Renumber(x, row)] == rows[x];
  }

  lemma CutRows(rows: seq<Row>, row: nat)
    requires row < |rows|
    ensures Numbered(CutRow(rows, row)) && (CachesRight(rows) ==> CachesRight(CutRow(rows, row)))
    ensures forall x: nat :: x < |rows| && x != row ==>
              && Renumber(x, row) < |rows| - 1
              && CutRow(rows, row)[Renumber(x, row)].content == rows[x].content
              && CutRow(rows, row)[Renumber(x, row)].cached == rows[x].cached
  {
    var cut := rows[..row] + rows[row + 1..];
    forall x: nat | x < |rows| && x != row ensures cut[Renumber(x, row)] == rows[x] {}
    forall i | 0 <= i < |cut| ensures cut[i] == rows[if i < row then i else i + 1] {}
  }

  // ------------------------------------------------------------------ what the display shows

  function Cached(rows: seq<Row>): nat -> bool {
    (i: nat) => i < |rows| && rows[i].cached.Some?
  }

  function Both(p: nat -> bool, q: nat -> bool): nat -> bool {
    (i: nat) => p(i) && q(i)
  }

  /** Apart from the rows waiting to be searched anew, the display is what the searches leave
      of the master array, in master order. */
  predicate Settled(rows: seq<Row>, master: seq<nat>, display: seq<nat>, p: nat -> bool) {
    Seqs.Filter(display, Cached(rows)) == Seqs.Filter(master, Both(Cached(rows), p))
  }

  lemma SettledWhenCached(rows: seq<Row>, master: seq<nat>, display: seq<nat>, p: nat -> bool)
    requires Indexed(rows, master, display) && AllCached(rows)
    ensures Settled(rows, master, display, p) <==> display == Seqs.Filter(master, p)
  {
    assert forall x :: x in display ==> Cached(rows)(x);
    Seqs.FilterAll(display, Cached(rows));
    assert forall x :: x in master ==> Cached(rows)(x);
    Seqs.FilterCongruence(master, Both(Cached(rows), p), p);
  }

  lemma SettledAfterAdd(rows: seq<Row>, master: seq<nat>, display: seq<nat>, row: Row,
                                           p: nat -> bool, q: nat -> bool)
    requires Indexed(rows, master, display) && Settled(rows, master, display, p)
    requires row.cached.None? && forall i: nat :: i < |rows| ==> p(i) == q(i)
    ensures Indexed(rows + [row], master + [|rows|], display)
    ensures Settled(rows + [row], master + [|rows|], display, q)
  {
    var rows', n := rows + [row], |rows|;
    IndexedAfterAdd(rows, master, display, row);
    assert forall i: nat :: i < n ==> Cached(rows)(i) == Cached(rows')(i);
    hide Seqs.Filter, Seqs.Distinct;
    FilterSnoc(master, n, Both(Cached(rows'), q));
    Seqs.FilterCongruence(display, Cached(rows), Cached(rows'));
    Seqs.FilterCongruence(master, Both(Cached(rows), p), Both(Cached(rows'), q));
  }

  lemma IndexedAfterAdd(rows: seq<Row>, master: seq<nat>, display: seq<nat>, row: Row)
    requires Indexed(rows, master, display)
    ensures Indexed(rows + [row], master + [|rows|], display)
  {
    var master' := master + [|rows|];
    forall x: nat | x < |rows| + 1 ensures x in master' {
      if x == |rows| { assert master'[|master|] == x; }
    }
  }

  lemma SettledAfterInvalidate(rows: seq<Row>, master: seq<nat>, display: seq<nat>, i: nat, row: Row,
                                                  p: nat -> bool, q: nat -> bool)
    requires i < |rows| && Indexed(rows, master, display) && Settled(rows, master, display, p)
    requires row.cached.None? && forall k: nat :: k < |rows| && k != i ==> p(k) == q(k)
    ensures Settled(rows[i := row], master, display, q)
  {
    var rows', other := rows[i := row], (k: nat) => k != i;
    Seqs.FilterTwice(display, Cached(rows), other, Cached(rows'));
    Seqs.FilterTwice(master, Both(Cached(rows), p), other, Both(Cached(rows'), q));
  }

  lemma SettledAfterCut(rows: seq<Row>, master: seq<nat>, display: seq<nat>, row: nat,
                                           p: nat -> bool, q: nat -> bool)
    requires row < |rows| && Indexed(rows, master, display) && Settled(rows, master, display, p)
    requires forall x: nat :: x < |rows| && x != row ==> p(x) == q(Renumber(x, row))
    ensures Settled(CutRow(rows, row), Without(master, row), Without(display, row), q)
  {
    CutRows(rows, row);
    hide CutRow, Without;
    var rows' := CutRow(rows, row);
    WithoutFilter(display, row, Cached(rows), Cached(rows'));
    WithoutFilter(master, row, Both(Cached(rows), p), Both(Cached(rows'), q));
  }

  lemma IndexedAfterCut(rows: seq<Row>, master: seq<nat>, display: seq<nat>, row: nat)
    requires row < |rows| && Indexed(rows, master, display)
    ensures Indexed(CutRow(rows, row), Without(master, row), Without(display, row))
  {
    WithoutIsDistinct(master, row);
    WithoutIsDistinct(display, row);
    WithoutIsBelow(master, |rows|, row);
    WithoutIsBelow(display, |rows|, row);
    forall x: nat | x < |rows| - 1 ensures x in Without(master, row) {
      WithoutHas(master, row, if x < row then x else x + 1);
    }
  }

  lemma {:induction false} WithoutHas(a: seq<nat>, row: nat, y: nat)
    requires y in a && y != row
    ensures Renumber(y, row) in Without(a, row)
  {
    var last := a[|a| - 1];
    if y != last {
      assert y in a[..|a| - 1];
      WithoutHas(a[..|a| - 1], row, y);
    }
  }

  // ------------------------------------------------------------------ filtering the display

  /** Splice out, from the last to the first, the indexes a test turns down. */
  method SpliceOut(display: seq<nat>, test: nat -> bool) returns (r: seq<nat>)
    ensures r == Seqs.Filter(display, test)
  {
    r := display;
    var i := |display|;
    while i > 0
      invariant 0 <= i <= |display|
      invariant r == display[..i] + Seqs.Filter(display[i..], test)
    {
      i := i - 1;
      SpliceOne(display, i, test);
      if !test(r[i]) {
        r := r[..i] + r[i + 1..];
      }
    }
    assert display[0..] == display;
  }

  lemma SpliceOne(display: seq<nat>, i: nat, test: nat -> bool)
    requires i < |display|
    ensures var r := display[..i + 1] + Seqs.Filter(display[i + 1..], test);
            && r[i] == display[i]
            && (if test(display[i]) then r else r[..i] + r[i + 1..]) == display[..i] + Seqs.Filter(display[i..], test)
  {
    var rest := display[i + 1..];
    assert display[i..] == [display[i]] + rest;
    Seqs.FilterAppend([display[i]], rest, test);
    assert Seqs.Filter([display[i]], test) == if test(display[i]) then [display[i]] else [] by {
      assert [display[i]][..0] == [];
    }
    hide Seqs.Filter;
    AroundOne(display, i, Seqs.Filter(rest, test));
  }

  lemma AroundOne(a: seq<nat>, i: nat, tail: seq<nat>)
    requires i < |a|
    ensures var r := a[..i + 1] + tail;
            r[i] == a[i] && r == a[..i] + ([a[i]] + tail) && r[..i] + r[i + 1..] == a[..i] + ([] + tail)
  {
    var r := a[..i + 1] + tail;
    assert r[..i] == a[..i] && r[i + 1..] == tail && [] + tail == tail;
  }

  function TestAt(rows: seq<Row>, test: Test): nat -> bool {
    (i: nat) => i < |rows| && test(rows[i].content)
  }

  function TestsAt(rows: seq<Row>, tests: seq<Test>): nat -> bool {
    (i: nat) => i < |rows| && AllPass(tests, rows[i].content)
  }

  lemma AllPassSnoc(tests: seq<Test>, test: Test, c: Content)
    ensures AllPass(tests + [test], c) <==> AllPass(tests, c) && test(c)
  {
    var ts := tests + [test];
    assert ts[|tests|] == test;
    assert forall k :: 0 <= k < |tests| ==> ts[k] == tests[k];
  }

  lemma TestsStep(rows: seq<Row>, display: seq<nat>, tests: seq<Test>, k: nat)
    requires k < |tests|
    ensures Seqs.Filter(Seqs.Filter(display, TestsAt(rows, tests[..k])), TestAt(rows, tests[k])) ==
            Seqs.Filter(display, TestsAt(rows, tests[..k + 1]))
  {
    assert tests[..k + 1] == tests[..k] + [tests[k]];
    forall i: nat | i < |rows|
      ensures TestsAt(rows, tests[..k + 1])(i) == (TestsAt(rows, tests[..k])(i) && TestAt(rows, tests[k])(i))
    {
      AllPassSnoc(tests[..k], tests[k], rows[i].content);
    }
    Seqs.FilterTwice(display, TestsAt(rows, tests[..k]), TestAt(rows, tests[k]), TestsAt(rows, tests[..k + 1]));
  }

  lemma NoTests(rows: seq<Row>, display: seq<nat>, tests: seq<Test>)
    requires Below(display, |rows|)
    ensures Seqs.Filter(display, TestsAt(rows, tests[..0])) == display
  {
    assert forall x :: x in display ==> TestsAt(rows, tests[..0])(x);
    Seqs.FilterAll(display, TestsAt(rows, tests[..0]));
  }

  /** One pass over the display for each test; for the column searches and the custom ones. */
  method FilterByTests(rows: seq<Row>, display: seq<nat>, tests: seq<Test>) returns (r: seq<nat>)
    requires Below(display, |rows|)
    ensures r == Seqs.Filter(display, TestsAt(rows, tests))
  {
    r := display;
    var k := 0;
    NoTests(rows, display, tests);
    hide AllPass, TestsAt, TestAt, Seqs.Filter;
    while k < |tests|
      invariant 0 <= k <= |tests|
      invariant r == Seqs.Filter(display, TestsAt(rows, tests[..k]))
    {
      TestsStep(rows, display, tests, k);
      r := SpliceOut(r, TestAt(rows, tests[k]));
      k := k + 1;
    }
    assert tests[..|tests|] == tests;
  }

  /** _fnFilterData: fill in the cache of each row without one, and say if there was such a row. */
  method FilterData(rows: seq<Row>) returns (r: seq<Row>, wasInvalidated: bool)
    requires CachesRight(rows)
    ensures |r| == |rows| && AllCached(r) && CachesRight(r)
    ensures forall i :: 0 <= i < |rows| ==> r[i].content == rows[i].content && r[i].node == rows[i].node
    ensures wasInvalidated <==> !AllCached(rows)
    ensures !wasInvalidated ==> r == rows
  {
    r, wasInvalidated := rows, false;
    var i := 0;
    while i < |rows|
      invariant 0 <= i <= |rows| == |r|
      invariant forall k :: 0 <= k < |rows| ==> r[k] == if k < i then rows[k].(cached := Some(rows[k].content.text)) else rows[k]
      invariant wasInvalidated <==> exists k :: 0 <= k < i && rows[k].cached.None?
    {
      if r[i].cached.None? {
        r := r[i := r[i].(cached := Some(r[i].content.text))];
        wasInvalidated := true;
      }
      i := i + 1;
    }
  }

  function SearchAt(rows: seq<Row>, search: string, o: TableSearch.Options): nat -> bool {
    (i: nat) => i < |rows| && rows[i].cached.Some? && TableSearch.Matches(rows[i].cached.value, search, o)
  }

  /** The searches done one after the other are the one test of all of them. */
  lemma SearchesCombine(rows: seq<Row>, master: seq<nat>, search: string, o: TableSearch.Options,
                                           columns: seq<Test>, custom: seq<Test>)
    requires Below(master, |rows|) && AllCached(rows) && CachesRight(rows)
    ensures Seqs.Filter(Seqs.Filter(Seqs.Filter(master, SearchAt(rows, search, o)), TestsAt(rows, columns)), TestsAt(rows, custom))
            == Seqs.Filter(master, Shown(rows, search, o, columns, custom))
  {
    hide TableSearch.Matches, AllPass;
    var first := Both(SearchAt(rows, search, o), TestsAt(rows, columns));
    Seqs.FilterTwice(master, SearchAt(rows, search, o), TestsAt(rows, columns), first);
    Seqs.FilterTwice(master, first, TestsAt(rows, custom), Shown(rows, search, o, columns, custom));
  }

  /** Narrowing what the previous search left gives what searching from scratch would give. */
  lemma NarrowingIsEnough(rows: seq<Row>, master: seq<nat>, prev: string, search: string,
                                             o: TableSearch.Options, columns: seq<Test>, custom: seq<Test>)
    requires Below(master, |rows|) && AllCached(rows) && CachesRight(rows)
    requires prev <= search && !TableSearch.Throws(prev, o)
    ensures Seqs.Filter(Seqs.Filter(Seqs.Filter(master, Shown(rows, prev, o, columns, custom)), SearchAt(rows, search, o)),
                        TestsAt(rows, columns))
            == Seqs.Filter(master, Shown(rows, search, o, columns, custom))
  {
    forall i: nat | i < |rows| && SearchAt(rows, search, o)(i) ensures TableSearch.Matches(rows[i].content.text, prev, o) {
      TableSearch.Monotone(rows[i].content.text, prev, search, o);
    }
    hide TableSearch.Matches, AllPass;
    var first := Both(Shown(rows, prev, o, columns, custom), SearchAt(rows, search, o));
    Seqs.FilterTwice(master, Shown(rows, prev, o, columns, custom), SearchAt(rows, search, o), first);
    Seqs.FilterTwice(master, first, TestsAt(rows, columns), Shown(rows, search, o, columns, custom));
  }

  /** Every row the text and column searches accept passes these tests as well. */
  ghost predicate NothingHeldBack(rows: seq<Row>, search: string, o: TableSearch.Options, columns: seq<Test>, applied: seq<Test>) {
    forall x: nat :: x < |rows| && Shown(rows, search, o, columns, [])(x) ==> AllPass(applied, rows[x].content)
  }

  /** A display that still shows the verdict of custom functions taken away is right exactly when
      these functions hold back no row. */
  lemma StaleIsRight(rows: seq<Row>, master: seq<nat>, search: string, o: TableSearch.Options,
                     columns: seq<Test>, applied: seq<Test>)
    requires forall x: nat :: x < |rows| ==> x in master
    ensures Seqs.Filter(master, Shown(rows, search, o, columns, applied)) == Seqs.Filter(master, Shown(rows, search, o, columns, []))
        <==> NothingHeldBack(rows, search, o, columns, applied)
  {
    hide AllPass, TableSearch.Matches;
    var stale, present := Shown(rows, search, o, columns, applied), Shown(rows, search, o, columns, []);
    NoTestsPass(rows);
    if NothingHeldBack(rows, search, o, columns, applied) {
      Seqs.FilterCongruence(master, stale, present);
    } else {
      var x: nat :| x < |rows| && present(x) && !AllPass(applied, rows[x].content);
      assert x in Seqs.Filter(master, present) && x !in Seqs.Filter(master, stale);
    }
  }

  lemma NoTestsPass(rows: seq<Row>)
    ensures forall x: nat :: x < |rows| ==> AllPass([], rows[x].content)
  {
  }

  /** A sorted master array by the values of its rows: by the first column of the order. */
  lemma SortedContents(rows: seq<Row>, r: seq<nat>, s: seq<nat>, sorts: seq<TableSort.Sort>, i: nat, j: nat)
    requires TableSort.Rows(s, |rows|) && TableSort.Uniform(sorts, ValueIn(rows), |rows|)
    requires TableSort.IsSortOf(r, s, sorts, ValueIn(rows)) && i < j < |r| && r[i] < |rows| && r[j] < |rows| && sorts != []
    requires sorts[0].col < |rows[r[i]].content.values| && sorts[0].col < |rows[r[j]].content.values|
    ensures var x, y := rows[r[i]].content.values[sorts[0].col], rows[r[j]].content.values[sorts[0].col];
            if sorts[0].dir.Asc? then !TableSort.Less(y, x) else !TableSort.Less(x, y)
  {
    TableSort.SortMeaning(r, s, |rows|, sorts, ValueIn(rows), i, j, 0);
  }
}
