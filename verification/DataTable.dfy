/** A DataTable with client-side data, as the functions of the source update it in place. */
module DataTable {
  import opened TableIndex
  import opened T = Table
  import TableSort
  import TableSearch
  import Paging
  import Seqs
  import opened Wrappers

  class Settings {
    var aoData: seq<Row>
    var aiDisplayMaster: seq<nat>
    var aiDisplay: seq<nat>
    var oPreviousSearch: string
    var options: TableSearch.Options  // bSmart and bCaseInsensitive of the previous search
    var columnTests: seq<Test>        // the column searches that are not empty
    var customTests: seq<Test>        // DataTable.ext.search
    var aSort: seq<TableSort.Sort>
    var bSorted: bool
    var iDisplayStart: int
    const iDisplayLength: int
    const bPaginate: bool
    /** The custom functions whose verdict the display still shows. */
    ghost var applied: seq<Test>

    ghost function ShownNow(): nat -> bool
      reads this
    {
      Shown(aoData, oPreviousSearch, options, columnTests, applied)
    }

    ghost predicate Valid()
      reads this
    {
      && Indexed(aoData, aiDisplayMaster, aiDisplay)
      && Numbered(aoData) && CachesRight(aoData)
      && Settled(aoData, aiDisplayMaster, aiDisplay, ShownNow())
      && !TableSearch.Throws(oPreviousSearch, options)
      && iDisplayStart >= 0 && (iDisplayLength >= 1 || iDisplayLength == -1)
    }

    constructor (options: TableSearch.Options, length: int, paginate: bool)
      requires length >= 1 || length == -1
      ensures Valid() && aoData == [] && aiDisplayMaster == [] && aiDisplay == [] && oPreviousSearch == ""
      ensures this.options == options && columnTests == [] && customTests == [] && applied == [] && !bSorted
    {
      aoData, aiDisplayMaster, aiDisplay, oPreviousSearch := [], [], [], "";
      this.options, columnTests, customTests, applied := options, [], [], [];
      aSort, bSorted, iDisplayStart, iDisplayLength, bPaginate := [], false, 0, length, paginate;
    }

    function Page(): Paging.Page
      reads this
    {
      Paging.Page(iDisplayStart, iDisplayLength, |aiDisplay|, bPaginate)
    }

    /** _fnAddData. The row is not displayed before the next search. */
    method AddData(content: Content, deferRender: bool) returns (iRow: nat)
      requires Valid()
      modifies this`aoData, this`aiDisplayMaster
      ensures Valid() && iRow == |old(aoData)|
      ensures aoData == old(aoData) + [Row(content, if deferRender then None else Some(iRow), None)]
      ensures aiDisplayMaster == old(aiDisplayMaster) + [iRow]
    {
      iRow := |aoData|;
      var row := Row(content, if deferRender then None else Some(iRow), None);
      SettledAfterAdd(aoData, aiDisplayMaster, aiDisplay, row, ShownNow(),
                      Shown(aoData + [row], oPreviousSearch, options, columnTests, applied));
      AddedRow(aoData, row);
      hide Settled, Shown, Indexed, Numbered, CachesRight;
      aoData := aoData + [row];
      aiDisplayMaster := aiDisplayMaster + [iRow];
    }

    /** A row's data has changed: _fnInvalidateRow drops what is cached for it. */
    method InvalidateRow(i: nat, content: Content)
      requires Valid() && i < |aoData|
      modifies this`aoData
      ensures Valid() && aoData == old(aoData)[i := old(aoData)[i].(content := content, cached := None)]
    {
      var row := aoData[i].(content := content, cached := None);
      SettledAfterInvalidate(aoData, aiDisplayMaster, aiDisplay, i, row, ShownNow(),
                             Shown(aoData[i := row], oPreviousSearch, options, columnTests, applied));
      aoData := aoData[i := row];
    }

    /** rows().remove(), over the list of indexes of a selection. */
    method RemoveRows(items: seq<nat>)
      requires Valid() && Targets(items, |aoData|)
      modifies this`aoData, this`aiDisplayMaster, this`aiDisplay, this`iDisplayStart
      ensures Valid()
      ensures aiDisplayMaster == Removals(items, old(aiDisplayMaster))
      ensures aiDisplay == Removals(items, old(aiDisplay))
      ensures Bare(aoData) == RowsLeft(items, Bare(old(aoData)))
      ensures items != [] ==> iDisplayStart <= |aiDisplay|
    {
      hide Settled, Indexed, Numbered, CachesRight, Targets, Removals, RowsLeft, Bare, Renumbered;
      var that := items;
      var j := 0;
      assert items[0..] == items;
      while j < |items|
        invariant 0 <= j <= |items| == |that|
        invariant Valid() && Targets(that[j..], |aoData|)
        invariant Removals(that[j..], aiDisplayMaster) == Removals(items, old(aiDisplayMaster))
        invariant Removals(that[j..], aiDisplay) == Removals(items, old(aiDisplay))
        invariant RowsLeft(that[j..], Bare(aoData)) == RowsLeft(items, Bare(old(aoData)))
        invariant j > 0 ==> iDisplayStart <= |aiDisplay|
      {
        ghost var rest := that[j..];
        TailTargets(rest, |aoData|);
        FirstTarget(rest, |aoData|);
        RemovalStep(rest, aiDisplayMaster);
        RemovalStep(rest, aiDisplay);
        RowsLeftStep(rest, aoData);
        var row := that[j];
        RemoveRow(row);
        that := that[..j] + Renumbered(that[j..], row);
        j := j + 1;
        RenumberedTail(rest, row);
        assert that[j..] == Renumbered(rest, row)[1..];
      }
      NothingLeft(that[j..], aiDisplayMaster, aiDisplay, Bare(aoData));
    }

    method RemoveRow(row: nat)
      requires Valid() && row < |aoData|
      modifies this`aoData, this`aiDisplayMaster, this`aiDisplay, this`iDisplayStart
      ensures Valid() && aoData == CutRow(old(aoData), row)
      ensures aiDisplayMaster == Without(old(aiDisplayMaster), row) && aiDisplay == Without(old(aiDisplay), row)
      ensures iDisplayStart <= |aiDisplay|
    {
      CutOut(row);
      hide Settled, Shown, Indexed, Numbered, CachesRight, CutRow, Without;
      Paging.OverflowRestoresRange(Page());
      iDisplayStart := Paging.Overflow(Page());
    }

    method CutOut(row: nat)
      requires Valid() && row < |aoData|
      modifies this`aoData, this`aiDisplayMaster, this`aiDisplay
      ensures Valid() && aoData == CutRow(old(aoData), row)
      ensures aiDisplayMaster == Without(old(aiDisplayMaster), row) && aiDisplay == Without(old(aiDisplay), row)
    {
      assert Seqs.Distinct(aiDisplayMaster) && Seqs.Distinct(aiDisplay);
      hide Settled, Shown, Indexed, Numbered, CachesRight, CutRow, Without, Seqs.Distinct;
      CutKeepsAll(aoData, aiDisplayMaster, aiDisplay, row, oPreviousSearch, options, columnTests, applied);
      var rows := CutRow(aoData, row);
      var master := DeleteIndex(aiDisplayMaster, row, false);
      var display := DeleteIndex(aiDisplay, row, false);
      aoData, aiDisplayMaster, aiDisplay := rows, master, display;
    }

    /** _fnSort: the master array in the order of the sorted columns, rows equal in all of them
        as they stood. */
    method Sort()
      requires Indexed(aoData, aiDisplayMaster, aiDisplay)
      requires TableSort.Uniform(aSort, ValueIn(aoData), |aoData|)
      modifies this`aiDisplayMaster, this`bSorted
      ensures bSorted && Indexed(aoData, aiDisplayMaster, aiDisplay)
      ensures TableSort.IsSortOf(aiDisplayMaster, old(aiDisplayMaster), aSort, ValueIn(aoData))
      ensures aSort != [] ==>
        forall i, j :: 0 <= i < j < |aiDisplayMaster| ==> InOrder(aoData, aSort[0], aiDisplayMaster[i], aiDisplayMaster[j])
    {
      var before := aiDisplayMaster;
      if |aSort| != 0 {
        var orig := OriginalPositions(before);
        aiDisplayMaster := TableSort.SortRows(before, |aoData|, aSort, ValueIn(aoData), orig);
      } else {
        UnsortedIsSorted(before, ValueIn(aoData));
      }
      SortedIsIndexed(aoData, before, aiDisplay, aiDisplayMaster, aSort);
      if aSort != [] {
        forall i, j | 0 <= i < j < |aiDisplayMaster| ensures InOrder(aoData, aSort[0], aiDisplayMaster[i], aiDisplayMaster[j]) {
          AscendingOrNot(aoData, aiDisplayMaster, before, aSort, i, j);
        }
      }
      bSorted := true;
    }

    /** The test of _fnFilter for starting again from the master array. */
    predicate StartsOver(input: string, invalidated: bool, force: bool)
      reads this
    {
      || invalidated || force || |customTests| != 0
      || |oPreviousSearch| > |input| || !(oPreviousSearch <= input) || bSorted
    }

    /** Whether the display is what the present searches leave of the master array. */
    ghost predicate ShowsPresent()
      reads this
    {
      aiDisplay == Seqs.Filter(aiDisplayMaster, Shown(aoData, oPreviousSearch, options, columnTests, customTests))
    }

    /** _fnFilterComplete; a search that cannot be built throws before anything is changed. The
        callers that change the options or the column searches force a search of all rows. A
        search of all rows shows what all searches accept; narrowing keeps what custom functions,
        taken away since, had held back, and is right exactly when they held back nothing. */
    method FilterComplete(input: string, newOptions: TableSearch.Options, force: bool) returns (threw: bool)
      requires Indexed(aoData, aiDisplayMaster, aiDisplay) && Numbered(aoData) && CachesRight(aoData)
      requires iDisplayStart >= 0 && (iDisplayLength >= 1 || iDisplayLength == -1)
      requires !TableSearch.Throws(oPreviousSearch, options)
      requires force || (newOptions == options && (bSorted || Settled(aoData, aiDisplayMaster, aiDisplay, ShownNow())))
      modifies this`aoData, this`aiDisplay, this`oPreviousSearch, this`options, this`applied
      ensures threw <==> TableSearch.Throws(input, newOptions)
      ensures threw ==> unchanged(this)
      ensures !threw ==>
        && Valid() && AllCached(aoData) && Contents(aoData) == old(Contents(aoData))
        && oPreviousSearch == input && options == newOptions
        && aiDisplay == Seqs.Filter(aiDisplayMaster, ShownNow())
        && applied == if input == "" || old(StartsOver(input, !AllCached(aoData), force)) then customTests else old(applied)
      ensures !threw ==> forall x: nat :: x in aiDisplay <==> Passes(aoData, x, input, newOptions, columnTests + applied)
      ensures !threw ==>
        (ShowsPresent() <==>
          || input == "" || old(StartsOver(input, !AllCached(aoData), force))
          || NothingHeldBack(aoData, input, newOptions, columnTests, old(applied)))
    {
      hide Settled, Shown, CachesRight, AllCached, Numbered, Contents, Seqs.Filter, Seqs.Distinct, Below, NothingHeldBack, Passes;
      threw := CannotSearch(input, newOptions);
      if threw { return; }
      var rows, invalidated := FilterData(aoData);
      var over := StartsOver(input, invalidated, force);
      BelowRows(rows, aiDisplayMaster, aiDisplay);
      if !over {
        SettledWhenCached(rows, aiDisplayMaster, aiDisplay, ShownNow());
      }
      var display := FilterDisplay(rows, aiDisplayMaster, aiDisplay, over, input, oPreviousSearch, newOptions,
                                   columnTests, customTests, applied);
      SameContents(aoData, rows);
      StaleIsRight(rows, aiDisplayMaster, input, newOptions, columnTests, applied);
      if input == "" || over { applied := customTests; }
      aoData, aiDisplay, oPreviousSearch, options := rows, display, input, newOptions;
      FilteredIsValid(aoData, aiDisplayMaster, aiDisplay, ShownNow());
      PassingAreShown(aoData, aiDisplayMaster, aiDisplay, input, newOptions, columnTests, applied);
    }

    /** The end of _fnDraw. */
    method Draw()
      requires Valid()
      modifies this`bSorted
      ensures Valid() && !bSorted
    {
      bSorted := false;
    }

    /** _fnReDraw: sort, search all rows again, go to the first page, draw. */
    method ReDraw(holdPosition: bool)
      requires Valid() && TableSort.Uniform(aSort, ValueIn(aoData), |aoData|)
      modifies this`aoData, this`aiDisplayMaster, this`aiDisplay, this`applied, this`bSorted, this`iDisplayStart,
               this`oPreviousSearch, this`options
      ensures Valid() && !bSorted
      ensures TableSort.IsSortOf(aiDisplayMaster, old(aiDisplayMaster), aSort, ValueIn(old(aoData)))
      ensures aiDisplay == Seqs.Filter(aiDisplayMaster, Shown(aoData, oPreviousSearch, options, columnTests, customTests))
      ensures oPreviousSearch == old(oPreviousSearch) && options == old(options)
      ensures !holdPosition ==> iDisplayStart == 0
    {
      hide Settled, Shown, Indexed, Numbered, CachesRight, AllCached, Contents, TableSort.Uniform, TableSort.IsSortOf, Seqs.Filter;
      Sort();
      var threw := FilterComplete(oPreviousSearch, options, false);
      assert !threw;
      if !holdPosition {
        iDisplayStart := 0;
      }
      Draw();
    }

    method DrawFirstPage()
      requires Valid()
      modifies this`iDisplayStart, this`bSorted
      ensures Valid() && iDisplayStart == 0 && !bSorted
      ensures ShownNow() == old(ShownNow()) && ShowsPresent() == old(ShowsPresent())
    {
      hide Settled, Shown, Seqs.Filter, Numbered, CachesRight, Indexed;
      iDisplayStart := 0;
      Draw();
    }

    /** Typing in the search box. */
    method TypeSearch(input: string) returns (threw: bool)
      requires Valid()
      modifies this`aoData, this`aiDisplay, this`applied, this`bSorted, this`iDisplayStart, this`oPreviousSearch, this`options
      ensures threw <==> TableSearch.Throws(input, options)
      ensures threw || input == old(oPreviousSearch) ==> unchanged(this)
      ensures Valid() && options == old(options) && (!threw ==> oPreviousSearch == input)
      ensures !threw && input != old(oPreviousSearch) ==>
        && AllCached(aoData) && !bSorted && iDisplayStart == 0 && Contents(aoData) == old(Contents(aoData))
        && aiDisplay == Seqs.Filter(aiDisplayMaster, ShownNow())
        && applied == if input == "" || old(StartsOver(input, !AllCached(aoData), false)) then customTests else old(applied)
      ensures !threw && input != old(oPreviousSearch) ==>
        (ShowsPresent() <==>
          || input == "" || old(StartsOver(input, !AllCached(aoData), false))
          || NothingHeldBack(aoData, input, options, columnTests, old(applied)))
    {
      threw := false;
      if input != oPreviousSearch {
        hide Settled, Shown, Seqs.Filter, Numbered, CachesRight, Indexed, Contents, AllCached, NothingHeldBack;
        threw := FilterComplete(input, options, false);
        if threw { return; }
        hide ShownNow, ShowsPresent, Valid, StartsOver;
        DrawFirstPage();
      }
    }

    /** The search() method of the API. */
    method Search(input: string, newOptions: TableSearch.Options) returns (threw: bool)
      requires Valid()
      modifies this`aoData, this`aiDisplay, this`applied, this`oPreviousSearch, this`options
      ensures threw <==> TableSearch.Throws(input, newOptions)
      ensures threw ==> unchanged(this)
      ensures Valid()
      ensures !threw ==> oPreviousSearch == input && options == newOptions && ShowsPresent()
    {
      threw := FilterComplete(input, newOptions, true);
    }

    /** The search() method of a column. */
    method SearchColumns(tests: seq<Test>)
      requires Valid()
      modifies this`aoData, this`aiDisplay, this`applied, this`oPreviousSearch, this`options, this`columnTests
      ensures Valid() && columnTests == tests && oPreviousSearch == old(oPreviousSearch) && options == old(options)
      ensures ShowsPresent()
    {
      columnTests := tests;
      var threw := FilterComplete(oPreviousSearch, options, true);
      assert !threw;
    }

    /** A page changes DataTable.ext.search. */
    method SetCustom(tests: seq<Test>)
      requires Valid()
      modifies this`customTests
      ensures Valid() && customTests == tests
    {
      customTests := tests;
    }

    method SetOrder(sorts: seq<TableSort.Sort>)
      requires Valid()
      modifies this`aSort
      ensures Valid() && aSort == sorts
    {
      aSort := sorts;
    }

    /** _fnPageChange. */
    method PageChange(action: Paging.Action) returns (changed: bool)
      requires Valid()
      modifies this`iDisplayStart
      ensures iDisplayStart == Paging.Change(old(Page()), action)
      ensures changed <==> iDisplayStart != old(iDisplayStart)
      ensures Valid() <==> !(action.Number? && action.n < 0 && iDisplayLength >= 1 && |aiDisplay| > 0)
      ensures action.Next? && bPaginate && iDisplayLength >= 1 && |aiDisplay| > 0 ==>
        if changed then iDisplayStart == old(Paging.DisplayEnd(Page())) else Paging.DisplayEnd(Page()) == |aiDisplay|
      ensures action.Previous? && iDisplayLength >= 1 && |aiDisplay| > 0 ==>
        iDisplayStart == if old(iDisplayStart) < iDisplayLength then 0 else old(iDisplayStart) - iDisplayLength
      ensures action.First? ==> iDisplayStart == 0
      ensures action.Unknown? && iDisplayLength >= 1 && |aiDisplay| > 0 ==> !changed
      ensures action.Last? && iDisplayLength >= 1 && |aiDisplay| > 0 ==> iDisplayStart < |aiDisplay| <= iDisplayStart + iDisplayLength
      ensures |aiDisplay| == 0 ==> iDisplayStart == 0
    {
      hide Settled, Shown, Indexed, Numbered, CachesRight;
      var start, len, records := iDisplayStart, iDisplayLength, |aiDisplay|;
      if records == 0 || len == -1 {
        start := 0;
      } else {
        match action {
          case Number(n) =>
            start := n * len;
            if start > records { start := 0; }
          case First =>
            start := 0;
          case Previous =>
            start := if len >= 0 then start - len else 0;
            if start < 0 { start := 0; }
          case Next =>
            if start + len < records { start := start + len; }
          case Last =>
            Paging.DivisionBound(records - 1, len);
            start := Paging.FloorDiv(records - 1, len) * len;
          case Unknown =>
        }
      }
      Paging.ChangeIsNatural(Page(), action);
      changed := iDisplayStart != start;
      iDisplayStart := start;
    }
  }

  /** The row is there, its text matches the search and every test accepts what it holds. */
  predicate Passes(rows: seq<Row>, x: nat, search: string, o: TableSearch.Options, tests: seq<Test>) {
    x < |rows| && TableSearch.Matches(rows[x].content.text, search, o) &&
    forall t :: 0 <= t < |tests| ==> tests[t](rows[x].content)
  }

  lemma PassingAreShown(rows: seq<Row>, master: seq<nat>, display: seq<nat>, search: string, o: TableSearch.Options,
                        columns: seq<Test>, applied: seq<Test>)
    requires forall x: nat :: x < |rows| ==> x in master
    requires display == Seqs.Filter(master, Shown(rows, search, o, columns, applied))
    ensures forall x: nat :: x in display <==> Passes(rows, x, search, o, columns + applied)
  {
    forall x: nat ensures x in display <==> Passes(rows, x, search, o, columns + applied) {
      if x < |rows| {
        var c, tests := rows[x].content, columns + applied;
        assert (forall t :: 0 <= t < |tests| ==> tests[t](c)) <==> AllPass(columns, c) && AllPass(applied, c) by {
          assert forall t :: 0 <= t < |columns| ==> tests[t] == columns[t];
          assert forall t :: 0 <= t < |applied| ==> tests[|columns| + t] == applied[t];
        }
      }
    }
  }

  /** By their values in the column of the sort, the first row may stand before the second. */
  predicate InOrder(rows: seq<Row>, sort: TableSort.Sort, first: nat, second: nat) {
    first < |rows| && second < |rows| &&
    sort.col < |rows[first].content.values| && sort.col < |rows[second].content.values| ==>
      var x, y := rows[first].content.values[sort.col], rows[second].content.values[sort.col];
      if sort.dir.Asc? then !TableSort.Less(y, x) else !TableSort.Less(x, y)
  }

  lemma AscendingOrNot(rows: seq<Row>, r: seq<nat>, s: seq<nat>, sorts: seq<TableSort.Sort>, i: nat, j: nat)
    requires TableSort.Rows(s, |rows|) && TableSort.Uniform(sorts, ValueIn(rows), |rows|)
    requires TableSort.IsSortOf(r, s, sorts, ValueIn(rows)) && i < j < |r| && sorts != []
    ensures InOrder(rows, sorts[0], r[i], r[j])
  {
    var first, second, c := r[i], r[j], sorts[0].col;
    if first < |rows| && second < |rows| && c < |rows[first].content.values| && c < |rows[second].content.values| {
      SortedContents(rows, r, s, sorts, i, j);
    }
  }

  /** Whether _fnFilterCreateSearch throws on the search. */
  method CannotSearch(input: string, o: TableSearch.Options) returns (throws: bool)
    ensures throws <==> TableSearch.Throws(input, o)
  {
    if !o.smart { return false; }
    var words := TableSearch.SearchWords(input);
    return words.None?;
  }

  /** Deleting a row keeps all that is said of the rows and the two arrays. */
  lemma CutKeepsAll(rows: seq<Row>, master: seq<nat>, display: seq<nat>, row: nat, search: string,
                    o: TableSearch.Options, columns: seq<Test>, applied: seq<Test>)
    requires row < |rows| && Indexed(rows, master, display) && CachesRight(rows)
    requires Settled(rows, master, display, Shown(rows, search, o, columns, applied))
    ensures Indexed(CutRow(rows, row), Without(master, row), Without(display, row))
    ensures Numbered(CutRow(rows, row)) && CachesRight(CutRow(rows, row))
    ensures Settled(CutRow(rows, row), Without(master, row), Without(display, row),
                    Shown(CutRow(rows, row), search, o, columns, applied))
  {
    hide Settled, Indexed, Numbered, CachesRight, CutRow, Without, Accepts;
    forall x: nat | x < |rows| && x != row
      ensures Shown(rows, search, o, columns, applied)(x) ==
              Shown(CutRow(rows, row), search, o, columns, applied)(Renumber(x, row))
    {
      CutKeepsShown(rows, row, x, search, o, columns, applied);
    }
    SettledAfterCut(rows, master, display, row, Shown(rows, search, o, columns, applied),
                    Shown(CutRow(rows, row), search, o, columns, applied));
    IndexedAfterCut(rows, master, display, row);
    CutRows(rows, row);
  }

  /** The three searches over the display, or over the master array when starting over. */
  method FilterDisplay(rows: seq<Row>, master: seq<nat>, display: seq<nat>, over: bool, input: string, prev: string,
                       o: TableSearch.Options, columns: seq<Test>, custom: seq<Test>, ghost applied: seq<Test>)
    returns (r: seq<nat>)
    requires AllCached(rows) && CachesRight(rows) && Below(master, |rows|) && Below(display, |rows|)
    requires !over ==> prev <= input && custom == [] && !TableSearch.Throws(prev, o) &&
                       display == Seqs.Filter(master, Shown(rows, prev, o, columns, applied))
    ensures r == Seqs.Filter(master, Shown(rows, input, o, columns, if input == "" || over then custom else applied))
  {
    var start := if |input| <= 0 || over then master else display;
    if |input| <= 0 {
      r := start;
      EmptySearch(rows, master, o);
    } else {
      r := SpliceOut(start, SearchAt(rows, input, o));
    }
    FilterBelow(start, SearchAt(rows, input, o), |rows|);
    hide Shown, SearchAt, TestsAt, Seqs.Filter, AllCached, CachesRight, Below;
    ghost var searched := r;
    FilterBelow(searched, TestsAt(rows, columns), |rows|);
    r := FilterByTests(rows, r, columns);
    ghost var byColumns := r;
    r := FilterByTests(rows, r, custom);
    if input == "" || over {
      SearchesCombine(rows, master, input, o, columns, custom);
    } else {
      NarrowingIsEnough(rows, master, prev, input, o, columns, applied);
      NoTestsAtAll(rows, byColumns);
    }
  }

  lemma NoTestsAtAll(rows: seq<Row>, display: seq<nat>)
    requires Below(display, |rows|)
    ensures Seqs.Filter(display, TestsAt(rows, [])) == display
  {
    NoTests(rows, display, []);
  }

  lemma SameContents(rows: seq<Row>, filled: seq<Row>)
    requires |rows| == |filled| && Numbered(rows)
    requires forall i :: 0 <= i < |rows| ==> filled[i].content == rows[i].content && filled[i].node == rows[i].node
    ensures Contents(filled) == Contents(rows) && Numbered(filled)
  {
  }

  /** The rows without their nodes. */
  function Bare(rows: seq<Row>): (r: seq<(Content, Option<string>)>)
    ensures |r| == |rows| && forall i :: 0 <= i < |rows| ==> r[i] == (rows[i].content, rows[i].cached)
  {
    seq(|rows|, i requires 0 <= i < |rows| => (rows[i].content, rows[i].cached))
  }

  lemma FirstTarget(items: seq<nat>, n: nat)
    requires items != [] && Targets(items, n)
    ensures items[0] < n
  {
  }

  lemma RemovalStep(items: seq<nat>, a: seq<nat>)
    requires items != []
    ensures Removals(items, a) == Removals(Renumbered(items[1..], items[0]), Without(a, items[0]))
  {
  }

  lemma RenumberedTail(items: seq<nat>, row: nat)
    requires items != []
    ensures |Renumbered(items, row)| == |items| && Renumbered(items, row)[1..] == Renumbered(items[1..], row)
  {
  }

  lemma RowsLeftStep(items: seq<nat>, rows: seq<Row>)
    requires items != [] && Targets(items, |rows|)
    ensures RowsLeft(items, Bare(rows)) == RowsLeft(Renumbered(items[1..], items[0]), Bare(CutRow(rows, items[0])))
  {
    var row := items[0];
    assert Bare(CutRow(rows, row)) == Bare(rows)[..row] + Bare(rows)[row + 1..];
  }

  lemma NothingLeft<T>(items: seq<nat>, a: seq<nat>, b: seq<nat>, rows: seq<T>)
    requires items == []
    ensures Removals(items, a) == a && Removals(items, b) == b && RowsLeft(items, rows) == rows
  {
  }

  function Contents(rows: seq<Row>): (r: seq<(Content, Option<nat>)>)
    ensures |r| == |rows| && forall i :: 0 <= i < |rows| ==> r[i] == (rows[i].content, rows[i].node)
  {
    seq(|rows|, i requires 0 <= i < |rows| => (rows[i].content, rows[i].node))
  }

  /** aiOrig: the position of each row in the master array. */
  method OriginalPositions(master: seq<nat>) returns (orig: nat -> int)
    requires Seqs.Distinct(master)
    ensures forall x :: x in master ==> orig(x) == TableSort.PositionIn(master)(x)
  {
    var aiOrig: map<nat, int> := map[];
    var i := 0;
    while i < |master|
      invariant 0 <= i <= |master|
      invariant forall k :: 0 <= k < i ==> master[k] in aiOrig && aiOrig[master[k]] == k
    {
      aiOrig := aiOrig[master[i] := i];
      i := i + 1;
    }
    forall x | x in master ensures x in aiOrig && aiOrig[x] == TableSort.PositionIn(master)(x) {
      var k :| 0 <= k < |master| && master[k] == x;
      TableSort.PositionOfElement(master, k);
    }
    orig := (x: nat) => if x in aiOrig then aiOrig[x] else -1;
  }

  lemma UnsortedIsSorted(s: seq<nat>, values: TableSort.Values)
    requires Seqs.Distinct(s)
    ensures TableSort.IsSortOf(s, s, [], values)
  {
    forall i, j | 0 <= i < j < |s| ensures TableSort.Precedes([], values, TableSort.PositionIn(s), s[i], s[j]) {
      TableSort.PositionOfElement(s, i);
      TableSort.PositionOfElement(s, j);
    }
  }

  lemma SortedIsIndexed(rows: seq<Row>, before: seq<nat>, display: seq<nat>, after: seq<nat>,
                                           sorts: seq<TableSort.Sort>)
    requires Indexed(rows, before, display) && TableSort.Uniform(sorts, ValueIn(rows), |rows|)
    requires TableSort.IsSortOf(after, before, sorts, ValueIn(rows))
    ensures Indexed(rows, after, display)
  {
    TableSort.SameRows(after, before);
    TableSort.SortedIsDistinct(after, before, |rows|, sorts, ValueIn(rows));
    forall i | 0 <= i < |after| ensures after[i] < |rows| {
      assert after[i] in after;
    }
  }

  lemma BelowRows(rows: seq<Row>, master: seq<nat>, display: seq<nat>)
    requires TableSort.Rows(master, |rows|) && TableSort.Rows(display, |rows|)
    ensures Below(master, |rows|) && Below(display, |rows|)
  {
  }

  lemma FilterBelow(a: seq<nat>, p: nat -> bool, n: nat)
    requires Below(a, n)
    ensures Below(Seqs.Filter(a, p), n)
  {
    var f := Seqs.Filter(a, p);
    forall i | 0 <= i < |f| ensures f[i] < n {
      assert f[i] in f;
    }
  }

  lemma EmptySearch(rows: seq<Row>, master: seq<nat>, o: TableSearch.Options)
    requires Below(master, |rows|) && AllCached(rows)
    ensures Seqs.Filter(master, SearchAt(rows, "", o)) == master
  {
    forall x | x in master ensures SearchAt(rows, "", o)(x) {
      TableSearch.EmptyMatchesAll(rows[x].cached.value, o);
    }
    Seqs.FilterAll(master, SearchAt(rows, "", o));
  }

  lemma FilteredIsValid(rows: seq<Row>, master: seq<nat>, display: seq<nat>, p: nat -> bool)
    requires TableSort.Rows(master, |rows|) && (forall x: nat :: x < |rows| ==> x in master)
    requires display == Seqs.Filter(master, p) && AllCached(rows)
    ensures Indexed(rows, master, display) && Settled(rows, master, display, p)
  {
    Seqs.FilterDistinct(master, p);
    FilterBelow(master, p, |rows|);
    SettledWhenCached(rows, master, display, p);
  }

  /** Taking all custom functions away and typing on: the display is right exactly if they held
      back no row that the longer search accepts. */
  method TypeOnWithoutCustom(t: Settings, input: string)
    requires t.Valid() && AllCached(t.aoData) && !t.bSorted
    requires t.oPreviousSearch < input && !TableSearch.Throws(input, t.options)
    modifies t
    ensures t.Valid() && t.customTests == [] && Contents(t.aoData) == old(Contents(t.aoData))
    ensures t.options == old(t.options) && t.columnTests == old(t.columnTests) && t.oPreviousSearch == input
    ensures t.ShowsPresent() <==> NothingHeldBack(t.aoData, input, t.options, t.columnTests, old(t.applied))
  {
    hide Settled, Indexed, Numbered, CachesRight, Shown, AllCached, Contents, Seqs.Filter, NothingHeldBack;
    t.SetCustom([]);
    assert !t.StartsOver(input, !AllCached(t.aoData), false);
    var threw := t.TypeSearch(input);
  }

  /** So typing on can leave out rows that no search turns down any more. */
  method CustomRemovalIsMissed() returns (t: Settings)
    ensures t.Valid() && t.customTests == [] && !t.ShowsPresent()
  {
    var c, o := Content(0, [], "ab"), TableSearch.Options(false, (x: char) => x);
    var none: Test := (_: Content) => false;
    t := SearchedWithCustom(c, o, none);
    hide Settled, Indexed, Numbered, CachesRight, Shown, AllCached, Contents, Seqs.Filter, NothingHeldBack;
    TypeOnWithoutCustom(t, "ab");
    OneContent(t.aoData, c);
    HeldBack(t.aoData, o, none);
  }

  method WithOneRow(c: Content, o: TableSearch.Options) returns (t: Settings)
    ensures fresh(t) && t.Valid() && !t.bSorted
    ensures Contents(t.aoData) == [(c, None)] && t.aiDisplayMaster == [0]
    ensures t.oPreviousSearch == "" && t.options == o && t.columnTests == [] && t.customTests == [] && t.applied == []
  {
    hide Settled, Indexed, Shown, Numbered, CachesRight, Accepts, Contents, Seqs.Filter;
    t := new Settings(o, 10, true);
    var _ := t.AddData(c, true);
    OneContent(t.aoData, c);
  }

  method SearchedWithCustom(c: Content, o: TableSearch.Options, none: Test) returns (t: Settings)
    ensures fresh(t) && t.Valid() && AllCached(t.aoData) && !t.bSorted
    ensures Contents(t.aoData) == [(c, None)] && t.aiDisplayMaster == [0]
    ensures t.oPreviousSearch == "a" && t.options == o && t.columnTests == [] && t.applied == [none]
  {
    hide Settled, Indexed, Shown, Numbered, CachesRight, AllCached, Accepts, Contents, Seqs.Filter;
    t := WithOneRow(c, o);
    t.SetCustom([none]);
    var threw := t.TypeSearch("a");
  }

  lemma AddedRow(rows: seq<Row>, row: Row)
    requires Numbered(rows) && CachesRight(rows)
    requires row.cached.None? && (row.node.Some? ==> row.node.value == |rows|)
    ensures Numbered(rows + [row]) && CachesRight(rows + [row])
  {
  }

  lemma OneContent(rows: seq<Row>, c: Content)
    ensures Contents(rows) == [(c, None)] <==> |rows| == 1 && rows[0].content == c && rows[0].node == None
  {
    if |rows| == 1 { assert Contents(rows) == [(rows[0].content, rows[0].node)]; }
  }

  lemma HeldBack(rows: seq<Row>, o: TableSearch.Options, none: Test)
    requires |rows| == 1 && rows[0].content.text == "ab" && !o.smart && !none(rows[0].content)
    ensures !NothingHeldBack(rows, "ab", o, [], [none])
  {
    assert [none][0] == none;
    assert TableSearch.OccursAt(TableSearch.Folded("ab", o.fold), TableSearch.Folded("ab", o.fold), 0);
    assert Shown(rows, "ab", o, [], [])(0);
  }
}
