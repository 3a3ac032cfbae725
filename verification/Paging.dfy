/** Client-side paging: the window of the displayed rows and the moves between windows. */
module Paging {

  /** The window's start, the page length (-1: all rows) and the number of rows displayed. */
  datatype Page = Page(start: int, len: int, records: nat, paginate: bool)

  datatype Action = First | Previous | Next | Last | Number(n: int) | Unknown

  function DisplayEnd(p: Page): int {
    if !p.paginate || p.start + p.len > p.records || p.len == -1 then p.records else p.start + p.len
  }

  /** JavaScript's Math.floor( a / b ) for b > 0. */
  function FloorDiv(a: int, b: int): int
    requires b > 0
  {
    a / b
  }

  /** _fnPageChange. */
  function Change(p: Page, action: Action): int
    requires p.len >= 1 || p.len == -1
  {
    if p.records == 0 || p.len == -1 then 0
    else match action
      case Number(n) => if n * p.len > p.records then 0 else n * p.len
      case First => 0
      case Previous => if p.start - p.len < 0 then 0 else p.start - p.len
      case Next => if p.start + p.len < p.records then p.start + p.len else p.start
      case Last => FloorDiv(p.records - 1, p.len) * p.len
      case Unknown => p.start
  }

  /** _fnLengthOverflow. */
  function Overflow(p: Page): int {
    var start := if DisplayEnd(p) == p.records then p.records - p.len else p.start;
    if p.len == -1 || start < 0 then 0 else start
  }

  /** Whatever the start was, it is within the rows afterwards, and rows are never left out of
      sight behind an empty window. */
  lemma OverflowRestoresRange(p: Page)
    requires p.start >= 0 && (p.len >= 1 || p.len == -1)
    ensures 0 <= Overflow(p) <= p.records
    ensures p.records > 0 ==> Overflow(p) < p.records
    ensures p.paginate && p.len >= 1 ==> Overflow(p) == 0 || Overflow(p) + p.len <= p.records
  {
  }

  /** The start after `first` and k times `next`. */
  function After(p: Page, k: nat): (start: int)
    requires p.len >= 1
  {
    if k == 0 then Change(p, First) else Change(p.(start := After(p, k - 1)), Next)
  }

  predicate InWindow(p: Page, start: int, row: int) {
    start <= row < DisplayEnd(p.(start := start))
  }

  lemma DivisionBound(a: int, b: int)
    requires a >= 0 && b >= 1
    ensures 0 <= FloorDiv(a, b) * b <= a < FloorDiv(a, b) * b + b
  {
    assert a == b * (a / b) + a % b;
    assert (a / b) * b == b * (a / b);
  }

  lemma MultipleOrder(x: int, y: int, b: int)
    requires b >= 1
    ensures x < y ==> x * b + b <= y * b
    ensures x <= y ==> x * b <= y * b
  {
    var d := y - x;
    assert y * b == x * b + d * b by { assert y == x + d; }
    if d >= 1 { AtLeastOnce(d, b); }
  }

  lemma AtLeastOnce(d: int, b: int)
    requires d >= 1 && b >= 1
    ensures d * b >= b
  {
    assert d * b == (d - 1) * b + b;
  }

  /** Page k starts at k pages from the beginning, until the page `last` goes to is reached. */
  lemma {:induction false} AfterIsMultiple(p: Page, k: nat)
    requires p.len >= 1 && p.records > 0
    ensures After(p, k) == (if k <= FloorDiv(p.records - 1, p.len) then k else FloorDiv(p.records - 1, p.len)) * p.len
  {
    var last := FloorDiv(p.records - 1, p.len);
    DivisionBound(p.records - 1, p.len);
    if k > 0 {
      AfterIsMultiple(p, k - 1);
      if k <= last {
        assert k * p.len == (k - 1) * p.len + p.len;
        MultipleOrder(k, last, p.len);
      } else {
        MultipleOrder(last, k - 1, p.len);
      }
    }
  }

  /** Repeating `next` from `first`: windows that do not overlap and leave no gap, every row in
      one of them, ending where `last` goes. */
  lemma NextVisitsEveryRow(p: Page, k: nat, row: nat)
    requires p.len >= 1 && p.records > 0 && p.paginate
    ensures After(p, k) <= Change(p, Last)
    ensures After(p, k) < Change(p, Last) ==> After(p, k + 1) == DisplayEnd(p.(start := After(p, k)))
    ensures After(p, k) == Change(p, Last) ==>
              After(p, k + 1) == After(p, k) && DisplayEnd(p.(start := After(p, k))) == p.records
    ensures row < p.records ==>
              var j := FloorDiv(row, p.len);
              j >= 0 && InWindow(p, After(p, j), row)
    ensures row < p.records && InWindow(p, After(p, k), row) ==> After(p, k) == After(p, FloorDiv(row, p.len))
  {
    var last := FloorDiv(p.records - 1, p.len);
    DivisionBound(p.records - 1, p.len);
    AfterIsMultiple(p, k);
    AfterIsMultiple(p, k + 1);
    if k < last {
      MultipleOrder(k, last, p.len);
      assert (k + 1) * p.len == k * p.len + p.len;
    }
    if row < p.records {
      var j := FloorDiv(row, p.len);
      DivisionBound(row, p.len);
      WhichPage(row, p.records - 1, p.len);
      AfterIsMultiple(p, j);
      if InWindow(p, After(p, k), row) {
        var i := if k <= last then k else last;
        if i < j { MultipleOrder(i, j, p.len); }
        if j < i { MultipleOrder(j, i, p.len); }
      }
    }
  }

  lemma WhichPage(row: nat, top: nat, b: int)
    requires row <= top && b >= 1
    ensures 0 <= FloorDiv(row, b) <= FloorDiv(top, b)
  {
    DivisionBound(row, b);
    DivisionBound(top, b);
    if FloorDiv(row, b) > FloorDiv(top, b) { MultipleOrder(FloorDiv(top, b), FloorDiv(row, b), b); }
    if FloorDiv(row, b) < 0 { MultipleOrder(FloorDiv(row, b), 0, b); }
  }

  /** `previous` takes back a `next` that moved, unless it moved because no rows are left. */
  lemma PreviousUndoesNext(p: Page)
    requires p.len >= 1 && p.start >= 0 && Change(p, Next) != p.start
    ensures Change(p.(start := Change(p, Next)), Previous) == p.start <==> p.records > 0
  {
  }

  /** The start becomes negative exactly when a page with a negative number is asked for. */
  lemma ChangeIsNatural(p: Page, action: Action)
    requires p.start >= 0 && (p.len >= 1 || p.len == -1)
    ensures Change(p, action) < 0 <==> action.Number? && action.n < 0 && p.len >= 1 && p.records > 0
  {
    if p.len >= 1 && action.Number? {
      if action.n < 0 { MultipleOrder(action.n, 0, p.len); } else { MultipleOrder(0, action.n, p.len); }
    }
    if p.len >= 1 && p.records > 0 { DivisionBound(p.records - 1, p.len); }
  }

  /** A window shows the rows from its start on, as many as the page is long. */
  lemma WindowMeaning(p: Page, row: nat)
    requires p.start >= 0 && (p.len >= 1 || p.len == -1)
    ensures InWindow(p, p.start, row) <==>
            p.start <= row < p.records && (p.paginate && p.len >= 1 ==> row < p.start + p.len)
  {
  }

  /** Asking for a page shows the row exactly on the page its number belongs to; past the last
      page it is the first one that is shown, or none if the page would start right behind the
      last row. */
  lemma NumberIsPage(p: Page, n: nat, row: nat)
    requires p.len >= 1 && p.records > 0 && p.paginate && row < p.records
    ensures n * p.len < p.records ==>
              && Change(p, Number(n)) == After(p, n)
              && (InWindow(p, Change(p, Number(n)), row) <==> n * p.len <= row < (n + 1) * p.len)
    ensures n * p.len == p.records ==> !InWindow(p, Change(p, Number(n)), row)
    ensures n * p.len > p.records ==> Change(p, Number(n)) == Change(p, First) == 0
  {
    var last := FloorDiv(p.records - 1, p.len);
    DivisionBound(p.records - 1, p.len);
    AfterIsMultiple(p, n);
    MultipleOrder(0, n, p.len);
    assert (n + 1) * p.len == n * p.len + p.len;
    if n > last {
      MultipleOrder(last, n, p.len);
    }
  }

  /** A window with rows behind it, or ending with the last row, stays; any other becomes the
      window that ends with the last row, as far as there are rows for it. */
  lemma OverflowExact(p: Page)
    requires p.start >= 0 && (p.len >= 1 || p.len == -1)
    ensures p.len == -1 ==> Overflow(p) == 0
    ensures p.paginate && p.len >= 1 && p.start + p.len <= p.records ==> Overflow(p) == p.start
    ensures p.len >= 1 && (!p.paginate || p.start + p.len > p.records) ==>
              if p.records <= p.len then Overflow(p) == 0 else Overflow(p) + p.len == p.records
  {
  }
}
