/** Table headers with colspans and rowspans: the grid detected from the cells, and the cells
    drawn from the grid once some columns are hidden. */
module HeaderGrid {

  type Id = nat

  /** A header cell as it stands in its row. */
  datatype Cell = Cell(id: Id, rowspan: nat, colspan: nat)

  /** The part of the grid a cell covers. */
  datatype Box = Box(top: nat, left: nat, height: nat, width: nat)

  type Grid = seq<seq<Id>>
  type Boxes = map<Id, Box>

  predicate In(b: Box, y: int, x: int) {
    b.top <= y < b.top + b.height && b.left <= x < b.left + b.width
  }

  /** Every place of the grid, n columns wide, belongs to one cell, and a cell covers a box. */
  ghost predicate Tiled(g: Grid, n: nat, boxes: Boxes) {
    && (forall y :: 0 <= y < |g| ==> |g[y]| == n)
    && (forall y, x :: 0 <= y < |g| && 0 <= x < n ==> g[y][x] in boxes && In(boxes[g[y][x]], y, x))
    && (forall id :: id in boxes ==> boxes[id].height >= 1 && boxes[id].width >= 1)
    && (forall id, y: int, x: int {:trigger In(boxes[id], y, x)} :: id in boxes && In(boxes[id], y, x) ==>
          y < |g| && x < n && g[y][x] == id)
  }

  predicate IsCorner(g: Grid, boxes: Boxes, y: nat, x: nat)
    requires y < |g| && x < |g[y]| && g[y][x] in boxes
  {
    boxes[g[y][x]].top == y && boxes[g[y][x]].left == x
  }

  /** The cells whose top left corner is in row y and before column x, left to right. */
  ghost function RowTo(g: Grid, n: nat, boxes: Boxes, y: nat, x: nat): seq<Cell>
    requires Tiled(g, n, boxes) && y < |g| && x <= n
  {
    if x == 0 then []
    else
      var front := RowTo(g, n, boxes, y, x - 1);
      if IsCorner(g, boxes, y, x - 1) then
        var id := g[y][x - 1];
        front + [Cell(id, boxes[id].height, boxes[id].width)]
      else front
  }

  ghost function RowOf(g: Grid, n: nat, boxes: Boxes, y: nat): seq<Cell>
    requires Tiled(g, n, boxes) && y < |g|
  {
    RowTo(g, n, boxes, y, n)
  }

  /** The corner comes before the place (y, x), row by row. */
  predicate Before(b: Box, y: int, x: int) {
    b.top < y || (b.top == y && b.left < x)
  }

  // ------------------------------------------------------------------ detecting the grid

  /** A well-formed header of n columns: its rows are those of a tiled grid. */
  ghost predicate Renders(rows: seq<seq<Cell>>, g: Grid, n: nat, boxes: Boxes) {
    && Tiled(g, n, boxes) && |rows| == |g|
    && (forall y :: 0 <= y < |rows| ==> rows[y] == RowOf(g, n, boxes, y))
  }

  type Layout = map<(int, int), Id>

  /** The places of the cells whose corner is before (i, x) are filled in, and no others. */
  ghost predicate Filled(layout: Layout, g: Grid, n: nat, boxes: Boxes, i: int, x: int)
    requires Tiled(g, n, boxes)
  {
    && (forall p :: p in layout <==> 0 <= p.0 < |g| && 0 <= p.1 < n && Before(boxes[g[p.0][p.1]], i, x))
    && (forall p :: p in layout ==> layout[p] == g[p.0][p.1])
  }

  /** fnShiftCol: the first free column of row i. */
  method ShiftCol(layout: Layout, i: int, ghost bound: nat) returns (j: nat)
    requires (i, bound) !in layout
    ensures (i, j) !in layout && forall k :: 0 <= k < j ==> (i, k) in layout
  {
    j := 0;
    while (i, j) in layout
      invariant j <= bound && forall k :: 0 <= k < j ==> (i, k) in layout
      decreases bound - j
    {
      j := j + 1;
    }
  }

  /** The next corner of row i at or after x, when a cell of the row is still to come. */
  lemma {:induction false} NextCorner(g: Grid, n: nat, boxes: Boxes, i: nat, x: nat) returns (x': nat)
    requires Tiled(g, n, boxes) && i < |g| && x <= n && |RowTo(g, n, boxes, i, x)| < |RowOf(g, n, boxes, i)|
    ensures x <= x' < n && IsCorner(g, boxes, i, x')
    ensures forall k :: x <= k < x' ==> !IsCorner(g, boxes, i, k)
    ensures RowTo(g, n, boxes, i, x') == RowTo(g, n, boxes, i, x)
    ensures RowTo(g, n, boxes, i, x' + 1) <= RowOf(g, n, boxes, i)
    decreases n - x
  {
    if IsCorner(g, boxes, i, x) {
      x' := x;
      RowToPrefix(g, n, boxes, i, x + 1, n);
    } else {
      x' := NextCorner(g, n, boxes, i, x + 1);
    }
  }

  lemma {:induction false} RowToPrefix(g: Grid, n: nat, boxes: Boxes, i: nat, a: nat, b: nat)
    requires Tiled(g, n, boxes) && i < |g| && a <= b <= n
    ensures RowTo(g, n, boxes, i, a) <= RowTo(g, n, boxes, i, b)
    decreases b
  {
    if a < b { RowToPrefix(g, n, boxes, i, a, b - 1); }
  }

  /** With the cells before the corner x' in place, x' is the first free column of its row. */
  lemma CornerIsFirstFree(layout: Layout, g: Grid, n: nat, boxes: Boxes, i: nat, x: nat, x': nat)
    requires Tiled(g, n, boxes) && i < |g| && Filled(layout, g, n, boxes, i, x)
    requires x <= x' < n && IsCorner(g, boxes, i, x') && forall k :: x <= k < x' ==> !IsCorner(g, boxes, i, k)
    ensures (i, x') !in layout
    ensures forall k :: 0 <= k < x' ==> (i, k) in layout
  {
    forall k | 0 <= k < x' ensures (i, k) in layout {
      var b := boxes[g[i][k]];
      assert In(b, i, k);
      if b.top == i {
        assert In(b, i, b.left);
        assert IsCorner(g, boxes, i, b.left);
      }
    }
  }

  /** Before moves past a stretch of the row that holds no corner but the last. */
  lemma BeforeNextCorner(g: Grid, n: nat, boxes: Boxes, i: nat, x: nat, x': nat, y: nat, z: nat)
    requires Tiled(g, n, boxes) && i < |g| && x <= x' < n && y < |g| && z < n
    requires IsCorner(g, boxes, i, x') && forall k :: x <= k < x' ==> !IsCorner(g, boxes, i, k)
    ensures Before(boxes[g[y][z]], i, x' + 1) <==> Before(boxes[g[y][z]], i, x) || In(boxes[g[i][x']], y, z)
  {
    var b := boxes[g[y][z]];
    assert In(b, y, z);
    if b.top == i && x <= b.left <= x' {
      assert In(b, i, b.left);
      assert IsCorner(g, boxes, i, b.left);
    }
    if In(boxes[g[i][x']], y, z) {
      assert g[y][z] == g[i][x'];
    }
  }

  lemma BoxIsInside(g: Grid, n: nat, boxes: Boxes, id: Id, y: int, x: int)
    requires Tiled(g, n, boxes) && id in boxes && In(boxes[id], y, x)
    ensures 0 <= y < |g| && 0 <= x < n && g[y][x] == id
  {}

  lemma FilledToNextCorner(before: Layout, layout: Layout, g: Grid, n: nat, boxes: Boxes,
                                              i: nat, x: nat, x': nat)
    requires Tiled(g, n, boxes) && i < |g| && x <= x' < n && Filled(before, g, n, boxes, i, x)
    requires IsCorner(g, boxes, i, x') && forall k :: x <= k < x' ==> !IsCorner(g, boxes, i, k)
    requires forall p :: p in layout <==> p in before || In(boxes[g[i][x']], p.0, p.1)
    requires forall p :: p in layout ==> layout[p] == if In(boxes[g[i][x']], p.0, p.1) then g[i][x'] else before[p]
    ensures Filled(layout, g, n, boxes, i, x' + 1)
  {
    forall p: (int, int)
      ensures p in layout <==> 0 <= p.0 < |g| && 0 <= p.1 < n && Before(boxes[g[p.0][p.1]], i, x' + 1)
    {
      if In(boxes[g[i][x']], p.0, p.1) { BoxIsInside(g, n, boxes, g[i][x'], p.0, p.1); }
      assert p in before <==> 0 <= p.0 < |g| && 0 <= p.1 < n && Before(boxes[g[p.0][p.1]], i, x);
      if 0 <= p.0 < |g| && 0 <= p.1 < n { BeforeNextCorner(g, n, boxes, i, x, x', p.0, p.1); }
    }
  }

  /** With no corner left at or after x, the row is done. */
  lemma RowDone(layout: Layout, nTr: map<int, int>, g: Grid, n: nat, boxes: Boxes, i: nat, x: nat)
    requires Tiled(g, n, boxes) && i < |g| && x <= n && RowTo(g, n, boxes, i, x) == RowOf(g, n, boxes, i)
    requires Filled(layout, g, n, boxes, i, x) && Noted(nTr, g, n, boxes, i, x)
    ensures Filled(layout, g, n, boxes, i + 1, 0) && Noted(nTr, g, n, boxes, i + 1, 0)
  {
    forall y: nat, z: nat | y < |g| && z < n
      ensures Before(boxes[g[y][z]], i + 1, 0) <==> Before(boxes[g[y][z]], i, x)
    {
      var b := boxes[g[y][z]];
      assert In(b, y, z);
      if b.top == i && x <= b.left {
        assert In(b, i, b.left) && IsCorner(g, boxes, i, b.left);
        RowToPrefix(g, n, boxes, i, x, b.left);
        RowToPrefix(g, n, boxes, i, b.left + 1, n);
      }
    }
    SamePlacesNoted(nTr, g, n, boxes, i, x, i + 1, 0);
  }

  /** Row y of the layout has a place that the cells before (i, x) cover. */
  ghost predicate Begun(g: Grid, n: nat, boxes: Boxes, y: int, i: int, x: int)
    requires Tiled(g, n, boxes)
  {
    0 <= y < |g| && exists z: nat :: z < n && Before(boxes[g[y][z]], i, x)
  }

  /** t is the last row that starts one of these cells. */
  ghost predicate IsLatest(t: int, g: Grid, n: nat, boxes: Boxes, y: int, i: int, x: int)
    requires Tiled(g, n, boxes) && 0 <= y < |g|
  {
    && (exists z: nat :: z < n && Before(boxes[g[y][z]], i, x) && boxes[g[y][z]].top == t)
    && (forall z: nat :: z < n && Before(boxes[g[y][z]], i, x) ==> boxes[g[y][z]].top <= t)
  }

  /** The row elements noted when the cells before (i, x) have been copied. */
  ghost predicate Noted(nTr: map<int, int>, g: Grid, n: nat, boxes: Boxes, i: int, x: int)
    requires Tiled(g, n, boxes)
  {
    && (forall y :: y in nTr <==> Begun(g, n, boxes, y, i, x))
    && (forall y :: y in nTr && 0 <= y < |g| ==> IsLatest(nTr[y], g, n, boxes, y, i, x))
  }

  lemma SamePlacesNoted(nTr: map<int, int>, g: Grid, n: nat, boxes: Boxes, i: int, x: int, i': int, x': int)
    requires Tiled(g, n, boxes) && Noted(nTr, g, n, boxes, i, x)
    requires forall y: nat, z: nat :: y < |g| && z < n ==> (Before(boxes[g[y][z]], i', x') <==> Before(boxes[g[y][z]], i, x))
    ensures Noted(nTr, g, n, boxes, i', x')
  {
    hide Tiled;
    forall y ensures Begun(g, n, boxes, y, i', x') <==> Begun(g, n, boxes, y, i, x) {}
    forall y | y in nTr && 0 <= y < |g| ensures IsLatest(nTr[y], g, n, boxes, y, i', x') {
      assert IsLatest(nTr[y], g, n, boxes, y, i, x);
    }
  }

  /** Copying the next cell notes its row element for all rows it covers. */
  lemma NotedToNextCorner(before: map<int, int>, nTr: map<int, int>, g: Grid, n: nat, boxes: Boxes,
                          i: nat, x: nat, x': nat)
    requires Tiled(g, n, boxes) && i < |g| && x <= x' < n && Noted(before, g, n, boxes, i, x)
    requires IsCorner(g, boxes, i, x') && forall k :: x <= k < x' ==> !IsCorner(g, boxes, i, k)
    requires forall y :: y in nTr <==> y in before || i <= y < i + boxes[g[i][x']].height
    requires forall y :: y in nTr ==> nTr[y] == if i <= y < i + boxes[g[i][x']].height then i else before[y]
    ensures Noted(nTr, g, n, boxes, i, x' + 1)
  {
    var id := g[i][x'];
    forall y: nat, z: nat | y < |g| && z < n
      ensures Before(boxes[g[y][z]], i, x' + 1) <==> Before(boxes[g[y][z]], i, x) || In(boxes[id], y, z)
    {
      BeforeNextCorner(g, n, boxes, i, x, x', y, z);
    }
    forall y | i <= y < i + boxes[id].height ensures y < |g| && g[y][x'] == id {
      BoxIsInside(g, n, boxes, id, y, x');
    }
    hide Tiled;
    forall y ensures y in nTr <==> Begun(g, n, boxes, y, i, x' + 1) {
      if i <= y < i + boxes[id].height { assert In(boxes[id], y, x'); }
    }
    forall y | y in nTr && 0 <= y < |g| ensures IsLatest(nTr[y], g, n, boxes, y, i, x' + 1) {
      if i <= y < i + boxes[id].height {
        assert In(boxes[id], y, x') && boxes[g[y][x']].top == i;
      } else {
        assert IsLatest(before[y], g, n, boxes, y, i, x);
      }
    }
  }

  /** The last row up to y that has a cell of its own. */
  ghost function RowElement(rows: seq<seq<Cell>>, y: nat): (r: nat)
    requires y < |rows|
    ensures r <= y && (rows[y] != [] ==> r == y)
  {
    if rows[y] != [] || y == 0 then y else RowElement(rows, y - 1)
  }

  /** Every layout row has an element noted, unless the layout has no columns. */
  ghost predicate ElementsNoted(nTr: map<int, int>, rows: seq<seq<Cell>>, n: nat) {
    && (forall y :: y in nTr <==> 0 <= y < |rows| && n > 0)
    && (forall y: nat :: y < |rows| && n > 0 ==> nTr[y] == RowElement(rows, y))
  }

  lemma {:induction false} CornerOfRow(g: Grid, n: nat, boxes: Boxes, y: nat, x: nat)
    requires Tiled(g, n, boxes) && y < |g| && x <= n
    ensures RowTo(g, n, boxes, y, x) != [] <==> exists k: nat :: k < x && IsCorner(g, boxes, y, k)
  {
    if x > 0 { CornerOfRow(g, n, boxes, y, x - 1); }
  }

  /** A row without a cell of its own continues all cells of the row above. */
  lemma EmptyRowContinues(g: Grid, n: nat, boxes: Boxes, y: nat, z: nat)
    requires Tiled(g, n, boxes) && y < |g| && z < n && RowOf(g, n, boxes, y) == []
    ensures y > 0 && g[y - 1][z] == g[y][z] && boxes[g[y][z]].top < y
  {
    var b := boxes[g[y][z]];
    assert In(b, y, z);
    CornerOfRow(g, n, boxes, y, n);
    if b.top == y {
      BoxIsInside(g, n, boxes, g[y][z], y, b.left);
      assert IsCorner(g, boxes, y, b.left);
    }
    BoxIsInside(g, n, boxes, g[y][z], y - 1, z);
  }

  /** At the end the element noted for a row is the last one up to it with a cell of its own. */
  lemma {:induction false} NotedElement(nTr: map<int, int>, rows: seq<seq<Cell>>, g: Grid, n: nat, boxes: Boxes, y: nat)
    requires Renders(rows, g, n, boxes) && Noted(nTr, g, n, boxes, |g|, 0) && n > 0 && y < |rows|
    ensures y in nTr && nTr[y] == RowElement(rows, y)
  {
    forall z: nat | z < n ensures Before(boxes[g[y][z]], |g|, 0) && boxes[g[y][z]].top <= y { assert In(boxes[g[y][z]], y, z); }
    assert Before(boxes[g[y][0]], |g|, 0);
    assert Begun(g, n, boxes, y, |g|, 0) && IsLatest(nTr[y], g, n, boxes, y, |g|, 0);
    if rows[y] != [] {
      CornerOfRow(g, n, boxes, y, n);
      var k: nat :| k < n && IsCorner(g, boxes, y, k);
      assert boxes[g[y][k]].top == y;
    } else {
      EmptyRowContinues(g, n, boxes, y, 0);
      NotedElement(nTr, rows, g, n, boxes, y - 1);
      forall z: nat | z < n ensures g[y - 1][z] == g[y][z] { EmptyRowContinues(g, n, boxes, y, z); }
      SameLatest(nTr[y - 1], nTr[y], g, n, boxes, y - 1, y, |g|, 0);
    }
  }

  lemma SameLatest(t: int, t': int, g: Grid, n: nat, boxes: Boxes, y: nat, y': nat, i: int, x: int)
    requires Tiled(g, n, boxes) && y < |g| && y' < |g| && forall z: nat :: z < n ==> g[y][z] == g[y'][z]
    requires IsLatest(t, g, n, boxes, y, i, x) && IsLatest(t', g, n, boxes, y', i, x)
    ensures t == t'
  {
    var z: nat :| z < n && Before(boxes[g[y][z]], i, x) && boxes[g[y][z]].top == t;
    var z': nat :| z' < n && Before(boxes[g[y'][z']], i, x) && boxes[g[y'][z']].top == t';
    assert g[y][z'] == g[y'][z'] && g[y'][z] == g[y][z];
  }

  /** The two loops of _fnDetectHeader that copy one cell over its box. */
  method FillCell(cell: Cell, i: nat, shifted: nat, layout0: Layout, nTr0: map<int, int>, ghost g: Grid,
                  ghost n: nat, ghost boxes: Boxes)
    returns (layout: Layout, nTr: map<int, int>)
    requires Tiled(g, n, boxes) && cell.id in boxes
    requires boxes[cell.id] == Box(i, shifted, cell.rowspan, cell.colspan)
    ensures forall p :: p in layout <==> p in layout0 || In(boxes[cell.id], p.0, p.1)
    ensures forall p :: p in layout ==> layout[p] == if In(boxes[cell.id], p.0, p.1) then cell.id else layout0[p]
    ensures forall y :: y in nTr <==> y in nTr0 || i <= y < i + cell.rowspan
    ensures forall y :: y in nTr ==> nTr[y] == if i <= y < i + cell.rowspan then i else nTr0[y]
  {
    layout, nTr := layout0, nTr0;
    ghost var b := boxes[cell.id];
    var l := 0;
    while l < cell.colspan
      invariant 0 <= l <= cell.colspan
      invariant forall p :: p in layout <==> p in layout0 || (In(b, p.0, p.1) && p.1 < shifted + l)
      invariant forall p :: p in layout ==> layout[p] == if In(b, p.0, p.1) && p.1 < shifted + l then cell.id else layout0[p]
      invariant forall y :: y in nTr <==> y in nTr0 || (l > 0 && i <= y < i + cell.rowspan)
      invariant forall y :: y in nTr ==> nTr[y] == if l > 0 && i <= y < i + cell.rowspan then i else nTr0[y]
    {
      layout, nTr := FillColumn(cell, i, shifted + l, layout, nTr);
      l := l + 1;
    }
  }

  method FillColumn(cell: Cell, i: nat, column: nat, layout0: Layout, nTr0: map<int, int>)
    returns (layout: Layout, nTr: map<int, int>)
    requires cell.rowspan >= 1
    ensures forall p :: p in layout <==> p in layout0 || (p.1 == column && i <= p.0 < i + cell.rowspan)
    ensures forall p :: p in layout ==> layout[p] == if p.1 == column && i <= p.0 < i + cell.rowspan then cell.id else layout0[p]
    ensures forall y :: y in nTr <==> y in nTr0 || i <= y < i + cell.rowspan
    ensures forall y :: y in nTr ==> nTr[y] == if i <= y < i + cell.rowspan then i else nTr0[y]
  {
    layout, nTr := layout0, nTr0;
    var k := 0;
    while k < cell.rowspan
      invariant 0 <= k <= cell.rowspan
      invariant forall p :: p in layout <==> p in layout0 || (p.1 == column && i <= p.0 < i + k)
      invariant forall p :: p in layout ==> layout[p] == if p.1 == column && i <= p.0 < i + k then cell.id else layout0[p]
      invariant forall y :: y in nTr <==> y in nTr0 || i <= y < i + k
      invariant forall y :: y in nTr ==> nTr[y] == if i <= y < i + k then i else nTr0[y]
    {
      layout := layout[(i + k, column) := cell.id];
      nTr := nTr[i + k := i];
      k := k + 1;
    }
  }

  /** _fnDetectHeader. `nTr` says which row element was noted for each row of the layout. */
  method DetectHeader(rows: seq<seq<Cell>>, ghost g: Grid, ghost n: nat, ghost boxes: Boxes)
    returns (layout: Layout, nTr: map<int, int>)
    requires Renders(rows, g, n, boxes)
    ensures forall p :: p in layout <==> 0 <= p.0 < |g| && 0 <= p.1 < n
    ensures forall p :: p in layout ==> layout[p] == g[p.0][p.1]
    ensures ElementsNoted(nTr, rows, n)
  {
    layout, nTr := map[], map[];
    var i := 0;
    while i < |rows|
      invariant 0 <= i <= |rows|
      invariant Filled(layout, g, n, boxes, i, 0) && Noted(nTr, g, n, boxes, i, 0)
    {
      layout, nTr := DetectRow(rows, i, layout, nTr, g, n, boxes);
      i := i + 1;
    }
    if n > 0 {
      forall y: nat | y < |rows| ensures y in nTr && nTr[y] == RowElement(rows, y) {
        NotedElement(nTr, rows, g, n, boxes, y);
      }
    }
  }

  method DetectRow(rows: seq<seq<Cell>>, i: nat, layout0: Layout, nTr0: map<int, int>, ghost g: Grid,
                   ghost n: nat, ghost boxes: Boxes)
    returns (layout: Layout, nTr: map<int, int>)
    requires Renders(rows, g, n, boxes) && i < |rows|
    requires Filled(layout0, g, n, boxes, i, 0) && Noted(nTr0, g, n, boxes, i, 0)
    ensures Filled(layout, g, n, boxes, i + 1, 0) && Noted(nTr, g, n, boxes, i + 1, 0)
  {
    layout, nTr := layout0, nTr0;
    var c := 0;
    ghost var x := 0;
    while c < |rows[i]|
      invariant 0 <= c <= |rows[i]| && 0 <= x <= n
      invariant rows[i][..c] == RowTo(g, n, boxes, i, x)
      invariant Filled(layout, g, n, boxes, i, x) && Noted(nTr, g, n, boxes, i, x)
    {
      var cell := rows[i][c];
      ghost var x' := NextCorner(g, n, boxes, i, x);
      CornerIsFirstFree(layout, g, n, boxes, i, x, x');
      var shifted := ShiftCol(layout, i, x');
      assert shifted == x';
      assert cell == RowOf(g, n, boxes, i)[c] == RowTo(g, n, boxes, i, x' + 1)[c];
      ghost var before, noted := layout, nTr;
      layout, nTr := FillCell(cell, i, shifted, layout, nTr, g, n, boxes);
      FilledToNextCorner(before, layout, g, n, boxes, i, x, x');
      NotedToNextCorner(noted, nTr, g, n, boxes, i, x, x');
      c, x := c + 1, x' + 1;
    }
    RowDone(layout, nTr, g, n, boxes, i, x);
  }

  // ------------------------------------------------------------------ hiding columns

  /** The visible columns before x. */
  function Visible(visible: seq<bool>, x: nat): (r: seq<nat>)
    requires x <= |visible|
    ensures |r| <= x
  {
    if x == 0 then []
    else if visible[x - 1] then Visible(visible, x - 1) + [x - 1]
    else Visible(visible, x - 1)
  }

  /** The visible columns are listed in order, so counting them before x locates x. */
  lemma {:induction false} VisibleSplit(visible: seq<bool>, x: nat, upto: nat)
    requires x <= upto <= |visible|
    ensures |Visible(visible, x)| <= |Visible(visible, upto)|
    ensures forall k :: 0 <= k < |Visible(visible, upto)| ==>
      Visible(visible, upto)[k] < upto && (k < |Visible(visible, x)| <==> Visible(visible, upto)[k] < x)
    decreases upto
  {
    if x < upto { VisibleSplit(visible, x, upto - 1); }
    else if upto > 0 { VisibleSplit(visible, x - 1, upto - 1); }
  }

  /** They are exactly the columns before x that are flagged visible, in increasing order. */
  lemma {:induction false} VisibleMembers(visible: seq<bool>, x: nat)
    requires x <= |visible|
    ensures forall j: nat :: j in Visible(visible, x) <==> j < x && visible[j]
    ensures forall i, k :: 0 <= i < k < |Visible(visible, x)| ==> Visible(visible, x)[i] < Visible(visible, x)[k]
  {
    if x > 0 {
      VisibleMembers(visible, x - 1);
      var front := Visible(visible, x - 1);
      forall i | 0 <= i < |front| ensures front[i] < x - 1 {
        assert front[i] in front;
      }
    }
  }

  /** The columns of a box that are flagged visible. */
  ghost function VisibleIn(b: Box, visible: seq<bool>): set<nat> {
    set j: nat | b.left <= j < b.left + b.width && j < |visible| && visible[j]
  }

  lemma {:induction false} SpanCounts(b: Box, visible: seq<bool>)
    requires b.left + b.width <= |visible|
    ensures Span(visible, b.left, b.width) == |VisibleIn(b, visible)|
    decreases b.width
  {
    if b.width == 0 {
      assert VisibleIn(b, visible) == {};
    } else {
      var shorter, last := b.(width := b.width - 1), b.left + b.width - 1;
      SpanCounts(shorter, visible);
      assert VisibleIn(b, visible) == VisibleIn(shorter, visible) + if visible[last] then {last} else {};
    }
  }

  /** The grid left once the hidden columns are taken out, and the boxes left in it. */
  ghost function Local(g: Grid, n: nat, visible: seq<bool>): Grid
    requires |visible| == n && forall y :: 0 <= y < |g| ==> |g[y]| == n
  {
    var cols := Visible(visible, n);
    seq(|g|, y requires 0 <= y < |g| => PickColumns(g[y], cols, visible))
  }

  ghost function PickColumns(row: seq<Id>, cols: seq<nat>, visible: seq<bool>): seq<Id>
    requires |row| == |visible| && cols == Visible(visible, |visible|)
  {
    seq(|cols|, k requires 0 <= k < |cols| => Picked(row, visible, k))
  }

  ghost function Picked(row: seq<Id>, visible: seq<bool>, k: nat): Id
    requires |row| == |visible| && k < |Visible(visible, |visible|)|
  {
    VisibleSplit(visible, |visible|, |visible|);
    row[Visible(visible, |visible|)[k]]
  }

  /** How many of the columns [left, left + width) are visible. */
  function Span(visible: seq<bool>, left: nat, width: nat): int
    requires left + width <= |visible|
  {
    |Visible(visible, left + width)| - |Visible(visible, left)|
  }

  ghost predicate Fits(boxes: Boxes, n: nat) {
    forall id :: id in boxes ==> boxes[id].left + boxes[id].width <= n
  }

  ghost function LocalBoxes(boxes: Boxes, visible: seq<bool>): Boxes
    requires Fits(boxes, |visible|)
  {
    map id | id in boxes && Span(visible, boxes[id].left, boxes[id].width) > 0 ::
      Box(boxes[id].top, |Visible(visible, boxes[id].left)|, boxes[id].height, Span(visible, boxes[id].left, boxes[id].width))
  }

  lemma TiledFits(g: Grid, n: nat, boxes: Boxes)
    requires Tiled(g, n, boxes)
    ensures Fits(boxes, n)
  {
    forall id | id in boxes ensures boxes[id].left + boxes[id].width <= n {
      var b := boxes[id];
      assert In(b, b.top, b.left + b.width - 1);
    }
  }

  /** Column k of the local grid is inside the shrunken box exactly when the column it stands
      for is inside the box. */
  lemma ShrunkenBox(boxes: Boxes, visible: seq<bool>, id: Id, y: int, k: nat)
    requires Fits(boxes, |visible|) && id in boxes && k < |Visible(visible, |visible|)|
    ensures In(boxes[id], y, Visible(visible, |visible|)[k]) <==>
      id in LocalBoxes(boxes, visible) && In(LocalBoxes(boxes, visible)[id], y, k)
  {
    var b := boxes[id];
    VisibleSplit(visible, b.left, |visible|);
    VisibleSplit(visible, b.left + b.width, |visible|);
    VisibleSplit(visible, b.left, b.left + b.width);
  }

  /** Hiding columns leaves a tiled grid: the rest of each box is still a box. */
  lemma LocalIsTiled(g: Grid, n: nat, boxes: Boxes, visible: seq<bool>)
    requires Tiled(g, n, boxes) && |visible| == n && Fits(boxes, n)
    ensures Tiled(Local(g, n, visible), |Visible(visible, n)|, LocalBoxes(boxes, visible))
  {
    var l, cols, shrunk := Local(g, n, visible), Visible(visible, n), LocalBoxes(boxes, visible);
    VisibleSplit(visible, n, n);
    forall y: nat, k: nat | y < |l| && k < |cols|
      ensures l[y][k] in shrunk && In(shrunk[l[y][k]], y, k)
    {
      assert l[y][k] == g[y][cols[k]];
      ShrunkenBox(boxes, visible, g[y][cols[k]], y, k);
    }
    forall id, y: int, k: int {:trigger In(shrunk[id], y, k)} | id in shrunk && In(shrunk[id], y, k)
      ensures y < |l| && k < |cols| && l[y][k] == id
    {
      ShrunkenInside(g, n, boxes, visible, id, y, k);
    }
  }

  lemma ShrunkenInside(g: Grid, n: nat, boxes: Boxes, visible: seq<bool>, id: Id, y: int, k: int)
    requires Tiled(g, n, boxes) && |visible| == n && Fits(boxes, n)
    requires id in LocalBoxes(boxes, visible) && In(LocalBoxes(boxes, visible)[id], y, k)
    ensures 0 <= y < |g| && 0 <= k < |Visible(visible, n)| && Local(g, n, visible)[y][k] == id
  {
    ShrunkenRange(boxes, visible, id, y, k);
    ShrunkenBox(boxes, visible, id, y, k);
    hide LocalBoxes, Fits, Local;
    BoxIsInside(g, n, boxes, id, y, Visible(visible, n)[k]);
    LocalAt(g, n, visible, y, k);
  }

  lemma ShrunkenRange(boxes: Boxes, visible: seq<bool>, id: Id, y: int, k: int)
    requires Fits(boxes, |visible|) && id in LocalBoxes(boxes, visible) && In(LocalBoxes(boxes, visible)[id], y, k)
    ensures 0 <= k < |Visible(visible, |visible|)|
  {
    VisibleSplit(visible, boxes[id].left + boxes[id].width, |visible|);
  }

  lemma LocalAt(g: Grid, n: nat, visible: seq<bool>, y: nat, k: nat)
    requires |visible| == n && y < |g| && k < |Visible(visible, n)| && forall y :: 0 <= y < |g| ==> |g[y]| == n
    ensures Visible(visible, n)[k] < n && Local(g, n, visible)[y][k] == g[y][Visible(visible, n)[k]]
  {
    VisibleSplit(visible, n, n);
  }

  // ------------------------------------------------------------------ drawing the cells

  /** The copy of one row of the layout that _fnDrawHead makes, its hidden columns spliced out
      from the last to the first. */
  method LocalRow(layout: Layout, i: nat, visible: seq<bool>, ghost g: Grid, ghost n: nat) returns (row: seq<Id>)
    requires |visible| == n && i < |g| && forall y :: 0 <= y < |g| ==> |g[y]| == n
    requires forall p :: p in layout <==> 0 <= p.0 < |g| && 0 <= p.1 < n
    requires forall p :: p in layout ==> layout[p] == g[p.0][p.1]
    ensures row == Local(g, n, visible)[i]
  {
    row := [];
    var k := 0;
    while (i, k) in layout
      invariant 0 <= k <= n && row == g[i][..k]
      decreases n - k
    {
      row := row + [layout[(i, k)]];
      k := k + 1;
    }
    ghost var cols := Visible(visible, n);
    var j := |visible|;
    while j > 0
      invariant 0 <= j <= n && |Visible(visible, j)| <= |cols|
      invariant |row| == j + |cols| - |Visible(visible, j)|
      invariant forall k :: 0 <= k < j ==> row[k] == g[i][k]
      invariant forall k :: |Visible(visible, j)| <= k < |cols| ==>
        0 <= cols[k] < n && row[j + k - |Visible(visible, j)|] == g[i][cols[k]]
    {
      VisibleSplit(visible, j - 1, n);
      VisibleSplit(visible, j, n);
      if !visible[j - 1] { row := row[..j - 1] + row[j..]; }
      j := j - 1;
    }
    VisibleSplit(visible, n, n);
    assert row == Local(g, n, visible)[i];
  }

  type Applied = set<(int, int)>

  /** The places taken by the cells whose corner is before (i, j). */
  ghost predicate Covered(applied: Applied, g: Grid, n: nat, boxes: Boxes, i: int, j: int)
    requires Tiled(g, n, boxes)
  {
    forall p :: p in applied <==> 0 <= p.0 < |g| && 0 <= p.1 < n && Before(boxes[g[p.0][p.1]], i, j)
  }

  /** The rowspan loop: how far down the cell at the corner (i, j) goes. */
  method ExpandDown(local: Grid, i: nat, j: nat, applied0: Applied, ghost n: nat, ghost boxes: Boxes)
    returns (rowspan: nat, applied: Applied)
    requires Tiled(local, n, boxes) && i < |local| && j < n && IsCorner(local, boxes, i, j)
    requires (i, j) in applied0
    ensures rowspan == boxes[local[i][j]].height
    ensures forall p :: p in applied <==> p in applied0 || (p.1 == j && i <= p.0 < i + rowspan)
  {
    ghost var id := local[i][j];
    rowspan, applied := 1, applied0;
    while i + rowspan < |local| && local[i][j] == local[i + rowspan][j]
      invariant 1 <= rowspan <= boxes[id].height
      invariant forall p :: p in applied <==> p in applied0 || (p.1 == j && i <= p.0 < i + rowspan)
    {
      assert In(boxes[id], i + rowspan, j);
      applied := applied + {(i + rowspan, j)};
      rowspan := rowspan + 1;
    }
    if rowspan < boxes[id].height { BoxIsInside(local, n, boxes, id, i + rowspan, j); }
  }

  /** The colspan loop, marking the rows of the cell for each further column. */
  method ExpandRight(local: Grid, i: nat, j: nat, rowspan: nat, applied0: Applied, ghost n: nat, ghost boxes: Boxes)
    returns (colspan: nat, applied: Applied)
    requires Tiled(local, n, boxes) && i < |local| && j < n && IsCorner(local, boxes, i, j)
    ensures colspan == boxes[local[i][j]].width
    ensures forall p :: p in applied <==> p in applied0 || (j < p.1 < j + colspan && i <= p.0 < i + rowspan)
  {
    ghost var id := local[i][j];
    colspan, applied := 1, applied0;
    while j + colspan < |local[i]| && local[i][j] == local[i][j + colspan]
      invariant 1 <= colspan <= boxes[id].width
      invariant forall p :: p in applied <==> p in applied0 || (j < p.1 < j + colspan && i <= p.0 < i + rowspan)
    {
      assert In(boxes[id], i, j + colspan);
      ghost var before := applied;
      for k := 0 to rowspan
        invariant forall p :: p in applied <==> p in before || (p.1 == j + colspan && i <= p.0 < i + k)
      {
        applied := applied + {(i + k, j + colspan)};
      }
      colspan := colspan + 1;
    }
    if colspan < boxes[id].width { BoxIsInside(local, n, boxes, id, i, j + colspan); }
  }

  /** A place nothing covers yet is a corner. */
  lemma UncoveredIsCorner(applied: Applied, g: Grid, n: nat, boxes: Boxes, i: nat, j: nat)
    requires Tiled(g, n, boxes) && i < |g| && j < n && Covered(applied, g, n, boxes, i, j)
    ensures (i, j) !in applied <==> IsCorner(g, boxes, i, j)
  {
    var p := (i, j);
    assert p in applied <==> Before(boxes[g[i][j]], i, j);
    assert In(boxes[g[i][j]], i, j);
  }

  /** Covering the box of a corner moves past it; a place that is no corner is already covered. */
  lemma CoverNext(before: Applied, applied: Applied, g: Grid, n: nat, boxes: Boxes, i: nat, j: nat)
    requires Tiled(g, n, boxes) && i < |g| && j < n && Covered(before, g, n, boxes, i, j)
    requires forall p :: p in applied <==> p in before || (IsCorner(g, boxes, i, j) && In(boxes[g[i][j]], p.0, p.1))
    ensures Covered(applied, g, n, boxes, i, j + 1)
  {
    forall p: (int, int)
      ensures p in applied <==> 0 <= p.0 < |g| && 0 <= p.1 < n && Before(boxes[g[p.0][p.1]], i, j + 1)
    {
      if In(boxes[g[i][j]], p.0, p.1) { BoxIsInside(g, n, boxes, g[i][j], p.0, p.1); }
      assert p in before <==> 0 <= p.0 < |g| && 0 <= p.1 < n && Before(boxes[g[p.0][p.1]], i, j);
      if 0 <= p.0 < |g| && 0 <= p.1 < n {
        var b := boxes[g[p.0][p.1]];
        assert In(b, p.0, p.1);
        if b.top == i && b.left == j { BoxIsInside(g, n, boxes, g[p.0][p.1], i, j); }
      }
    }
  }

  /** The cells drawn for one row of the local grid. */
  method DrawRow(local: Grid, i: nat, applied0: Applied, ghost n: nat, ghost boxes: Boxes)
    returns (cells: seq<Cell>, applied: Applied)
    requires Tiled(local, n, boxes) && i < |local| && Covered(applied0, local, n, boxes, i, 0)
    ensures cells == RowOf(local, n, boxes, i)
    ensures Covered(applied, local, n, boxes, i + 1, 0)
  {
    cells, applied := [], applied0;
    var j := 0;
    while j < |local[i]|
      invariant 0 <= j <= n && cells == RowTo(local, n, boxes, i, j)
      invariant Covered(applied, local, n, boxes, i, j)
    {
      UncoveredIsCorner(applied, local, n, boxes, i, j);
      ghost var before := applied;
      if (i, j) !in applied {
        var rowspan, colspan;
        rowspan, applied := ExpandDown(local, i, j, applied + {(i, j)}, n, boxes);
        colspan, applied := ExpandRight(local, i, j, rowspan, applied, n, boxes);
        cells := cells + [Cell(local[i][j], rowspan, colspan)];
      }
      CoverNext(before, applied, local, n, boxes, i, j);
      j := j + 1;
    }
    forall y: nat, x: nat | y < |local| && x < n
      ensures Before(boxes[local[y][x]], i, n) <==> Before(boxes[local[y][x]], i + 1, 0)
    {
      var b := boxes[local[y][x]];
      assert In(b, y, x);
    }
  }

  /** The copy of the whole layout. */
  method LocalGrid(layout: Layout, height: nat, visible: seq<bool>, ghost g: Grid, ghost n: nat) returns (local: Grid)
    requires |visible| == n && height == |g| && forall y :: 0 <= y < |g| ==> |g[y]| == n
    requires forall p :: p in layout <==> 0 <= p.0 < |g| && 0 <= p.1 < n
    requires forall p :: p in layout ==> layout[p] == g[p.0][p.1]
    ensures local == Local(g, n, visible)
  {
    local := [];
    var i := 0;
    while i < height
      invariant 0 <= i <= height && local == Local(g, n, visible)[..i]
    {
      var row := LocalRow(layout, i, visible, g, n);
      local := local + [row];
      i := i + 1;
    }
    assert local == Local(g, n, visible);
  }

  /** _fnDrawHead on the rows of the header as the document holds them. */
  method DrawHead(layout: Layout, nTr: map<int, int>, visible: seq<bool>, rows: seq<seq<Cell>>, ghost g: Grid,
                  ghost n: nat, ghost boxes: Boxes)
    returns (drawn: seq<seq<Cell>>)
    requires Renders(rows, g, n, boxes) && Fits(boxes, n) && |visible| == n
    requires forall p :: p in layout <==> 0 <= p.0 < |g| && 0 <= p.1 < n
    requires forall p :: p in layout ==> layout[p] == g[p.0][p.1]
    requires ElementsNoted(nTr, rows, n)
    ensures |drawn| == |rows|
    ensures Tiled(Local(g, n, visible), |Visible(visible, n)|, LocalBoxes(boxes, visible))
    ensures forall y: nat :: y < |rows| ==>
      drawn[y] == if EmptyBelow(rows, y) then []
                  else RowOf(Local(g, n, visible), |Visible(visible, n)|, LocalBoxes(boxes, visible), y)
  {
    LocalIsTiled(g, n, boxes, visible);
    ghost var m, shrunk := |Visible(visible, n)|, LocalBoxes(boxes, visible);
    var local := LocalGrid(layout, |rows|, visible, g, n);
    EmptyRowsStayEmpty(rows, g, n, boxes, visible);
    ghost var target := seq(|rows|, y requires 0 <= y < |rows| => RowOf(local, m, shrunk, y));
    if n == 0 { assert AllEmpty(rows); }
    if n > 0 && |rows| > 0 { FirstRowStarts(rows, g, n, boxes); }
    hide Tiled, Fits, EmptyBelow, RowOf, ElementsNoted, AllEmpty;
    drawn := DrawRows(local, nTr, rows, target, n, m, shrunk);
  }

  /** The loop over the rows: each one's noted element is emptied and gets the cells. */
  method DrawRows(local: Grid, nTr: map<int, int>, rows: seq<seq<Cell>>, ghost target: seq<seq<Cell>>,
                  ghost n: nat, ghost m: nat, ghost shrunk: Boxes)
    returns (drawn: seq<seq<Cell>>)
    requires Tiled(local, m, shrunk) && |local| == |rows| == |target|
    requires forall y: nat :: y < |rows| ==> target[y] == RowOf(local, m, shrunk, y)
    requires forall y: nat :: y < |rows| && rows[y] == [] ==> target[y] == []
    requires ElementsNoted(nTr, rows, n) && if n == 0 then AllEmpty(rows) else |rows| > 0 ==> rows[0] != []
    ensures |drawn| == |rows|
    ensures forall y: nat :: y < |rows| ==> drawn[y] == if EmptyBelow(rows, y) then [] else target[y]
  {
    drawn := rows;
    var applied: Applied := {};
    assert Covered(applied, local, m, shrunk, 0, 0);
    hide Tiled, EmptyBelow, RowOf;
    var i := 0;
    while i < |local|
      invariant 0 <= i <= |local|
      invariant Covered(applied, local, m, shrunk, i, 0)
      invariant DrawnTo(drawn, rows, target, i)
    {
      var cells;
      cells, applied := DrawRow(local, i, applied, m, shrunk);
      DrawnNext(drawn, rows, target, i);
      if i in nTr { drawn := drawn[nTr[i] := cells]; }
      i := i + 1;
    }
    assert rows[..i] == rows;
  }

  /** The header once the rows before i have been drawn. */
  ghost predicate DrawnTo(drawn: seq<seq<Cell>>, rows: seq<seq<Cell>>, target: seq<seq<Cell>>, i: nat) {
    && |drawn| == |rows| == |target| && i <= |rows|
    && (forall y: nat :: y < |rows| ==>
          drawn[y] == if y >= i then rows[y] else if EmptyBelow(rows[..i], y) then [] else target[y])
    && (forall y :: 0 <= y < |rows| && rows[y] == [] ==> target[y] == [])
  }

  lemma DrawnNext(drawn: seq<seq<Cell>>, rows: seq<seq<Cell>>, target: seq<seq<Cell>>, i: nat)
    requires DrawnTo(drawn, rows, target, i) && i < |rows| && (AllEmpty(rows) || rows[0] != [])
    ensures AllEmpty(rows) ==> DrawnTo(drawn, rows, target, i + 1)
    ensures rows[0] != [] ==> DrawnTo(drawn[RowElement(rows, i) := target[i]], rows, target, i + 1)
  {
    BelowElement(rows, i);
    var t := RowElement(rows, i);
    forall y: nat | y < |rows| ensures EmptyBelow(rows[..i + 1], y) <==> EmptyBelow(rows[..i], y) || (y + 1 == i && rows[i] == []) {}
    if rows[0] != [] && rows[i] == [] {
      assert t < i && rows[t + 1] == [] && EmptyBelow(rows[..i + 1], t);
    }
  }

  /** The row below starts no cell of its own. */
  predicate EmptyBelow(rows: seq<seq<Cell>>, y: nat) {
    y + 1 < |rows| && rows[y + 1] == []
  }

  /** All rows after the noted element, up to the row itself, are empty. */
  lemma {:induction false} BelowElement(rows: seq<seq<Cell>>, i: nat)
    requires i < |rows|
    ensures forall k :: RowElement(rows, i) < k <= i ==> rows[k] == []
  {
    if rows[i] == [] && i > 0 { BelowElement(rows, i - 1); }
  }

  lemma FirstRowStarts(rows: seq<seq<Cell>>, g: Grid, n: nat, boxes: Boxes)
    requires Renders(rows, g, n, boxes) && n > 0 && |rows| > 0
    ensures rows[0] != []
  {
    if rows[0] == [] { EmptyRowContinues(g, n, boxes, 0, 0); }
  }

  lemma EmptyRowsStayEmpty(rows: seq<seq<Cell>>, g: Grid, n: nat, boxes: Boxes, visible: seq<bool>)
    requires Renders(rows, g, n, boxes) && Hideable(g, n, boxes, visible)
    ensures forall y: nat :: y < |rows| && rows[y] == [] ==>
      RowOf(Local(g, n, visible), |Visible(visible, n)|, LocalBoxes(boxes, visible), y) == []
  {
    forall y: nat | y < |rows| && rows[y] == []
      ensures RowOf(Local(g, n, visible), |Visible(visible, n)|, LocalBoxes(boxes, visible), y) == []
    {
      DrawnAsShown(rows, g, n, boxes, visible, y);
    }
  }

  // ------------------------------------------------------------------ what is drawn

  function Occurrences(cells: seq<Cell>, id: Id): nat {
    if cells == [] then 0
    else Occurrences(cells[..|cells| - 1], id) + (if cells[|cells| - 1].id == id then 1 else 0)
  }

  /** A cell stands exactly once in the rows of a grid: in the row its box starts in. */
  lemma {:induction false} CellStandsOnce(g: Grid, n: nat, boxes: Boxes, y: nat, x: nat, id: Id)
    requires Tiled(g, n, boxes) && y < |g| && x <= n
    ensures Occurrences(RowTo(g, n, boxes, y, x), id) == if id in boxes && boxes[id].top == y && boxes[id].left < x then 1 else 0
  {
    if x > 0 {
      CellStandsOnce(g, n, boxes, y, x - 1, id);
      var front, row := RowTo(g, n, boxes, y, x - 1), RowTo(g, n, boxes, y, x);
      assert row != front ==> row[..|row| - 1] == front;
      if id in boxes && boxes[id].top == y && boxes[id].left == x - 1 { BoxIsInside(g, n, boxes, id, y, x - 1); }
    }
  }

  /** These are the cells whose box starts in row y before column x, left to right, with the
      spans of the box. */
  ghost predicate ListsCorners(cells: seq<Cell>, boxes: Boxes, y: nat, x: nat) {
    && (forall k :: 0 <= k < |cells| ==>
          && cells[k].id in boxes
          && boxes[cells[k].id] == Box(y, boxes[cells[k].id].left, cells[k].rowspan, cells[k].colspan)
          && boxes[cells[k].id].left < x)
    && (forall i, k :: 0 <= i < k < |cells| ==> boxes[cells[i].id].left < boxes[cells[k].id].left)
    && (forall id :: id in boxes && boxes[id].top == y && boxes[id].left < x ==> Stands(cells, id))
  }

  ghost predicate Stands(cells: seq<Cell>, id: Id) {
    exists k :: 0 <= k < |cells| && cells[k].id == id
  }

  lemma {:induction false} RowToMembers(g: Grid, n: nat, boxes: Boxes, y: nat, x: nat)
    requires Tiled(g, n, boxes) && y < |g| && x <= n
    ensures ListsCorners(RowTo(g, n, boxes, y, x), boxes, y, x)
  {
    if x > 0 {
      RowToMembers(g, n, boxes, y, x - 1);
      forall id | id in boxes && boxes[id].top == y && boxes[id].left == x - 1 ensures g[y][x - 1] == id {
        BoxIsInside(g, n, boxes, id, y, x - 1);
      }
      var front, id := RowTo(g, n, boxes, y, x - 1), g[y][x - 1];
      if IsCorner(g, boxes, y, x - 1) { ListsNext(front, boxes, y, x - 1, id); }
    }
  }

  lemma ListsNext(front: seq<Cell>, boxes: Boxes, y: nat, x: nat, id: Id)
    requires ListsCorners(front, boxes, y, x) && id in boxes && boxes[id].top == y && boxes[id].left == x
    requires forall m :: m in boxes && boxes[m].top == y && boxes[m].left == x ==> m == id
    ensures ListsCorners(front + [Cell(id, boxes[id].height, boxes[id].width)], boxes, y, x + 1)
  {
    var cells := front + [Cell(id, boxes[id].height, boxes[id].width)];
    assert cells[|front|].id == id;
    forall m | m in boxes && boxes[m].top == y && boxes[m].left < x + 1 ensures Stands(cells, m) {
      if boxes[m].left < x {
        assert Stands(front, m);
        var k :| 0 <= k < |front| && front[k].id == m;
        assert cells[k].id == m;
      }
    }
  }

  /** What a drawn row must be, by the flags of the columns: the cells whose box starts in it and
      that have a visible column, each once and left to right, with their rowspan and as many
      columns as are visible. */
  ghost predicate DrawsRow(cells: seq<Cell>, y: nat, boxes: Boxes, visible: seq<bool>) {
    && (forall k :: 0 <= k < |cells| ==>
          && cells[k].id in boxes
          && boxes[cells[k].id].top == y && cells[k].rowspan == boxes[cells[k].id].height
          && cells[k].colspan == |VisibleIn(boxes[cells[k].id], visible)| > 0)
    && (forall i, k :: 0 <= i < k < |cells| ==> boxes[cells[i].id].left < boxes[cells[k].id].left)
    && (forall id :: id in boxes && boxes[id].top == y && VisibleIn(boxes[id], visible) != {} ==> Stands(cells, id))
  }

  lemma LocalRowDraws(g: Grid, n: nat, boxes: Boxes, visible: seq<bool>, y: nat)
    requires Hideable(g, n, boxes, visible) && y < |g|
    ensures DrawsRow(RowOf(Local(g, n, visible), |Visible(visible, n)|, LocalBoxes(boxes, visible), y), y, boxes, visible)
  {
    var local, m, shrunk := Local(g, n, visible), |Visible(visible, n)|, LocalBoxes(boxes, visible);
    RowToMembers(local, m, shrunk, y, m);
    ShrunkenCells(RowTo(local, m, shrunk, y, m), boxes, visible, y);
  }

  /** The corners of the shrunken boxes are what must be drawn. */
  lemma ShrunkenCells(cells: seq<Cell>, boxes: Boxes, visible: seq<bool>, y: nat)
    requires Fits(boxes, |visible|)
    requires ListsCorners(cells, LocalBoxes(boxes, visible), y, |Visible(visible, |visible|)|)
    ensures DrawsRow(cells, y, boxes, visible)
  {
    hide Stands, Visible, VisibleIn;
    var shrunk := LocalBoxes(boxes, visible);
    forall k | 0 <= k < |cells| ensures cells[k].colspan == |VisibleIn(boxes[cells[k].id], visible)| > 0 {
      SpanCounts(boxes[cells[k].id], visible);
    }
    forall i, k | 0 <= i < k < |cells| ensures boxes[cells[i].id].left < boxes[cells[k].id].left {
      var a, b := boxes[cells[i].id], boxes[cells[k].id];
      assert shrunk[cells[i].id].left < shrunk[cells[k].id].left;
      if b.left <= a.left { VisibleSplit(visible, b.left, a.left); }
    }
    forall id | id in boxes && boxes[id].top == y && VisibleIn(boxes[id], visible) != {} ensures Stands(cells, id) {
      ShrunkenLeft(boxes, visible, id);
    }
  }

  lemma ShrunkenLeft(boxes: Boxes, visible: seq<bool>, id: Id)
    requires Fits(boxes, |visible|) && id in boxes && VisibleIn(boxes[id], visible) != {}
    ensures id in LocalBoxes(boxes, visible) && LocalBoxes(boxes, visible)[id].top == boxes[id].top
    ensures LocalBoxes(boxes, visible)[id].left < |Visible(visible, |visible|)|
  {
    SpanCounts(boxes[id], visible);
    VisibleSplit(visible, boxes[id].left + boxes[id].width, |visible|);
  }

  ghost predicate IdsIn(cells: seq<Cell>, boxes: Boxes) {
    forall k :: 0 <= k < |cells| ==> cells[k].id in boxes
  }

  /** A cell as wide as its visible columns, or nothing when they are all hidden. */
  ghost function ShownCell(c: Cell, boxes: Boxes, visible: seq<bool>): seq<Cell>
    requires Fits(boxes, |visible|) && c.id in boxes
  {
    var span := Span(visible, boxes[c.id].left, boxes[c.id].width);
    if span > 0 then [Cell(c.id, c.rowspan, span)] else []
  }

  /** The cells of a header row that cover a visible column, each as wide as its visible columns. */
  ghost function Shown(cells: seq<Cell>, boxes: Boxes, visible: seq<bool>): seq<Cell>
    requires Fits(boxes, |visible|) && IdsIn(cells, boxes)
  {
    if cells == [] then []
    else
      Shown(cells[..|cells| - 1], boxes, visible) + ShownCell(cells[|cells| - 1], boxes, visible)
  }

  lemma {:induction false} RowToIds(g: Grid, n: nat, boxes: Boxes, y: nat, x: nat)
    requires Tiled(g, n, boxes) && y < |g| && x <= n
    ensures IdsIn(RowTo(g, n, boxes, y, x), boxes)
  {
    if x > 0 { RowToIds(g, n, boxes, y, x - 1); }
  }

  /** Across a box, row y gains the box's cell if the box starts in row y, and nothing else. */
  lemma {:induction false} AcrossBox(g: Grid, n: nat, boxes: Boxes, y: nat, id: Id, x: nat)
    requires Tiled(g, n, boxes) && id in boxes && y < |g|
    requires boxes[id].top <= y < boxes[id].top + boxes[id].height
    requires boxes[id].left < x <= boxes[id].left + boxes[id].width && x <= n
    ensures RowTo(g, n, boxes, y, x) == RowTo(g, n, boxes, y, boxes[id].left) +
      (if boxes[id].top == y then [Cell(id, boxes[id].height, boxes[id].width)] else [])
  {
    BoxIsInside(g, n, boxes, id, y, x - 1);
    if x - 1 > boxes[id].left { AcrossBox(g, n, boxes, y, id, x - 1); }
  }

  /** x is where a cell of row y starts, or the end of the row. */
  ghost predicate Boundary(g: Grid, n: nat, boxes: Boxes, y: nat, x: nat)
    requires Tiled(g, n, boxes) && y < |g| && x <= n
  {
    x == n || boxes[g[y][x]].left == x
  }

  ghost predicate Hideable(g: Grid, n: nat, boxes: Boxes, visible: seq<bool>) {
    && Tiled(g, n, boxes) && Fits(boxes, n) && |visible| == n
    && Tiled(Local(g, n, visible), |Visible(visible, n)|, LocalBoxes(boxes, visible))
  }

  /** Row y of the local grid, up to the place where column x of the full grid would be. */
  ghost function LocalRowTo(g: Grid, n: nat, boxes: Boxes, visible: seq<bool>, y: nat, x: nat): seq<Cell>
    requires Hideable(g, n, boxes, visible) && y < |g| && x <= n
  {
    VisibleSplit(visible, x, n);
    RowTo(Local(g, n, visible), |Visible(visible, n)|, LocalBoxes(boxes, visible), y, |Visible(visible, x)|)
  }

  /** Up to any boundary, the local grid's row is the header's row as shown. */
  lemma {:induction false} ShownToBoundary(g: Grid, n: nat, boxes: Boxes, visible: seq<bool>, y: nat, x: nat)
    requires Hideable(g, n, boxes, visible) && y < |g| && x <= n && Boundary(g, n, boxes, y, x)
    requires IdsIn(RowTo(g, n, boxes, y, x), boxes)
    ensures LocalRowTo(g, n, boxes, visible, y, x) == Shown(RowTo(g, n, boxes, y, x), boxes, visible)
    decreases x
  {
    if x > 0 {
      var id := OwnerBefore(g, n, boxes, y, x);
      ShownStep(g, n, boxes, visible, y, x, id);
      ShownToBoundary(g, n, boxes, visible, y, boxes[id].left);
    }
  }

  lemma ShownStep(g: Grid, n: nat, boxes: Boxes, visible: seq<bool>, y: nat, x: nat, id: Id)
    requires Hideable(g, n, boxes, visible) && y < |g| && 0 < x <= n
    requires id in boxes && boxes[id].left < x == boxes[id].left + boxes[id].width
    requires boxes[id].top <= y < boxes[id].top + boxes[id].height
    ensures IdsIn(RowTo(g, n, boxes, y, x), boxes) && IdsIn(RowTo(g, n, boxes, y, boxes[id].left), boxes)
    ensures LocalRowTo(g, n, boxes, visible, y, boxes[id].left) == Shown(RowTo(g, n, boxes, y, boxes[id].left), boxes, visible) ==>
      LocalRowTo(g, n, boxes, visible, y, x) == Shown(RowTo(g, n, boxes, y, x), boxes, visible)
  {
    hide Tiled, Local, LocalBoxes, RowTo, Fits, IdsIn, LocalRowTo, Shown, ShownCell, Visible;
    var b := boxes[id];
    RowToIds(g, n, boxes, y, x);
    RowToIds(g, n, boxes, y, b.left);
    AcrossBox(g, n, boxes, y, id, x);
    ShownAcrossBox(g, n, boxes, visible, y, id);
    var shown, row := LocalRowTo(g, n, boxes, visible, y, b.left), RowTo(g, n, boxes, y, b.left);
    assert shown + [] == shown && row + [] == row;
    ShownNext(RowTo(g, n, boxes, y, b.left), Cell(id, b.height, b.width), boxes, visible);
  }

  /** The cell that ends at a boundary. */
  lemma OwnerBefore(g: Grid, n: nat, boxes: Boxes, y: nat, x: nat) returns (id: Id)
    requires Tiled(g, n, boxes) && y < |g| && 0 < x <= n && Boundary(g, n, boxes, y, x)
    ensures id in boxes && boxes[id].left < x == boxes[id].left + boxes[id].width
    ensures boxes[id].top <= y < boxes[id].top + boxes[id].height
    ensures Boundary(g, n, boxes, y, boxes[id].left)
  {
    id := g[y][x - 1];
    var b := boxes[id];
    assert In(b, y, x - 1);
    if b.left + b.width > x { BoxIsInside(g, n, boxes, id, y, x); }
    BoxIsInside(g, n, boxes, id, y, b.left);
  }

  lemma ShownNext(cells: seq<Cell>, c: Cell, boxes: Boxes, visible: seq<bool>)
    requires Fits(boxes, |visible|) && c.id in boxes && IdsIn(cells, boxes)
    ensures Shown(cells + [c], boxes, visible) == Shown(cells, boxes, visible) + ShownCell(c, boxes, visible)
  {
    var all := cells + [c];
    assert all[..|all| - 1] == cells && all[|all| - 1] == c;
  }

  /** Across a box, the local row gains the box's cell as shown if the box starts in the row. */
  lemma ShownAcrossBox(g: Grid, n: nat, boxes: Boxes, visible: seq<bool>, y: nat, id: Id)
    requires Hideable(g, n, boxes, visible) && y < |g|
    requires id in boxes && boxes[id].top <= y < boxes[id].top + boxes[id].height
    ensures boxes[id].left + boxes[id].width <= n
    ensures var b := boxes[id];
      LocalRowTo(g, n, boxes, visible, y, b.left + b.width) == LocalRowTo(g, n, boxes, visible, y, b.left) +
        (if b.top == y then ShownCell(Cell(id, b.height, b.width), boxes, visible) else [])
  {
    var b := boxes[id];
    hide Tiled, RowTo, Visible, Local, LocalBoxes;
    VisibleSplit(visible, b.left, b.left + b.width);
    VisibleSplit(visible, b.left + b.width, n);
    if Span(visible, b.left, b.width) > 0 { AcrossShrunkBox(g, n, boxes, visible, y, id); }
  }

  /** Of a box with a visible column, the shrunken box is what is crossed in the local grid. */
  lemma AcrossShrunkBox(g: Grid, n: nat, boxes: Boxes, visible: seq<bool>, y: nat, id: Id)
    requires Hideable(g, n, boxes, visible) && y < |g|
    requires id in boxes && boxes[id].top <= y < boxes[id].top + boxes[id].height
    requires Span(visible, boxes[id].left, boxes[id].width) > 0
    ensures var b := boxes[id];
      LocalRowTo(g, n, boxes, visible, y, b.left + b.width) == LocalRowTo(g, n, boxes, visible, y, b.left) +
        (if b.top == y then [Cell(id, b.height, Span(visible, b.left, b.width))] else [])
  {
    var b := boxes[id];
    var shrunk := LocalBoxes(boxes, visible);
    assert shrunk[id] == Box(b.top, |Visible(visible, b.left)|, b.height, Span(visible, b.left, b.width));
    hide Tiled, RowTo, Visible, LocalBoxes, Fits;
    VisibleSplit(visible, b.left + b.width, n);
    AcrossBox(Local(g, n, visible), |Visible(visible, n)|, shrunk, y, id, |Visible(visible, b.left + b.width)|);
  }

  /** Detecting a header and drawing it with any columns hidden gives, row by row, exactly the
      cells that cover a visible column, with their rowspan and as many columns as are visible;
      these cells tile the rows by the visible columns. But a row above one that starts no cell is
      drawn empty, as its element is emptied a second time; so with no column hidden, the header
      comes back exactly if every row starts a cell, or none does. */
  method DetectAndDraw(rows: seq<seq<Cell>>, visible: seq<bool>, ghost g: Grid, ghost boxes: Boxes)
    returns (drawn: seq<seq<Cell>>)
    requires Renders(rows, g, |visible|, boxes)
    ensures |drawn| == |rows| && Fits(boxes, |visible|)
    ensures forall y :: 0 <= y < |rows| ==> IdsIn(rows[y], boxes)
    ensures forall y: nat :: y < |rows| ==>
      if EmptyBelow(rows, y) then drawn[y] == [] else DrawsRow(drawn[y], y, boxes, visible)
    ensures forall y: nat :: y < |rows| ==>
      drawn[y] == if EmptyBelow(rows, y) then [] else Shown(rows[y], boxes, visible)
    ensures Tiled(Local(g, |visible|, visible), |Visible(visible, |visible|)|, LocalBoxes(boxes, visible))
    ensures forall y: nat :: y < |rows| ==>
      Shown(rows[y], boxes, visible) ==
      RowOf(Local(g, |visible|, visible), |Visible(visible, |visible|)|, LocalBoxes(boxes, visible), y)
    ensures AllVisible(visible) ==> (drawn == rows <==> NoneEmpty(rows) || AllEmpty(rows))
  {
    ghost var n := |visible|;
    TiledFits(g, n, boxes);
    var layout, nTr := DetectHeader(rows, g, n, boxes);
    drawn := DrawHead(layout, nTr, visible, rows, g, n, boxes);
    forall y: nat | y < |rows|
      ensures IdsIn(rows[y], boxes)
      ensures RowOf(Local(g, n, visible), |Visible(visible, n)|, LocalBoxes(boxes, visible), y) == Shown(rows[y], boxes, visible)
      ensures AllVisible(visible) ==> Shown(rows[y], boxes, visible) == rows[y]
      ensures DrawsRow(Shown(rows[y], boxes, visible), y, boxes, visible)
    {
      DrawnAsShown(rows, g, n, boxes, visible, y);
      LocalRowDraws(g, n, boxes, visible, y);
    }
    hide DrawsRow, Tiled, RowOf, Shown, Local, EmptyBelow;
    if AllVisible(visible) { ComesBackIff(rows, drawn, g, n, boxes); }
  }

  predicate NoneEmpty(rows: seq<seq<Cell>>) {
    forall y :: 0 <= y < |rows| ==> rows[y] != []
  }

  predicate AllEmpty(rows: seq<seq<Cell>>) {
    forall y :: 0 <= y < |rows| ==> rows[y] == []
  }

  lemma ComesBackIff(rows: seq<seq<Cell>>, drawn: seq<seq<Cell>>, g: Grid, n: nat, boxes: Boxes)
    requires Renders(rows, g, n, boxes) && |drawn| == |rows|
    requires forall y: nat :: y < |rows| ==> drawn[y] == if EmptyBelow(rows, y) then [] else rows[y]
    ensures drawn == rows <==> NoneEmpty(rows) || AllEmpty(rows)
  {
    if !NoneEmpty(rows) && !AllEmpty(rows) {
      var y: nat :| y < |rows| && rows[y] == [];
      if n > 0 {
        FirstRowStarts(rows, g, n, boxes);
        BelowElement(rows, y);
        StartsAt(rows, y);
        assert EmptyBelow(rows, RowElement(rows, y));
      }
    }
  }

  /** In a header whose first row starts a cell, the noted element has a cell of its own. */
  lemma {:induction false} StartsAt(rows: seq<seq<Cell>>, y: nat)
    requires y < |rows| && rows[0] != []
    ensures rows[RowElement(rows, y)] != []
  {
    if rows[y] == [] { StartsAt(rows, y - 1); }
  }

  lemma DrawnAsShown(rows: seq<seq<Cell>>, g: Grid, n: nat, boxes: Boxes, visible: seq<bool>, y: nat)
    requires Renders(rows, g, n, boxes) && Hideable(g, n, boxes, visible) && y < |rows|
    ensures IdsIn(rows[y], boxes)
    ensures RowOf(Local(g, n, visible), |Visible(visible, n)|, LocalBoxes(boxes, visible), y) == Shown(rows[y], boxes, visible)
    ensures AllVisible(visible) ==> Shown(rows[y], boxes, visible) == rows[y]
  {
    RowToIds(g, n, boxes, y, n);
    ShownToBoundary(g, n, boxes, visible, y, n);
    if AllVisible(visible) {
      RowToWidths(g, n, boxes, y, n);
      AllShown(rows[y], boxes, visible);
    }
  }

  lemma {:induction false} NothingHidden(visible: seq<bool>, x: nat)
    requires x <= |visible| && AllVisible(visible)
    ensures |Visible(visible, x)| == x
  {
    if x > 0 { NothingHidden(visible, x - 1); }
  }

  /** Each cell is as wide as its box. */
  ghost predicate Wide(cells: seq<Cell>, boxes: Boxes) {
    forall k :: 0 <= k < |cells| ==> cells[k].id in boxes && cells[k].colspan == boxes[cells[k].id].width
  }

  ghost predicate AllVisible(visible: seq<bool>) {
    forall j :: 0 <= j < |visible| ==> visible[j]
  }

  lemma ShownWhole(c: Cell, boxes: Boxes, visible: seq<bool>)
    requires Fits(boxes, |visible|) && c.id in boxes && AllVisible(visible)
    requires c.colspan == boxes[c.id].width >= 1
    ensures ShownCell(c, boxes, visible) == [c]
  {
    NothingHidden(visible, boxes[c.id].left);
    NothingHidden(visible, boxes[c.id].left + boxes[c.id].width);
  }

  lemma {:induction false} AllShown(cells: seq<Cell>, boxes: Boxes, visible: seq<bool>)
    requires Fits(boxes, |visible|) && IdsIn(cells, boxes) && Wide(cells, boxes) && AllVisible(visible)
    requires forall id :: id in boxes ==> boxes[id].width >= 1
    ensures Shown(cells, boxes, visible) == cells
  {
    if cells != [] {
      var front, c := cells[..|cells| - 1], cells[|cells| - 1];
      assert cells == front + [c];
      ShownWhole(c, boxes, visible);
      AllShown(front, boxes, visible);
      hide Shown, ShownCell, Fits, AllVisible, IdsIn, Wide;
      ShownNext(front, c, boxes, visible);
    }
  }

  lemma {:induction false} RowToWidths(g: Grid, n: nat, boxes: Boxes, y: nat, x: nat)
    requires Tiled(g, n, boxes) && y < |g| && x <= n
    ensures Wide(RowTo(g, n, boxes, y, x), boxes)
  {
    if x > 0 { RowToWidths(g, n, boxes, y, x - 1); }
  }
}