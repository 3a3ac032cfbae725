/** Multi-column sorting of row indexes with the formatter-path comparator of _fnSort. */
module TableSort {
  import Seqs

  /** A sort value as a formatter leaves it; the numeric ones turn an empty cell into minus
      infinity. JavaScript's < puts numbers and strings in no order that could be relied on, so
      a value is below another only within one kind. */
  datatype Key = MinusInfinity | Number(n: real) | Text(s: string) {
    predicate Numeric() {
      !Text?
    }
  }

  predicate TextLess(a: string, b: string) {
    if b == [] then false
    else if a == [] then true
    else if a[0] != b[0] then a[0] < b[0]
    else TextLess(a[1..], b[1..])
  }

  predicate Less(x: Key, y: Key) {
    match (x, y)
    case (Number(m), Number(n)) => m < n
    case (MinusInfinity, Number(_)) => true
    case (Text(s), Text(t)) => TextLess(s, t)
    case _ => false
  }

  lemma {:induction false} TextLessTotal(a: string, b: string)
    ensures !TextLess(a, a)
    ensures !(TextLess(a, b) && TextLess(b, a))
    ensures a != b ==> TextLess(a, b) || TextLess(b, a)
  {
    if a != [] { TextLessTotal(a[1..], a[1..]); }
    if a != [] && b != [] {
      TextLessTotal(a[1..], b[1..]);
      assert a == [a[0]] + a[1..] && b == [b[0]] + b[1..];
    }
  }

  lemma {:induction false} TextLessTransitive(a: string, b: string, c: string)
    requires TextLess(a, b) && TextLess(b, c)
    ensures TextLess(a, c)
  {
    if a != [] && a[0] == b[0] == c[0] {
      TextLessTransitive(a[1..], b[1..], c[1..]);
    }
  }

  /** The order of strings: a proper prefix first, otherwise the first difference decides. */
  lemma {:induction false} TextLessMeaning(a: string, b: string)
    ensures TextLess(a, b) <==> a < b || exists i: nat :: DiffersAt(a, b, i) && a[i] < b[i]
  {
    if a != [] && b != [] && a[0] == b[0] {
      TextLessMeaning(a[1..], b[1..]);
      forall i: nat ensures DiffersAt(a[1..], b[1..], i) <==> DiffersAt(a, b, i + 1) {
        if i + 1 <= |a| && i + 1 <= |b| {
          assert a[..i + 1] == [a[0]] + a[1..][..i] && b[..i + 1] == [b[0]] + b[1..][..i];
          assert a[..i + 1][1..] == a[1..][..i] && b[..i + 1][1..] == b[1..][..i];
        }
      }
      if TextLess(a, b) && !(a < b) {
        assert a == [a[0]] + a[1..] && b == [b[0]] + b[1..];
        var i: nat :| DiffersAt(a[1..], b[1..], i) && a[1..][i] < b[1..][i];
        assert DiffersAt(a, b, i + 1) && a[i + 1] < b[i + 1];
      }
      if i: nat :| DiffersAt(a, b, i) && a[i] < b[i] {
        assert DiffersAt(a[1..], b[1..], i - 1) && a[1..][i - 1] < b[1..][i - 1];
      }
    } else if a != [] && b != [] {
      assert a[..0] == b[..0] && DiffersAt(a, b, 0);
      assert forall i: nat | 0 < i <= |a| && i <= |b| :: a[..i][0] == a[0] && b[..i][0] == b[0];
    }
  }

  predicate DiffersAt(a: string, b: string, i: nat) {
    i < |a| && i < |b| && a[..i] == b[..i] && a[i] != b[i]
  }

  /** Numbers in their order, the empty cell below them all; strings in theirs; no value of one
      kind below one of the other. */
  lemma LessMeaning(x: Key, y: Key)
    ensures Less(x, y) <==>
            || (x.Number? && y.Number? && x.n < y.n)
            || (x.MinusInfinity? && y.Number?)
            || (x.Text? && y.Text? && (x.s < y.s || exists i: nat :: DiffersAt(x.s, y.s, i) && x.s[i] < y.s[i]))
  {
    if x.Text? && y.Text? { TextLessMeaning(x.s, y.s); }
  }

  // ------------------------------------------------------------------ the comparator

  datatype Direction = Asc | Desc
  datatype Sort = Sort(col: nat, dir: Direction)

  /** The cached sort value of a row in a column. */
  type Values = (nat, nat) -> Key

  /** x<y ? -1 : x>y ? 1 : 0 */
  function Test(x: Key, y: Key): int {
    if Less(x, y) then -1 else if Less(y, x) then 1 else 0
  }

  function Signed(test: int, dir: Direction): int {
    if dir == Asc then test else -test
  }

  /** The first column whose values differ decides. */
  function ByColumns(sorts: seq<Sort>, values: Values, a: nat, b: nat): int {
    if sorts == [] then 0
    else
      var c := Signed(Test(values(a, sorts[0].col), values(b, sorts[0].col)), sorts[0].dir);
      if c != 0 then c else ByColumns(sorts[1..], values, a, b)
  }

  /** Rows equal in all columns keep the order of their positions before the sort. */
  predicate Precedes(sorts: seq<Sort>, values: Values, orig: nat -> int, a: nat, b: nat) {
    ByColumns(sorts, values, a, b) < 0 || (ByColumns(sorts, values, a, b) == 0 && orig(a) < orig(b))
  }

  /** In each sorted column the values are all numbers or all strings. */
  predicate Uniform(sorts: seq<Sort>, values: Values, n: nat) {
    forall i, a, b :: 0 <= i < |sorts| && 0 <= a < n && 0 <= b < n ==>
      values(a, sorts[i].col).Numeric() == values(b, sorts[i].col).Numeric()
  }

  /** The comparison function handed to displayMaster.sort. */
  method Compare(sorts: seq<Sort>, values: Values, orig: nat -> int, a: nat, b: nat) returns (c: int)
    ensures c < 0 <==> Precedes(sorts, values, orig, a, b)
    ensures c == 0 <==> ByColumns(sorts, values, a, b) == 0 && orig(a) == orig(b)
  {
    var k := 0;
    while k < |sorts|
      invariant 0 <= k <= |sorts|
      invariant ByColumns(sorts[k..], values, a, b) == ByColumns(sorts, values, a, b)
    {
      var x, y := values(a, sorts[k].col), values(b, sorts[k].col);
      var test := if Less(x, y) then -1 else if Less(y, x) then 1 else 0;
      assert sorts[k..][1..] == sorts[k + 1..];
      if test != 0 {
        return if sorts[k].dir == Asc then test else -test;
      }
      k := k + 1;
    }
    var x, y := orig(a), orig(b);
    c := if x < y then -1 else if x > y then 1 else 0;
  }

  lemma UniformTail(sorts: seq<Sort>, values: Values, n: nat)
    requires sorts != [] && Uniform(sorts, values, n)
    ensures Uniform(sorts[1..], values, n)
  {
    forall i, a, b | 0 <= i < |sorts[1..]| && 0 <= a < n && 0 <= b < n
      ensures values(a, sorts[1..][i].col).Numeric() == values(b, sorts[1..][i].col).Numeric()
    {
      assert sorts[1..][i] == sorts[i + 1];
    }
  }

  lemma TestSigns(x: Key, y: Key)
    ensures Test(x, y) == -Test(y, x) && -1 <= Test(x, y) <= 1
    ensures x.Numeric() == y.Numeric() ==> (Test(x, y) == 0 <==> x == y)
  {
    match (x, y) {
      case (Text(s), Text(t)) => TextLessTotal(s, t); TextLessTotal(t, s);
      case _ =>
    }
  }

  lemma TestTransitive(x: Key, y: Key, z: Key)
    requires Test(x, y) < 0 && Test(y, z) < 0
    ensures Test(x, z) < 0
  {
    TestSigns(x, y);
    TestSigns(y, z);
    match (x, y, z) {
      case (Text(s), Text(t), Text(u)) => TextLessTransitive(s, t, u);
      case _ =>
    }
  }

  lemma {:induction false} ColumnsAntisymmetric(sorts: seq<Sort>, values: Values, a: nat, b: nat)
    ensures ByColumns(sorts, values, a, b) == -ByColumns(sorts, values, b, a)
  {
    if sorts != [] {
      TestSigns(values(a, sorts[0].col), values(b, sorts[0].col));
      ColumnsAntisymmetric(sorts[1..], values, a, b);
    }
  }

  /** Less-or-equal chains, and strictly if one link is strict. */
  lemma {:induction false} ColumnsTransitive(sorts: seq<Sort>, values: Values, n: nat, a: nat, b: nat, c: nat)
    requires Uniform(sorts, values, n) && a < n && b < n && c < n
    requires ByColumns(sorts, values, a, b) <= 0 && ByColumns(sorts, values, b, c) <= 0
    ensures ByColumns(sorts, values, a, c) <= 0
    ensures ByColumns(sorts, values, a, c) == 0 ==>
              ByColumns(sorts, values, a, b) == 0 && ByColumns(sorts, values, b, c) == 0
  {
    if sorts != [] {
      var col, dir := sorts[0].col, sorts[0].dir;
      var x, y, z := values(a, col), values(b, col), values(c, col);
      assert x.Numeric() == y.Numeric() == z.Numeric();
      UniformTail(sorts, values, n);
      TestSigns(x, y); TestSigns(y, z); TestSigns(x, z);
      if x == y || y == z {
        if x == y == z { ColumnsTransitive(sorts[1..], values, n, a, b, c); }
      } else if dir == Asc {
        TestTransitive(x, y, z);
      } else {
        TestTransitive(z, y, x);
        TestSigns(z, x);
      }
    }
  }

  // ------------------------------------------------------------------ the sorted permutation

  /** Where `x` stands in `a`; -1 if nowhere. */
  function PositionIn(a: seq<nat>): nat -> int {
    (x: nat) => Position(a, x)
  }

  function Position(a: seq<nat>, x: nat): (i: int)
    ensures -1 <= i < |a|
    ensures i >= 0 ==> a[i] == x
    ensures x in a <==> i >= 0
  {
    if a == [] then -1
    else if a[|a| - 1] == x then |a| - 1
    else Position(a[..|a| - 1], x)
  }

  lemma PositionOfElement(a: seq<nat>, i: nat)
    requires Seqs.Distinct(a) && i < |a|
    ensures Position(a, a[i]) == i
  {
    assert a[i] in a;
  }

  predicate SortedBy(r: seq<nat>, sorts: seq<Sort>, values: Values, orig: nat -> int) {
    forall i, j :: 0 <= i < j < |r| ==> Precedes(sorts, values, orig, r[i], r[j])
  }

  /** `r` is `s` sorted: its rows, ordered by the columns and then by their places in `s`. */
  predicate IsSortOf(r: seq<nat>, s: seq<nat>, sorts: seq<Sort>, values: Values) {
    multiset(r) == multiset(s) && SortedBy(r, sorts, values, PositionIn(s))
  }

  ghost predicate Rows(s: seq<nat>, n: nat) {
    Seqs.Distinct(s) && forall i :: 0 <= i < |s| ==> s[i] < n
  }

  /** On the rows of `s` the comparator is a strict total order. */
  lemma StrictTotalOrder(s: seq<nat>, n: nat, sorts: seq<Sort>, values: Values, a: nat, b: nat,
                                            c: nat)
    requires Rows(s, n) && Uniform(sorts, values, n) && a in s && b in s && c in s
    ensures var o := PositionIn(s);
            && !Precedes(sorts, values, o, a, a)
            && (a != b ==> Precedes(sorts, values, o, a, b) != Precedes(sorts, values, o, b, a))
            && (Precedes(sorts, values, o, a, b) && Precedes(sorts, values, o, b, c) ==> Precedes(sorts, values, o, a, c))
  {
    ColumnsAntisymmetric(sorts, values, a, a);
    ColumnsAntisymmetric(sorts, values, a, b);
    var o := PositionIn(s);
    if Precedes(sorts, values, o, a, b) && Precedes(sorts, values, o, b, c) {
      ColumnsTransitive(sorts, values, n, a, b, c);
    }
  }

  predicate EqualBefore(sorts: seq<Sort>, values: Values, a: nat, b: nat, k: nat) {
    forall m :: 0 <= m < k && m < |sorts| ==> values(a, sorts[m].col) == values(b, sorts[m].col)
  }

  lemma {:induction false} EqualColumnsSkip(sorts: seq<Sort>, values: Values, a: nat, b: nat, k: nat)
    requires k <= |sorts| && EqualBefore(sorts, values, a, b, k)
    ensures ByColumns(sorts, values, a, b) == ByColumns(sorts[k..], values, a, b)
    decreases k
  {
    if k > 0 {
      assert sorts[1..][k - 1..] == sorts[k..];
      forall m | 0 <= m < k - 1 && m < |sorts[1..]| ensures values(a, sorts[1..][m].col) == values(b, sorts[1..][m].col) {
        assert sorts[1..][m] == sorts[m + 1];
      }
      TestSigns(values(a, sorts[0].col), values(b, sorts[0].col));
      EqualColumnsSkip(sorts[1..], values, a, b, k - 1);
    } else {
      assert sorts[0..] == sorts;
    }
  }

  /** What a sorted list looks like. Of two rows that are equal in the columns before k, the
      earlier one is not greater in column k if that column ascends, and not less if it descends;
      rows equal in all columns stand as they stood before. */
  lemma SortMeaning(r: seq<nat>, s: seq<nat>, n: nat, sorts: seq<Sort>, values: Values, i: nat, j: nat, k: nat)
    requires Rows(s, n) && Uniform(sorts, values, n) && IsSortOf(r, s, sorts, values)
    requires i < j < |r| && k <= |sorts| && EqualBefore(sorts, values, r[i], r[j], k)
    ensures k < |sorts| ==>
              var x, y := values(r[i], sorts[k].col), values(r[j], sorts[k].col);
              if sorts[k].dir.Asc? then !Less(y, x) else !Less(x, y)
    ensures k == |sorts| ==> exists a, b :: 0 <= a < b < |s| && s[a] == r[i] && s[b] == r[j]
  {
    EqualColumnsSkip(sorts, values, r[i], r[j], k);
    assert Precedes(sorts, values, PositionIn(s), r[i], r[j]);
    if k < |sorts| {
      TestSigns(values(r[i], sorts[k].col), values(r[j], sorts[k].col));
    } else {
      assert r[i] in multiset(r) && r[j] in multiset(r);
      assert r[i] in s && r[j] in s;
      var a, b := Position(s, r[i]), Position(s, r[j]);
      assert 0 <= a < b < |s| && s[a] == r[i] && s[b] == r[j];
    }
  }

  lemma SortedIsDistinct(r: seq<nat>, s: seq<nat>, n: nat, sorts: seq<Sort>, values: Values)
    requires Rows(s, n) && Uniform(sorts, values, n) && (forall x :: x in r ==> x in s)
    requires SortedBy(r, sorts, values, PositionIn(s))
    ensures Seqs.Distinct(r)
  {
    forall i, j | 0 <= i < j < |r| ensures r[i] != r[j] {
      StrictTotalOrder(s, n, sorts, values, r[i], r[j], r[j]);
    }
  }

  lemma SameRows(r: seq<nat>, s: seq<nat>)
    requires multiset(r) == multiset(s)
    ensures forall x :: x in r <==> x in s
  {
    forall x ensures x in r <==> x in s {
      assert x in multiset(r) <==> x in multiset(s);
    }
  }

  lemma SameFronts(f: seq<nat>, g: seq<nat>, last: nat)
    requires last !in f && last !in g && forall x :: x in f + [last] <==> x in g + [last]
    ensures forall x :: x in f <==> x in g
  {
    forall x ensures x in f <==> x in g {
      assert x in f + [last] <==> x in g + [last];
    }
  }

  /** There is only one way to order the same rows. */
  lemma {:induction false} SortedIsUnique(r: seq<nat>, t: seq<nat>, s: seq<nat>, n: nat, sorts: seq<Sort>,
                                          values: Values)
    requires Rows(s, n) && Uniform(sorts, values, n)
    requires forall x :: x in r ==> x in s
    requires forall x :: x in r <==> x in t
    requires SortedBy(r, sorts, values, PositionIn(s)) && SortedBy(t, sorts, values, PositionIn(s))
    ensures r == t
  {
    assert (r != [] ==> r[0] in t) && (t != [] ==> t[0] in r);
    if r != [] {
      var f, g := r[..|r| - 1], t[..|t| - 1];
      SortedIsDistinct(r, s, n, sorts, values);
      SortedIsDistinct(t, s, n, sorts, values);
      LastsAgree(r, t, s, n, sorts, values);
      hide Rows, Uniform, Precedes, PositionIn;
      assert r == f + [r[|r| - 1]] && t == g + [r[|r| - 1]];
      SameFronts(f, g, r[|r| - 1]);
      SortedIsUnique(f, g, s, n, sorts, values);
    }
  }

  lemma LastsAgree(r: seq<nat>, t: seq<nat>, s: seq<nat>, n: nat, sorts: seq<Sort>, values: Values)
    requires Rows(s, n) && Uniform(sorts, values, n) && r != [] && t != []
    requires forall x :: x in r ==> x in s
    requires forall x :: x in r <==> x in t
    requires SortedBy(r, sorts, values, PositionIn(s)) && SortedBy(t, sorts, values, PositionIn(s))
    ensures r[|r| - 1] == t[|t| - 1]
  {
    var x, y := r[|r| - 1], t[|t| - 1];
    assert x in t && y in r;
    StrictTotalOrder(s, n, sorts, values, x, y, x);
  }

  lemma SortIsDetermined(r: seq<nat>, t: seq<nat>, s: seq<nat>, n: nat, sorts: seq<Sort>,
                                            values: Values)
    requires Rows(s, n) && Uniform(sorts, values, n)
    requires IsSortOf(r, s, sorts, values) && IsSortOf(t, s, sorts, values)
    ensures r == t
  {
    SameRows(r, s);
    SameRows(t, s);
    SortedIsUnique(r, t, s, n, sorts, values);
  }

  lemma {:induction false} ByColumnsAppend(s2: seq<Sort>, s1: seq<Sort>, values: Values, a: nat, b: nat)
    ensures ByColumns(s2 + s1, values, a, b) ==
            if ByColumns(s2, values, a, b) != 0 then ByColumns(s2, values, a, b) else ByColumns(s1, values, a, b)
  {
    if s2 == [] {
      assert s2 + s1 == s1;
    } else {
      assert (s2 + s1)[1..] == s2[1..] + s1;
      ByColumnsAppend(s2[1..], s1, values, a, b);
    }
  }

  /** Sorting by one list of columns and then by another is sorting once by the second followed
      by the first. */
  lemma SortsCompose(s: seq<nat>, a: seq<nat>, b: seq<nat>, c: seq<nat>, n: nat,
                                        s1: seq<Sort>, s2: seq<Sort>, values: Values)
    requires Rows(s, n) && Uniform(s2 + s1, values, n)
    requires IsSortOf(a, s, s1, values) && IsSortOf(b, a, s2, values) && IsSortOf(c, s, s2 + s1, values)
    ensures b == c
  {
    assert Uniform(s1, values, n) by {
      forall i | 0 <= i < |s1| ensures s1[i] == (s2 + s1)[|s2| + i] {}
    }
    SameRows(a, s);
    SameRows(b, a);
    SortedIsDistinct(a, s, n, s1, values);
    forall i, j | 0 <= i < j < |b| ensures Precedes(s2 + s1, values, PositionIn(s), b[i], b[j]) {
      ByColumnsAppend(s2, s1, values, b[i], b[j]);
      assert b[i] in b && b[j] in b;
      if ByColumns(s2, values, b[i], b[j]) == 0 {
        assert Precedes(s1, values, PositionIn(s), a[Position(a, b[i])], a[Position(a, b[j])]);
      }
    }
    SortIsDetermined(b, c, s, n, s2 + s1, values);
  }

  // ------------------------------------------------------------------ sorting

  lemma InsertSorted(r: seq<nat>, k: nat, x: nat, s: seq<nat>, n: nat, sorts: seq<Sort>,
                                        values: Values)
    requires Rows(s, n) && Uniform(sorts, values, n) && x in s && k <= |r| && forall y :: y in r ==> y in s
    requires SortedBy(r, sorts, values, PositionIn(s))
    requires forall j :: k <= j < |r| ==> Precedes(sorts, values, PositionIn(s), x, r[j])
    requires k > 0 ==> Precedes(sorts, values, PositionIn(s), r[k - 1], x)
    ensures SortedBy(r[..k] + [x] + r[k..], sorts, values, PositionIn(s))
  {
    forall i | 0 <= i < k ensures Precedes(sorts, values, PositionIn(s), r[i], x) {
      if i < k - 1 { StrictTotalOrder(s, n, sorts, values, r[i], r[k - 1], x); }
    }
  }

  lemma OtherwiseAfter(s: seq<nat>, n: nat, sorts: seq<Sort>, values: Values, x: nat, y: nat)
    requires Rows(s, n) && Uniform(sorts, values, n) && x in s && y in s && x != y
    ensures !Precedes(sorts, values, PositionIn(s), x, y) ==> Precedes(sorts, values, PositionIn(s), y, x)
  {
    StrictTotalOrder(s, n, sorts, values, x, y, x);
  }

  /** The sort of a browser, written as an insertion sort that asks the comparator. */
  method SortRows(s: seq<nat>, ghost n: nat, sorts: seq<Sort>, values: Values, orig: nat -> int) returns (r: seq<nat>)
    requires Rows(s, n) && Uniform(sorts, values, n)
    requires forall x :: x in s ==> orig(x) == PositionIn(s)(x)
    ensures IsSortOf(r, s, sorts, values)
  {
    hide Rows, Uniform, Seqs.Distinct;
    r := [];
    var i := 0;
    while i < |s|
      invariant 0 <= i <= |s|
      invariant multiset(r) == multiset(s[..i])
      invariant SortedBy(r, sorts, values, PositionIn(s))
    {
      r := Insert(r, s[i], i, s, n, sorts, values, orig);
      assert s[..i + 1] == s[..i] + [s[i]];
      i := i + 1;
    }
    assert s[..|s|] == s;
  }

  method Insert(r0: seq<nat>, x: nat, ghost i: nat, ghost s: seq<nat>, ghost n: nat, sorts: seq<Sort>,
                values: Values, orig: nat -> int)
    returns (r: seq<nat>)
    requires Rows(s, n) && Uniform(sorts, values, n) && i < |s| && x == s[i] && multiset(r0) == multiset(s[..i])
    requires forall y :: y in s ==> orig(y) == PositionIn(s)(y)
    requires SortedBy(r0, sorts, values, PositionIn(s))
    ensures SortedBy(r, sorts, values, PositionIn(s)) && multiset(r) == multiset(r0) + multiset{x}
  {
    InsertedSoFar(s, r0, i, n);
    assert x in s;
    hide Rows, Uniform, ByColumns, SortedBy, PositionIn, Precedes;
    var k := |r0|;
    while k > 0
      invariant 0 <= k <= |r0|
      invariant forall j :: k <= j < |r0| ==> Precedes(sorts, values, PositionIn(s), x, r0[j])
    {
      var y := r0[k - 1];
      assert y in r0;
      OtherwiseAfter(s, n, sorts, values, x, y);
      var c := Compare(sorts, values, orig, x, y);
      SamePlaces(sorts, values, orig, PositionIn(s), x, y);
      if c >= 0 { break; }
      k := k - 1;
    }
    InsertSorted(r0, k, x, s, n, sorts, values);
    InsertedRows(r0, k, x);
    r := r0[..k] + [x] + r0[k..];
  }

  lemma InsertedRows(r: seq<nat>, k: nat, x: nat)
    requires k <= |r|
    ensures multiset(r[..k] + [x] + r[k..]) == multiset(r) + multiset{x}
  {
    assert r == r[..k] + r[k..];
  }

  lemma SamePlaces(sorts: seq<Sort>, values: Values, o: nat -> int, p: nat -> int, x: nat, y: nat)
    requires o(x) == p(x) && o(y) == p(y)
    ensures Precedes(sorts, values, o, x, y) == Precedes(sorts, values, p, x, y)
  {
  }

  lemma InsertedSoFar(s: seq<nat>, r: seq<nat>, i: nat, n: nat)
    requires Rows(s, n) && i < |s| && multiset(r) == multiset(s[..i])
    ensures forall y :: y in r ==> y in s && y != s[i]
  {
    SameRows(r, s[..i]);
  }
}
