/** Sorting nodes into document order by their ancestor lists, and dropping duplicates. */
module DocumentOrder {
  import opened Dom
  import opened Wrappers

  /** `a` comes before `b` in document order. */
  predicate Before(a: Path, b: Path) {
    if b == [] then false
    else if a == [] then true
    else if a[0] != b[0] then a[0] < b[0]
    else Before(a[1..], b[1..])
  }

  // ------------------------------------------------------------ document order is preorder

  lemma {:induction false} BeforeIsTotal(a: Path, b: Path)
    ensures !(Before(a, b) && Before(b, a))
    ensures a != b ==> Before(a, b) || Before(b, a)
    ensures !Before(a, a)
  {
    if a != [] && b != [] {
      BeforeIsTotal(a[1..], b[1..]);
      assert a == [a[0]] + a[1..] && b == [b[0]] + b[1..];
    }
    if a != [] { BeforeIsTotal(a[1..], a[1..]); }
  }

  lemma {:induction false} BeforeIsTransitive(a: Path, b: Path, c: Path)
    requires Before(a, b) && Before(b, c)
    ensures Before(a, c)
  {
    if a != [] {
      if a[0] == b[0] == c[0] {
        BeforeIsTransitive(a[1..], b[1..], c[1..]);
      }
    }
  }

  ghost predicate StrictlySorted(s: seq<Path>) {
    forall i, j :: 0 <= i < j < |s| ==> Before(s[i], s[j])
  }

  /** The preorder listing is strictly increasing, so listing position and `Before` agree. */
  lemma {:induction false} PreorderIsSorted(t: Tree)
    ensures StrictlySorted(Preorder(t))
    decreases t, 0
  {
    ForestIsSorted(t.children, 0);
    forall j | 1 <= j < |Preorder(t)| ensures Before([], Preorder(t)[j]) {
      ForestIsComplete(t.children, 0, Preorder(t)[j]);
    }
  }

  lemma {:induction false} ForestIsSorted(ts: seq<Tree>, from: nat)
    requires from <= |ts|
    ensures StrictlySorted(Forest(ts, from))
    decreases ts, |ts| - from
  {
    if from < |ts| {
      var first, rest := Preorder(ts[from]), Forest(ts, from + 1);
      PreorderIsSorted(ts[from]);
      ForestIsSorted(ts, from + 1);
      var under := Under(from, first);
      forall i, j | 0 <= i < j < |under + rest| ensures Before((under + rest)[i], (under + rest)[j]) {
        if j < |under| {
          assert under[i][1..] == first[i] && under[j][1..] == first[j];
        } else {
          ForestIsComplete(ts, from + 1, (under + rest)[j]);
          if i < |under| {
            assert under[i][0] == from;
          }
        }
      }
    }
  }

  lemma PositionsAgree(t: Tree, i: nat, j: nat)
    requires i < |Preorder(t)| && j < |Preorder(t)|
    ensures Before(Preorder(t)[i], Preorder(t)[j]) <==> i < j
  {
    PreorderIsSorted(t);
    BeforeIsTotal(Preorder(t)[i], Preorder(t)[j]);
    BeforeIsTotal(Preorder(t)[j], Preorder(t)[i]);
  }

  // ------------------------------------------------------------ the comparator

  /** Negative, zero or positive: the sign a comparator must return for document order. */
  function Order(a: Path, b: Path): int {
    if a == b then 0 else if Before(a, b) then -1 else 1
  }

  /** Reading an array; past its end there is undefined. */
  function Get<T>(s: seq<T>, i: nat): Option<T> {
    if i < |s| then Some(s[i]) else None
  }

  /** Paths that agree up to `i` compare as their next steps do. */
  lemma {:induction false} FirstDifference(a: Path, b: Path, i: nat)
    requires i <= |a| && i <= |b| && a[..i] == b[..i]
    ensures i == |a| < |b| ==> Before(a, b)
    ensures i == |b| < |a| ==> !Before(a, b)
    ensures i < |a| && i < |b| && a[i] != b[i] ==> (Before(a, b) <==> a[i] < b[i])
  {
    if i > 0 {
      assert a[0] == a[..i][0] == b[..i][0] == b[0];
      assert a[1..][..i - 1] == a[..i][1..] == b[..i][1..] == b[1..][..i - 1];
      FirstDifference(a[1..], b[1..], i - 1);
    }
  }

  /** siblingCheck, for a browser without sourceIndex; None stands for undefined. */
  method SiblingCheck(t: Tree, a: Option<Path>, b: Option<Path>) returns (r: int)
    requires a.Some? && b.Some? ==>
               && a.value != [] && b.value != [] && a.value != b.value
               && IsNode(t, a.value) && IsNode(t, b.value) && Parent(a.value) == Parent(b.value)
    ensures a.Some? && b.Some? ==> r == if Last(a.value) < Last(b.value) then -1 else 1
    ensures a.None? || b.None? ==> r == if a.Some? then 1 else -1
  {
    if a.Some? && b.Some? {
      var parent: Path := Parent(a.value);
      var n := |At(t, parent).value.children|;
      var cur := Last(a.value);
      assert a.value == parent + [Last(a.value)] && b.value == parent + [Last(b.value)];
      while cur + 1 < n
        invariant Last(a.value) <= cur < n
        invariant !(Last(a.value) < Last(b.value) <= cur)
      {
        cur := cur + 1;
        if parent + [cur] == b.value {
          assert Last(b.value) == (parent + [cur])[|parent|] == cur;
          return -1;
        }
      }
    }
    r := if a.Some? then 1 else -1;
  }

  /** The ancestors of `a`, outermost first, with `a` itself last. */
  method AncestorList(a: Path) returns (ap: seq<Path>)
    ensures |ap| == |a| + 1 && forall i :: 0 <= i < |ap| ==> ap[i] == a[..i]
  {
    ap := [a];
    var cur := a;
    while cur != []
      invariant |cur| <= |a| && |cur| + |ap| == |a| + 1 && cur == a[..|cur|]
      invariant forall i :: 0 <= i < |ap| ==> ap[i] == a[..|cur| + i]
    {
      cur := Parent(cur);
      ap := [cur] + ap;
    }
  }

  /** The order the comparison sorts by: document order, but with a root that is no document
      after the nodes below it. */
  predicate SortsBefore(rootIsDocument: bool, a: Path, b: Path) {
    if !rootIsDocument && (a == [] || b == []) then a != [] else Before(a, b)
  }

  lemma SortsBeforeIsTotal(rootIsDocument: bool, a: Path, b: Path)
    requires a != b
    ensures SortsBefore(rootIsDocument, a, b) <==> !SortsBefore(rootIsDocument, b, a)
  {
    BeforeIsTotal(a, b);
  }

  lemma SortsBeforeIsTransitive(rootIsDocument: bool, a: Path, b: Path, c: Path)
    requires a != b && b != c && SortsBefore(rootIsDocument, a, b) && SortsBefore(rootIsDocument, b, c)
    ensures a != c && SortsBefore(rootIsDocument, a, c)
  {
    BeforeIsTotal(a, b);
    BeforeIsTotal(b, c);
    if rootIsDocument || (a != [] && b != [] && c != []) {
      BeforeIsTransitive(a, b, c);
      BeforeIsTotal(a, c);
    }
  }

  /** The comparison of two nodes of one tree without compareDocumentPosition. */
  method SortOrder(t: Tree, rootIsDocument: bool, a: Path, b: Path) returns (r: int)
    requires IsNode(t, a) && IsNode(t, b)
    ensures r == if a == b then 0 else if SortsBefore(rootIsDocument, a, b) then -1 else 1
    ensures a == b || rootIsDocument || (a != [] && b != []) ==> r == Order(a, b)
    ensures a != b && !rootIsDocument && (a == [] || b == []) ==> r == -Order(a, b)
  {
    BeforeIsTotal(a, b);
    if a == b { return 0; }
    if a == [] || b == [] {
      return if a == [] && rootIsDocument then -1
             else if b == [] && rootIsDocument then 1
             else if a != [] then -1
             else 1;
    }
    if Parent(a) == Parent(b) {
      r := SiblingCheck(t, Some(a), Some(b));
      FirstDifference(a, b, |a| - 1);
    } else {
      r := CompareAncestors(t, a, b);
    }
  }

  /** Walking down both ancestor lists to where they part. */
  method CompareAncestors(t: Tree, a: Path, b: Path) returns (r: int)
    requires IsNode(t, a) && IsNode(t, b) && a != b
    ensures r == Order(a, b)
  {
    hide IsNode, Before;
    var ap := AncestorList(a);
    var bp := AncestorList(b);
    var i := 0;
    assert a == a[..|a|] && b == b[..|b|] && a[..0] == b[..0];
    while Get(ap, i) == Get(bp, i)
      invariant 0 <= i <= |ap| && i <= |bp|
      invariant i > 0 ==> a[..i - 1] == b[..i - 1]
      decreases |ap| - i
    {
      i := i + 1;
    }
    if i < |ap| && i < |bp| { PartedNodes(t, a, b, i); }
    r := SiblingCheck(t, Get(ap, i), Get(bp, i));
    FirstDifference(a, b, i - 1);
    BeforeIsTotal(a, b);
  }

  lemma PartedNodes(t: Tree, a: Path, b: Path, i: nat)
    requires IsNode(t, a) && IsNode(t, b) && 1 <= i <= |a| && i <= |b|
    requires a[..i - 1] == b[..i - 1] && a[..i] != b[..i]
    ensures IsNode(t, a[..i]) && IsNode(t, b[..i]) && Parent(a[..i]) == Parent(b[..i])
    ensures Last(a[..i]) == a[i - 1] != b[i - 1] == Last(b[..i])
  {
    PrefixIsNode(t, a, i);
    PrefixIsNode(t, b, i);
    assert a[..i][..i - 1] == a[..i - 1] && b[..i][..i - 1] == b[..i - 1];
    assert a[..i] == a[..i - 1] + [a[i - 1]] && b[..i] == b[..i - 1] + [b[i - 1]];
  }

  lemma {:induction false} PrefixIsNode(t: Tree, a: Path, i: nat)
    requires IsNode(t, a) && i <= |a|
    ensures IsNode(t, a[..i])
    decreases |a|
  {
    if i < |a| {
      assert Parent(a)[..i] == a[..i];
      PrefixIsNode(t, Parent(a), i);
    } else {
      assert a[..i] == a;
    }
  }

  // ------------------------------------------------------------ uniqueSort

  /** No element comes before one that stands earlier; equal elements may repeat. */
  ghost predicate Sorted(rootIsDocument: bool, s: seq<Path>) {
    forall i, j :: 0 <= i < j < |s| ==> s[i] == s[j] || SortsBefore(rootIsDocument, s[i], s[j])
  }

  ghost predicate StrictlySortedBy(rootIsDocument: bool, s: seq<Path>) {
    forall i, j :: 0 <= i < j < |s| ==> s[i] != s[j] && SortsBefore(rootIsDocument, s[i], s[j])
  }

  predicate Repeats(s: seq<Path>, i: int) {
    1 <= i < |s| && s[i - 1] == s[i]
  }

  ghost predicate HasRepeat(s: seq<Path>) {
    exists i :: Repeats(s, i)
  }

  /** Inserting where the scan from the right stopped keeps the order, and makes a repeat only
      next to an equal element. */
  lemma InsertSorted(rd: bool, r: seq<Path>, k: nat, x: Path)
    requires Sorted(rd, r) && k <= |r|
    requires forall j :: k <= j < |r| ==> x != r[j] && SortsBefore(rd, x, r[j])
    requires k > 0 ==> x == r[k - 1] || SortsBefore(rd, r[k - 1], x)
    ensures Sorted(rd, r[..k] + [x] + r[k..])
    ensures HasRepeat(r[..k] + [x] + r[k..]) ==> HasRepeat(r) || (k > 0 && r[k - 1] == x)
  {
    var r' := r[..k] + [x] + r[k..];
    forall i | 0 <= i < k ensures r[i] == x || SortsBefore(rd, r[i], x) {
      if i < k - 1 && r[i] != r[k - 1] && r[k - 1] != x { SortsBeforeIsTransitive(rd, r[i], r[k - 1], x); }
    }
    if i :| Repeats(r', i) {
      if i < k { assert Repeats(r, i); }
      if i > k + 1 { assert Repeats(r, i - 1); }
    }
  }

  /** How far from the right the sort moves an element. The comparator raises the flag when it
      is asked about two equal nodes. */
  method InsertionPoint(t: Tree, rootIsDocument: bool, r: seq<Path>, x: Path, flag: bool) returns (k: nat, hasDuplicate: bool)
    requires IsNode(t, x) && forall p :: p in r ==> IsNode(t, p)
    ensures k <= |r| && forall j :: k <= j < |r| ==> x != r[j] && SortsBefore(rootIsDocument, x, r[j])
    ensures k > 0 ==> x == r[k - 1] || SortsBefore(rootIsDocument, r[k - 1], x)
    ensures flag || (k > 0 && r[k - 1] == x) ==> hasDuplicate
  {
    hide IsNode, SortsBefore, Order;
    k, hasDuplicate := |r|, flag;
    while k > 0
      invariant 0 <= k <= |r|
      invariant forall j :: k <= j < |r| ==> x != r[j] && SortsBefore(rootIsDocument, x, r[j])
      invariant flag ==> hasDuplicate
    {
      var c := SortOrder(t, rootIsDocument, x, r[k - 1]);
      if x != r[k - 1] { SortsBeforeIsTotal(rootIsDocument, x, r[k - 1]); }
      if c == 0 { hasDuplicate := true; }
      if c >= 0 { break; }
      k := k - 1;
    }
  }

  lemma SameNodes(t: Tree, r: seq<Path>, s: seq<Path>, n: nat)
    requires n <= |s| && multiset(r) == multiset(s[..n]) && forall p :: p in s ==> IsNode(t, p)
    ensures forall p :: p in r ==> IsNode(t, p)
  {
    forall p | p in r ensures IsNode(t, p) {
      assert p in multiset(s[..n]);
    }
  }

  lemma InsertMultiset(r: seq<Path>, k: nat, x: Path, s: seq<Path>, n: nat)
    requires k <= |r| && n < |s| && s[n] == x && multiset(r) == multiset(s[..n])
    ensures multiset(r[..k] + [x] + r[k..]) == multiset(s[..n + 1])
  {
    assert s[..n + 1] == s[..n] + [s[n]];
    assert r == r[..k] + r[k..];
  }

  /** results.sort(sortOrder): an insertion sort. */
  method SortResults(t: Tree, rootIsDocument: bool, s: seq<Path>, flag: bool)
    returns (r: seq<Path>, hasDuplicate: bool)
    requires forall p :: p in s ==> IsNode(t, p)
    ensures Sorted(rootIsDocument, r) && multiset(r) == multiset(s)
    ensures flag || HasRepeat(r) ==> hasDuplicate
  {
    r, hasDuplicate := [], flag;
    assert Sorted(rootIsDocument, r) && !HasRepeat(r);
    hide Sorted, HasRepeat, Repeats, SortsBefore, IsNode;
    var n := 0;
    while n < |s|
      invariant 0 <= n <= |s|
      invariant Sorted(rootIsDocument, r) && multiset(r) == multiset(s[..n])
      invariant flag || HasRepeat(r) ==> hasDuplicate
    {
      SameNodes(t, r, s, n);
      var k;
      k, hasDuplicate := InsertionPoint(t, rootIsDocument, r, s[n], hasDuplicate);
      InsertSorted(rootIsDocument, r, k, s[n]);
      InsertMultiset(r, k, s[n], s, n);
      r := r[..k] + [s[n]] + r[k..];
      n := n + 1;
    }
    assert s[..|s|] == s;
  }

  /** What is left of s[from..] when every element equal to the one before it is dropped. */
  function Squeeze(s: seq<Path>, from: nat): seq<Path>
    requires from <= |s|
    decreases |s| - from
  {
    if from == |s| then []
    else if Repeats(s, from) then Squeeze(s, from + 1)
    else [s[from]] + Squeeze(s, from + 1)
  }

  lemma {:induction false} SqueezeRun(s: seq<Path>, from: nat, end: nat)
    requires from <= end <= |s|
    requires forall i :: from <= i < end ==> !Repeats(s, i)
    ensures Squeeze(s, from) == s[from..end] + Squeeze(s, end)
    decreases end - from
  {
    if from < end {
      SqueezeRun(s, from + 1, end);
      assert s[from..end] + Squeeze(s, end) == [s[from]] + (s[from + 1..end] + Squeeze(s, end));
    }
  }

  lemma {:induction false} SqueezeSorted(rd: bool, s: seq<Path>, from: nat)
    requires Sorted(rd, s) && from <= |s|
    ensures StrictlySortedBy(rd, Squeeze(s, from))
    ensures forall p :: p in Squeeze(s, from) ==>
              p in s[from..] && (from > 0 ==> s[from - 1] != p && SortsBefore(rd, s[from - 1], p))
    ensures forall p :: p in s[from..] ==> p in Squeeze(s, from) || (from > 0 && p == s[from - 1])
    decreases |s| - from
  {
    if from < |s| {
      SqueezeSorted(rd, s, from + 1);
      assert s[from..] == [s[from]] + s[from + 1..];
      if from > 0 && s[from - 1] != s[from] {
        forall p | p in Squeeze(s, from) ensures s[from - 1] != p && SortsBefore(rd, s[from - 1], p) {
          if p != s[from] { SortsBeforeIsTransitive(rd, s[from - 1], s[from], p); }
        }
      }
      PrependSorted(rd, s[from], Squeeze(s, from + 1));
    }
  }

  lemma PrependSorted(rd: bool, x: Path, rest: seq<Path>)
    requires StrictlySortedBy(rd, rest) && forall p :: p in rest ==> x != p && SortsBefore(rd, x, p)
    ensures StrictlySortedBy(rd, [x] + rest)
  {
    var s := [x] + rest;
    forall i, j | 0 <= i < j < |s| ensures s[i] != s[j] && SortsBefore(rd, s[i], s[j]) {
      assert s[j] == rest[j - 1] && rest[j - 1] in rest;
      if i > 0 { assert s[i] == rest[i - 1]; }
    }
  }

  lemma SpliceRepeat(s: seq<Path>, d: nat, rest: nat)
    requires d < rest <= |s| && Repeats(s, d)
    requires forall e :: d < e < rest ==> !Repeats(s, e)
    ensures var r := s[..rest] + Squeeze(s, rest);
            r[..d] + r[d + 1..] == s[..d] + Squeeze(s, d)
  {
    SqueezeRun(s, d + 1, rest);
    assert Squeeze(s, d) == Squeeze(s, d + 1);
    hide Squeeze, Repeats;
    SpliceOne(s, d, rest, Squeeze(s, rest));
  }

  lemma SpliceOne(s: seq<Path>, d: nat, rest: nat, tail: seq<Path>)
    requires d < rest <= |s|
    ensures var r := s[..rest] + tail;
            r[..d] + r[d + 1..] == s[..d] + (s[d + 1..rest] + tail)
  {
    var r := s[..rest] + tail;
    assert r[..d] == s[..d];
    assert r[d + 1..] == s[d + 1..rest] + tail;
  }

  /** Nothing in an ascending list lies strictly between neighbours, or past the last. */
  lemma NoneBetween(duplicates: seq<nat>, j: nat, d: nat, rest: nat)
    requires j < |duplicates| && duplicates[j] == d
    requires forall k, l :: 0 <= k < l < |duplicates| ==> duplicates[k] < duplicates[l]
    requires j + 1 < |duplicates| ==> rest == duplicates[j + 1]
    ensures forall e :: d < e < rest ==> e !in duplicates
  {
    forall k | 0 <= k < |duplicates| ensures duplicates[k] <= d || duplicates[k] >= rest {
      if j + 1 < k { assert duplicates[j + 1] < duplicates[k]; }
    }
  }

  /** The first loop of uniqueSort: where an element equals the one before it. */
  method FindDuplicates(s: seq<Path>) returns (duplicates: seq<nat>)
    ensures forall k :: 0 <= k < |duplicates| ==> duplicates[k] < |s|
    ensures forall k, l :: 0 <= k < l < |duplicates| ==> duplicates[k] < duplicates[l]
    ensures forall d :: Repeats(s, d) <==> d in duplicates
  {
    duplicates := [];
    var i := 0;
    while i < |s|
      invariant 0 <= i <= |s|
      invariant forall k :: 0 <= k < |duplicates| ==> 1 <= duplicates[k] <= i && duplicates[k] < |s|
      invariant forall k, l :: 0 <= k < l < |duplicates| ==> duplicates[k] < duplicates[l]
      invariant forall d :: d <= i ==> (Repeats(s, d) <==> d in duplicates)
    {
      var elem := s[i];
      i := i + 1;
      if i < |s| && elem == s[i] {
        duplicates := duplicates + [i];
      }
    }
  }

  /** Splice out every element equal to the one before it, last first. */
  method DropDuplicates(s: seq<Path>) returns (results: seq<Path>)
    ensures results == Squeeze(s, 0)
  {
    results := s;
    var duplicates := FindDuplicates(s);
    var j := |duplicates|;
    ghost var rest := |s|;
    assert Squeeze(s, |s|) == [] && s[..rest] + [] == s;
    hide Squeeze, Repeats;
    while j > 0
      invariant 0 <= j <= |duplicates|
      invariant rest == if j < |duplicates| then duplicates[j] else |s|
      invariant results == s[..rest] + Squeeze(s, rest)
    {
      j := j - 1;
      var d := duplicates[j];
      NoneBetween(duplicates, j, d, rest);
      assert d in duplicates;
      SpliceRepeat(s, d, rest);
      results := results[..d] + results[d + 1..];
      rest := d;
    }
    NoneBefore(duplicates, rest);
    assert forall e: nat :: e < rest ==> !Repeats(s, e);
    SqueezeRun(s, 0, rest);
    assert s[0..rest] == s[..rest];
  }

  lemma NoneBefore(duplicates: seq<nat>, first: nat)
    requires forall k, l :: 0 <= k < l < |duplicates| ==> duplicates[k] < duplicates[l]
    requires duplicates != [] ==> first == duplicates[0]
    ensures forall e :: e < first ==> e !in duplicates
  {
  }

  /** uniqueSort: the same nodes, each once, in document order; only a root that is no document
      comes last instead of first. */
  method UniqueSort(t: Tree, rootIsDocument: bool, s: seq<Path>, cannotDetect: bool) returns (results: seq<Path>)
    requires forall p :: p in s ==> IsNode(t, p)
    ensures forall p :: p in results <==> p in s
    ensures rootIsDocument || [] !in s ==> StrictlySorted(results)
    ensures !rootIsDocument && [] in s ==>
      var last := |results| - 1;
      last >= 0 && results[last] == [] && StrictlySorted(results[..last])
  {
    var hasDuplicate;
    results, hasDuplicate := SortResults(t, rootIsDocument, s, cannotDetect);
    assert forall p :: p in results <==> p in multiset(s);
    ghost var sorted := results;
    SqueezeSorted(rootIsDocument, sorted, 0);
    if hasDuplicate {
      results := DropDuplicates(results);
    } else {
      assert forall i :: !Repeats(sorted, i);
      SqueezeRun(sorted, 0, |sorted|);
      assert results == Squeeze(sorted, 0);
    }
    assert sorted[0..] == sorted;
    RootAlone(rootIsDocument, results);
  }

  /** What the order of the comparison means in terms of document order. */
  lemma RootAlone(rootIsDocument: bool, s: seq<Path>)
    requires StrictlySortedBy(rootIsDocument, s)
    ensures rootIsDocument || [] !in s ==> StrictlySorted(s)
    ensures !rootIsDocument && [] in s ==> s[|s| - 1] == [] && StrictlySorted(s[..|s| - 1])
  {
    if rootIsDocument || [] !in s {
      forall i, j | 0 <= i < j < |s| ensures Before(s[i], s[j]) {
        assert s[i] in s && s[j] in s;
      }
    } else {
      var k :| 0 <= k < |s| && s[k] == [];
      assert k < |s| - 1 ==> !SortsBefore(rootIsDocument, s[k], s[|s| - 1]);
      var front := s[..|s| - 1];
      forall i, j | 0 <= i < j < |front| ensures Before(front[i], front[j]) {
        assert s[j] != s[|s| - 1] && s[i] != s[|s| - 1];
      }
    }
  }
}
