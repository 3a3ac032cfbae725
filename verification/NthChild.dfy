/** :nth-child, :nth-last-child and their of-type forms: the position of an element among its
    siblings, cached on the parent (forward) or on each sibling (backward). */
module NthChild {
  import opened Dom
  import opened Wrappers

  /** What a node must be to be counted: an element, or a node of the same name. */
  type Counted = Path -> bool

  function ChildCount(t: Tree, parent: Path): nat {
    match At(t, parent)
    case None => 0
    case Some(u) => |u.children|
  }

  /** How many of the children lo, ..., hi-1 are counted. */
  function Count(parent: Path, lo: nat, hi: nat, counted: Counted): (c: nat)
    requires lo <= hi
    ensures c <= hi - lo
  {
    if lo == hi then 0
    else Count(parent, lo, hi - 1, counted) + if counted(parent + [hi - 1]) then 1 else 0
  }

  lemma {:induction false} CountSplit(parent: Path, lo: nat, mid: nat, hi: nat, counted: Counted)
    requires lo <= mid <= hi
    ensures Count(parent, lo, hi, counted) == Count(parent, lo, mid, counted) + Count(parent, mid, hi, counted)
    decreases hi
  {
    if mid < hi {
      CountSplit(parent, lo, mid, hi - 1, counted);
    }
  }

  /** The 1-based position among the counted siblings, from the front or from the back. */
  function Position(t: Tree, e: Path, forward: bool, counted: Counted): nat
    requires e != [] && IsNode(t, e)
  {
    var p, i := Parent(e), Last(e);
    if forward then Count(p, 0, i + 1, counted) else Count(p, i, ChildCount(t, p), counted)
  }

  /** The closing test of the filter, with `first` for a and `last` for b. JavaScript's remainder
      by zero is no number, and a quotient is compared with zero only when it is whole. */
  predicate CycleTest(position: int, first: int, last: int) {
    var diff := position - last;
    || diff == first
    || (first != 0 && diff % first == 0 && (diff == 0 || (diff > 0) == (first > 0)))
  }

  /** Section 6.6.5.2 of W3C Selectors Level 3: an + b for some n >= 0. */
  ghost predicate InCycle(position: int, a: int, b: int) {
    exists n: nat :: a * n + b == position
  }

  lemma CycleTestIsExact(position: int, a: int, b: int)
    ensures CycleTest(position, a, b) <==> InCycle(position, a, b)
  {
    var diff := position - b;
    if CycleTest(position, a, b) {
      if diff == a {
        assert a * 1 + b == position;
      } else {
        Quotient(diff, a);
        assert a * (diff / a) + b == position;
      }
    }
    if InCycle(position, a, b) {
      var n: nat :| a * n + b == position;
      if a == 0 {
        assert a * n == 0;
      } else {
        MultipleSign(a, n);
      }
    }
  }

  lemma Quotient(d: int, a: int)
    requires a != 0 && d % a == 0 && (d == 0 || (d > 0) == (a > 0))
    ensures a * (d / a) == d && d / a >= 0
  {
    assert d == a * (d / a) + d % a;
  }

  lemma MultipleSign(a: int, n: nat)
    requires a != 0
    ensures (a * n) % a == 0 && (a * n == 0 || (a * n > 0) == (a > 0))
  {
    var d := a * n;
    assert d == a * (d / a) + d % a;
    var q := n - d / a;
    assert a * q == d % a;
    if n > 0 && a > 0 { assert a * n >= a; }
    if n > 0 && a < 0 { assert a * n <= a; }
  }

  function IsElement(t: Tree): Counted {
    e => Element(t, e)
  }

  /** nodeType === 1, or for the of-type forms the node name of the element. */
  function Counts(t: Tree, elem: Path, ofType: bool, name: Path -> string): Counted {
    if ofType then e => name(e) == name(elem) else IsElement(t)
  }

  /** The child at `k` is a node; its positions are the counts up to it and from it on. */
  lemma ChildPosition(t: Tree, parent: Path, k: nat, counted: Counted)
    requires IsNode(t, parent) && k < ChildCount(t, parent)
    ensures var node: Path := parent + [k];
            && IsNode(t, node)
            && Position(t, node, true, counted) == Count(parent, 0, k, counted) + (if counted(node) then 1 else 0)
            && Position(t, node, false, counted) ==
               Count(parent, k + 1, ChildCount(t, parent), counted) + (if counted(node) then 1 else 0)
  {
    var node: Path := parent + [k];
    assert Parent(node) == parent && Last(node) == k;
    CountSplit(parent, k, k + 1, ChildCount(t, parent), counted);
    assert Count(parent, k, k, counted) == 0;
  }

  /** The children of the element's parent, from one end up to the element itself, that are
      elements, or for the of-type forms bear its name. */
  ghost function UpTo(t: Tree, elem: Path, forward: bool, ofType: bool, name: Path -> string): set<nat>
    requires elem != []
  {
    var parent := Parent(elem);
    set k: nat | k < ChildCount(t, parent) && (if forward then k <= Last(elem) else k >= Last(elem)) &&
                 (if ofType then name(parent + [k]) == name(elem) else Element(t, parent + [k]))
  }

  lemma {:induction false} CountIsCardinality(parent: Path, lo: nat, hi: nat, counted: Counted)
    requires lo <= hi
    ensures Count(parent, lo, hi, counted) == |set k: nat | lo <= k < hi && counted(parent + [k])|
    decreases hi - lo
  {
    var all := set k: nat | lo <= k < hi && counted(parent + [k]);
    if lo < hi {
      CountIsCardinality(parent, lo, hi - 1, counted);
      var front := set k: nat | lo <= k < hi - 1 && counted(parent + [k]);
      assert all == front + if counted(parent + [hi - 1]) then {hi - 1} else {};
    }
  }

  /** The position is the number of siblings of the kind up to the element. */
  lemma PositionIsCardinality(t: Tree, elem: Path, forward: bool, ofType: bool, name: Path -> string)
    requires elem != [] && IsNode(t, elem)
    ensures Position(t, elem, forward, Counts(t, elem, ofType, name)) == |UpTo(t, elem, forward, ofType, name)|
  {
    var p, i, counted := Parent(elem), Last(elem), Counts(t, elem, ofType, name);
    assert p + [i] == elem;
    var lo, hi := if forward then 0 else i, if forward then i + 1 else ChildCount(t, p);
    CountIsCardinality(p, lo, hi, counted);
    assert UpTo(t, elem, forward, ofType, name) == set k: nat | lo <= k < hi && counted(p + [k]);
  }

  datatype Kind = FirstOfKind | LastOfKind | OnlyOfKind

  /** The loop over the siblings on one side: whether it meets none that is counted. */
  method ClearOnSide(t: Tree, elem: Path, next: bool, counted: Counted) returns (clear: bool)
    requires elem != [] && IsNode(t, elem)
    ensures var p, i := Parent(elem), Last(elem);
      clear <==> (if next then Count(p, i + 1, ChildCount(t, p), counted) else Count(p, 0, i, counted)) == 0
  {
    var p: Path, i, n := Parent(elem), Last(elem), ChildCount(t, Parent(elem));
    var k: int := i;
    while if next then k + 1 < n else k > 0
      invariant if next then i <= k < n else 0 <= k <= i
      invariant if next then Count(p, i + 1, k + 1, counted) == 0 else Count(p, k, i, counted) == 0
      decreases if next then n - k else k
    {
      k := if next then k + 1 else k - 1;
      if next {
        CountSplit(p, i + 1, k + 1, n, counted);
      } else {
        CountSplit(p, k, k + 1, i, counted);
        CountSplit(p, 0, k, i, counted);
      }
      assert Count(p, k, k, counted) == 0;
      if counted(p + [k]) { return false; }
    }
    return true;
  }

  /** :first-, :last- and :only-child and their of-type forms: the element is in position 1 from
      the front, from the back, or from both. */
  method SimpleMatches(t: Tree, elem: Path, kind: Kind, ofType: bool, name: Path -> string) returns (b: bool)
    requires Element(t, elem)
    ensures b <==> elem != [] && (kind != LastOfKind ==> |UpTo(t, elem, true, ofType, name)| == 1)
                              && (kind != FirstOfKind ==> |UpTo(t, elem, false, ofType, name)| == 1)
  {
    if elem == [] { return false; }
    var counted := Counts(t, elem, ofType, name);
    PositionIsCardinality(t, elem, true, ofType, name);
    PositionIsCardinality(t, elem, false, ofType, name);
    assert Parent(elem) + [Last(elem)] == elem;
    ChildPosition(t, Parent(elem), Last(elem), counted);
    b := ClearOnSide(t, elem, kind == LastOfKind, counted);
    if b && kind == OnlyOfKind {
      b := ClearOnSide(t, elem, true, counted);
    }
  }

  datatype Index = Index(run: nat, nodeIndex: nat, diff: nat)
  datatype Rank = Rank(run: nat, diff: nat)

  class PositionCache {
    var dirruns: nat
    var onParent: map<Path, Index>
    var onElement: map<Path, Rank>

    constructor ()
      ensures dirruns == 0 && onParent == map[] && onElement == map[]
    {
      dirruns, onParent, onElement := 0, map[], map[];
    }

    ghost predicate NotFromTheFuture()
      reads this
    {
      && (forall p :: p in onParent ==> onParent[p].run <= dirruns)
      && (forall p :: p in onElement ==> onElement[p].run <= dirruns)
    }

    /** What is cached for the present run are true positions among the element children. */
    ghost predicate Sound(t: Tree)
      reads this
    {
      && (forall p :: p in onParent && onParent[p].run == dirruns ==>
            onParent[p].nodeIndex < ChildCount(t, p) && onParent[p].diff == Count(p, 0, onParent[p].nodeIndex + 1, IsElement(t)))
      && (forall e :: e in onElement && onElement[e].run == dirruns ==>
            e != [] && IsNode(t, e) && onElement[e].diff == Position(t, e, false, IsElement(t)))
    }

    /** A new run makes all cached positions stale, whatever happened to the tree. */
    method BeginRun(ghost t: Tree)
      requires NotFromTheFuture()
      modifies this`dirruns
      ensures NotFromTheFuture() && Sound(t)
    {
      dirruns := dirruns + 1;
    }

    /** The CHILD filter for the nth forms, in any order of queries within a run. */
    method Matches(t: Tree, elem: Path, forward: bool, ofType: bool, name: Path -> string, xml: bool, first: int,
                   last: int)
      returns (b: bool)
      requires Element(t, elem) && NotFromTheFuture() && Sound(t)
      modifies this`onParent, this`onElement
      ensures NotFromTheFuture() && Sound(t)
      ensures b <==> elem != [] && InCycle(|UpTo(t, elem, forward, ofType, name)|, first, last)
    {
      if first == 1 && last == 0 {
        // shortcut for :nth-*(n)
        if elem != [] {
          var position := |UpTo(t, elem, forward, ofType, name)|;
          assert 1 * position + 0 == position;
        }
        return elem != [];
      }
      if elem == [] { return false; }
      PositionIsCardinality(t, elem, forward, ofType, name);
      var useCache := !xml && !ofType;
      var diff: nat;
      if forward && useCache {
        diff := FromParentCache(t, elem);
      } else if useCache && elem in onElement && onElement[elem].run == dirruns {
        diff := onElement[elem].diff;
      } else {
        diff := FromStart(t, elem, forward, Counts(t, elem, ofType, name), useCache);
      }
      CycleTestIsExact(diff, first, last);
      b := CycleTest(diff, first, last);
    }

    method RememberIndex(t: Tree, parent: Path, nodeIndex: nat, diff: nat)
      requires NotFromTheFuture() && Sound(t)
      requires nodeIndex < ChildCount(t, parent) && diff == Count(parent, 0, nodeIndex + 1, IsElement(t))
      modifies this`onParent
      ensures NotFromTheFuture() && Sound(t)
      ensures onParent == old(onParent)[parent := Index(dirruns, nodeIndex, diff)]
    {
      onParent := onParent[parent := Index(dirruns, nodeIndex, diff)];
    }

    method RememberRank(t: Tree, node: Path, diff: nat)
      requires NotFromTheFuture() && Sound(t)
      requires node != [] && IsNode(t, node) && diff == Position(t, node, false, IsElement(t))
      modifies this`onElement
      ensures NotFromTheFuture() && Sound(t)
      ensures onElement == old(onElement)[node := Rank(dirruns, diff)]
    {
      onElement := onElement[node := Rank(dirruns, diff)];
    }

    /** Seek the element from the index cached on its parent; past the last child, start over. */
    method FromParentCache(t: Tree, elem: Path) returns (diff: nat)
      requires elem != [] && Element(t, elem) && NotFromTheFuture() && Sound(t)
      modifies this`onParent
      ensures NotFromTheFuture() && Sound(t)
      ensures diff == Position(t, elem, true, IsElement(t))
    {
      var parent: Path := Parent(elem);
      var n := ChildCount(t, parent);
      var nodeIndex: nat, node, start := 0, None, true;
      diff := 0;
      if parent in onParent && onParent[parent].run == dirruns {
        nodeIndex, diff := onParent[parent].nodeIndex, onParent[parent].diff;
        if nodeIndex != 0 { node := Some(nodeIndex); }
      }
      hide Sound, NotFromTheFuture;
      while true
        invariant node.Some? ==> node.value == nodeIndex < n && diff == Count(parent, 0, nodeIndex + 1, IsElement(t))
        invariant !start ==> node.Some? && nodeIndex < Last(elem)
        invariant onParent == old(onParent) && NotFromTheFuture() && Sound(t)
        decreases start, n - nodeIndex
      {
        nodeIndex := nodeIndex + 1;
        if node.Some? && nodeIndex < n {
          node := Some(nodeIndex);
        } else {
          assert start;
          diff, nodeIndex, start, node := 0, 0, false, Some(0);
        }
        if Element(t, parent + [nodeIndex]) {
          diff := diff + 1;
          if nodeIndex == Last(elem) {
            RememberIndex(t, parent, nodeIndex, diff);
            return;
          }
        }
        assert parent + [Last(elem)] == elem;
      }
    }

    /** Seek the element from one end, caching the position of each element on the way. */
    method FromStart(t: Tree, elem: Path, forward: bool, counted: Counted, useCache: bool) returns (diff: nat)
      requires elem != [] && IsNode(t, elem) && counted(elem) && NotFromTheFuture() && Sound(t)
      requires useCache ==> !forward && counted == IsElement(t)
      modifies this`onElement
      ensures NotFromTheFuture() && Sound(t)
      ensures diff == Position(t, elem, forward, counted)
    {
      var parent: Path := Parent(elem);
      var n := ChildCount(t, parent);
      assert parent + [Last(elem)] == elem;
      hide Sound, NotFromTheFuture;
      var k := if forward then 0 else n - 1;
      diff := 0;
      while true
        invariant if forward then 0 <= k <= Last(elem) else Last(elem) <= k < n
        invariant diff == if forward then Count(parent, 0, k, counted) else Count(parent, k + 1, n, counted)
        invariant NotFromTheFuture() && Sound(t)
        decreases if forward then n - k else k
      {
        var node: Path := parent + [k];
        ChildPosition(t, parent, k, counted);
        if counted(node) {
          diff := diff + 1;
          if useCache { RememberRank(t, node, diff); }
          if node == elem { return; }
        }
        assert k != Last(elem);
        assert diff == Position(t, node, forward, counted);
        k := if forward then k + 1 else k - 1;
      }
    }
  }
}
