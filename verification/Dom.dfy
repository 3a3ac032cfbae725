/** A finite ordered tree with the parent and sibling links that selector matching walks.
    A node is named by its path from the root: the child indexes to follow. */
module Dom {
  import opened Wrappers

  datatype Tree = Tree(element: bool, children: seq<Tree>)
  type Path = seq<nat>
  datatype Direction = ParentNode | PreviousSibling

  function At(t: Tree, p: Path): Option<Tree>
    decreases |p|
  {
    if p == [] then Some(t)
    else match At(t, Parent(p))
      case None => None
      case Some(u) => if Last(p) < |u.children| then Some(u.children[Last(p)]) else None
  }

  function Parent(p: Path): Path
    requires p != []
  {
    p[..|p| - 1]
  }

  function Last(p: Path): nat
    requires p != []
  {
    p[|p| - 1]
  }

  predicate IsNode(t: Tree, p: Path) {
    At(t, p).Some?
  }

  /** nodeType === 1 */
  predicate Element(t: Tree, p: Path) {
    At(t, p).Some? && At(t, p).value.element
  }

  /** Only the root (a document or a fragment) may have children without being an element. */
  ghost predicate WellFormed(t: Tree) {
    forall p: Path :: p != [] && IsNode(t, p) && At(t, p).value.children != [] ==> Element(t, p)
  }

  /** The link elem[dir]. */
  function Step(dir: Direction, p: Path): Option<Path> {
    if p == [] then None
    else match dir
      case ParentNode => Some(Parent(p))
      case PreviousSibling => if Last(p) == 0 then None else Some(Parent(p) + [Last(p) - 1])
  }

  /** How many links are left to follow; every step lowers it. */
  function Rank(dir: Direction, p: Path): nat {
    if p == [] then 0
    else match dir
      case ParentNode => |p|
      case PreviousSibling => Last(p)
  }

  predicate IsAncestor(a: Path, e: Path) {
    |a| < |e| && a == e[..|a|]
  }

  predicate SiblingBefore(a: Path, e: Path) {
    a != [] && e != [] && Parent(a) == Parent(e) && Last(a) < Last(e)
  }

  /** `a` lies on the walk that starts at the first step from `e`. */
  predicate Reaches(dir: Direction, e: Path, a: Path) {
    match dir
    case ParentNode => IsAncestor(a, e)
    case PreviousSibling => SiblingBefore(a, e)
  }

  lemma StepReaches(dir: Direction, e: Path, a: Path)
    ensures Reaches(dir, e, a) <==>
            Step(dir, e).Some? && (a == Step(dir, e).value || Reaches(dir, Step(dir, e).value, a))
    ensures Reaches(dir, e, a) ==> Rank(dir, a) < Rank(dir, e)
  {
    if dir == ParentNode && e != [] {
      var n := Parent(e);
      if IsAncestor(a, e) {
        if |a| == |n| { assert a == n; } else { assert n[..|a|] == e[..|a|]; }
      }
      if IsAncestor(a, n) { assert n[..|a|] == e[..|a|]; }
    } else if dir == PreviousSibling && e != [] && Last(e) > 0 {
      var n := Parent(e) + [Last(e) - 1];
      assert Parent(n) == Parent(e);
      if SiblingBefore(a, e) && Last(a) == Last(e) - 1 {
        assert a == Parent(a) + [Last(a)];
      }
    }
  }

  lemma {:induction false} AncestorIsNode(t: Tree, a: Path, e: Path)
    requires IsNode(t, e) && IsAncestor(a, e)
    ensures IsNode(t, a) && At(t, a).value.children != []
    decreases |e|
  {
    if a != Parent(e) {
      StepReaches(ParentNode, e, a);
      AncestorIsNode(t, a, Parent(e));
    }
  }

  /** All nodes of a tree, a parent before its children and children left to right. */
  function Preorder(t: Tree): seq<Path>
    decreases t, 0
  {
    [[]] + Forest(t.children, 0)
  }

  function Forest(ts: seq<Tree>, from: nat): seq<Path>
    requires from <= |ts|
    decreases ts, |ts| - from
  {
    if from == |ts| then [] else Under(from, Preorder(ts[from])) + Forest(ts, from + 1)
  }

  function Under(i: nat, ps: seq<Path>): (r: seq<Path>)
    ensures |r| == |ps| && forall k :: 0 <= k < |ps| ==> r[k] == [i] + ps[k]
  {
    seq(|ps|, k requires 0 <= k < |ps| => [i] + ps[k])
  }

  lemma {:induction false} AtFront(t: Tree, i: nat, q: Path)
    ensures At(t, [i] + q) == if i < |t.children| then At(t.children[i], q) else None
    decreases |q|
  {
    if q == [] {
      assert [i] + q == [i] && Parent([i]) == [];
    } else {
      assert Parent([i] + q) == [i] + Parent(q);
      AtFront(t, i, Parent(q));
    }
  }

  /** The listing contains exactly the nodes of the tree. */
  lemma {:induction false} PreorderIsComplete(t: Tree, p: Path)
    ensures p in Preorder(t) <==> IsNode(t, p)
    decreases t, 0
  {
    ForestIsComplete(t.children, 0, p);
    if p != [] {
      assert p == [p[0]] + p[1..];
      AtFront(t, p[0], p[1..]);
    }
  }

  lemma UnderContains(i: nat, ps: seq<Path>, p: Path)
    ensures p in Under(i, ps) <==> p != [] && p[0] == i && p[1..] in ps
  {
    if p != [] && p[0] == i && p[1..] in ps {
      var k :| 0 <= k < |ps| && ps[k] == p[1..];
      assert Under(i, ps)[k] == p;
    }
    if p in Under(i, ps) {
      var k :| 0 <= k < |ps| && Under(i, ps)[k] == p;
      assert p[1..] == ps[k];
    }
  }

  lemma {:induction false} ForestIsComplete(ts: seq<Tree>, from: nat, p: Path)
    requires from <= |ts|
    ensures p in Forest(ts, from) <==> p != [] && from <= p[0] < |ts| && IsNode(ts[p[0]], p[1..])
    decreases ts, |ts| - from
  {
    if from < |ts| {
      ForestIsComplete(ts, from + 1, p);
      if p != [] { PreorderIsComplete(ts[from], p[1..]); }
      UnderContains(from, Preorder(ts[from]), p);
      assert Forest(ts, from) == Under(from, Preorder(ts[from])) + Forest(ts, from + 1);
      hide Forest, Preorder, Under, IsNode;
    }
  }
}
