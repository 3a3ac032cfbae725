/** The selector compiler: token list in, nested matcher out, and what the matcher means. */
module Selector {
  import opened Dom
  import opened Wrappers

  type Test = Path -> bool

  datatype Combinator = Descendant | Child | Adjacent | Sibling {
    function Dir(): Direction {
      if this == Descendant || this == Child then ParentNode else PreviousSibling
    }

    predicate First() {
      this == Child || this == Adjacent
    }
  }

  /** A tag, class, attribute or child filter is an abstract test on nodes. It is findable when
      the elements passing it can be looked up, as for tags and classes. */
  datatype Token = Simple(test: Test, findable: bool) | Relative(combinator: Combinator)

  /** What a run of the compiled selector is given. `atDocument` is `context === document`. */
  datatype Env = Env(tree: Tree, context: Path, atDocument: bool, xml: bool)

  /** The closures the compiler builds. `base` is true for the step from the leftmost
      compound to the context, which may also land on a node that is not an element. */
  datatype Matcher =
    | Filter(test: Test)
    | IsContext
    | Scope(leadingRelative: bool, toContext: Matcher)
    | All(matchers: seq<Matcher>)
    | Nearest(dir: Direction, base: bool, inner: Matcher)
    | Walk(dir: Direction, base: bool, inner: Matcher, doneName: nat)

  // ---------------------------------------------------------------- what a closure returns

  predicate Qualifies(env: Env, dir: Direction, base: bool, n: Path) {
    Element(env.tree, n) || (base && dir == ParentNode)
  }

  /** The verdict of a closure when nothing is cached. */
  predicate Accepts(m: Matcher, env: Env, e: Path)
    decreases m, 0
  {
    match m
    case Filter(test) => test(e)
    case IsContext => e == env.context
    case Scope(leading, toContext) =>
      (!leading && (env.xml || env.atDocument)) || Accepts(toContext, env, e)
    case All(ms) => forall i | 0 <= i < |ms| :: Accepts(ms[i], env, e)
    case Nearest(dir, base, inner) => NearestAccepts(inner, env, dir, base, e)
    case Walk(dir, base, inner, _) => WalkAccepts(inner, env, dir, base, e)
  }

  predicate NearestAccepts(m: Matcher, env: Env, dir: Direction, base: bool, e: Path)
    decreases m, Rank(dir, e) + 1
  {
    match Step(dir, e)
    case None => false
    case Some(n) =>
      StepReaches(dir, e, n);
      if Qualifies(env, dir, base, n) then Accepts(m, env, n) else NearestAccepts(m, env, dir, base, n)
  }

  predicate WalkAccepts(m: Matcher, env: Env, dir: Direction, base: bool, e: Path)
    decreases m, Rank(dir, e) + 1
  {
    match Step(dir, e)
    case None => false
    case Some(n) =>
      StepReaches(dir, e, n);
      (Qualifies(env, dir, base, n) && Accepts(m, env, n)) || WalkAccepts(m, env, dir, base, n)
  }

  // ---------------------------------------------------------------- the compiler

  /** addCombinator. */
  function Combine(m: Matcher, c: Combinator, base: bool, done: nat): Matcher {
    if c.First() then Nearest(c.Dir(), base, m) else Walk(c.Dir(), base, m, done)
  }

  /** elementMatcher. */
  function ElementMatcher(ms: seq<Matcher>): Matcher
    requires ms != []
  {
    if |ms| > 1 then All(ms) else ms[0]
  }

  /** The foundational matcher; it takes two done names, one for each form of context. */
  function Foundation(leading: Option<Combinator>, done: nat): Matcher {
    Scope(leading.Some?, Combine(IsContext, if leading.Some? then leading.value else Descendant, true, done))
  }

  /** The matcher list after the tokens `body` have been consumed, and the next done name. */
  function Compiled(leading: Option<Combinator>, body: seq<Token>, done: nat): (r: (seq<Matcher>, nat))
    ensures r.0 != [] && done <= r.1
  {
    if body == [] then ([Foundation(leading, done)], done + 2)
    else
      var (ms, next) := Compiled(leading, body[..|body| - 1], done);
      match body[|body| - 1]
      case Simple(test, _) => (ms + [Filter(test)], next)
      case Relative(c) => ([Combine(ElementMatcher(ms), c, false, next)], next + 1)
  }

  function Leading(tokens: seq<Token>): Option<Combinator>
    requires tokens != []
  {
    if tokens[0].Relative? then Some(tokens[0].combinator) else None
  }

  function Body(tokens: seq<Token>): seq<Token>
    requires tokens != []
  {
    if tokens[0].Relative? then tokens[1..] else tokens
  }

  /** matcherFromTokens. */
  method MatcherFromTokens(tokens: seq<Token>, done: nat) returns (m: Matcher, done': nat)
    requires tokens != []
    ensures var (ms, next) := Compiled(Leading(tokens), Body(tokens), done);
            m == ElementMatcher(ms) && done' == next
  {
    var leading := Leading(tokens);
    var i := if leading.Some? then 1 else 0;
    var start := i;
    var matchers := [Foundation(leading, done)];
    done' := done + 2;
    while i < |tokens|
      invariant start <= i <= |tokens|
      invariant (matchers, done') == Compiled(leading, Body(tokens)[..i - start], done)
    {
      assert Body(tokens)[..i + 1 - start][..i - start] == Body(tokens)[..i - start];
      match tokens[i] {
        case Relative(c) =>
          matchers := [Combine(ElementMatcher(matchers), c, false, done')];
          done' := done' + 1;
        case Simple(test, _) =>
          matchers := matchers + [Filter(test)];
      }
      i := i + 1;
    }
    assert Body(tokens)[..|Body(tokens)|] == Body(tokens);
    m := ElementMatcher(matchers);
  }

  // ---------------------------------------------------------------- what a selector means

  /** Compound selectors, left to right, with the combinators between them. */
  datatype Complex = Complex(compounds: seq<seq<Test>>, combinators: seq<Combinator>)

  function Parse(body: seq<Token>): (cx: Complex)
    ensures |cx.compounds| == |cx.combinators| + 1
  {
    if body == [] then Complex([[]], [])
    else
      var cx := Parse(body[..|body| - 1]);
      var n := |cx.combinators|;
      match body[|body| - 1]
      case Simple(test, _) => cx.(compounds := cx.compounds[n := cx.compounds[n] + [test]])
      case Relative(c) => Complex(cx.compounds + [[]], cx.combinators + [c])
  }

  function Simples(tests: seq<Test>): (r: seq<Token>)
    ensures |r| == |tests| && forall k :: 0 <= k < |r| ==> r[k] == Simple(tests[k], false)
  {
    seq(|tests|, k requires 0 <= k < |tests| => Simple(tests[k], false))
  }

  /** A selector written out: the tests of each compound, a combinator between two compounds. */
  function Written(cx: Complex): seq<Token>
    requires |cx.compounds| == |cx.combinators| + 1
    decreases |cx.combinators|
  {
    var n := |cx.combinators|;
    if n == 0 then Simples(cx.compounds[0])
    else Written(Complex(cx.compounds[..n], cx.combinators[..n - 1])) + [Relative(cx.combinators[n - 1])] + Simples(cx.compounds[n])
  }

  lemma {:induction false} ParseSimples(pre: seq<Token>, tests: seq<Test>)
    ensures var cx := Parse(pre);
            var n := |cx.combinators|;
            Parse(pre + Simples(tests)) == cx.(compounds := cx.compounds[n := cx.compounds[n] + tests])
  {
    hide Parse;
    var before := Parse(pre).compounds[|Parse(pre).combinators|];
    if tests == [] {
      assert pre + Simples(tests) == pre && before + [] == before;
    } else {
      var m := |tests| - 1;
      var front := pre + Simples(tests[..m]);
      ParseSimples(pre, tests[..m]);
      assert pre + Simples(tests) == front + [Simple(tests[m], false)];
      ParseSimple(front, tests[m]);
      assert (before + tests[..m]) + [tests[m]] == before + tests;
    }
  }

  lemma ParseSimple(pre: seq<Token>, test: Test)
    ensures var cx := Parse(pre);
            var n := |cx.combinators|;
            Parse(pre + [Simple(test, false)]) == cx.(compounds := cx.compounds[n := cx.compounds[n] + [test]])
  {
    assert (pre + [Simple(test, false)])[..|pre|] == pre;
  }

  /** Parsing reads back what was written. */
  lemma {:induction false} ParseWritten(cx: Complex)
    requires |cx.compounds| == |cx.combinators| + 1
    ensures Parse(Written(cx)) == cx
    decreases |cx.combinators|
  {
    var n := |cx.combinators|;
    WrittenParts(cx);
    if n == 0 {
      ParseNothing();
      ParseSimples([], cx.compounds[0]);
      hide Parse, Written;
      OnlyCompound(cx);
    } else {
      var front := Complex(cx.compounds[..n], cx.combinators[..n - 1]);
      ParseWritten(front);
      hide Parse, Written;
      ParseRelative(Written(front), cx.combinators[n - 1]);
      ParseSimples(Written(front) + [Relative(cx.combinators[n - 1])], cx.compounds[n]);
      LastCompound(cx, cx.compounds[n]);
    }
  }

  lemma WrittenParts(cx: Complex)
    requires |cx.compounds| == |cx.combinators| + 1
    ensures var n := |cx.combinators|;
            if n == 0 then Written(cx) == [] + Simples(cx.compounds[0])
            else Written(cx) == (Written(Complex(cx.compounds[..n], cx.combinators[..n - 1])) + [Relative(cx.combinators[n - 1])])
                                + Simples(cx.compounds[n])
  {
    hide Simples;
  }

  lemma ParseNothing()
    ensures Parse([]) == Complex([[]], [])
  {
  }

  lemma OnlyCompound(cx: Complex)
    requires |cx.compounds| == 1
    ensures [[]][0 := [] + cx.compounds[0]] == cx.compounds
  {
    assert [] + cx.compounds[0] == cx.compounds[0];
  }

  lemma LastCompound(cx: Complex, last: seq<Test>)
    requires |cx.compounds| == |cx.combinators| + 1 && |cx.combinators| > 0 && last == cx.compounds[|cx.combinators|]
    ensures var n := |cx.combinators|;
            && (cx.compounds[..n] + [[]])[n] == []
            && (cx.compounds[..n] + [[]])[n := [] + last] == cx.compounds
            && cx.combinators[..n - 1] + [cx.combinators[n - 1]] == cx.combinators
  {
    assert [] + last == last;
  }

  lemma ParseRelative(pre: seq<Token>, c: Combinator)
    ensures var cx := Parse(pre); Parse(pre + [Relative(c)]) == Complex(cx.compounds + [[]], cx.combinators + [c])
  {
    assert (pre + [Relative(c)])[..|pre|] == pre;
  }

  /** Sections 8.1 to 8.3 of W3C Selectors Level 3: `a` is in relation `c` to `e`. */
  ghost predicate Related(t: Tree, c: Combinator, a: Path, e: Path) {
    Element(t, a) &&
    match c
    case Descendant => IsAncestor(a, e)
    case Child => e != [] && a == Parent(e)
    case Sibling => SiblingBefore(a, e)
    case Adjacent => SiblingBefore(a, e) &&
                     forall b: Path :: SiblingBefore(a, b) && SiblingBefore(b, e) ==> !Element(t, b)
  }

  /** The leftmost compound is tied to the context by the leading combinator, or lies below
      the context; without a leading combinator a document context and XML impose nothing. */
  ghost predicate InScope(env: Env, leading: Option<Combinator>, e: Path) {
    match leading
    case None => env.xml || env.atDocument || IsAncestor(env.context, e)
    case Some(Descendant) => IsAncestor(env.context, e)
    case Some(Child) => e != [] && env.context == Parent(e)
    case Some(c) => Related(env.tree, c, env.context, e)
  }

  ghost predicate Passes(tests: seq<Test>, e: Path) {
    forall k :: 0 <= k < |tests| ==> tests[k](e)
  }

  ghost predicate Fits(compounds: seq<seq<Test>>, w: seq<Path>) {
    |w| == |compounds| && forall k :: 0 <= k < |w| ==> Passes(compounds[k], w[k])
  }

  ghost predicate Linked(t: Tree, combinators: seq<Combinator>, w: seq<Path>) {
    |w| == |combinators| + 1 && forall k :: 0 <= k < |combinators| ==> Related(t, combinators[k], w[k], w[k + 1])
  }

  /** `w` names one node for each compound, related as the combinators say, ending in `e`. */
  ghost predicate Witness(env: Env, leading: Option<Combinator>, cx: Complex, w: seq<Path>, e: Path) {
    && w != []
    && w[|w| - 1] == e
    && InScope(env, leading, w[0])
    && Fits(cx.compounds, w)
    && Linked(env.tree, cx.combinators, w)
  }

  ghost predicate Selects(env: Env, leading: Option<Combinator>, cx: Complex, e: Path) {
    exists w :: Witness(env, leading, cx, w, e)
  }

  ghost function Selected(env: Env, leading: Option<Combinator>, cx: Complex): Test {
    e => Selects(env, leading, cx, e)
  }

  // ---------------------------------------------------------------- the compiler keeps the meaning

  lemma {:induction false} WalkMeaning(m: Matcher, env: Env, dir: Direction, base: bool, e: Path)
    ensures WalkAccepts(m, env, dir, base, e) <==>
            exists a :: Reaches(dir, e, a) && Qualifies(env, dir, base, a) && Accepts(m, env, a)
    decreases Rank(dir, e)
  {
    forall a ensures Reaches(dir, e, a) <==>
                     Step(dir, e).Some? && (a == Step(dir, e).value || Reaches(dir, Step(dir, e).value, a))
    {
      StepReaches(dir, e, a);
    }
    if Step(dir, e).Some? {
      StepReaches(dir, e, Step(dir, e).value);
      WalkMeaning(m, env, dir, base, Step(dir, e).value);
    }
  }

  /** `a` is the first node of the walk from `e` that the walk may stop at. */
  ghost predicate IsNearest(env: Env, dir: Direction, base: bool, e: Path, a: Path) {
    && Reaches(dir, e, a)
    && Qualifies(env, dir, base, a)
    && forall b: Path :: Reaches(dir, e, b) && Reaches(dir, b, a) ==> !Qualifies(env, dir, base, b)
  }

  lemma {:induction false} NearestMeaning(m: Matcher, env: Env, dir: Direction, base: bool, e: Path)
    ensures NearestAccepts(m, env, dir, base, e) <==>
            exists a :: IsNearest(env, dir, base, e, a) && Accepts(m, env, a)
    decreases Rank(dir, e)
  {
    forall a ensures Reaches(dir, e, a) <==>
                     Step(dir, e).Some? && (a == Step(dir, e).value || Reaches(dir, Step(dir, e).value, a))
    {
      StepReaches(dir, e, a);
    }
    if Step(dir, e).Some? {
      var n := Step(dir, e).value;
      StepReaches(dir, e, n);
      NearestMeaning(m, env, dir, base, n);
      if Qualifies(env, dir, base, n) {
        forall b | Reaches(dir, e, b) && Reaches(dir, b, n) ensures false {
          StepReaches(dir, b, n);
          StepReaches(dir, n, b);
        }
        assert IsNearest(env, dir, base, e, n);
      }
    }
  }

  lemma CombineMeaning(m: Matcher, env: Env, c: Combinator, done: nat, e: Path)
    requires WellFormed(env.tree) && IsNode(env.tree, e)
    ensures Accepts(Combine(m, c, false, done), env, e) <==>
            exists a :: Related(env.tree, c, a, e) && Accepts(m, env, a)
  {
    if !c.First() {
      WalkMeaning(m, env, c.Dir(), false, e);
    } else {
      NearestMeaning(m, env, c.Dir(), false, e);
      if c == Child {
        forall a ensures IsNearest(env, ParentNode, false, e, a) <==> Related(env.tree, Child, a, e) {
          NearestElementIsParent(env, e, a);
        }
      } else {
        forall a ensures IsNearest(env, PreviousSibling, false, e, a) <==> Related(env.tree, Adjacent, a, e) {
          NearestSibling(env, false, e, a);
        }
      }
    }
  }

  lemma NearestSibling(env: Env, base: bool, e: Path, a: Path)
    ensures IsNearest(env, PreviousSibling, base, e, a) <==> Related(env.tree, Adjacent, a, e)
  {
    forall b ensures SiblingBefore(b, e) <==> Reaches(PreviousSibling, e, b) {}
    forall b ensures SiblingBefore(a, b) <==> Reaches(PreviousSibling, b, a) {}
  }

  /** Walking up to the closest element stops at the parent, since only the root of a
      document tree has children without being an element. */
  lemma NearestElementIsParent(env: Env, e: Path, a: Path)
    requires WellFormed(env.tree) && IsNode(env.tree, e)
    ensures IsNearest(env, ParentNode, false, e, a) <==> Related(env.tree, Child, a, e)
  {
    if e != [] {
      AncestorIsNode(env.tree, Parent(e), e);
      StepReaches(ParentNode, e, a);
      StepReaches(ParentNode, e, Parent(e));
      assert Reaches(ParentNode, e, a) && a != Parent(e) ==> Reaches(ParentNode, e, Parent(e)) && Element(env.tree, Parent(e));
      assert IsNearest(env, ParentNode, false, e, a) ==> a == Parent(e);
      if a == Parent(e) {
        StepReaches(ParentNode, e, a);
        forall b | IsAncestor(b, e) && IsAncestor(a, b) ensures false {
          StepReaches(ParentNode, e, b);
        }
      }
    }
  }

  lemma FoundationMeaning(env: Env, leading: Option<Combinator>, done: nat, e: Path)
    ensures Accepts(Foundation(leading, done), env, e) <==> InScope(env, leading, e)
  {
    var c := if leading.Some? then leading.value else Descendant;
    if !c.First() {
      WalkMeaning(IsContext, env, c.Dir(), true, e);
      assert Accepts(IsContext, env, env.context);
      assert Reaches(c.Dir(), e, env.context) && Qualifies(env, c.Dir(), true, env.context) ==>
        WalkAccepts(IsContext, env, c.Dir(), true, e);
    } else {
      NearestMeaning(IsContext, env, c.Dir(), true, e);
      if c == Child && e != [] {
        StepReaches(ParentNode, e, Parent(e));
        forall b | IsAncestor(b, e) && IsAncestor(Parent(e), b) ensures false {
          StepReaches(ParentNode, e, b);
        }
        assert IsNearest(env, ParentNode, true, e, Parent(e));
        forall a | IsNearest(env, ParentNode, true, e, a) ensures a == Parent(e) {
          StepReaches(ParentNode, e, a);
        }
      } else if c == Adjacent {
        forall a ensures IsNearest(env, PreviousSibling, true, e, a) <==> Related(env.tree, Adjacent, a, e) {
          NearestSibling(env, true, e, a);
        }
      }
    }
  }

  lemma ElementMatcherMeaning(ms: seq<Matcher>, env: Env, e: Path)
    requires ms != []
    ensures Accepts(ElementMatcher(ms), env, e) <==> forall i :: 0 <= i < |ms| ==> Accepts(ms[i], env, e)
  {
  }

  lemma FitsSnoc(compounds: seq<seq<Test>>, w: seq<Path>, tests: seq<Test>, e: Path)
    ensures Fits(compounds + [tests], w + [e]) <==> Fits(compounds, w) && Passes(tests, e)
  {
    if |w| == |compounds| {
      var cs, v := compounds + [tests], w + [e];
      assert cs[|w|] == tests && v[|w|] == e;
      assert forall k :: 0 <= k < |w| ==> cs[k] == compounds[k] && v[k] == w[k];
    }
  }

  lemma LinkedSnoc(t: Tree, combinators: seq<Combinator>, w: seq<Path>, c: Combinator, e: Path)
    requires w != []
    ensures Linked(t, combinators + [c], w + [e]) <==> Linked(t, combinators, w) && Related(t, c, w[|w| - 1], e)
  {
    if |w| == |combinators| + 1 {
      var cs, v := combinators + [c], w + [e];
      assert cs[|combinators|] == c && v[|w|] == e && v[|w| - 1] == w[|w| - 1];
      assert forall k :: 0 <= k < |combinators| ==> cs[k] == combinators[k] && v[k] == w[k];
      assert forall k :: 0 <= k < |w| ==> v[k] == w[k];
    }
  }

  lemma PassesSnoc(tests: seq<Test>, test: Test, e: Path)
    ensures Passes(tests + [test], e) <==> Passes(tests, e) && test(e)
  {
    var ts := tests + [test];
    assert ts[|tests|] == test;
    assert forall k :: 0 <= k < |tests| ==> ts[k] == tests[k];
  }

  lemma SimpleMeaning(env: Env, leading: Option<Combinator>, cx: Complex, test: Test, e: Path)
    requires |cx.compounds| == |cx.combinators| + 1
    ensures var n := |cx.combinators|;
            Selects(env, leading, cx.(compounds := cx.compounds[n := cx.compounds[n] + [test]]), e) <==>
            Selects(env, leading, cx, e) && test(e)
  {
    var n := |cx.combinators|;
    var cx' := cx.(compounds := cx.compounds[n := cx.compounds[n] + [test]]);
    forall w ensures Witness(env, leading, cx', w, e) <==> Witness(env, leading, cx, w, e) && test(e) {
      if |w| == n + 1 && w[n] == e {
        assert w == w[..n] + [e];
        assert cx.compounds == cx.compounds[..n] + [cx.compounds[n]];
        assert cx'.compounds == cx.compounds[..n] + [cx.compounds[n] + [test]];
        FitsSnoc(cx.compounds[..n], w[..n], cx.compounds[n], e);
        FitsSnoc(cx.compounds[..n], w[..n], cx.compounds[n] + [test], e);
        PassesSnoc(cx.compounds[n], test, e);
      }
    }
  }

  lemma RelativeMeaning(env: Env, leading: Option<Combinator>, cx: Complex, c: Combinator, e: Path)
    requires |cx.compounds| == |cx.combinators| + 1
    ensures Selects(env, leading, Complex(cx.compounds + [[]], cx.combinators + [c]), e) <==>
            exists a :: Related(env.tree, c, a, e) && Selects(env, leading, cx, a)
  {
    var cx' := Complex(cx.compounds + [[]], cx.combinators + [c]);
    if Selects(env, leading, cx', e) {
      var w' :| Witness(env, leading, cx', w', e);
      var w := w'[..|w'| - 1];
      assert w' == w + [e];
      FitsSnoc(cx.compounds, w, [], e);
      LinkedSnoc(env.tree, cx.combinators, w, c, e);
      assert Witness(env, leading, cx, w, w[|w| - 1]);
      assert Related(env.tree, c, w[|w| - 1], e);
    }
    if a :| Related(env.tree, c, a, e) && Selects(env, leading, cx, a) {
      var w :| Witness(env, leading, cx, w, a);
      FitsSnoc(cx.compounds, w, [], e);
      LinkedSnoc(env.tree, cx.combinators, w, c, e);
      assert Witness(env, leading, cx', w + [e], e);
    }
  }

  /** The compiler preserves the meaning of every token list, for every element and context. */
  lemma {:induction false} CompilerCorrect(env: Env, leading: Option<Combinator>, body: seq<Token>, done: nat, e: Path)
    requires WellFormed(env.tree) && IsNode(env.tree, e)
    ensures Accepts(ElementMatcher(Compiled(leading, body, done).0), env, e) <==>
            Selects(env, leading, Parse(body), e)
    decreases |body|
  {
    if body == [] {
      FoundationMeaning(env, leading, done, e);
      if InScope(env, leading, e) {
        assert Witness(env, leading, Parse(body), [e], e);
      }
    } else {
      var front := body[..|body| - 1];
      var (ms, next) := Compiled(leading, front, done);
      match body[|body| - 1] {
        case Simple(test, _) =>
          CompilerCorrect(env, leading, front, done, e);
          SimpleMeaning(env, leading, Parse(front), test, e);
          ElementMatcherMeaning(ms, env, e);
          var ms' := ms + [Filter(test)];
          assert ms'[|ms|] == Filter(test);
          assert forall i :: 0 <= i < |ms| ==> ms'[i] == ms[i];
          ElementMatcherMeaning(ms', env, e);
        case Relative(c) =>
          CombineMeaning(ElementMatcher(ms), env, c, next, e);
          forall a | Related(env.tree, c, a, e)
            ensures Accepts(ElementMatcher(ms), env, a) <==> Selects(env, leading, Parse(front), a)
          {
            CompilerCorrect(env, leading, front, done, a);
          }
          RelativeMeaning(env, leading, Parse(front), c, e);
      }
    }
  }
}
