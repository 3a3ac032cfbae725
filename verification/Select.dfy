/** select: looking up a seed by one token of the last compound and testing only the seed. */
module Select {
  import opened Dom
  import opened Selector
  import opened MatcherCache
  import Seqs
  import opened Wrappers

  /** getElementsByTagName("*"): the elements below `root` in document order. */
  ghost function Elements(t: Tree, root: Path): seq<Path> {
    Seqs.Filter(Preorder(t), ElementBelow(t, root))
  }

  function ElementBelow(t: Tree, root: Path): Test {
    e => Element(t, e) && IsAncestor(root, e)
  }

  function HasSibling(tokens: seq<Token>): bool {
    exists k :: 0 <= k < |tokens| && tokens[k].Relative? && tokens[k].combinator.Dir() == PreviousSibling
  }

  /** The node whose descendants are candidates: the parent of the context if the text of the
      selector shows a sibling combinator. */
  function Outermost(env: Env, siblingText: bool): Path {
    if siblingText && env.context != [] then Parent(env.context) else env.context
  }

  /** The position of the token to look up, found from the right within the last compound. */
  function SeedToken(tokens: seq<Token>): (r: Option<nat>)
    ensures r.Some? ==> r.value < |tokens| && tokens[r.value].Simple? && tokens[r.value].findable
    ensures r.Some? ==> forall k :: r.value < k < |tokens| ==> tokens[k].Simple? && !tokens[k].findable
    ensures r.None? ==> forall k :: 0 <= k < |tokens| && tokens[k].Simple? && tokens[k].findable ==>
              exists j :: k < j < |tokens| && tokens[j].Relative?
  {
    if tokens == [] || tokens[|tokens| - 1].Relative? then None
    else if tokens[|tokens| - 1].findable then Some(|tokens| - 1)
    else SeedToken(tokens[..|tokens| - 1])
  }

  function Without<T>(s: seq<T>, i: nat): seq<T>
    requires i < |s|
  {
    s[..i] + s[i + 1..]
  }

  // ------------------------------------------------------------------ dropping the seed token

  ghost predicate PassesAll(tokens: seq<Token>, e: Path) {
    forall k :: 0 <= k < |tokens| && tokens[k].Simple? ==> tokens[k].test(e)
  }

  lemma {:induction false} SimpleRunMeaning(env: Env, pre: seq<Token>, post: seq<Token>, e: Path)
    requires forall k :: 0 <= k < |post| ==> post[k].Simple?
    ensures Selects(env, None, Parse(pre + post), e) <==> Selects(env, None, Parse(pre), e) && PassesAll(post, e)
  {
    if post == [] {
      assert pre + post == pre;
    } else {
      var n := |post| - 1;
      assert (pre + post)[..|pre + post| - 1] == pre + post[..n];
      SimpleRunMeaning(env, pre, post[..n], e);
      SimpleMeaning(env, None, Parse(pre + post[..n]), post[n].test, e);
    }
  }

  /** The full selector is the seed token together with the selector that has lost it. */
  lemma SeedTokenMeaning(env: Env, tokens: seq<Token>, i: nat, e: Path)
    requires i < |tokens| && forall k :: i <= k < |tokens| ==> tokens[k].Simple?
    ensures Selects(env, None, Parse(tokens), e) <==>
            tokens[i].test(e) && Selects(env, None, Parse(Without(tokens, i)), e)
  {
    var pre, post := tokens[..i], tokens[i + 1..];
    hide Selects, Parse, PassesAll;
    assert tokens == pre + ([tokens[i]] + post);
    SimpleRunMeaning(env, pre, [tokens[i]] + post, e);
    SimpleRunMeaning(env, pre, post, e);
    PassesFirst(tokens[i], post, e);
  }

  lemma PassesFirst(token: Token, post: seq<Token>, e: Path)
    requires token.Simple?
    ensures PassesAll([token] + post, e) <==> token.test(e) && PassesAll(post, e)
  {
    var all := [token] + post;
    assert all[0] == token;
    assert forall k :: 0 <= k < |post| ==> all[k + 1] == post[k];
    assert forall k :: 1 <= k < |all| ==> all[k] == post[k - 1];
  }

  // ------------------------------------------------------------------ staying below the context

  lemma RelatedStaysBelow(t: Tree, root: Path, c: Combinator, a: Path, e: Path)
    requires IsAncestor(root, a) && Related(t, c, a, e)
    ensures IsAncestor(root, e)
  {
    if c.Dir() == ParentNode {
      if c == Child { assert a == e[..|e| - 1]; }
      assert a[..|root|] == e[..|root|];
    } else {
      assert |a| == |Parent(a)| + 1 && |e| == |Parent(e)| + 1;
      assert a[..|root|] == Parent(a)[..|root|] == Parent(e)[..|root|] == e[..|root|];
    }
  }

  /** Off XML and for a context that is not the document, a match lies below the context. */
  lemma SelectedIsBelow(env: Env, cx: Complex, e: Path)
    requires !env.xml && !env.atDocument
    ensures Selects(env, None, cx, e) ==> IsAncestor(env.context, e)
  {
    if Selects(env, None, cx, e) {
      var w :| Witness(env, None, cx, w, e);
      var k := 0;
      while k < |w| - 1
        invariant 0 <= k < |w|
        invariant IsAncestor(env.context, w[k])
      {
        RelatedStaysBelow(env.tree, env.context, cx.combinators[k], w[k], w[k + 1]);
        k := k + 1;
      }
    }
  }

  /** Widening the candidates to the parent of the context changes no result, except in XML. */
  lemma WideningIsHarmless(env: Env, siblingText: bool, cx: Complex)
    requires env.atDocument ==> env.context == []
    requires env.xml ==> Outermost(env, siblingText) == env.context
    ensures Seqs.Filter(Elements(env.tree, Outermost(env, siblingText)), Selected(env, None, cx)) ==
            Seqs.Filter(Elements(env.tree, env.context), Selected(env, None, cx))
  {
    var t, outer := env.tree, Outermost(env, siblingText);
    if outer != env.context {
      var sel := Selected(env, None, cx);
      forall e | sel(e) ensures IsAncestor(env.context, e) && IsAncestor(outer, e) {
        SelectedIsBelow(env, cx, e);
        assert outer == env.context[..|outer|] == e[..|outer|];
      }
      var both := e => Element(t, e) && sel(e);
      Seqs.FilterTwice(Preorder(t), ElementBelow(t, outer), sel, both);
      Seqs.FilterTwice(Preorder(t), ElementBelow(t, env.context), sel, both);
    }
  }

  ghost predicate SameResults(env: Env, siblingText: bool, cx: Complex) {
    Seqs.Filter(Elements(env.tree, Outermost(env, siblingText)), Selected(env, None, cx)) ==
    Seqs.Filter(Elements(env.tree, env.context), Selected(env, None, cx))
  }

  /** Exactly in XML, below a context with a parent, the wider candidates can make a difference. */
  lemma WideningIsHarmlessOffXml(env: Env, siblingText: bool)
    requires env.atDocument ==> env.context == []
    requires env.context == [] || Element(env.tree, env.context)
    ensures (forall cx :: SameResults(env, siblingText, cx)) <==> !(env.xml && siblingText && env.context != [])
  {
    if env.xml && siblingText && env.context != [] {
      var any := Complex([[]], []);
      var sel := Selected(env, None, any);
      assert Witness(env, None, any, [env.context], env.context);
      PreorderIsComplete(env.tree, env.context);
      assert env.context in Seqs.Filter(Elements(env.tree, Outermost(env, siblingText)), sel);
      assert env.context !in Seqs.Filter(Elements(env.tree, env.context), sel);
      assert !SameResults(env, siblingText, any);
    } else {
      forall cx ensures SameResults(env, siblingText, cx) {
        WideningIsHarmless(env, siblingText, cx);
      }
    }
  }

  // ------------------------------------------------------------------ select

  /** Compile and run. */
  method CompileAndRun(cache: NodeCache, groups: seq<seq<Token>>, env: Env, elems: seq<Path>, done: nat)
    returns (results: seq<Path>)
    requires forall g :: 0 <= g < |groups| ==> groups[g] != []
    requires WellFormed(env.tree) && forall e :: e in elems ==> IsNode(env.tree, e)
    requires cache.NotFromTheFuture()
    modifies cache
    ensures cache.NotFromTheFuture()
    ensures results == Seqs.Filter(elems, SelectedByGroups(groups, env))
  {
    var ms, done';
    ghost var owners;
    ms, done', owners := Compile(groups, done);
    results := cache.Run(ms, env, elems, owners, done');
    Seqs.FilterCongruence(elems, Accepted(ms, env), SelectedByGroups(groups, env));
  }

  /** Sizzle.select for a selector of one group. `elementsBelow` stands for the browser's
      element lists; `find` for its look-up of the elements that pass a findable test. */
  method SelectOne(cache: NodeCache, tokens: seq<Token>, env: Env, siblingText: bool, done: nat,
                   elementsBelow: Path -> seq<Path>, find: (Test, Path) -> seq<Path>)
    returns (results: seq<Path>)
    requires tokens != [] && WellFormed(env.tree)
    requires env.atDocument ==> env.context == []
    requires forall p :: elementsBelow(p) == Elements(env.tree, p)
    requires forall test, p :: find(test, p) == Seqs.Filter(Elements(env.tree, p), test)
    requires cache.NotFromTheFuture()
    modifies cache
    ensures cache.NotFromTheFuture()
    ensures var seeded := Leading(tokens).None? && SeedToken(tokens).Some?;
            var root := if seeded then env.context else Outermost(env, siblingText);
            results == Seqs.Filter(Elements(env.tree, root), Selected(env, Leading(tokens), Parse(Body(tokens))))
  {
    var seed := if Leading(tokens).Some? then None else SeedToken(tokens);
    if seed.Some? {
      results := SelectFromSeed(cache, tokens, env, seed.value, done, find(tokens[seed.value].test, env.context));
    } else {
      var elems := elementsBelow(Outermost(env, siblingText));
      results := CompileAndRun(cache, [tokens], env, elems, done);
      OneGroup(tokens, env, elems);
    }
  }

  /** The seed token is spliced out of the selector before the rest is compiled. */
  method SelectFromSeed(cache: NodeCache, tokens: seq<Token>, env: Env, i: nat, done: nat, seed: seq<Path>)
    returns (results: seq<Path>)
    requires i < |tokens| && tokens[0].Simple? && forall k :: i <= k < |tokens| ==> tokens[k].Simple?
    requires WellFormed(env.tree)
    requires seed == Seqs.Filter(Elements(env.tree, env.context), tokens[i].test)
    requires cache.NotFromTheFuture()
    modifies cache
    ensures cache.NotFromTheFuture()
    ensures results == Seqs.Filter(Elements(env.tree, env.context), Selected(env, None, Parse(tokens)))
  {
    var rest := Without(tokens, i);
    DroppingTheSeedToken(env, tokens, i);
    if |seed| == 0 || |rest| == 0 {
      if |rest| == 0 {
        NothingLeftToTest(env, seed);
      }
      return seed;
    }
    assert rest[0].Simple?;
    results := CompileAndRun(cache, [rest], env, seed, done);
    OneGroup(rest, env, seed);
  }

  lemma DroppingTheSeedToken(env: Env, tokens: seq<Token>, i: nat)
    requires i < |tokens| && forall k :: i <= k < |tokens| ==> tokens[k].Simple?
    ensures Seqs.Filter(Seqs.Filter(Elements(env.tree, env.context), tokens[i].test),
                        Selected(env, None, Parse(Without(tokens, i)))) ==
            Seqs.Filter(Elements(env.tree, env.context), Selected(env, None, Parse(tokens)))
  {
    forall e { SeedTokenMeaning(env, tokens, i, e); }
    Seqs.FilterTwice(Elements(env.tree, env.context), tokens[i].test,
                     Selected(env, None, Parse(Without(tokens, i))), Selected(env, None, Parse(tokens)));
  }

  lemma NothingLeftToTest(env: Env, elems: seq<Path>)
    requires forall e :: e in elems ==> IsAncestor(env.context, e)
    ensures Seqs.Filter(elems, Selected(env, None, Parse([]))) == elems
  {
    forall e | e in elems ensures Selects(env, None, Parse([]), e) {
      assert Witness(env, None, Parse([]), [e], e);
    }
    Seqs.FilterAll(elems, Selected(env, None, Parse([])));
  }

  lemma OneGroup(tokens: seq<Token>, env: Env, elems: seq<Path>)
    requires tokens != []
    ensures Seqs.Filter(elems, SelectedByGroups([tokens], env)) ==
            Seqs.Filter(elems, Selected(env, Leading(tokens), Parse(Body(tokens))))
  {
    assert [tokens][0] == tokens;
    Seqs.FilterCongruence(elems, SelectedByGroups([tokens], env), Selected(env, Leading(tokens), Parse(Body(tokens))));
  }

  /** With XML, a selector that looks up no seed, such as `* + *`, returns elements that do
      not lie below the context: here the sibling after the context itself. */
  lemma XmlResultOutsideContext() returns (env: Env, tokens: seq<Token>, e: Path)
    ensures tokens != [] && WellFormed(env.tree) && env.xml
    ensures Leading(tokens).None? && SeedToken(tokens).None? && HasSibling(tokens)
    ensures e in Seqs.Filter(Elements(env.tree, Outermost(env, true)), Selected(env, None, Parse(tokens)))
    ensures !IsAncestor(env.context, e)
  {
    var leaf := Tree(true, []);
    var t := Tree(true, [leaf, leaf]);
    var any := Simple(_ => true, false);
    env, tokens, e := Env(t, [0], false, true), [any, Relative(Adjacent), any], [1];
    assert tokens[1].Relative?;
    forall p: Path ensures p != [] && IsNode(t, p) ==> At(t, p).value == leaf {
      NoGrandchildren(t, p);
    }
    assert Parent([0]) == [] && Parent([1]) == [] && At(t, []) == Some(t);
    assert Element(t, [0]) && Element(t, [1]);
    SecondOfTwoIsSelected(env, any);
    PreorderIsComplete(t, [1]);
  }

  lemma SecondOfTwoIsSelected(env: Env, any: Token)
    requires env.xml && any.Simple? && any.test([0]) && any.test([1]) && Element(env.tree, [0])
    ensures Selects(env, None, Parse([any, Relative(Adjacent), any]), [1])
  {
    var two := [any, Relative(Adjacent)];
    assert [any, Relative(Adjacent), any][..2] == two && two[..1] == [any] && [any][..0] == [];
    assert Witness(env, None, Parse([]), [[0]], [0]);
    SimpleMeaning(env, None, Parse([]), any.test, [0]);
    assert Parent([0]) == [] && Parent([1]) == [];
    assert Related(env.tree, Adjacent, [0], [1]);
    RelativeMeaning(env, None, Parse([any]), Adjacent, [1]);
    SimpleMeaning(env, None, Parse(two), any.test, [1]);
  }

  lemma {:induction false} NoGrandchildren(t: Tree, p: Path)
    requires t == Tree(true, [Tree(true, []), Tree(true, [])])
    ensures p != [] && IsNode(t, p) ==> At(t, p).value == Tree(true, [])
    decreases |p|
  {
    if p != [] { NoGrandchildren(t, Parent(p)); }
  }
}
