/** Running a compiled selector with the walk cache kept on the nodes. One mutable record is
    stored on every node a walk visits and keeps changing after it has been stored. */
module MatcherCache {
  import opened Dom
  import opened Selector
  import Seqs
  import opened Wrappers

  /** The array [dirruns, doneName, result]. */
  class Record {
    const run: nat
    const doneName: nat
    var result: bool

    constructor (run: nat, doneName: nat)
      ensures this.run == run && this.doneName == doneName && !result
    {
      this.run, this.doneName, result := run, doneName, false;
    }
  }

  /** Which closure a done name was handed out to. */
  type Owners = map<nat, Matcher>

  /** Every walk below `m` is the owner of its done name, and names grow from the inside out. */
  ghost predicate Named(m: Matcher, owners: Owners, limit: nat) {
    match m
    case Filter(_) => true
    case IsContext => true
    case Scope(_, toContext) => Named(toContext, owners, limit)
    case All(ms) => forall i :: 0 <= i < |ms| ==> Named(ms[i], owners, limit)
    case Nearest(_, _, inner) => Named(inner, owners, limit)
    case Walk(_, _, inner, name) =>
      name < limit && name in owners && owners[name] == m && Named(inner, owners, name)
  }

  /** What a finished record on node `n` must say: a match at `n` or further along the walk. */
  ghost predicate From(walk: Matcher, env: Env, n: Path)
    requires walk.Walk?
  {
    || (Qualifies(env, walk.dir, walk.base, n) && Accepts(walk.inner, env, n))
    || WalkAccepts(walk.inner, env, walk.dir, walk.base, n)
  }

  lemma WalkStep(walk: Matcher, env: Env, cur: Path)
    requires walk.Walk?
    ensures match Step(walk.dir, cur)
            case None => !WalkAccepts(walk.inner, env, walk.dir, walk.base, cur)
            case Some(n) =>
              && Rank(walk.dir, n) < Rank(walk.dir, cur)
              && WalkAccepts(walk.inner, env, walk.dir, walk.base, cur) ==
                 if Qualifies(env, walk.dir, walk.base, n) then From(walk, env, n)
                 else WalkAccepts(walk.inner, env, walk.dir, walk.base, n)
    ensures From(walk, env, cur) ==
            ((Qualifies(env, walk.dir, walk.base, cur) && Accepts(walk.inner, env, cur)) ||
             WalkAccepts(walk.inner, env, walk.dir, walk.base, cur))
  {
    if Step(walk.dir, cur).Some? { StepReaches(walk.dir, cur, Step(walk.dir, cur).value); }
  }

  type Key = (Direction, Path)

  /** `elem[expando][dir]` for all nodes, and the run counter. */
  class NodeCache {
    var dirruns: nat
    var slots: map<Key, Record>

    constructor ()
      ensures dirruns == 0 && slots == map[]
      ensures NotFromTheFuture()
    {
      dirruns, slots := 0, map[];
    }

    ghost predicate NotFromTheFuture()
      reads this
    {
      forall k :: k in slots ==> slots[k].run <= dirruns
    }

    /** A record of the present run tells the truth about the node that holds it. */
    ghost predicate Truthful(k: Key, env: Env, owners: Owners)
      requires k in slots
      reads this, slots[k]
    {
      var r := slots[k];
      && r.doneName in owners
      && owners[r.doneName].Walk?
      && owners[r.doneName].dir == k.0
      && r.result == From(owners[r.doneName], env, k.1)
    }

    /** All records below `limit` are truthful; those of walks still going on are at or above it. */
    ghost predicate Sound(env: Env, owners: Owners, limit: nat)
      reads this, slots.Values
    {
      forall k :: k in slots && slots[k].run == dirruns && slots[k].doneName < limit ==> Truthful(k, env, owners)
    }

    /** `rec` is shared by the nodes a walk of `m` has visited on its way to `cur`; they all
        wait for the verdict of what lies beyond `cur`. Every other record is finished. */
    ghost predicate Walking(m: Matcher, env: Env, owners: Owners, limit: nat, rec: Record, cur: Path)
      requires m.Walk?
      reads this, slots.Values
    {
      forall k :: k in slots && slots[k].run == dirruns && slots[k].doneName < limit ==>
        if slots[k] == rec then
          && k.0 == m.dir
          && Rank(m.dir, k.1) >= Rank(m.dir, cur)
          && From(m, env, k.1) == WalkAccepts(m.inner, env, m.dir, m.base, cur)
        else Truthful(k, env, owners)
    }

    /** Calling a compiled closure. It may overwrite any slot, also one another walk relies on,
        but stores only records of its own and writes no record made before. */
    method Call(m: Matcher, env: Env, e: Path, ghost owners: Owners, ghost limit: nat) returns (b: bool)
      requires Named(m, owners, limit)
      requires NotFromTheFuture() && Sound(env, owners, limit)
      modifies this`slots
      ensures b == Accepts(m, env, e)
      ensures NotFromTheFuture() && Sound(env, owners, limit)
      ensures forall k :: k in slots ==>
                if fresh(slots[k]) then slots[k].doneName < limit
                else k in old(slots) && slots[k] == old(slots)[k]
      decreases m, 0
    {
      match m {
        case Filter(test) =>
          b := test(e);
        case IsContext =>
          b := e == env.context;
        case Scope(leading, toContext) =>
          if !leading && (env.xml || env.atDocument) {
            b := true;
          } else {
            b := Call(toContext, env, e, owners, limit);
          }
        case All(ms) =>
          var i := |ms|;
          while i > 0
            invariant 0 <= i <= |ms|
            invariant forall j :: i <= j < |ms| ==> Accepts(ms[j], env, e)
            invariant NotFromTheFuture() && Sound(env, owners, limit)
            invariant forall k :: k in slots ==>
                        if fresh(slots[k]) then slots[k].doneName < limit
                        else k in old(slots) && slots[k] == old(slots)[k]
          {
            i := i - 1;
            b := Call(ms[i], env, e, owners, limit);
            if !b { return false; }
          }
          b := true;
        case Nearest(dir, base, inner) =>
          var cur := e;
          while true
            invariant NearestAccepts(inner, env, dir, base, e) == NearestAccepts(inner, env, dir, base, cur)
            invariant slots == old(slots)
            decreases Rank(dir, cur)
          {
            var next := Step(dir, cur);
            if next.None? { return false; }
            StepReaches(dir, cur, next.value);
            cur := next.value;
            if Qualifies(env, dir, base, cur) {
              b := Call(inner, env, cur, owners, limit);
              return;
            }
          }
        case Walk(dir, base, inner, name) =>
          if env.xml {
            b := UncachedWalk(m, env, e, owners, limit);
          } else {
            b := CachedWalk(m, env, e, owners, limit);
          }
      }
    }

    /** The branch for XML nodes, on which no data can be stored. */
    method UncachedWalk(m: Matcher, env: Env, e: Path, ghost owners: Owners, ghost limit: nat) returns (b: bool)
      requires m.Walk? && Named(m, owners, limit)
      requires NotFromTheFuture() && Sound(env, owners, limit)
      modifies this`slots
      ensures b == Accepts(m, env, e)
      ensures NotFromTheFuture() && Sound(env, owners, limit)
      ensures forall k :: k in slots ==>
                if fresh(slots[k]) then slots[k].doneName < limit
                else k in old(slots) && slots[k] == old(slots)[k]
      decreases m.inner, 1
    {
      var cur := e;
      NamedMonotone(m.inner, owners, m.doneName, owners, limit);
      while true
        invariant WalkAccepts(m.inner, env, m.dir, m.base, e) == WalkAccepts(m.inner, env, m.dir, m.base, cur)
        invariant NotFromTheFuture() && Sound(env, owners, limit)
        invariant forall k :: k in slots ==>
                    if fresh(slots[k]) then slots[k].doneName < limit
                    else k in old(slots) && slots[k] == old(slots)[k]
        decreases Rank(m.dir, cur)
      {
        var next := Step(m.dir, cur);
        if next.None? { return false; }
        StepReaches(m.dir, cur, next.value);
        cur := next.value;
        if Qualifies(env, m.dir, m.base, cur) {
          b := Call(m.inner, env, cur, owners, limit);
          if b { return true; }
        }
      }
    }

    /** The branch that stores one record on all nodes it visits, so that the verdict found in
        the end, by a match or by an older record, propagates back to the earlier nodes. */
    method CachedWalk(m: Matcher, env: Env, e: Path, ghost owners: Owners, ghost limit: nat) returns (b: bool)
      requires m.Walk? && Named(m, owners, limit)
      requires NotFromTheFuture() && Sound(env, owners, limit)
      modifies this`slots
      ensures b == Accepts(m, env, e)
      ensures NotFromTheFuture() && Sound(env, owners, limit)
      ensures forall k :: k in slots ==>
                if fresh(slots[k]) then slots[k].doneName < limit
                else k in old(slots) && slots[k] == old(slots)[k]
      decreases m.inner, 4
    {
      assert owners[m.doneName] == m && m.doneName < limit && Accepts(m, env, e) == WalkAccepts(m.inner, env, m.dir, m.base, e);
      hide WalkAccepts, From, Accepts, Reaches;
      var newCache := new Record(dirruns, m.doneName);
      var cur := e;
      while true
        invariant WalkAccepts(m.inner, env, m.dir, m.base, e) == WalkAccepts(m.inner, env, m.dir, m.base, cur)
        invariant NotFromTheFuture() && Walking(m, env, owners, limit, newCache, cur)
        invariant !newCache.result
        invariant forall k :: k in slots ==>
                    if fresh(slots[k]) then slots[k].doneName < limit
                    else k in old(slots) && slots[k] == old(slots)[k]
        decreases Rank(m.dir, cur)
      {
        var next := Step(m.dir, cur);
        WalkStep(m, env, cur);
        if next.None? { return false; }
        var verdict := CachedStep(m, env, cur, next.value, newCache, owners, limit);
        if verdict.Some? { return verdict.value; }
        cur := next.value;
      }
    }

    /** One turn of the loop: pass a node by, take the verdict of an older record of the same
        closure, or visit the node. */
    method CachedStep(m: Matcher, env: Env, cur: Path, n: Path, newCache: Record, ghost owners: Owners, ghost limit: nat)
      returns (verdict: Option<bool>)
      requires m.Walk? && Named(m, owners, limit) && Step(m.dir, cur) == Some(n)
      requires newCache.run == dirruns && newCache.doneName == m.doneName && !newCache.result
      requires NotFromTheFuture() && Walking(m, env, owners, limit, newCache, cur)
      modifies this`slots, newCache
      ensures NotFromTheFuture()
      ensures verdict.Some? ==>
        verdict.value == newCache.result == WalkAccepts(m.inner, env, m.dir, m.base, cur) && Sound(env, owners, limit)
      ensures verdict.None? ==>
        && !newCache.result && Walking(m, env, owners, limit, newCache, n)
        && WalkAccepts(m.inner, env, m.dir, m.base, cur) == WalkAccepts(m.inner, env, m.dir, m.base, n)
      ensures forall k :: k in slots ==>
                if fresh(slots[k]) then slots[k].doneName < limit
                else slots[k] == newCache || (k in old(slots) && slots[k] == old(slots)[k])
      decreases m.inner, 3
    {
      WalkStep(m, env, cur);
      WalkStep(m, env, n);
      assert owners[m.doneName] == m && m.doneName < limit;
      hide WalkAccepts, From, Accepts, Reaches, Rank;
      if !Qualifies(env, m.dir, m.base, n) { return None; }
      var k := (m.dir, n);
      if k in slots && slots[k].run == dirruns && slots[k].doneName == m.doneName {
        newCache.result := slots[k].result;
        return Some(newCache.result);
      }
      var b := Visit(m, env, cur, n, newCache, owners, limit);
      return if b then Some(true) else None;
    }

    /** Store the record on `n`, then ask the inner matcher about `n`. */
    method Visit(m: Matcher, env: Env, prev: Path, n: Path, newCache: Record, ghost owners: Owners, ghost limit: nat)
      returns (b: bool)
      requires m.Walk? && Named(m, owners, limit)
      requires Step(m.dir, prev) == Some(n) && Qualifies(env, m.dir, m.base, n)
      requires newCache.run == dirruns && newCache.doneName == m.doneName && !newCache.result
      requires NotFromTheFuture() && Walking(m, env, owners, limit, newCache, prev)
      modifies this`slots, newCache
      ensures b == Accepts(m.inner, env, n) == newCache.result
      ensures NotFromTheFuture()
      ensures b ==> Sound(env, owners, limit)
      ensures !b ==> Walking(m, env, owners, limit, newCache, n)
      ensures forall k :: k in slots ==>
                if fresh(slots[k]) then slots[k].doneName < limit
                else slots[k] == newCache || (k in old(slots) && slots[k] == old(slots)[k])
      decreases m.inner, 2
    {
      WalkStep(m, env, prev);
      WalkStep(m, env, n);
      assert owners[m.doneName] == m && m.doneName < limit && Named(m.inner, owners, m.doneName);
      hide WalkAccepts, From, Accepts, Named, Reaches;
      Hold(m, env, prev, n, newCache, owners, limit);
      b := Ask(m, env, n, newCache, owners, limit);
      newCache.result := b;
    }

    /** As `Walking`, with the verdict on `n` itself still to come. */
    ghost predicate Holding(m: Matcher, env: Env, owners: Owners, limit: nat, rec: Record, n: Path)
      requires m.Walk?
      reads this, slots.Values
    {
      forall k :: k in slots && slots[k].run == dirruns && slots[k].doneName < limit ==>
        if slots[k] == rec then
          k.0 == m.dir && Rank(m.dir, k.1) >= Rank(m.dir, n) && From(m, env, k.1) == From(m, env, n)
        else Truthful(k, env, owners)
    }

    method Hold(m: Matcher, env: Env, prev: Path, n: Path, newCache: Record, ghost owners: Owners, ghost limit: nat)
      requires m.Walk? && Rank(m.dir, n) <= Rank(m.dir, prev)
      requires WalkAccepts(m.inner, env, m.dir, m.base, prev) == From(m, env, n)
      requires newCache.run == dirruns
      requires NotFromTheFuture() && Walking(m, env, owners, limit, newCache, prev)
      modifies this`slots
      ensures slots == old(slots)[(m.dir, n) := newCache]
      ensures NotFromTheFuture() && Holding(m, env, owners, limit, newCache, n)
    {
      hide WalkAccepts, From;
      slots := slots[(m.dir, n) := newCache];
    }

    /** The inner matcher may overwrite slots, with finished records of smaller names. */
    method Ask(m: Matcher, env: Env, n: Path, newCache: Record, ghost owners: Owners, ghost limit: nat)
      returns (b: bool)
      requires m.Walk? && m.doneName < limit && Named(m.inner, owners, m.doneName)
      requires newCache.run == dirruns && newCache.doneName == m.doneName
      requires NotFromTheFuture() && Holding(m, env, owners, limit, newCache, n)
      modifies this`slots
      ensures b == Accepts(m.inner, env, n)
      ensures NotFromTheFuture() && Holding(m, env, owners, limit, newCache, n)
      ensures forall k :: k in slots ==>
                if fresh(slots[k]) then slots[k].doneName < limit
                else k in old(slots) && slots[k] == old(slots)[k]
      decreases m.inner, 1
    {
      hide From, Accepts, Named;
      b := Call(m.inner, env, n, owners, m.doneName);
    }

    /** The inner loop of superMatcher: whether one of the matchers accepts the element. */
    method MatchAny(ms: seq<Matcher>, env: Env, elem: Path, ghost owners: Owners, ghost limit: nat)
      returns (matched: bool)
      requires forall j :: 0 <= j < |ms| ==> Named(ms[j], owners, limit)
      requires NotFromTheFuture() && Sound(env, owners, limit)
      modifies this`slots
      ensures matched == AnyAccepts(ms, env, elem)
      ensures NotFromTheFuture() && Sound(env, owners, limit)
    {
      var j := 0;
      while j < |ms|
        invariant 0 <= j <= |ms|
        invariant forall k :: 0 <= k < j ==> !Accepts(ms[k], env, elem)
        invariant NotFromTheFuture() && Sound(env, owners, limit)
      {
        matched := Call(ms[j], env, elem, owners, limit);
        if matched { return; }
        j := j + 1;
      }
      return false;
    }

    /** superMatcher: a run over the candidate elements. What earlier runs left on the nodes,
        on this tree or on any other, does not matter: a new run number makes it stale. */
    method Run(ms: seq<Matcher>, env: Env, elems: seq<Path>, ghost owners: Owners, ghost limit: nat)
      returns (results: seq<Path>)
      requires forall j :: 0 <= j < |ms| ==> Named(ms[j], owners, limit)
      requires NotFromTheFuture()
      modifies this
      ensures results == Seqs.Filter(elems, Accepted(ms, env))
      ensures NotFromTheFuture()
    {
      dirruns := dirruns + 1;
      results := [];
      var i := 0;
      while i < |elems|
        invariant 0 <= i <= |elems|
        invariant results == Seqs.Filter(elems[..i], Accepted(ms, env))
        invariant NotFromTheFuture() && Sound(env, owners, limit)
      {
        var matched := MatchAny(ms, env, elems[i], owners, limit);
        if matched { results := results + [elems[i]]; }
        assert elems[..i + 1][..i] == elems[..i];
        i := i + 1;
      }
      assert elems[..|elems|] == elems;
    }
  }

  predicate AnyAccepts(ms: seq<Matcher>, env: Env, e: Path) {
    exists j :: 0 <= j < |ms| && Accepts(ms[j], env, e)
  }

  lemma {:induction false} NamedMonotone(m: Matcher, owners: Owners, limit: nat, owners': Owners, limit': nat)
    requires Named(m, owners, limit) && limit <= limit'
    requires forall n :: n in owners ==> n in owners' && owners'[n] == owners[n]
    ensures Named(m, owners', limit')
    decreases m
  {
    match m {
      case Filter(_) =>
      case IsContext =>
      case Scope(_, toContext) => NamedMonotone(toContext, owners, limit, owners', limit');
      case All(ms) =>
        forall i | 0 <= i < |ms| ensures Named(ms[i], owners', limit') {
          NamedMonotone(ms[i], owners, limit, owners', limit');
        }
      case Nearest(_, _, inner) => NamedMonotone(inner, owners, limit, owners', limit');
      case Walk(_, _, inner, name) => NamedMonotone(inner, owners, name, owners', name);
    }
  }

  function Accepted(ms: seq<Matcher>, env: Env): Test {
    e => AnyAccepts(ms, env, e)
  }

  /** The done names a compilation hands out satisfy what a run asks of them. */
  lemma {:induction false} CompiledNamed(leading: Option<Combinator>, body: seq<Token>, done: nat, owners: Owners)
    returns (owners': Owners)
    requires forall n :: n in owners ==> n < done
    ensures var (ms, next) := Compiled(leading, body, done);
            && (forall n :: n in owners' ==> n < next)
            && (forall n :: n in owners ==> n in owners' && owners'[n] == owners[n])
            && Named(ElementMatcher(ms), owners', next)
    decreases |body|
  {
    if body == [] {
      var m := Foundation(leading, done).toContext;
      owners' := if m.Walk? then owners[done := m] else owners;
    } else {
      var (ms, next) := Compiled(leading, body[..|body| - 1], done);
      var before := CompiledNamed(leading, body[..|body| - 1], done, owners);
      match body[|body| - 1] {
        case Simple(test, _) =>
          owners' := before;
          assert forall i :: 0 <= i < |ms| ==> Named(ms[i], before, next);
        case Relative(c) =>
          var m := Combine(ElementMatcher(ms), c, false, next);
          owners' := if m.Walk? then before[next := m] else before;
          NamedMonotone(ElementMatcher(ms), before, next, owners', if m.Walk? then next else next + 1);
      }
    }
  }

  ghost predicate GroupSelects(groups: seq<seq<Token>>, env: Env, e: Path)
    requires forall g :: 0 <= g < |groups| ==> groups[g] != []
  {
    exists g :: 0 <= g < |groups| && Selects(env, Leading(groups[g]), Parse(Body(groups[g])), e)
  }

  ghost function SelectedByGroups(groups: seq<seq<Token>>, env: Env): Test
    requires forall g :: 0 <= g < |groups| ==> groups[g] != []
  {
    e => GroupSelects(groups, env, e)
  }

  /** On every document the matcher accepts what the group selects. */
  ghost predicate Agrees(m: Matcher, group: seq<Token>)
    requires group != []
  {
    forall env: Env, e: Path | WellFormed(env.tree) && IsNode(env.tree, e) ::
      Accepts(m, env, e) <==> Selects(env, Leading(group), Parse(Body(group)), e)
  }

  lemma CompiledAgrees(group: seq<Token>, done: nat)
    requires group != []
    ensures Agrees(ElementMatcher(Compiled(Leading(group), Body(group), done).0), group)
  {
    forall env: Env, e: Path | WellFormed(env.tree) && IsNode(env.tree, e)
      ensures Accepts(ElementMatcher(Compiled(Leading(group), Body(group), done).0), env, e) <==>
              Selects(env, Leading(group), Parse(Body(group)), e)
    {
      CompilerCorrect(env, Leading(group), Body(group), done, e);
    }
  }

  lemma AnyAgrees(ms: seq<Matcher>, groups: seq<seq<Token>>, env: Env, e: Path)
    requires |ms| == |groups| && forall g :: 0 <= g < |groups| ==> groups[g] != []
    requires forall j :: 0 <= j < |ms| ==> Agrees(ms[j], groups[|groups| - 1 - j])
    requires WellFormed(env.tree) && IsNode(env.tree, e)
    ensures AnyAccepts(ms, env, e) <==> GroupSelects(groups, env, e)
  {
    hide Accepts, Selects, WellFormed, IsNode, Parse;
    forall j | 0 <= j < |ms|
      ensures Accepts(ms[j], env, e) <==>
              Selects(env, Leading(groups[|groups| - 1 - j]), Parse(Body(groups[|groups| - 1 - j])), e)
    {
      assert Agrees(ms[j], groups[|groups| - 1 - j]);
    }
    if g :| 0 <= g < |groups| && Selects(env, Leading(groups[g]), Parse(Body(groups[g])), e) {
      var j := |groups| - 1 - g;
      assert groups[|groups| - 1 - j] == groups[g] && Accepts(ms[j], env, e);
    }
  }

  /** compile: one element matcher for each group of the selector, last group first. */
  method Compile(groups: seq<seq<Token>>, done: nat) returns (ms: seq<Matcher>, done': nat, ghost owners: Owners)
    requires forall g :: 0 <= g < |groups| ==> groups[g] != []
    ensures forall j :: 0 <= j < |ms| ==> Named(ms[j], owners, done')
    ensures forall env: Env, e: Path | WellFormed(env.tree) && IsNode(env.tree, e) ::
              AnyAccepts(ms, env, e) <==> GroupSelects(groups, env, e)
  {
    hide Accepts, Selects, Agrees, AnyAccepts, GroupSelects, Named, Compiled, WellFormed, IsNode, ElementMatcher;
    ms, done', owners := [], done, map[];
    var i := |groups|;
    while i > 0
      invariant 0 <= i <= |groups| == i + |ms|
      invariant forall n :: n in owners ==> n < done'
      invariant forall j :: 0 <= j < |ms| ==> Named(ms[j], owners, done')
      invariant forall j :: 0 <= j < |ms| ==> Agrees(ms[j], groups[|groups| - 1 - j])
    {
      i := i - 1;
      var group := groups[i];
      ghost var before, start := owners, done';
      owners := CompiledNamed(Leading(group), Body(group), done', owners);
      var m;
      m, done' := MatcherFromTokens(group, done');
      forall j | 0 <= j < |ms| ensures Named(ms[j], owners, done') {
        NamedMonotone(ms[j], before, start, owners, done');
      }
      CompiledAgrees(group, start);
      ms := ms + [m];
    }
    forall env: Env, e: Path | WellFormed(env.tree) && IsNode(env.tree, e)
      ensures AnyAccepts(ms, env, e) <==> GroupSelects(groups, env, e)
    {
      AnyAgrees(ms, groups, env, e);
    }
  }
}
