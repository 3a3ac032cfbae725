/** What the users of a callback list may rely on, told by the steps they take and not by the
    list's own records. */
module CallbackLaws {
  import opened Wrappers
  import opened Seqs
  import opened Callbacks

  // ------------------------------------------------------------------ a step and its loop

  /** Whether the step runs the firing loop. */
  predicate Runs(s: State, op: Op) {
    match op
    case OpAdd(_) => s.list.Some? && !s.firing && s.memory.Some?
    case OpFire(_) => s.list.Some? && !s.firing && (!s.fired || s.stack.Some?)
    case OpReturn => s.firing
    case _ => false
  }

  /** The step up to the first test of the loop. */
  function Prepared(s: State, op: Op): State
    requires Shaped(s)
  {
    match op
    case OpAdd(fs) =>
      if s.list.None? then s
      else if Runs(s, op) then BeginRound(Extend(s, fs), s.memory.value, |s.list.value|, true)
      else Extend(s, fs)
    case OpFire(data) =>
      if s.list.None? || (s.fired && s.stack.None?) then s
      else
        var a := s.(trace := s.trace.(accepted := s.trace.accepted + [data]));
        if !s.firing then BeginRound(a, data, 0, false)
        else if s.stack.Some? then a.(stack := Some(s.stack.value + [data]))
        else a
    case OpReturn => if s.firing then s.(firingIndex := s.firingIndex + 1) else s
    case OpRemove(f) => Remove(s, f)
    case OpLock => Lock(s)
    case OpDisable => Disable(s)
  }

  lemma StepIsPrepared(s: State, op: Op)
    requires Inv(s)
    ensures Runs(s, op) ==> AtTest(Prepared(s, op))
    ensures Step(s, op) == if Runs(s, op) then Loop(Prepared(s, op)) else Prepared(s, op)
  {
    hide History, Queued, Progress, AtTest, Loop, Push, Keep, Ids, IdsOf, CalledIds;
    match op {
      case OpAdd(fs) => if Runs(s, op) { BeginReplay(s, fs); }
      case OpFire(data) => if Runs(s, op) { BeginAnswer(s, data); }
      case OpReturn => if s.firing { ReturnAtTest(s); }
      case _ =>
    }
  }

  lemma ReturnAtTest(s: State)
    requires Inv(s) && s.firing
    ensures AtTest(s.(firingIndex := s.firingIndex + 1))
  {
    hide Increasing, Minus, Complete, ReplaysRepeat, Flat, Answered, Progress;
    assert AllRounds(s.(firingIndex := s.firingIndex + 1)) == AllRounds(s);
    if s.list.Some? { ProgressIgnoresIndex(s); }
  }

  /** The state at the test for the next fire on the stack. */
  function NextRound(s: State): State
    requires s.list.Some? && s.stack.Some? && s.stack.value != []
  {
    BeginRound(Archive(s).(stack := Some(s.stack.value[1..])), s.stack.value[0], 0, false)
  }

  lemma NextAtTest(s: State)
    requires AtTest(s) && s.list.Some? && s.firingIndex == s.firingLength && s.stack.Some? && s.stack.value != []
    ensures AtTest(NextRound(s)) && Loop(s) == Loop(NextRound(s))
  {
    LoopGoesOn(s);
    hide AtTest, Loop;
    ArchiveKeeps(s);
    NextFromStack(Archive(s));
  }

  lemma LoopGoesOn(s: State)
    requires s.list.Some? && s.firingIndex == s.firingLength == |s.list.value|
    requires s.stack.Some? && s.stack.value != []
    ensures Loop(s) == Loop(NextRound(s))
  {
    assert Loop(s) == EndRound(s);
    assert EndRound(s) == Fire(Archive(s).(stack := Some(s.stack.value[1..])), s.stack.value[0], 0, false);
  }

  /** The loop either calls, or rests, or goes on with the next fire. */
  predicate GoesOn(s: State) {
    s.list.Some? && s.firingIndex == s.firingLength && s.stack.Some? && s.stack.value != []
  }

  /** What the loop leaves alone, and what it may do with the list and the calls. */
  lemma {:induction false} LoopRecords(s: State)
    requires AtTest(s)
    ensures var r := Loop(s);
            && r.options == s.options && r.fired
            && r.trace.additions == s.trace.additions && r.trace.dropped == s.trace.dropped
            && r.trace.accepted == s.trace.accepted
            && (r.list == s.list || r.list == Some([]) || r.list == None)
            && (s.stack.None? ==> r.stack.None?)
            && (forall c :: c in r.trace.calls ==> c in s.trace.calls || (s.list.Some? && c.id in Ids(s.list.value)))
            && s.trace.calls <= r.trace.calls
    decreases if s.stack.Some? then |s.stack.value| else 0
  {
    if GoesOn(s) {
      NextAtTest(s);
      LoopRecords(NextRound(s));
    } else if s.list.Some? && s.firingIndex < s.firingLength {
      hide *;
      CallRecords(s);
    }
  }

  lemma CallRecords(s: State)
    requires AtTest(s) && s.list.Some? && s.firingIndex < s.firingLength
    ensures var r := Loop(s);
            && r.options == s.options && r.fired && r.list == s.list && r.stack == s.stack
            && r.trace.additions == s.trace.additions && r.trace.dropped == s.trace.dropped
            && r.trace.accepted == s.trace.accepted
            && (forall c :: c in r.trace.calls ==> c in s.trace.calls || (s.list.Some? && c.id in Ids(s.list.value)))
            && s.trace.calls <= r.trace.calls
  {
    hide Progress, Queued, Minus, Increasing, Flat, Complete, ReplaysRepeat, Answered;
    assert Ids(s.list.value)[s.firingIndex] == s.list.value[s.firingIndex].id;
  }

  // ------------------------------------------------------------------ fires

  /** The data of the fires among `ops`, in order. */
  function Fired(ops: seq<Op>): seq<Data> {
    if ops == [] then []
    else
      var last := ops[|ops| - 1];
      Fired(ops[..|ops| - 1]) + if last.OpFire? then [last.data] else []
  }

  /** Those made before the list is locked or disabled. */
  function Taken(ops: seq<Op>): seq<Data> {
    if ops == [] then []
    else
      var front, last := ops[..|ops| - 1], ops[|ops| - 1];
      Taken(front) + if last.OpFire? && NeverLocks(front) then [last.data] else []
  }

  lemma TakenSnoc(ops: seq<Op>)
    requires ops != []
    ensures var front, last := ops[..|ops| - 1], ops[|ops| - 1];
            Taken(ops) == Taken(front) + if last.OpFire? && NeverLocks(front) then [last.data] else []
  {
  }

  lemma {:induction false} TakenUnlocked(ops: seq<Op>)
    requires NeverLocks(ops)
    ensures Taken(ops) == Fired(ops)
  {
    if ops != [] { TakenUnlocked(ops[..|ops| - 1]); }
  }

  /** The list is ready for the fires it still has to take. */
  predicate Open(s: State) {
    if s.options.once then 
      s.stack.None? && (s.list.None? || s.memory.Some? ==> s.fired) && (s.fired <==> s.trace.accepted != [])
    else s.list.Some? && s.stack.Some?
  }

  lemma AcceptedStep(s: State, op: Op)
    requires Inv(s) && Open(s) && !op.OpLock? && !op.OpDisable?
    requires !s.options.once ==> Whole(s) && Whole(Step(s, op))
    ensures Open(Step(s, op))
    ensures Step(s, op).trace.accepted ==
            s.trace.accepted + if op.OpFire? && (!s.options.once || s.trace.accepted == []) then [op.data] else []
  {
    hide Inv, Step, Keep, Push, Loop;
    StepIsPrepared(s, op);
    FiringHasFired(s);
    if Runs(s, op) { LoopRecords(Prepared(s, op)); }
  }

  lemma FiringHasFired(s: State)
    requires Inv(s)
    ensures s.firing ==> s.fired
    ensures s.list.None? ==> s.stack.None? && s.memory.None?
  {
    hide Increasing, Minus, Complete, ReplaysRepeat, Flat, Answered, Progress;
  }

  // ------------------------------------------------------------------ memory

  /** A list with memory remembers from its first fire on, and only such a list replays. */
  predicate Remembers(s: State) {
    && (s.memory.Some? ==> s.options.memory && s.fired)
    && (s.list.Some? && s.options.memory && s.fired ==> s.memory.Some?)
    && forall r :: r in AllRounds(s) && r.replay ==> s.options.memory
  }

  lemma {:induction false} LoopRemembers(s: State)
    requires AtTest(s) && Remembers(s)
    ensures Remembers(Loop(s))
    decreases if s.stack.Some? then |s.stack.value| else 0
  {
    hide Progress, Queued, Minus, Increasing, Flat, Complete, ReplaysRepeat, Answered;
    LoopFires(s);
    if GoesOn(s) {
      NextAtTest(s);
      hide Loop;
      LoopRemembers(NextRound(s));
    }
  }

  lemma LoopFires(s: State)
    requires AtTest(s)
    ensures s.fired
  {
    hide Progress, Queued, Minus, Increasing, Flat, Complete, ReplaysRepeat, Answered;
  }

  lemma RemembersStep(s: State, op: Op)
    requires Inv(s) && Remembers(s)
    ensures Remembers(Step(s, op))
  {
    hide Inv, Step, Keep, Push, Loop, AtTest;
    InvIsShaped(s);
    StepIsPrepared(s, op);
    FiringHasFired(s);
    if Runs(s, op) { LoopRemembers(Prepared(s, op)); }
  }

  /** In every run. */
  lemma {:induction false} RemembersReachable(options: Options, ops: seq<Op>)
    ensures Remembers(Run(options, ops))
  {
    if ops != [] {
      RemembersReachable(options, ops[..|ops| - 1]);
      RemembersStep(Run(options, ops[..|ops| - 1]), ops[|ops| - 1]);
    }
  }

  // ------------------------------------------------------------------ no addition is lost

  predicate Called(s: State, i: nat) {
    i in CalledIds(s.trace.calls)
  }

  /** Each addition was called, or was removed before that, or is on the list. */
  predicate Covered(s: State) {
    s.list.Some? ==> forall i: nat :: i < s.trace.additions ==> Called(s, i) || i in s.trace.dropped || i in Ids(s.list.value)
  }

  predicate CalledUpTo(s: State, n: nat) {
    s.list.Some? ==> n <= |s.list.value| && forall k :: 0 <= k < n ==> Called(s, s.list.value[k].id)
  }

  /** How far along the list everything has been called. */
  function Reached(s: State): nat
    requires Shaped(s)
  {
    if s.list.None? then 0
    else if s.firing then s.firingIndex + 1
    else if s.memory.Some? then |s.list.value|
    else 0
  }

  predicate Accounted(s: State) {
    Shaped(s) && Covered(s) && CalledUpTo(s, Reached(s))
  }

  lemma StillCalled(s: State, r: State)
    requires s.trace.calls <= r.trace.calls
    ensures forall i: nat :: Called(s, i) ==> Called(r, i)
  {
    assert CalledIds(r.trace.calls)[..|s.trace.calls|] == CalledIds(s.trace.calls);
  }

  lemma CallAccounts(s: State)
    requires s.list.Some? && s.firing && 0 <= s.firingIndex < s.firingLength == |s.list.value|
    requires Covered(s) && CalledUpTo(s, s.firingIndex)
    ensures Accounted(CallNext(s))
  {
    var r := CallNext(s);
    StillCalled(s, r);
    assert CalledIds(r.trace.calls)[|s.trace.calls|] == s.list.value[s.firingIndex].id;
    assert Called(r, s.list.value[s.firingIndex].id);
    hide Called, Ids;
  }

  lemma RestAccounts(s: State)
    requires s.firing && !GoesOn(s) && (s.list.Some? ==> s.firingIndex == s.firingLength == |s.list.value|)
    requires Covered(s) && (s.list.Some? ==> CalledUpTo(s, s.firingIndex))
    ensures Accounted(Loop(s))
  {
    hide Called;
    assert Loop(s) == EndRound(s);
    if s.list.Some? {
      var ids := Ids(s.list.value);
      StillCalled(s, Archive(s));
      StillCalled(s, Loop(s));
      assert CalledUpTo(Archive(s), |s.list.value|);
      assert forall i :: i in ids ==> exists k :: 0 <= k < |ids| && s.list.value[k].id == i;
    }
  }

  lemma {:induction false} LoopAccounts(s: State)
    requires AtTest(s) && Covered(s) && (s.list.Some? ==> CalledUpTo(s, s.firingIndex))
    ensures Accounted(Loop(s))
    decreases if s.stack.Some? then |s.stack.value| else 0
  {
    hide Progress, Queued, History, Called;
    if GoesOn(s) {
      NextAtTest(s);
      StillCalled(s, NextRound(s));
      LoopAccounts(NextRound(s));
    } else if s.list.Some? && s.firingIndex < s.firingLength {
      CallAccounts(s);
    } else {
      RestAccounts(s);
    }
  }

  lemma ExtendAccounts(s: State, fs: seq<Fn>)
    requires Inv(s) && s.list.Some? && Accounted(s)
    ensures var x := Extend(s, fs);
            Covered(x) && CalledUpTo(x, Reached(s)) && (!s.firing && s.memory.Some? ==> Reached(s) == |s.list.value|)
  {
    hide Inv, Called;
    var x, n, start := Extend(s, fs), s.trace.additions, |s.list.value|;
    var list := x.list.value;
    StillCalled(s, x);
    forall k | 0 <= k < start ensures list[k] == s.list.value[k] { assert list[..start][k] == s.list.value[k]; }
    forall i: nat | i < x.trace.additions && !Called(x, i) && i !in x.trace.dropped ensures i in Ids(list) {
      if i < n {
        assert i in Ids(s.list.value);
        var k :| 0 <= k < start && Ids(s.list.value)[k] == i;
        assert Ids(list)[k] == i;
      } else {
        assert Ids(list)[start + (i - n)] == i;
      }
    }
  }

  lemma RemoveAccounts(s: State, f: Fn)
    requires Inv(s) && Accounted(s)
    ensures Accounted(Remove(s, f))
  {
    hide Inv, Called, Keep;
    StillCalled(s, Remove(s, f));
    if s.list.Some? {
      var es, r := s.list.value, Remove(s, f);
      KeptExactly(es, f);
      forall i: nat | i < r.trace.additions && !Called(r, i) && i !in r.trace.dropped ensures i in Ids(r.list.value) {
        NotCalled(s, i);
        assert i in Ids(es);
        var k :| 0 <= k < |es| && Ids(es)[k] == i;
        assert es[k] in es;
        assert es[k].fn == f ==> i in IdsOf(es, f);
        assert es[k] in Keep(es, f);
        var j :| 0 <= j < |Keep(es, f)| && Keep(es, f)[j] == es[k];
        assert Ids(Keep(es, f))[j] == i;
      }
      RemoveReaches(s, f);
    }
  }

  lemma NotCalled(s: State, i: nat)
    ensures Called(s, i) <==> i in CalledIds(s.trace.calls)
  {
  }

  lemma {:induction false} KeptExactly(es: seq<Entry>, f: Fn)
    ensures forall e :: e in Keep(es, f) <==> e in es && e.fn != f
  {
    if es != [] { KeptExactly(es[..|es| - 1], f); }
  }

  lemma RemoveReaches(s: State, f: Fn)
    requires Accounted(s) && s.list.Some?
    ensures var r := Remove(s, f); Shaped(r) && CalledUpTo(r, Reached(r))
  {
    hide Called, Keep, Covered;
    var es, r := s.list.value, Remove(s, f);
    StillCalled(s, r);
    if s.firing {
      var from := s.firingIndex + 1;
      assert es == es[..from] + es[from..];
      KeepAppend(es[..from], es[from..], f);
      KeptWereThere(es[..from], f);
      forall k | 0 <= k < Reached(r) ensures Called(r, r.list.value[k].id) {
        assert r.list.value[k] == Keep(es[..from], f)[k] && Keep(es[..from], f)[k] in es[..from];
      }
    } else {
      KeptWereThere(es, f);
      forall k | 0 <= k < Reached(r) ensures Called(r, r.list.value[k].id) {
        assert r.list.value[k] in Keep(es, f);
      }
    }
  }

  lemma PreparedAccounts(s: State, op: Op)
    requires Inv(s) && Remembers(s) && Accounted(s)
    ensures var x := Prepared(s, op);
            Covered(x) && (Runs(s, op) && x.list.Some? ==> x.firingIndex >= 0 && CalledUpTo(x, x.firingIndex))
            && (!Runs(s, op) ==> Accounted(x))
  {
    hide Inv, Called, Push, Ids, Keep, IdsOf, CalledIds;
    FiringHasFired(s);
    match op {
      case OpAdd(fs) =>
        if s.list.Some? {
          ExtendAccounts(s, fs);
          StillCalled(Extend(s, fs), Prepared(s, op));
        }
      case OpRemove(f) => RemoveAccounts(s, f);
      case _ => StillCalled(s, Prepared(s, op));
    }
  }

  lemma AccountsStep(s: State, op: Op)
    requires Inv(s) && Remembers(s) && Accounted(s)
    ensures Accounted(Step(s, op))
  {
    PreparedAccounts(s, op);
    StepIsPrepared(s, op);
    hide *;
    hide Inv, Remembers, Covered, CalledUpTo, AtTest, Step, Loop, Prepared;
    if Runs(s, op) { LoopAccounts(Prepared(s, op)); }
  }

  /** In every run, while the list is not disabled, each addition has been called or removed or
      is on the list; a list with memory that is at rest after a fire has called all it holds. */
  lemma {:induction false} NoAdditionIsLost(options: Options, ops: seq<Op>)
    ensures Accounted(Run(options, ops))
    ensures var s := Run(options, ops);
            options.memory && s.fired && !s.firing && s.list.Some? ==>
              forall i: nat :: i < s.trace.additions ==> Called(s, i) || i in s.trace.dropped
  {
    RemembersReachable(options, ops);
    if ops != [] {
      RemembersReachable(options, ops[..|ops| - 1]);
      NoAdditionIsLost(options, ops[..|ops| - 1]);
      AccountsStep(Run(options, ops[..|ops| - 1]), ops[|ops| - 1]);
    }
    hide Called;
    var s := Run(options, ops);
    if options.memory && s.fired && !s.firing && s.list.Some? {
      var ids := Ids(s.list.value);
      assert forall i :: i in ids ==> exists k :: 0 <= k < |ids| && s.list.value[k].id == i;
    }
  }

  // ------------------------------------------------------------------ which functions are added

  function Functions(es: seq<Entry>): (r: seq<Fn>)
    ensures |r| == |es| && forall k :: 0 <= k < |es| ==> r[k] == es[k].fn
  {
    seq(|es|, k requires 0 <= k < |es| => es[k].fn)
  }

  /** The functions of `fs` that are not `present`, each at its first occurrence. */
  function Novel(present: seq<Fn>, fs: seq<Fn>): seq<Fn> {
    if fs == [] then []
    else
      var n := |fs| - 1;
      Novel(present, fs[..n]) + if fs[n] in present || fs[n] in fs[..n] then [] else [fs[n]]
  }

  lemma {:induction false} NovelMeaning(present: seq<Fn>, fs: seq<Fn>)
    ensures var r := Novel(present, fs);
            && Distinct(r)
            && (forall f :: f in r <==> f in fs && f !in present)
            && forall i, j :: 0 <= i < j < |r| ==> SeenBefore(fs, r[i], r[j])
  {
    hide SeenBefore;
    if fs != [] {
      var n := |fs| - 1;
      NovelMeaning(present, fs[..n]);
      var front, r := Novel(present, fs[..n]), Novel(present, fs);
      Unsnoc(fs);
      forall i, j | 0 <= i < j < |r| ensures SeenBefore(fs, r[i], r[j]) {
        if j < |front| {
          SeenInFront(fs, front[i], front[j]);
        } else {
          assert r[i] == front[i] && front[i] in fs[..n];
          NewIsLast(fs, r[i]);
        }
      }
    }
  }

  lemma Unsnoc(fs: seq<Fn>)
    requires fs != []
    ensures forall f :: f in fs <==> f in fs[..|fs| - 1] || f == fs[|fs| - 1]
  {
    assert fs == fs[..|fs| - 1] + [fs[|fs| - 1]];
  }

  /** `g` has not been seen in `fs` yet when `f` is. */
  ghost predicate SeenBefore(fs: seq<Fn>, f: Fn, g: Fn) {
    exists p :: 0 <= p < |fs| && fs[p] == f && g !in fs[..p + 1]
  }

  lemma SeenInFront(fs: seq<Fn>, f: Fn, g: Fn)
    requires fs != [] && SeenBefore(fs[..|fs| - 1], f, g)
    ensures SeenBefore(fs, f, g)
  {
    var front := fs[..|fs| - 1];
    var p :| 0 <= p < |front| && front[p] == f && g !in front[..p + 1];
    assert front[..p + 1] == fs[..p + 1] && fs[p] == f;
  }

  lemma NewIsLast(fs: seq<Fn>, f: Fn)
    requires fs != [] && f in fs[..|fs| - 1] && fs[|fs| - 1] !in fs[..|fs| - 1]
    ensures SeenBefore(fs, f, fs[|fs| - 1])
  {
    var front := fs[..|fs| - 1];
    var p :| 0 <= p < |front| && front[p] == f;
    assert fs[..p + 1] == front[..p + 1] && fs[p] == f;
    assert forall g :: g in front[..p + 1] ==> g in front;
  }

  lemma HasMeaning(es: seq<Entry>, f: Fn)
    ensures Has(es, f) <==> f in Functions(es)
  {
    if Has(es, f) {
      var k :| 0 <= k < |es| && es[k].fn == f;
      assert Functions(es)[k] == f;
    }
  }

  lemma {:induction false} PushSnoc(es: seq<Entry>, fs: seq<Fn>, f: Fn, unique: bool, id: nat)
    ensures var p := Push(es, fs, unique, id);
            Push(es, fs + [f], unique, id) ==
            if unique && Has(p, f) then p else p + [Entry(f, id + |p| - |es|)]
    decreases |fs|
  {
    hide Push, Has;
    if fs == [] {
      assert [f] + [] == [f] == fs + [f];
      PushFirst(es, f, [], unique, id);
      PushNothing(es, unique, id);
      PushNothing(es + [Entry(f, id)], unique, id + 1);
    } else {
      var g, rest := fs[0], fs[1..];
      assert fs == [g] + rest && fs + [f] == [g] + (rest + [f]);
      PushFirst(es, g, rest, unique, id);
      PushFirst(es, g, rest + [f], unique, id);
      if unique && Has(es, g) {
        PushSnoc(es, rest, f, unique, id);
      } else {
        PushSnoc(es + [Entry(g, id)], rest, f, unique, id + 1);
      }
    }
  }

  lemma PushNothing(es: seq<Entry>, unique: bool, id: nat)
    ensures Push(es, [], unique, id) == es
  {
  }

  lemma PushFirst(es: seq<Entry>, g: Fn, rest: seq<Fn>, unique: bool, id: nat)
    ensures Push(es, [g] + rest, unique, id) ==
            if unique && Has(es, g) then Push(es, rest, unique, id) else Push(es + [Entry(g, id)], rest, unique, id + 1)
  {
    assert ([g] + rest)[1..] == rest;
  }

  /** Adding appends the functions, or for a "unique" list those it does not have yet. */
  lemma {:induction false} PushMeaning(es: seq<Entry>, fs: seq<Fn>, unique: bool, id: nat)
    ensures Functions(Push(es, fs, unique, id)) ==
            Functions(es) + if unique then Novel(Functions(es), fs) else fs
  {
    if fs != [] {
      var n := |fs| - 1;
      PushMeaning(es, fs[..n], unique, id);
      PushLast(es, fs, unique, id);
      NovelSnoc(Functions(es), fs);
      hide *;
    }
  }

  lemma PushLast(es: seq<Entry>, fs: seq<Fn>, unique: bool, id: nat)
    requires fs != []
    ensures var n := |fs| - 1;
            var before := Functions(Push(es, fs[..n], unique, id));
            Functions(Push(es, fs, unique, id)) == if unique && fs[n] in before then before else before + [fs[n]]
  {
    hide Push, Has, Functions;
    var n := |fs| - 1;
    var p, f := Push(es, fs[..n], unique, id), fs[n];
    assert fs == fs[..n] + [f];
    PushSnoc(es, fs[..n], f, unique, id);
    HasMeaning(p, f);
    AppendFunction(p, Entry(f, id + |p| - |es|));
  }

  lemma AppendFunction(es: seq<Entry>, e: Entry)
    ensures Functions(es + [e]) == Functions(es) + [e.fn]
  {
  }

  lemma NovelSnoc(present: seq<Fn>, fs: seq<Fn>)
    requires fs != []
    ensures var n := |fs| - 1;
            var f, front := fs[n], Novel(present, fs[..n]);
            && present + fs == (present + fs[..n]) + [f]
            && present + Novel(present, fs) ==
               if f in present + front then present + front else present + front + [f]
  {
    NovelMeaning(present, fs[..|fs| - 1]);
  }

  /** The functions of all additions, in the order of their numbers. */
  ghost function Added(options: Options, ops: seq<Op>): seq<Fn> {
    if ops == [] then []
    else
      var front, op := ops[..|ops| - 1], ops[|ops| - 1];
      Added(options, front) + AddedBy(Run(options, front), op)
  }

  /** The entries carry the functions they were added with. */
  ghost predicate Named(s: State, fns: seq<Fn>) {
    && |fns| == s.trace.additions
    && (s.list.Some? ==> forall k :: 0 <= k < |s.list.value| ==> Carries(s.list.value[k], fns))
    && (s.list.Some? && s.options.unique ==> Distinct(Functions(s.list.value)))
  }

  predicate Carries(e: Entry, fns: seq<Fn>) {
    e.id < |fns| && fns[e.id] == e.fn
  }

  lemma AppendCarries(fns: seq<Fn>, more: seq<Fn>)
    ensures forall e :: Carries(e, fns) ==> Carries(e, fns + more)
  {
  }

  lemma ExtendNames(s: State, fs: seq<Fn>, fns: seq<Fn>)
    requires s.list.Some? && Named(s, fns)
    ensures Named(Extend(s, fs), fns + if s.options.unique then Novel(Functions(s.list.value), fs) else fs)
  {
    var es, list := s.list.value, Extend(s, fs).list.value;
    var more := if s.options.unique then Novel(Functions(es), fs) else fs;
    PushMeaning(es, fs, s.options.unique, s.trace.additions);
    NovelMeaning(Functions(es), fs);
    assert list[..|es|] == es;
    hide Push, Novel;
    AppendedCarry(es, list, fns, more);
    if s.options.unique { DistinctAppend(Functions(es), more); }
  }

  lemma AppendedCarry(es: seq<Entry>, list: seq<Entry>, fns: seq<Fn>, more: seq<Fn>)
    requires |es| <= |list| && list[..|es|] == es && Functions(list) == Functions(es) + more
    requires forall k :: 0 <= k < |es| ==> Carries(es[k], fns)
    requires forall k :: |es| <= k < |list| ==> list[k].id == |fns| + k - |es|
    ensures |list| == |es| + |more|
    ensures forall k :: 0 <= k < |list| ==> Carries(list[k], fns + more)
  {
    assert |Functions(list)| == |es| + |more|;
    forall k | 0 <= k < |list| ensures Carries(list[k], fns + more) {
      if k < |es| {
        assert list[..|es|][k] == es[k];
        AppendCarries(fns, more);
      } else {
        assert Functions(list)[k] == more[k - |es|];
      }
    }
  }

  lemma DistinctAppend(a: seq<Fn>, b: seq<Fn>)
    requires Distinct(a) && Distinct(b) && forall x :: x in b ==> x !in a
    ensures Distinct(a + b)
  {
    forall i, j | 0 <= i < j < |a + b| ensures (a + b)[i] != (a + b)[j] {
      assert j >= |a| ==> (a + b)[j] in b;
    }
  }

  lemma RemoveNames(s: State, f: Fn, fns: seq<Fn>)
    requires Shaped(s) && Named(s, fns)
    ensures Named(Remove(s, f), fns)
  {
    if s.list.Some? {
      hide Carries;
      var es := s.list.value;
      KeptExactly(es, f);
      forall k | 0 <= k < |Keep(es, f)| ensures Carries(Keep(es, f)[k], fns) {
        assert Keep(es, f)[k] in es;
      }
      if s.options.unique { KeepDistinct(es, f); }
    }
  }

  /** Removing keeps the other functions as they stand. */
  lemma {:induction false} KeepIsFilter(es: seq<Entry>, f: Fn)
    ensures Keep(es, f) == Filter(es, (e: Entry) => e.fn != f)
  {
    if es != [] { KeepIsFilter(es[..|es| - 1], f); }
  }

  lemma {:induction false} KeepDistinct(es: seq<Entry>, f: Fn)
    requires Distinct(Functions(es))
    ensures Distinct(Functions(Keep(es, f)))
  {
    if es != [] {
      var front := es[..|es| - 1];
      assert Functions(front) == Functions(es)[..|es| - 1];
      KeepDistinct(front, f);
      KeptExactly(front, f);
      var kept := Keep(front, f);
      forall k | 0 <= k < |kept| ensures kept[k].fn != es[|es| - 1].fn {
        assert kept[k] in front;
        var j :| 0 <= j < |front| && front[j] == kept[k];
        assert Functions(es)[j] == kept[k].fn;
      }
    }
  }

  /** The functions a step adds. */
  function AddedBy(s: State, op: Op): seq<Fn> {
    if !op.OpAdd? || s.list.None? then []
    else if s.options.unique then Novel(Functions(s.list.value), op.fs)
    else op.fs
  }

  lemma PreparedNames(s: State, op: Op, fns: seq<Fn>)
    requires Shaped(s) && Named(s, fns)
    ensures Named(Prepared(s, op), fns + AddedBy(s, op))
  {
    hide Keep, Push, Carries, Novel, Functions, Ids, IdsOf, CalledIds, Distinct;
    assert fns + [] == fns;
    match op {
      case OpAdd(fs) => if s.list.Some? { ExtendNames(s, fs, fns); }
      case OpRemove(f) => RemoveNames(s, f, fns);
      case _ =>
    }
  }

  lemma NamedStep(s: State, op: Op, fns: seq<Fn>)
    requires Inv(s) && Named(s, fns)
    ensures Named(Step(s, op), fns + AddedBy(s, op))
  {
    hide Inv, Step, Loop, AtTest, Prepared, AddedBy, Carries, Functions;
    InvIsShaped(s);
    StepIsPrepared(s, op);
    PreparedNames(s, op, fns);
    if Runs(s, op) {
      LoopRecords(Prepared(s, op));
      NothingNamed();
    }
  }

  lemma NothingNamed()
    ensures Functions([]) == []
  {
  }

  lemma InvIsShaped(s: State)
    requires Inv(s)
    ensures Shaped(s)
  {
    hide History, Queued, Progress;
  }

  /** In every run the additions are numbered as they were made. */
  lemma {:induction false} AdditionsAreNamed(options: Options, ops: seq<Op>)
    ensures Named(Run(options, ops), Added(options, ops))
  {
    if ops != [] {
      AdditionsAreNamed(options, ops[..|ops| - 1]);
      NamedStep(Run(options, ops[..|ops| - 1]), ops[|ops| - 1], Added(options, ops[..|ops| - 1]));
    }
  }

  function Offered(ops: seq<Op>): seq<Fn> {
    if ops == [] then []
    else
      var last := ops[|ops| - 1];
      Offered(ops[..|ops| - 1]) + if last.OpAdd? then last.fs else []
  }

  /** Without the unique option and without locking, a list that may fire again takes every
      function it is offered, in order. */
  lemma {:induction false} EveryFunctionIsAdded(options: Options, ops: seq<Op>)
    requires !options.unique && NeverLocks(ops) && (options.once ==> options.memory)
    ensures Added(options, ops) == Offered(ops)
  {
    if ops != [] {
      var front := ops[..|ops| - 1];
      EveryFunctionIsAdded(options, front);
      if options.once { OnceReachable(options, front); } else { FiresBecomeRounds(options, front); }
    }
  }

  // ------------------------------------------------------------------ which additions are removed

  /** The k-th step removes addition `i`, which has not been called yet. */
  ghost predicate Removes(options: Options, ops: seq<Op>, i: nat, k: nat) {
    && k < |ops| && ops[k].OpRemove?
    && var s, fns := Run(options, ops[..k]), Added(options, ops[..k]);
       s.list.Some? && i < |fns| && fns[i] == ops[k].f && !Called(s, i)
  }

  lemma DroppedStep(s: State, op: Op, fns: seq<Fn>, i: nat)
    requires Inv(s) && Named(s, fns) && Covered(s)
    ensures i in Step(s, op).trace.dropped <==>
            i in s.trace.dropped ||
            (op.OpRemove? && s.list.Some? && i < |fns| && fns[i] == op.f && !Called(s, i))
  {
    StepIsPrepared(s, op);
    if op.OpRemove? && s.list.Some? {
      RemoveDrops(s, op.f, fns, i);
    } else {
      hide Inv, Step, Keep, Push, Loop, AtTest, Carries, Functions, Covered, Named;
      if Runs(s, op) { LoopRecords(Prepared(s, op)); }
    }
  }

  lemma RemoveDrops(s: State, f: Fn, fns: seq<Fn>, i: nat)
    requires Shaped(s) && s.list.Some? && Named(s, fns) && Covered(s)
    ensures i in Remove(s, f).trace.dropped <==>
            i in s.trace.dropped || (i < |fns| && fns[i] == f && !Called(s, i))
  {
    hide Called;
    NotCalled(s, i);
    var es := s.list.value;
    if i < |fns| && fns[i] == f && !Called(s, i) && i !in s.trace.dropped {
      assert i in Ids(es);
      var k :| 0 <= k < |es| && Ids(es)[k] == i;
      assert Carries(es[k], fns);
    }
    if i in IdsOf(es, f) {
      var k :| 0 <= k < |es| && es[k].fn == f && es[k].id == i;
      assert Carries(es[k], fns);
    }
  }

  lemma RemovesFront(options: Options, ops: seq<Op>, i: nat, k: nat)
    requires k + 1 < |ops|
    ensures Removes(options, ops, i, k) <==> Removes(options, ops[..|ops| - 1], i, k)
  {
    assert ops[..|ops| - 1][..k] == ops[..k];
    hide Run, Added, Called;
  }

  /** In every run the additions removed before they were called are those that a `remove` of
      their function met on the list. */
  lemma {:induction false} DroppedExactly(options: Options, ops: seq<Op>, i: nat)
    ensures i in Run(options, ops).trace.dropped <==> exists k: nat :: Removes(options, ops, i, k)
  {
    hide Named, Covered, CalledUpTo, Called, Inv, Step, Run, Added;
    if ops == [] {
      NothingDroppedYet(options);
    } else {
      var n := |ops| - 1;
      var front := ops[..n];
      DroppedExactly(options, front, i);
      AdditionsAreNamed(options, front);
      NoAdditionIsLost(options, front);
      RunSnoc(options, ops);
      DroppedStep(Run(options, front), ops[n], Added(options, front), i);
      forall k: nat | k < n ensures Removes(options, ops, i, k) <==> Removes(options, front, i, k) {
        RemovesFront(options, ops, i, k);
      }
      assert Removes(options, ops, i, n) <==>
             ops[n].OpRemove? && Run(options, front).list.Some? && i < |Added(options, front)| &&
             Added(options, front)[i] == ops[n].f && !Called(Run(options, front), i);
      assert forall k: nat :: Removes(options, ops, i, k) ==> k <= n;
      assert forall k: nat :: Removes(options, front, i, k) ==> k < n;
    }
  }

  lemma NothingDroppedYet(options: Options)
    ensures Run(options, []).trace.dropped == {}
  {
  }

  // ------------------------------------------------------------------ who is called in a round

  /** `r` is the round `b`, further on. */
  predicate SameStart(r: Round, b: Round) {
    r.data == b.data && r.replay == b.replay && r.eligible == b.eligible && r.dropped == b.dropped
  }

  /** The loop goes on with the present round and leaves the earlier ones as they are. */
  predicate Continues(s: State, r: State) {
    var n, all := |s.trace.rounds|, AllRounds(r);
    n < |all| && all[..n] == s.trace.rounds && SameStart(all[n], s.trace.current)
  }

  lemma {:induction false} LoopContinues(s: State)
    requires AtTest(s)
    ensures Continues(s, Loop(s))
    ensures GoesOn(s) ==> Continues(NextRound(s), Loop(s))
    decreases if s.stack.Some? then |s.stack.value| else 0
  {
    hide Progress, Queued, History;
    if GoesOn(s) {
      NextAtTest(s);
      LoopContinues(NextRound(s));
      NextRounds(s, Loop(s));
    }
  }

  lemma NextRounds(s: State, r: State)
    requires GoesOn(s) && Continues(NextRound(s), r)
    ensures Continues(s, r)
  {
    var n, all, rounds := |s.trace.rounds|, AllRounds(r), NextRound(s).trace.rounds;
    assert all[..n + 1] == rounds && rounds[..n] == s.trace.rounds;
    assert all[..n] == all[..n + 1][..n] && all[n] == all[..n + 1][n];
  }

  /** Everything on the list is eligible in a round that answers a fire; in a replay it is what
      has just been added. */
  lemma RoundsStart(s: State, op: Op)
    requires Inv(s)
    ensures var n, r := |s.trace.rounds|, Step(s, op);
            var rounds := AllRounds(r);
            && n <= |rounds| && rounds[..n] == s.trace.rounds
            && (op.OpFire? && Runs(s, op) ==>
                  n < |rounds| && SameStart(rounds[n], Round(op.data, false, Ids(s.list.value), [], {}, false)))
            && (op.OpAdd? && Runs(s, op) ==>
                  && n < |rounds| && s.trace.additions <= r.trace.additions
                  && SameStart(rounds[n], Round(s.memory.value, true, Upto(r.trace.additions)[s.trace.additions..], [], {}, false)))
            && (op.OpAdd? && s.firing && s.list.Some? ==>
                  && rounds == s.trace.rounds + [r.trace.current] && s.trace.additions <= r.trace.additions
                  && r.trace.current.eligible == s.trace.current.eligible + Upto(r.trace.additions)[s.trace.additions..])
  {
    StepIsPrepared(s, op);
    var x := Prepared(s, op);
    assert AllRounds(x)[..|s.trace.rounds|] == s.trace.rounds;
    if op.OpAdd? && s.list.Some? { NewNumbers(s, op.fs); }
    if op.OpFire? && s.list.Some? { assert s.list.value[0..] == s.list.value; }
    hide Inv, Step, Keep, Push, Loop, AtTest;
    if Runs(s, op) {
      LoopContinues(x);
      hide AtTest;
      LoopRecords(x);
    }
  }

  lemma NewNumbers(s: State, fs: seq<Fn>)
    requires s.list.Some?
    ensures var x := Extend(s, fs);
            && s.trace.additions <= x.trace.additions
            && Ids(x.list.value[|s.list.value|..]) == Upto(x.trace.additions)[s.trace.additions..]
  {
  }

  /** A fire that waited is answered when the round before it ends: then again everything on
      the list is eligible. */
  lemma NextAnswer(s: State)
    requires Inv(s) && s.firing && s.list.Some? && s.stack.Some? && s.stack.value != []
    requires s.firingIndex + 1 == s.firingLength
    ensures var n, rounds := |s.trace.rounds|, AllRounds(Step(s, OpReturn));
            && n + 1 < |rounds| && SameStart(rounds[n], s.trace.current)
            && SameStart(rounds[n + 1], Round(s.stack.value[0], false, Ids(s.list.value), [], {}, false))
  {
    ReturnAtTest(s);
    hide Inv, AtTest;
    var x := s.(firingIndex := s.firingIndex + 1);
    assert s.list.value[0..] == s.list.value;
    LoopContinues(x);
  }

  /** The state after `n` returns. */
  function Returned(s: State, n: nat): State
    requires Inv(s)
    decreases n
  {
    if n == 0 then s
    else
      StepKeeps(s, OpReturn);
      Returned(Step(s, OpReturn), n - 1)
  }

  function CallsWith(es: seq<Entry>, data: Data): seq<Call> {
    seq(|es|, k requires 0 <= k < |es| => Call(es[k].id, data))
  }

  /** A fire at rest that nothing else disturbs calls everything on the list, in order, with its
      data, and is over after as many returns. */
  lemma UndisturbedFire(s: State, data: Data)
    requires Inv(s) && s.list.Some? && !s.firing && (s.fired ==> s.stack.Some?)
    ensures Inv(Step(s, OpFire(data)))
    ensures var es := s.list.value;
            var r := Returned(Step(s, OpFire(data)), |es|);
            && !r.firing && r.trace.calls == s.trace.calls + CallsWith(es, data)
            && (s.stack.Some? ==> r.list == s.list)
  {
    StepKeeps(s, OpFire(data));
    FirstTurn(s, data);
    hide Inv, Step;
    if s.list.value != [] {
      TurnsOn(s, Step(s, OpFire(data)), data, 0);
    }
  }

  lemma FirstTurn(s: State, data: Data)
    requires Inv(s) && s.list.Some? && !s.firing && (s.fired ==> s.stack.Some?)
    ensures var x := Step(s, OpFire(data));
            if s.list.value == [] then Done(s, x, data) else Turning(s, x, data, 0)
  {
    hide Inv, AtTest, Step;
    var es, x := s.list.value, Prepared(s, OpFire(data));
    InvIsShaped(s);
    StepIsPrepared(s, OpFire(data));
    QueueAtRest(s);
    if es == [] {
      assert CallsWith(es, data) == [];
      assert Loop(x) == EndRound(x);
    } else {
      assert es[..1] == [es[0]] && CallsWith(es[..1], data) == [Call(es[0].id, data)];
      assert Loop(x) == CallNext(x);
    }
  }

  lemma QueueAtRest(s: State)
    requires Inv(s) && !s.firing
    ensures Queueless(s)
  {
    hide History, Queued, Progress;
  }

  predicate Queueless(s: State) {
    s.stack.Some? ==> s.stack.value == []
  }

  /** The round that `s` started with `data` is calling entry `k`. */
  predicate Turning(s: State, x: State, data: Data, k: nat)
    requires s.list.Some?
  {
    && x.firing && x.list == s.list && x.stack == s.stack && Queueless(s)
    && x.firingIndex == k < |s.list.value| == x.firingLength
    && x.trace.current.data == data
    && x.trace.calls == s.trace.calls + CallsWith(s.list.value[..k + 1], data)
  }

  lemma {:induction false} TurnsOn(s: State, x: State, data: Data, k: nat)
    requires s.list.Some? && Inv(x) && Turning(s, x, data, k)
    ensures Done(s, Returned(x, |s.list.value| - k), data)
    decreases |s.list.value| - k
  {
    hide Inv, Step, Turning, Done;
    TurningBelow(s, x, data, k);
    InvIsShaped(x);
    var es, y := s.list.value, Step(x, OpReturn);
    StepKeeps(x, OpReturn);
    Turn(s, x, data, k);
    if k + 1 < |es| {
      TurnsOn(s, y, data, k + 1);
    } else {
      assert Returned(y, 0) == y;
    }
    assert Returned(x, |es| - k) == Returned(y, |es| - k - 1);
  }

  lemma TurningBelow(s: State, x: State, data: Data, k: nat)
    requires s.list.Some? && Turning(s, x, data, k)
    ensures k < |s.list.value|
  {
  }

  /** The round is over, and has called everything on the list. */
  predicate Done(s: State, r: State, data: Data)
    requires s.list.Some?
  {
    && !r.firing && r.trace.calls == s.trace.calls + CallsWith(s.list.value, data)
    && (s.stack.Some? ==> r.list == s.list)
  }

  lemma Turn(s: State, x: State, data: Data, k: nat)
    requires s.list.Some? && Shaped(x) && Turning(s, x, data, k)
    ensures var y := Step(x, OpReturn);
            if k + 1 < |s.list.value| then Turning(s, y, data, k + 1) else Done(s, y, data)
  {
    var es, b := s.list.value, x.(firingIndex := x.firingIndex + 1);
    assert Step(x, OpReturn) == Loop(b);
    if k + 1 < |es| {
      assert CallsWith(es[..k + 2], data) == CallsWith(es[..k + 1], data) + [Call(es[k + 1].id, data)];
    } else {
      assert es[..k + 1] == es;
      assert Loop(b) == EndRound(b);
    }
  }

  // ------------------------------------------------------------------ locked and disabled lists

  lemma DisabledStep(s: State, op: Op)
    requires Inv(s) && s.list.None?
    ensures var r := Step(s, op);
            && r.list.None?
            && r.trace.calls == s.trace.calls && r.trace.accepted == s.trace.accepted
            && r.trace.additions == s.trace.additions
  {
    hide Inv;
    if op.OpReturn? && s.firing {
      var x := s.(firingIndex := s.firingIndex + 1);
      assert Step(s, op) == Loop(x) == EndRound(x) == Archive(x);
    }
  }

  lemma DisableRecords(s: State)
    requires Inv(s)
    ensures Step(s, OpDisable).list.None? && Step(s, OpDisable).trace == s.trace
  {
    hide Inv;
  }

  /** A disabled list stays disabled: nothing is called, accepted or added any more. */
  lemma {:induction false} DisabledForever(options: Options, before: seq<Op>, after: seq<Op>)
    ensures var s, r := Run(options, before), Run(options, before + [OpDisable] + after);
            && r.list.None?
            && r.trace.calls == s.trace.calls && r.trace.accepted == s.trace.accepted
            && r.trace.additions == s.trace.additions
  {
    var ops := before + [OpDisable] + after;
    hide Inv, Step;
    if after == [] {
      assert ops[..|ops| - 1] == before;
      DisableRecords(Run(options, before));
    } else {
      var n := |after| - 1;
      assert ops[..|ops| - 1] == before + [OpDisable] + after[..n];
      DisabledForever(options, before, after[..n]);
      DisabledStep(Run(options, before + [OpDisable] + after[..n]), after[n]);
    }
  }

  /** No further fire is taken. */
  predicate Locked(s: State) {
    s.stack.None? && (s.list.Some? ==> s.fired)
  }

  lemma LoopAnswers(s: State)
    requires AtTest(s) && s.stack.None?
    ensures Answered(AllRounds(Loop(s))) == Answered(s.trace.rounds + [s.trace.current])
  {
    var r := s.trace.current;
    FlatSnoc(s.trace.rounds, r);
    FlatSnoc(s.trace.rounds, r.(cut := s.list.None?));
    hide Answered, Progress, History, Queued;
    if s.list.Some? && s.firingIndex < s.firingLength {
      var e := s.list.value[s.firingIndex];
      FlatSnoc(s.trace.rounds, r.(called := r.called + [e.id]));
    } else {
      assert Loop(s) == EndRound(s) && !Loop(s).firing;
      assert AllRounds(Loop(s)) == s.trace.rounds + [r.(cut := s.list.None?)];
    }
  }

  lemma PreparedAnswers(s: State, op: Op)
    requires Shaped(s) && Locked(s) && (s.firing ==> s.fired)
    ensures Answered(AllRounds(Prepared(s, op))) == Answered(AllRounds(s))
  {
    hide Answered, Push, Keep, IdsOf, Pending, Flat, ReplaysRepeat, Ids, CalledIds, Extend, Callbacks.Remove;
    var x := Prepared(s, op);
    FlatSnoc(s.trace.rounds, s.trace.current);
    FlatSnoc(s.trace.rounds, x.trace.current);
    SameRounds(s, op);
    assert s.trace.rounds + [] == s.trace.rounds;
  }

  lemma SameRounds(s: State, op: Op)
    requires Shaped(s) && Locked(s) && (s.firing ==> s.fired)
    ensures var x := Prepared(s, op);
            && x.trace.rounds == s.trace.rounds
            && x.firing == (s.firing || (Runs(s, op) && op.OpAdd?))
            && (s.firing ==> x.trace.current.replay == s.trace.current.replay && x.trace.current.data == s.trace.current.data)
            && (!s.firing && x.firing ==> x.trace.current.replay)
  {
    hide Push, Keep, IdsOf, Pending, Ids, CalledIds;
  }

  lemma AtTestFires(s: State)
    requires AtTest(s)
    ensures AllRounds(s) == s.trace.rounds + [s.trace.current]
  {
    hide Progress, History, Queued;
  }

  lemma LockedStep(s: State, op: Op)
    requires Inv(s) && Locked(s)
    ensures var r := Step(s, op);
            && Locked(r) && r.trace.accepted == s.trace.accepted
            && Answered(AllRounds(r)) == Answered(AllRounds(s))
  {
    StepIsPrepared(s, op);
    FiringHasFired(s);
    var x := Prepared(s, op);
    PreparedAnswers(s, op);
    if Runs(s, op) {
      LoopRecords(x);
      LoopAnswers(x);
      AtTestFires(x);
    }
    hide Inv, Step, Keep, Push, Loop, AtTest, Answered;
  }

  /** Once locked, a list takes no fire, and fires that were waiting are not answered. */
  lemma {:induction false} LockedForever(options: Options, before: seq<Op>, after: seq<Op>)
    ensures var s, r := Run(options, before), Run(options, before + [OpLock] + after);
            && Locked(r)
            && r.trace.accepted == s.trace.accepted
            && Answered(AllRounds(r)) == Answered(AllRounds(s))
  {
    var ops := before + [OpLock] + after;
    hide Inv, Step;
    if after == [] {
      assert ops[..|ops| - 1] == before;
      RemembersReachable(options, before);
      LockLocks(Run(options, before));
    } else {
      var n := |after| - 1;
      assert ops[..|ops| - 1] == before + [OpLock] + after[..n];
      LockedForever(options, before, after[..n]);
      LockedStep(Run(options, before + [OpLock] + after[..n]), after[n]);
    }
  }

  /** A list that remembers a fire keeps its functions and its memory when it is locked, so that
      added functions are still called; any other list is disabled. */
  lemma LockMeaning(options: Options, ops: seq<Op>)
    ensures var s, r := Run(options, ops), Run(options, ops + [OpLock]);
            if options.memory && s.fired then r.list == s.list && r.memory == s.memory && r.firing == s.firing
            else r.list.None?
  {
    assert (ops + [OpLock])[..|ops|] == ops;
    RemembersReachable(options, ops);
    FiringHasFired(Run(options, ops));
    hide Inv;
  }

  /** A "once" list without memory that is at rest after its fire is disabled. */
  predicate Spent(s: State) {
    s.options.once ==> s.stack.None? && (!s.options.memory && s.fired && !s.firing ==> s.list.None?)
  }

  lemma LoopSpends(s: State)
    requires AtTest(s) && s.stack.None? && s.memory.None?
    ensures !Loop(s).firing ==> Loop(s).list.None?
  {
    hide History, Queued, Progress;
    if !(s.list.Some? && s.firingIndex < s.firingLength) { assert Loop(s) == EndRound(s); }
  }

  lemma SpentStep(s: State, op: Op)
    requires Inv(s) && Remembers(s) && Spent(s)
    ensures Spent(Step(s, op))
  {
    StepIsPrepared(s, op);
    FiringHasFired(s);
    hide Inv, Step, Keep, Push, Loop, AtTest;
    if Runs(s, op) {
      LoopRecords(Prepared(s, op));
      if s.options.once && !s.options.memory { LoopSpends(Prepared(s, op)); }
    }
  }

  lemma {:induction false} OnceIsSpent(options: Options, ops: seq<Op>)
    requires options.once && !options.memory
    ensures var s := Run(options, ops); s.fired && !s.firing ==> s.list.None?
    ensures Spent(Run(options, ops))
  {
    if ops != [] {
      var front := ops[..|ops| - 1];
      OnceIsSpent(options, front);
      RemembersReachable(options, front);
      SpentStep(Run(options, front), ops[|ops| - 1]);
    }
  }

  lemma LockLocks(s: State)
    requires Inv(s) && Remembers(s)
    ensures var r := Step(s, OpLock);
            Locked(r) && r.trace == s.trace && AllRounds(r) == AllRounds(s)
  {
    hide Inv;
  }

  // ------------------------------------------------------------------ which fires are accepted

  lemma ClosingStep(s: State, op: Op)
    requires Inv(s) && Remembers(s) && (op.OpLock? || op.OpDisable?)
    ensures Locked(Step(s, op)) && Step(s, op).trace == s.trace
  {
    if op.OpLock? { LockLocks(s); } else { DisableRecords(s); }
    hide Inv;
  }

  lemma OpenStep(options: Options, ops: seq<Op>)
    requires ops != [] && NeverLocks(ops) && Open(Run(options, ops[..|ops| - 1]))
    ensures var s, op := Run(options, ops[..|ops| - 1]), ops[|ops| - 1];
            && Open(Run(options, ops))
            && Run(options, ops).trace.accepted ==
               s.trace.accepted + if op.OpFire? && (!options.once || s.trace.accepted == []) then [op.data] else []
  {
    hide *;
    var front, op := ops[..|ops| - 1], ops[|ops| - 1];
    NeverLocksFront(ops);
    RunSnoc(options, ops);
    if !options.once {
      WholeReachable(options, front);
      WholeReachable(options, ops);
    }
    AcceptedStep(Run(options, front), op);
  }

  lemma NeverLocksFront(ops: seq<Op>)
    requires ops != []
    ensures NeverLocks(ops) <==> NeverLocks(ops[..|ops| - 1]) && !ops[|ops| - 1].OpLock? && !ops[|ops| - 1].OpDisable?
  {
  }

  lemma RunSnoc(options: Options, ops: seq<Op>)
    requires ops != []
    ensures var s := Run(options, ops[..|ops| - 1]);
            Inv(s) && Shaped(s) && Run(options, ops) == Step(s, ops[|ops| - 1])
  {
    hide Step, History, Queued, Progress;
  }

  lemma WholeReachable(options: Options, ops: seq<Op>)
    requires !options.once && NeverLocks(ops)
    ensures Whole(Run(options, ops))
  {
    FiresBecomeRounds(options, ops);
    hide *;
  }

  lemma ClosedStep(options: Options, ops: seq<Op>)
    requires ops != [] && !NeverLocks(ops)
    requires !NeverLocks(ops[..|ops| - 1]) ==> Locked(Run(options, ops[..|ops| - 1]))
    ensures Locked(Run(options, ops))
    ensures Run(options, ops).trace.accepted == Run(options, ops[..|ops| - 1]).trace.accepted
  {
    hide Inv, Step, Locked;
    var front, op := ops[..|ops| - 1], ops[|ops| - 1];
    if NeverLocks(front) {
      RemembersReachable(options, front);
      ClosingStep(Run(options, front), op);
    } else {
      LockedStep(Run(options, front), op);
    }
  }

  /** A list takes every fire, in order, until it is locked or disabled; a "once" list takes the
      first one. */
  lemma {:induction false} FiresAreAccepted(options: Options, ops: seq<Op>)
    ensures if NeverLocks(ops) then Open(Run(options, ops)) else Locked(Run(options, ops))
    ensures var data := Taken(ops);
            Run(options, ops).trace.accepted == if options.once && data != [] then data[..1] else data
  {
    if ops != [] {
      FiresAreAccepted(options, ops[..|ops| - 1]);
      TakenSnoc(ops);
      NeverLocksFront(ops);
      hide *;
      if NeverLocks(ops) { OpenStep(options, ops); } else { ClosedStep(options, ops); }
    }
  }

  // ------------------------------------------------------------------ what was removed stays away

  /** What was removed is neither on the list nor among the called. */
  predicate Gone(s: State) {
    && (forall c :: c in s.trace.calls ==> c.id !in s.trace.dropped)
    && (s.list.Some? ==> Without(s.list.value, s.trace.dropped))
  }

  predicate Without(es: seq<Entry>, dropped: set<nat>) {
    forall e :: e in es ==> e.id !in dropped
  }

  lemma ExtendGone(s: State, fs: seq<Fn>)
    requires Inv(s) && s.list.Some? && Gone(s)
    ensures Gone(Extend(s, fs))
  {
    DroppedAreOld(s);
    hide Inv, Push;
    var es, list := s.list.value, Extend(s, fs).list.value;
    forall e | e in list ensures e.id !in s.trace.dropped {
      var k :| 0 <= k < |list| && list[k] == e;
      assert k < |es| ==> list[..|es|][k] == e && e in es;
    }
  }

  lemma DroppedAreOld(s: State)
    requires Inv(s)
    ensures forall i :: i in s.trace.dropped ==> i < s.trace.additions
    ensures s.list.Some? ==> Increasing(Ids(s.list.value))
  {
    hide Increasing, Minus, Complete, ReplaysRepeat, Flat, Answered, Progress;
  }

  lemma RemoveGone(s: State, f: Fn)
    requires Inv(s) && s.list.Some? && Gone(s)
    ensures Gone(Remove(s, f))
  {
    DroppedAreOld(s);
    hide Inv, Keep;
    var es, calls := s.list.value, s.trace.calls;
    IdsOfExact(es, f);
    KeptExactly(es, f);
    hide IdsOf, Increasing, Ids;
    forall e | e in Keep(es, f) ensures e.id !in IdsOf(es, f) && e.id !in s.trace.dropped {
      var j :| 0 <= j < |es| && es[j] == e;
    }
    forall c | c in calls ensures c.id in CalledIds(calls) {
      var k :| 0 <= k < |calls| && calls[k] == c;
      assert CalledIds(calls)[k] == c.id;
    }
  }

  lemma PreparedGone(s: State, op: Op)
    requires Inv(s) && Gone(s)
    ensures Gone(Prepared(s, op))
  {
    match op {
      case OpAdd(fs) => if s.list.Some? { ExtendGone(s, fs); }
      case OpRemove(f) => if s.list.Some? { RemoveGone(s, f); }
      case _ =>
    }
    hide Inv, Push, Keep, IdsOf;
  }

  lemma GoneStep(s: State, op: Op)
    requires Inv(s) && Gone(s)
    ensures Gone(Step(s, op))
  {
    StepIsPrepared(s, op);
    PreparedGone(s, op);
    hide Inv, Step, Loop, AtTest, Prepared, Gone;
    if Runs(s, op) { LoopGone(Prepared(s, op)); }
  }

  lemma LoopGone(s: State)
    requires AtTest(s) && Gone(s)
    ensures Gone(Loop(s))
  {
    LoopRecords(s);
    hide Loop, AtTest;
    forall c | c in Loop(s).trace.calls ensures c.id !in s.trace.dropped {
      if c !in s.trace.calls {
        var k :| 0 <= k < |s.list.value| && Ids(s.list.value)[k] == c.id;
        assert s.list.value[k] in s.list.value;
      }
    }
  }

  /** In every run: what was removed before it was called is never called. */
  lemma {:induction false} RemovedStaysAway(options: Options, ops: seq<Op>)
    ensures Gone(Run(options, ops))
  {
    if ops != [] {
      RemovedStaysAway(options, ops[..|ops| - 1]);
      GoneStep(Run(options, ops[..|ops| - 1]), ops[|ops| - 1]);
    }
  }
}
