/** jQuery.Callbacks as a state machine. Between two steps the list is either at rest or inside
    a callback it has called; user code, in a callback or not, may take any step in any order. */
module Callbacks {
  import opened Wrappers
  import opened Seqs

  type Fn = nat
  type Data = nat

  datatype Options = Options(once: bool, memory: bool, unique: bool)

  /** A function in the list; every addition has a number of its own. */
  datatype Entry = Entry(fn: Fn, id: nat)

  /** One run of the firing loop. `eligible`: on the list when it began, from its first index,
      or added while it lasted. `dropped`: taken off before their turn. A replay is the round
      `add` starts with the remembered data. `cut`: the list was disabled under the loop. */
  datatype Round = Round(data: Data, replay: bool, eligible: seq<nat>, called: seq<nat>, dropped: set<nat>, cut: bool)

  datatype Call = Call(id: nat, data: Data)

  /** What an observer writes down. `dropped`: additions removed before they were ever called. */
  datatype Trace = Trace(additions: nat, accepted: seq<Data>, calls: seq<Call>, dropped: set<nat>,
                         rounds: seq<Round>, current: Round)

  datatype State = State(options: Options, list: Option<seq<Entry>>, stack: Option<seq<Data>>,
                         memory: Option<Data>, fired: bool, firing: bool,
                         firingIndex: int, firingLength: int, trace: Trace)

  const NO_ROUND := Round(0, false, [], [], {}, false)

  function Init(options: Options): State {
    State(options, Some([]), if options.once then None else Some([]), None, false, false, 0, 0,
          Trace(0, [], [], {}, [], NO_ROUND))
  }

  function Ids(es: seq<Entry>): (r: seq<nat>)
    ensures |r| == |es| && forall k :: 0 <= k < |es| ==> r[k] == es[k].id
  {
    seq(|es|, k requires 0 <= k < |es| => es[k].id)
  }

  // ------------------------------------------------------------------ the steps

  /** fire, up to its first call. */
  function Fire(s: State, data: Data, start: nat, replay: bool): State
    requires s.list.Some? && start <= |s.list.value|
    decreases if s.stack.Some? then |s.stack.value| else 0, 2
  {
    Loop(BeginRound(s, data, start, replay))
  }

  function BeginRound(s: State, data: Data, start: nat, replay: bool): State
    requires s.list.Some? && start <= |s.list.value|
  {
    s.(memory := if s.options.memory then Some(data) else None,
       fired := true,
       firingIndex := start,
       firingLength := |s.list.value|,
       firing := true,
       trace := s.trace.(current := Round(data, replay, Ids(s.list.value[start..]), [], {}, false)))
  }

  /** The loop test: call the function at the firing index, or end the round. */
  function Loop(s: State): State
    requires s.list.Some? ==> 0 <= s.firingIndex <= s.firingLength == |s.list.value|
    decreases if s.stack.Some? then |s.stack.value| else 0, 1
  {
    if s.list.Some? && s.firingIndex < s.firingLength then CallNext(s) else EndRound(s)
  }

  function CallNext(s: State): State
    requires s.list.Some? && 0 <= s.firingIndex < |s.list.value|
  {
    var e, t := s.list.value[s.firingIndex], s.trace;
    s.(trace := t.(calls := t.calls + [Call(e.id, t.current.data)],
                   current := t.current.(called := t.current.called + [e.id])))
  }

  function Archive(s: State): State {
    s.(firing := false, trace := s.trace.(rounds := s.trace.rounds + [s.trace.current.(cut := s.list.None?)]))
  }

  function EndRound(s: State): State
    decreases if s.stack.Some? then |s.stack.value| else 0, 0
  {
    var e := Archive(s);
    if e.list.None? then e
    else if e.stack.Some? then
      if e.stack.value == [] then e
      else Fire(e.(stack := Some(e.stack.value[1..])), e.stack.value[0], 0, false)
    else if e.memory.Some? then e.(list := Some([]))
    else Disable(e)
  }

  /** The callback that is being called returns. */
  function Return(s: State): State
    requires s.firing && (s.list.Some? ==> -1 <= s.firingIndex < s.firingLength == |s.list.value|)
  {
    Loop(s.(firingIndex := s.firingIndex + 1))
  }

  predicate Has(es: seq<Entry>, f: Fn) {
    exists k :: 0 <= k < |es| && es[k].fn == f
  }

  /** Push the functions one by one, with the numbers from `id` on. */
  function Push(es: seq<Entry>, fs: seq<Fn>, unique: bool, id: nat): (r: seq<Entry>)
    ensures |es| <= |r| && r[..|es|] == es
    ensures forall k :: |es| <= k < |r| ==> r[k].id == id + k - |es|
    decreases fs
  {
    if fs == [] then es
    else if unique && Has(es, fs[0]) then Push(es, fs[1..], unique, id)
    else Push(es + [Entry(fs[0], id)], fs[1..], unique, id + 1)
  }

  /** The list with the new functions at its end; during a round they join it. */
  function Extend(s: State, fs: seq<Fn>): State
    requires s.list.Some?
  {
    var start := |s.list.value|;
    var list := Push(s.list.value, fs, s.options.unique, s.trace.additions);
    var t := s.trace.(additions := s.trace.additions + |list| - start);
    if s.firing then
      s.(list := Some(list), firingLength := |list|,
         trace := t.(current := t.current.(eligible := t.current.eligible + Ids(list[start..]))))
    else s.(list := Some(list), trace := t)
  }

  function Add(s: State, fs: seq<Fn>): State {
    if s.list.None? then s
    else if s.firing || s.memory.None? then Extend(s, fs)
    else Fire(Extend(s, fs), s.memory.value, |s.list.value|, true)
  }

  function Keep(es: seq<Entry>, f: Fn): (r: seq<Entry>)
    ensures |r| <= |es|
  {
    if es == [] then []
    else
      var front := Keep(es[..|es| - 1], f);
      if es[|es| - 1].fn == f then front else front + [es[|es| - 1]]
  }

  function IdsOf(es: seq<Entry>, f: Fn): set<nat> {
    set k | 0 <= k < |es| && es[k].fn == f :: es[k].id
  }

  function Pending(s: State): seq<Entry>
    requires s.list.Some? && (s.firing ==> -1 <= s.firingIndex < |s.list.value|)
  {
    if s.firing then s.list.value[s.firingIndex + 1..] else s.list.value
  }

  function CalledIds(calls: seq<Call>): (r: seq<nat>)
    ensures |r| == |calls| && forall k :: 0 <= k < |calls| ==> r[k] == calls[k].id
  {
    seq(|calls|, k requires 0 <= k < |calls| => calls[k].id)
  }

  function Remove(s: State, f: Fn): State
    requires s.list.Some? && s.firing ==> -1 <= s.firingIndex < |s.list.value|
  {
    if s.list.None? then s
    else
      var list := Keep(s.list.value, f);
      var ids := IdsOf(s.list.value, f);
      var t := s.trace.(dropped := s.trace.dropped + set i | i in ids && i !in CalledIds(s.trace.calls));
      if s.firing then
        s.(list := Some(list),
           firingLength := |list|,
           firingIndex := |Keep(s.list.value[..s.firingIndex + 1], f)| - 1,
           trace := t.(current := t.current.(dropped := t.current.dropped + IdsOf(Pending(s), f))))
      else s.(list := Some(list), trace := t)
  }

  function FireWith(s: State, data: Data): State {
    if s.list.Some? && (!s.fired || s.stack.Some?) then
      var a := s.(trace := s.trace.(accepted := s.trace.accepted + [data]));
      if s.firing then
        if s.stack.Some? then a.(stack := Some(s.stack.value + [data])) else a
      else Fire(a, data, 0, false)
    else s
  }

  function Disable(s: State): State {
    s.(list := None, stack := None, memory := None)
  }

  function Lock(s: State): State {
    if s.memory.None? then Disable(s) else s.(stack := None)
  }

  datatype Op = OpAdd(fs: seq<Fn>) | OpRemove(f: Fn) | OpFire(data: Data) | OpReturn | OpLock | OpDisable

  predicate Shaped(s: State) {
    s.firing && s.list.Some? ==> -1 <= s.firingIndex < s.firingLength == |s.list.value|
  }

  function Step(s: State, op: Op): State
    requires Shaped(s)
  {
    match op
    case OpAdd(fs) => Add(s, fs)
    case OpRemove(f) => Remove(s, f)
    case OpFire(data) => FireWith(s, data)
    case OpReturn => if s.firing then Return(s) else s
    case OpLock => Lock(s)
    case OpDisable => Disable(s)
  }

  // ------------------------------------------------------------------ the invariant

  function Minus(xs: seq<nat>, d: set<nat>): (r: seq<nat>)
    ensures forall x :: x in r <==> x in xs && x !in d
  {
    if xs == [] then []
    else
      var front := Minus(xs[..|xs| - 1], d);
      if xs[|xs| - 1] in d then front else front + [xs[|xs| - 1]]
  }

  /** Once its round is over, each eligible addition has been called exactly once, in addition
      order, unless it was removed before its turn. */
  predicate Complete(r: Round) {
    r.cut || r.called == Minus(r.eligible, r.dropped)
  }

  function CallsOf(r: Round): (calls: seq<Call>)
    ensures |calls| == |r.called| && forall k :: 0 <= k < |calls| ==> calls[k] == Call(r.called[k], r.data)
  {
    seq(|r.called|, k requires 0 <= k < |r.called| => Call(r.called[k], r.data))
  }

  function Flat(rs: seq<Round>): seq<Call> {
    if rs == [] then [] else Flat(rs[..|rs| - 1]) + CallsOf(rs[|rs| - 1])
  }

  /** The data of the rounds that answer a fire; replays answer none. */
  function Answered(rs: seq<Round>): seq<Data> {
    if rs == [] then []
    else Answered(rs[..|rs| - 1]) + if rs[|rs| - 1].replay then [] else [rs[|rs| - 1].data]
  }

  function AllRounds(s: State): seq<Round> {
    s.trace.rounds + if s.firing then [s.trace.current] else []
  }

  /** A replay repeats the data of the round before it. */
  predicate ReplaysRepeat(rs: seq<Round>) {
    rs == [] ||
    (ReplaysRepeat(rs[..|rs| - 1]) &&
     (rs[|rs| - 1].replay ==> |rs| > 1 && rs[|rs| - 1].data == rs[|rs| - 2].data))
  }

  /** What the history of all steps guarantees, apart from the position in the present round. */
  predicate History(s: State) {
    var t, rs := s.trace, AllRounds(s);
    && (s.list.Some? ==> Increasing(Ids(s.list.value)) && forall k :: 0 <= k < |s.list.value| ==> s.list.value[k].id < t.additions)
    && (forall r :: r in t.rounds ==> Complete(r))
    && t.calls == Flat(rs)
    && ReplaysRepeat(rs)
    && (s.memory.Some? ==> rs != [] && rs[|rs| - 1].data == s.memory.value)
    && (s.firing ==> s.fired)
    && (forall i :: i in t.dropped ==> i < t.additions)
    && (forall c :: c in t.calls ==> c.id < t.additions)
    && (s.list.None? ==> s.stack.None? && s.memory.None?)
  }

  /** Every accepted fire has got its round or waits for it, in order of acceptance. */
  predicate Queued(s: State) {
    s.stack.Some? ==> Answered(AllRounds(s)) + s.stack.value == s.trace.accepted
  }

  /** The entries from `from` on are what is still to be called in the present round. */
  predicate Progress(s: State, from: int)
    requires s.list.Some? && 0 <= from <= |s.list.value|
  {
    var r := s.trace.current;
    && Increasing(r.eligible) && (forall i :: i in r.eligible ==> i < s.trace.additions)
    && r.called + Ids(s.list.value[from..]) == Minus(r.eligible, r.dropped)
    && (forall i :: i in r.dropped ==> i < s.trace.additions)
  }

  predicate Inv(s: State) {
    && Shaped(s)
    && History(s)
    && Queued(s)
    && (s.stack.Some? && !s.firing ==> s.stack.value == [])
    && (s.firing && s.list.Some? ==> Progress(s, s.firingIndex + 1))
  }

  // ------------------------------------------------------------------ every step keeps it

  lemma FlatSnoc(rs: seq<Round>, r: Round)
    ensures Flat(rs + [r]) == Flat(rs) + CallsOf(r)
    ensures Answered(rs + [r]) == Answered(rs) + if r.replay then [] else [r.data]
    ensures ReplaysRepeat(rs + [r]) <==>
            ReplaysRepeat(rs) && (r.replay ==> rs != [] && r.data == rs[|rs| - 1].data)
  {
    assert (rs + [r])[..|rs|] == rs;
  }

  predicate AtTest(s: State) {
    && s.firing && History(s) && Queued(s)
    && (s.list.Some? ==> 0 <= s.firingIndex <= s.firingLength == |s.list.value| && Progress(s, s.firingIndex))
  }

  lemma CallNextProgress(s: State)
    requires AtTest(s) && s.list.Some? && s.firingIndex < s.firingLength
    ensures Progress(CallNext(s), s.firingIndex + 1)
  {
    hide History, Queued, Increasing, Minus;
    var es, i, called := s.list.value, s.firingIndex, s.trace.current.called;
    assert Ids(es[i..]) == [es[i].id] + Ids(es[i + 1..]);
    assert called + ([es[i].id] + Ids(es[i + 1..])) == (called + [es[i].id]) + Ids(es[i + 1..]);
  }

  lemma CallNextKeeps(s: State)
    requires AtTest(s) && s.list.Some? && s.firingIndex < s.firingLength
    ensures Inv(CallNext(s))
  {
    hide Progress, Increasing, Minus, Complete, ReplaysRepeat, Flat, Answered;
    var e, t, s' := s.list.value[s.firingIndex], s.trace, CallNext(s);
    FlatSnoc(t.rounds, t.current);
    FlatSnoc(t.rounds, s'.trace.current);
    assert CallsOf(s'.trace.current) == CallsOf(t.current) + [Call(e.id, t.current.data)];
    assert s'.trace.calls == Flat(t.rounds) + CallsOf(s'.trace.current);
    CallNextProgress(s);
  }

  lemma ArchiveKeeps(s: State)
    requires AtTest(s) && (s.list.Some? ==> s.firingIndex == s.firingLength)
    ensures History(Archive(s)) && Queued(Archive(s))
  {
    hide Increasing, Minus, ReplaysRepeat, Flat, Answered;
    var t := s.trace;
    var r := t.current.(cut := s.list.None?);
    FlatSnoc(t.rounds, t.current);
    FlatSnoc(t.rounds, r);
    assert CallsOf(r) == CallsOf(t.current);
    assert AllRounds(Archive(s)) == t.rounds + [r];
    if s.list.Some? {
      assert s.list.value[s.firingIndex..] == [];
      assert Complete(r);
    }
  }

  lemma IdsSuffix(es: seq<Entry>, start: nat, bound: nat)
    requires start <= |es| && Increasing(Ids(es)) && forall k :: 0 <= k < |es| ==> es[k].id < bound
    ensures Increasing(Ids(es[start..])) && forall i :: i in Ids(es[start..]) ==> i < bound
  {
    assert Ids(es[start..]) == Ids(es)[start..];
  }

  lemma BeginRoundKeeps(s: State, data: Data, start: nat, replay: bool)
    requires s.list.Some? && start <= |s.list.value| && !s.firing && History(s)
    requires replay ==> s.trace.rounds != [] && s.trace.rounds[|s.trace.rounds| - 1].data == data
    requires s.stack.Some? ==>
               Answered(s.trace.rounds) + (if replay then [] else [data]) + s.stack.value == s.trace.accepted
    ensures AtTest(BeginRound(s, data, start, replay))
  {
    hide Increasing, Minus, Complete, ReplaysRepeat, Flat, Answered;
    var eligible := Ids(s.list.value[start..]);
    var r := Round(data, replay, eligible, [], {}, false);
    FlatSnoc(s.trace.rounds, r);
    assert CallsOf(r) == [];
    assert AllRounds(s) == s.trace.rounds;
    IdsSuffix(s.list.value, start, s.trace.additions);
    MinusNothing(eligible);
    assert [] + eligible == eligible;
    assert Progress(BeginRound(s, data, start, replay), start);
  }

  lemma LoopKeeps(s: State)
    requires AtTest(s)
    ensures Inv(Loop(s)) && Loop(s).options == s.options
    decreases if s.stack.Some? then |s.stack.value| else 0, 1
  {
    if s.list.Some? && s.firingIndex < s.firingLength {
      CallNextKeeps(s);
    } else {
      EndRoundKeeps(s);
    }
  }

  /** Coming to rest: as it is, with the list emptied, or disabled. */
  lemma RestKeeps(e: State)
    requires !e.firing && History(e) && Queued(e)
    ensures e.list.None? || e.stack == Some([]) ==> Inv(e)
    ensures e.stack.None? ==> Inv(e.(list := Some([]))) || e.list.None?
    ensures Inv(Disable(e))
  {
    hide Increasing, Minus, Complete, ReplaysRepeat, Flat, Answered;
    assert AllRounds(e.(list := Some([]))) == AllRounds(e) == AllRounds(Disable(e));
    NothingIncreases();
  }

  lemma NothingIncreases()
    ensures Increasing(Ids([]))
  {
  }

  lemma EndRoundKeeps(s: State)
    requires AtTest(s) && (s.list.Some? ==> s.firingIndex == s.firingLength)
    ensures Inv(EndRound(s)) && EndRound(s).options == s.options
    decreases if s.stack.Some? then |s.stack.value| else 0, 0
  {
    hide AtTest, Inv;
    ArchiveKeeps(s);
    var e := Archive(s);
    RestKeeps(e);
    if e.list.Some? && e.stack.Some? && e.stack.value != [] {
      NextFromStack(e);
      var rest, data := e.(stack := Some(e.stack.value[1..])), e.stack.value[0];
      LoopKeeps(BeginRound(rest, data, 0, false));
    }
  }

  lemma NextFromStack(e: State)
    requires !e.firing && History(e) && Queued(e) && e.list.Some? && e.stack.Some? && e.stack.value != []
    ensures AtTest(BeginRound(e.(stack := Some(e.stack.value[1..])), e.stack.value[0], 0, false))
  {
    hide Increasing, Minus, Complete, ReplaysRepeat, Flat, Answered, AtTest;
    var rest, data := e.(stack := Some(e.stack.value[1..])), e.stack.value[0];
    assert AllRounds(rest) == AllRounds(e) == e.trace.rounds;
    assert Answered(e.trace.rounds) + [data] + rest.stack.value == Answered(e.trace.rounds) + e.stack.value;
    BeginRoundKeeps(rest, data, 0, false);
  }

  lemma {:induction false} MinusNothing(xs: seq<nat>)
    ensures Minus(xs, {}) == xs
  {
    if xs != [] { MinusNothing(xs[..|xs| - 1]); }
  }

  lemma {:induction false} MinusAppend(xs: seq<nat>, ys: seq<nat>, d: set<nat>)
    ensures Minus(xs + ys, d) == Minus(xs, d) + Minus(ys, d)
  {
    if ys == [] {
      assert xs + ys == xs;
    } else {
      assert (xs + ys)[..|xs + ys| - 1] == xs + ys[..|ys| - 1];
      MinusAppend(xs, ys[..|ys| - 1], d);
    }
  }

  lemma {:induction false} MinusUntouched(xs: seq<nat>, d: set<nat>)
    requires forall x :: x in xs ==> x !in d
    ensures Minus(xs, d) == xs
  {
    if xs != [] { MinusUntouched(xs[..|xs| - 1], d); }
  }

  lemma {:induction false} MinusUnion(xs: seq<nat>, d: set<nat>, e: set<nat>)
    ensures Minus(xs, d + e) == Minus(Minus(xs, d), e)
  {
    if xs != [] {
      MinusUnion(xs[..|xs| - 1], d, e);
      MinusAppend(Minus(xs[..|xs| - 1], d), [xs[|xs| - 1]], e);
      assert [xs[|xs| - 1]][..0] == [];
    }
  }

  lemma {:induction false} MinusIncreasing(xs: seq<nat>, d: set<nat>)
    requires Increasing(xs)
    ensures Increasing(Minus(xs, d))
  {
    if xs != [] {
      var n := |xs| - 1;
      MinusIncreasing(xs[..n], d);
      assert forall x :: x in xs[..n] ==> x < xs[n];
      assert forall k :: 0 <= k < |Minus(xs[..n], d)| ==> Minus(xs[..n], d)[k] in xs[..n];
    }
  }

  lemma AddingKeepsOrder(s: State, fs: seq<Fn>)
    requires s.list.Some? && History(s)
    ensures var list := Push(s.list.value, fs, s.options.unique, s.trace.additions);
            var n := s.trace.additions + |list| - |s.list.value|;
            && Increasing(Ids(list))
            && forall k :: 0 <= k < |list| ==> list[k].id < n
  {
    var before, list := s.list.value, Push(s.list.value, fs, s.options.unique, s.trace.additions);
    forall k | 0 <= k < |before| ensures list[k] == before[k] {
      assert list[..|before|][k] == before[k];
    }
    forall i, j | 0 <= i < j < |list| ensures list[i].id < list[j].id {
      if j < |before| { assert Ids(before)[i] < Ids(before)[j]; }
    }
  }

  lemma ExtendedProgress(called: seq<nat>, rest: seq<nat>, eligible: seq<nat>,
                                            dropped: set<nat>, added: seq<nat>)
    requires called + rest == Minus(eligible, dropped)
    requires Minus(added, dropped) == added
    ensures called + (rest + added) == Minus(eligible + added, dropped)
  {
    MinusAppend(eligible, added, dropped);
    hide Minus;
    Reassociate(called, rest, added);
  }

  lemma IncreasingAppend(xs: seq<nat>, ys: seq<nat>, n: nat)
    requires Increasing(xs) && (forall x :: x in xs ==> x < n) && Increasing(ys) && forall y :: y in ys ==> y >= n
    ensures Increasing(xs + ys)
  {
    forall i, j | 0 <= i < j < |xs + ys| ensures (xs + ys)[i] < (xs + ys)[j] {
      if i < |xs| <= j { assert xs[i] in xs && ys[j - |xs|] in ys; }
    }
  }

  lemma ExtendKeepsHistory(s: State, fs: seq<Fn>)
    requires Inv(s) && s.list.Some?
    ensures History(Extend(s, fs)) && Queued(Extend(s, fs))
    ensures !s.firing ==> AllRounds(Extend(s, fs)) == AllRounds(s) == s.trace.rounds
  {
    AddingKeepsOrder(s, fs);
    if s.firing {
      FlatSnoc(s.trace.rounds, s.trace.current);
      FlatSnoc(s.trace.rounds, Extend(s, fs).trace.current);
      assert CallsOf(Extend(s, fs).trace.current) == CallsOf(s.trace.current);
    }
  }

  lemma AddedIds(before: seq<Entry>, list: seq<Entry>, from: nat)
    requires from <= |before| <= |list| && list[..|before|] == before
    ensures Ids(list[from..]) == Ids(before[from..]) + Ids(list[|before|..])
  {
    assert list[from..] == before[from..] + list[|before|..];
  }

  /** What a running round sees of an extension. */
  lemma ExtendedRound(s: State, fs: seq<Fn>)
    requires s.list.Some? && s.firing
    ensures var start, x := |s.list.value|, Extend(s, fs);
            && x.list.Some? && start <= |x.list.value| && x.list.value[..start] == s.list.value
            && x.trace.current.eligible == s.trace.current.eligible + Ids(x.list.value[start..])
            && x.trace.current.called == s.trace.current.called && x.trace.current.dropped == s.trace.current.dropped
            && x.trace.additions == s.trace.additions + |x.list.value| - start
            && forall k :: start <= k < |x.list.value| ==> x.list.value[k].id == s.trace.additions + k - start
  {
  }

  /** The numbers of the added entries: fresh, and in order. */
  lemma AddedNumbers(list: seq<Entry>, start: nat, n: nat)
    requires start <= |list| && forall k :: start <= k < |list| ==> list[k].id == n + k - start
    ensures var added := Ids(list[start..]); Increasing(added) && forall y :: y in added ==> n <= y < n + |list| - start
  {
    var added := Ids(list[start..]);
    forall j | 0 <= j < |added| ensures added[j] == n + j { assert list[start..][j] == list[start + j]; }
  }

  lemma ProgressAppended(es: seq<Entry>, list: seq<Entry>, from: nat, r: Round, n: nat)
    requires from <= |es| <= |list| && list[..|es|] == es
    requires r.called + Ids(es[from..]) == Minus(r.eligible, r.dropped)
    requires forall i :: i in r.dropped ==> i < n
    requires forall y :: y in Ids(list[|es|..]) ==> n <= y
    ensures r.called + Ids(list[from..]) == Minus(r.eligible + Ids(list[|es|..]), r.dropped)
  {
    hide Minus, Ids;
    var added := Ids(list[|es|..]);
    AddedIds(es, list, from);
    MinusUntouched(added, r.dropped);
    ExtendedProgress(r.called, Ids(es[from..]), r.eligible, r.dropped, added);
  }

  lemma ExtendKeepsProgress(s: State, fs: seq<Fn>)
    requires Inv(s) && s.list.Some? && s.firing
    ensures Extend(s, fs).list.Some? && s.firingIndex + 1 <= |Extend(s, fs).list.value|
    ensures Progress(Extend(s, fs), s.firingIndex + 1)
  {
    ExtendedRound(s, fs);
    assert Progress(s, s.firingIndex + 1);
    hide Extend, Inv, Minus, Increasing, Ids;
    var es, list, n := s.list.value, Extend(s, fs).list.value, s.trace.additions;
    AddedNumbers(list, |es|, n);
    ProgressAppended(es, list, s.firingIndex + 1, s.trace.current, n);
    IncreasingAppend(s.trace.current.eligible, Ids(list[|es|..]), n);
  }

  lemma ExtendKeeps(s: State, fs: seq<Fn>)
    requires Inv(s) && s.list.Some? && (s.firing || s.memory.None?)
    ensures Inv(Extend(s, fs))
  {
    hide History, Queued, Progress, Push;
    ExtendKeepsHistory(s, fs);
    if s.firing {
      ExtendKeepsProgress(s, fs);
    }
  }

  lemma AddKeeps(s: State, fs: seq<Fn>)
    requires Inv(s)
    ensures Inv(Add(s, fs)) && Add(s, fs).options == s.options
  {
    if s.list.Some? {
      hide Inv, AtTest;
      if s.firing || s.memory.None? {
        ExtendKeeps(s, fs);
      } else {
        BeginReplay(s, fs);
        LoopKeeps(BeginRound(Extend(s, fs), s.memory.value, |s.list.value|, true));
      }
    }
  }

  lemma FireWithKeeps(s: State, data: Data)
    requires Inv(s)
    ensures Inv(FireWith(s, data)) && FireWith(s, data).options == s.options
  {
    if s.list.Some? && (!s.fired || s.stack.Some?) {
      if s.firing {
        hide Increasing, Minus, Complete, ReplaysRepeat, Flat, Answered;
        assert AllRounds(FireWith(s, data)) == AllRounds(s);
      } else {
        hide Inv, AtTest;
        BeginAnswer(s, data);
        LoopKeeps(BeginRound(s.(trace := s.trace.(accepted := s.trace.accepted + [data])), data, 0, false));
      }
    }
  }

  lemma {:induction false} KeepAppend(a: seq<Entry>, b: seq<Entry>, f: Fn)
    ensures Keep(a + b, f) == Keep(a, f) + Keep(b, f)
  {
    if b == [] {
      assert a + b == a;
    } else {
      assert (a + b)[..|a + b| - 1] == a + b[..|b| - 1];
      KeepAppend(a, b[..|b| - 1], f);
    }
  }

  /** Keeping entries and dropping their numbers is one and the same. */
  lemma {:induction false} KeepIds(es: seq<Entry>, f: Fn, d: set<nat>)
    requires forall k :: 0 <= k < |es| ==> (es[k].fn == f <==> es[k].id in d)
    ensures Ids(Keep(es, f)) == Minus(Ids(es), d)
  {
    if es != [] {
      var front := es[..|es| - 1];
      KeepIds(front, f, d);
      assert Ids(es)[..|es| - 1] == Ids(front);
    }
  }

  lemma IdsOfExact(es: seq<Entry>, f: Fn)
    requires Increasing(Ids(es))
    ensures forall k :: 0 <= k < |es| ==> (es[k].fn == f <==> es[k].id in IdsOf(es, f))
  {
    forall k | 0 <= k < |es| && es[k].id in IdsOf(es, f) ensures es[k].fn == f {
      var j :| 0 <= j < |es| && es[j].fn == f && es[j].id == es[k].id;
      assert Ids(es)[j] == Ids(es)[k];
    }
  }

  lemma RemovedListOrder(es: seq<Entry>, f: Fn, n: nat)
    requires Increasing(Ids(es)) && forall k :: 0 <= k < |es| ==> es[k].id < n
    ensures Increasing(Ids(Keep(es, f))) && forall k :: 0 <= k < |Keep(es, f)| ==> Keep(es, f)[k].id < n
  {
    IdsOfExact(es, f);
    KeepIds(es, f, IdsOf(es, f));
    MinusIncreasing(Ids(es), IdsOf(es, f));
    forall k | 0 <= k < |Keep(es, f)| ensures Keep(es, f)[k].id < n {
      assert Ids(Keep(es, f))[k] in Ids(es);
    }
  }

  lemma RemoveKeepsHistory(s: State, f: Fn)
    requires Inv(s) && s.list.Some?
    ensures History(Remove(s, f)) && Queued(Remove(s, f))
  {
    RemovedListOrder(s.list.value, f, s.trace.additions);
    forall i | i in IdsOf(s.list.value, f) ensures i < s.trace.additions {}
    if s.firing {
      FlatSnoc(s.trace.rounds, s.trace.current);
      FlatSnoc(s.trace.rounds, Remove(s, f).trace.current);
      assert CallsOf(Remove(s, f).trace.current) == CallsOf(s.trace.current);
    } else {
      assert AllRounds(Remove(s, f)) == AllRounds(s);
    }
  }

  lemma RemoveKeeps(s: State, f: Fn)
    requires Inv(s)
    ensures Inv(Remove(s, f)) && Remove(s, f).options == s.options
  {
    if s.list.Some? {
      RemoveKeepsHistory(s, f);
      if s.firing {
        RemovePending(s, f);
      }
    }
  }

  lemma PendingAfterRemove(s: State, f: Fn)
    requires s.list.Some? && s.firing && Shaped(s)
    ensures Shaped(Remove(s, f)) && Pending(Remove(s, f)) == Keep(Pending(s), f)
  {
    var es, from := s.list.value, s.firingIndex + 1;
    assert es == es[..from] + es[from..];
    KeepAppend(es[..from], es[from..], f);
  }

  lemma RemovePending(s: State, f: Fn)
    requires Inv(s) && s.list.Some? && s.firing
    ensures Shaped(Remove(s, f)) && Progress(Remove(s, f), Remove(s, f).firingIndex + 1)
  {
    PendingAfterRemove(s, f);
    var pending, r := Pending(s), s.trace.current;
    IdsSuffix(s.list.value, s.firingIndex + 1, s.trace.additions);
    var d := IdsOf(pending, f);
    IdsOfExact(pending, f);
    KeepIds(pending, f, d);
    MinusUnion(r.eligible, r.dropped, d);
    MinusAppend(r.called, Ids(pending), d);
    MinusIncreasing(r.eligible, r.dropped);
    CalledBeforePending(r.called, pending, f);
    MinusUntouched(r.called, d);
    forall i | i in d ensures i < s.trace.additions {
      assert i in Ids(pending);
    }
  }

  lemma CalledBeforePending(called: seq<nat>, pending: seq<Entry>, f: Fn)
    requires Increasing(called + Ids(pending))
    ensures forall i :: i in called ==> i !in IdsOf(pending, f)
  {
    var all := called + Ids(pending);
    forall k, j | 0 <= k < |called| && 0 <= j < |pending| ensures called[k] < pending[j].id {
      assert all[k] < all[|called| + j];
    }
  }

  lemma ReturnKeeps(s: State)
    requires Inv(s) && s.firing
    ensures Inv(Return(s)) && Return(s).options == s.options
  {
    hide Increasing, Minus, Complete, ReplaysRepeat, Flat, Answered, Progress;
    var b := s.(firingIndex := s.firingIndex + 1);
    assert AllRounds(b) == AllRounds(s);
    assert AtTest(b) by {
      if s.list.Some? { ProgressIgnoresIndex(s); }
    }
    hide Inv, AtTest;
    LoopKeeps(b);
  }

  lemma ProgressIgnoresIndex(s: State)
    requires s.list.Some? && 0 <= s.firingIndex + 1 <= |s.list.value| && Progress(s, s.firingIndex + 1)
    ensures Progress(s.(firingIndex := s.firingIndex + 1), s.firingIndex + 1)
  {
    hide Increasing, Minus;
  }

  lemma DisableKeeps(s: State)
    requires Inv(s)
    ensures Inv(Disable(s)) && (s.memory.Some? ==> Inv(Lock(s)))
  {
    hide Increasing, Minus, Complete, ReplaysRepeat, Flat, Answered;
    assert AllRounds(Disable(s)) == AllRounds(s) == AllRounds(Lock(s));
  }

  lemma StepKeeps(s: State, op: Op)
    requires Inv(s)
    ensures Inv(Step(s, op)) && Step(s, op).options == s.options
  {
    hide Inv;
    match op {
      case OpAdd(fs) => hide *; AddKeeps(s, fs);
      case OpRemove(f) => hide *; RemoveKeeps(s, f);
      case OpFire(data) => hide *; FireWithKeeps(s, data);
      case OpReturn => if s.firing { ReturnKeeps(s); }
      case OpLock => DisableKeeps(s);
      case OpDisable => DisableKeeps(s);
    }
  }

  /** The state after a run of steps, in any order. */
  ghost function Run(options: Options, ops: seq<Op>): (s: State)
    ensures Inv(s) && s.options == options
  {
    if ops == [] then Init(options)
    else
      var before := Run(options, ops[..|ops| - 1]);
      StepKeeps(before, ops[|ops| - 1]);
      Step(before, ops[|ops| - 1])
  }

  // ------------------------------------------------------------------ lists that fire many times

  predicate NeverLocks(ops: seq<Op>) {
    forall k :: 0 <= k < |ops| ==> !ops[k].OpLock? && !ops[k].OpDisable?
  }

  /** Neither locked nor disabled, and no round was cut short. */
  predicate Whole(s: State) {
    s.list.Some? && s.stack.Some? && forall r :: r in s.trace.rounds ==> !r.cut
  }

  lemma {:induction false} LoopStaysWhole(s: State)
    requires AtTest(s) && Whole(s)
    ensures Whole(Loop(s))
    decreases |s.stack.value|
  {
    if s.firingIndex == s.firingLength && s.stack.value != [] {
      ArchiveKeeps(s);
      var e := Archive(s);
      var rest, data := e.(stack := Some(e.stack.value[1..])), e.stack.value[0];
      BeginRoundKeeps(rest, data, 0, false);
      LoopStaysWhole(BeginRound(rest, data, 0, false));
      assert Loop(s) == EndRound(s) == Fire(rest, data, 0, false);
    }
  }

  lemma AddStaysWhole(s: State, fs: seq<Fn>)
    requires Inv(s) && Whole(s)
    ensures Whole(Add(s, fs))
  {
    hide History, Queued, Progress, AtTest, Push;
    if !s.firing && s.memory.Some? {
      MemoryRemembered(s);
      ExtendKeepsHistory(s, fs);
      BeginReplay(s, fs);
      LoopStaysWhole(BeginRound(Extend(s, fs), s.memory.value, |s.list.value|, true));
    }
  }

  lemma MemoryRemembered(s: State)
    requires Inv(s) && !s.firing && s.memory.Some?
    ensures s.trace.rounds != [] && s.trace.rounds[|s.trace.rounds| - 1].data == s.memory.value
  {
    assert AllRounds(s) == s.trace.rounds;
  }

  lemma BeginReplay(s: State, fs: seq<Fn>)
    requires Inv(s) && s.list.Some? && !s.firing && s.memory.Some?
    ensures AtTest(BeginRound(Extend(s, fs), s.memory.value, |s.list.value|, true))
  {
    hide Increasing, Minus, Complete, ReplaysRepeat, Flat, Answered, AtTest, Progress;
    ExtendKeepsHistory(s, fs);
    MemoryRemembered(s);
    BeginRoundKeeps(Extend(s, fs), s.memory.value, |s.list.value|, true);
  }

  lemma BeginAnswer(s: State, data: Data)
    requires Inv(s) && s.list.Some? && !s.firing
    ensures var a := s.(trace := s.trace.(accepted := s.trace.accepted + [data]));
            AtTest(BeginRound(a, data, 0, false))
  {
    hide Increasing, Minus, Complete, ReplaysRepeat, Flat, Answered, AtTest, Progress;
    var a := s.(trace := s.trace.(accepted := s.trace.accepted + [data]));
    assert AllRounds(a) == AllRounds(s) == s.trace.rounds;
    if s.stack.Some? {
      assert Answered(s.trace.rounds) + [data] + s.stack.value == s.trace.accepted + [data];
    }
    BeginRoundKeeps(a, data, 0, false);
  }

  lemma FireStaysWhole(s: State, data: Data)
    requires Inv(s) && Whole(s)
    ensures Whole(FireWith(s, data))
  {
    hide History, Queued, Progress, AtTest;
    if !s.firing {
      BeginAnswer(s, data);
      LoopStaysWhole(BeginRound(s.(trace := s.trace.(accepted := s.trace.accepted + [data])), data, 0, false));
    }
  }

  lemma StepStaysWhole(s: State, op: Op)
    requires Inv(s) && Whole(s) && !op.OpLock? && !op.OpDisable?
    ensures Whole(Step(s, op))
  {
    match op {
      case OpAdd(fs) => hide *; AddStaysWhole(s, fs);
      case OpFire(data) => hide *; FireStaysWhole(s, data);
      case OpReturn =>
        hide Increasing, Minus, Complete, ReplaysRepeat, Flat, Answered;
        if s.firing {
          var b := s.(firingIndex := s.firingIndex + 1);
          assert AllRounds(b) == AllRounds(s);
          LoopStaysWhole(b);
        }
      case OpRemove(_) => hide Inv, Keep;
      case OpLock =>
      case OpDisable =>
    }
  }

  /** Fires, nested or not, become rounds in the order in which they were made. The calls of a
      round stand together, and each round that is over called every eligible addition once, in
      order, unless it was removed before its turn. */
  lemma {:induction false} FiresBecomeRounds(options: Options, ops: seq<Op>)
    requires !options.once && NeverLocks(ops)
    ensures var s := Run(options, ops);
            && Whole(s)
            && s.trace.calls == Flat(AllRounds(s))
            && (forall r :: r in s.trace.rounds ==> r.called == Minus(r.eligible, r.dropped))
            && Answered(AllRounds(s)) + s.stack.value == s.trace.accepted
            && (!s.firing ==> Answered(s.trace.rounds) == s.trace.accepted)
            && ReplaysRepeat(AllRounds(s))
  {
    if ops != [] {
      FiresBecomeRounds(options, ops[..|ops| - 1]);
      StepStaysWhole(Run(options, ops[..|ops| - 1]), ops[|ops| - 1]);
    }
    var s := Run(options, ops);
    if !s.firing { assert AllRounds(s) == s.trace.rounds; }
    forall r | r in s.trace.rounds ensures r.called == Minus(r.eligible, r.dropped) {
      assert Complete(r);
    }
  }

  // ------------------------------------------------------------------ "once memory" lists

  /** Additions that were called and those still to be called are, in this order, all additions
      but the removed ones; the data are those of the one fire that was accepted. */
  predicate Once(s: State) {
    var t := s.trace;
    && Shaped(s) && s.list.Some? && s.stack.None?
    && s.options.once && s.options.memory
    && CalledIds(t.calls) + Ids(Pending(s)) == Minus(Upto(t.additions), t.dropped)
    && (s.firing ==> s.fired && forall k :: 0 <= k <= s.firingIndex ==> s.list.value[k].id in CalledIds(t.calls))
    && (if s.fired then |t.accepted| == 1 && s.memory == Some(t.accepted[0]) else t.accepted == [] && t.calls == [] && s.memory.None?)
    && (s.firing ==> t.current.data == t.accepted[0])
    && (forall c :: c in t.calls ==> c.data == t.accepted[0])
    && (s.fired && !s.firing ==> s.list.value == [])
  }

  predicate OnceAtTest(s: State) {
    var t := s.trace;
    && s.firing && s.fired && s.list.Some? && s.stack.None?
    && s.options.once && s.options.memory
    && 0 <= s.firingIndex <= s.firingLength == |s.list.value|
    && CalledIds(t.calls) + Ids(s.list.value[s.firingIndex..]) == Minus(Upto(t.additions), t.dropped)
    && (forall k :: 0 <= k < s.firingIndex ==> s.list.value[k].id in CalledIds(t.calls))
    && |t.accepted| == 1 && s.memory == Some(t.accepted[0]) && t.current.data == t.accepted[0]
    && (forall c :: c in t.calls ==> c.data == t.accepted[0])
  }

  lemma OnceCall(s: State)
    requires OnceAtTest(s) && s.firingIndex < s.firingLength
    ensures Once(CallNext(s))
  {
    hide Minus, Increasing, Upto;
    var es, i, t, s' := s.list.value, s.firingIndex, s.trace, CallNext(s);
    assert Ids(es[i..]) == [es[i].id] + Ids(es[i + 1..]);
    assert CalledIds(s'.trace.calls) == CalledIds(t.calls) + [es[i].id];
    Reassociate(CalledIds(t.calls), [es[i].id], Ids(es[i + 1..]));
    assert forall x :: x in CalledIds(t.calls) ==> x in CalledIds(s'.trace.calls);
    assert CalledIds(s'.trace.calls)[|t.calls|] == es[i].id;
  }

  lemma OnceLoop(s: State)
    requires OnceAtTest(s)
    ensures Once(Loop(s))
  {
    if s.firingIndex < s.firingLength {
      hide *;
      OnceCall(s);
    } else {
      hide Minus, Increasing, Upto;
      assert s.list.value[s.firingIndex..] == [];
    }
  }

  lemma UptoGrows(n: nat, m: nat, dropped: set<nat>)
    requires n <= m && forall i :: i in dropped ==> i < n
    ensures Minus(Upto(m), dropped) == Minus(Upto(n), dropped) + Upto(m)[n..]
  {
    assert Upto(m) == Upto(n) + Upto(m)[n..];
    MinusAppend(Upto(n), Upto(m)[n..], dropped);
    MinusUntouched(Upto(m)[n..], dropped);
  }

  /** What is still to be called, at rest all of the list. */
  function From(s: State): int {
    if s.firing then s.firingIndex + 1 else 0
  }

  lemma PendingAfterExtend(s: State, fs: seq<Fn>)
    requires s.list.Some? && Shaped(s)
    ensures var list, n := Extend(s, fs).list.value, s.trace.additions;
            && |s.list.value| <= |list| && (forall k :: 0 <= k < |s.list.value| ==> list[k] == s.list.value[k])
            && Ids(list[From(s)..]) == Ids(Pending(s)) + Upto(Extend(s, fs).trace.additions)[n..]
  {
    var es, list := s.list.value, Extend(s, fs).list.value;
    assert list == es + list[|es|..];
    assert list[From(s)..] == es[From(s)..] + list[|es|..];
    assert Ids(list[|es|..]) == Upto(Extend(s, fs).trace.additions)[s.trace.additions..];
    assert Pending(s) == es[From(s)..];
  }

  lemma OnceExtend(s: State, fs: seq<Fn>)
    requires Inv(s) && Once(s) && (s.firing || s.memory.None?)
    ensures Once(Extend(s, fs))
  {
    PendingAfterExtend(s, fs);
    OnceAddEquation(s, fs);
    ExtendedPending(s, fs);
    hide Inv, Minus, Increasing, Push, Upto, Ids, CalledIds, Pending;
  }

  lemma ExtendedPending(s: State, fs: seq<Fn>)
    requires s.list.Some? && Shaped(s)
    ensures Shaped(Extend(s, fs)) && Pending(Extend(s, fs)) == Extend(s, fs).list.value[From(s)..]
  {
    PendingAfterExtend(s, fs);
  }

  lemma OnceAdd(s: State, fs: seq<Fn>)
    requires Inv(s) && Once(s)
    ensures Once(Add(s, fs))
  {
    if !s.firing && s.memory.Some? {
      hide *;
      OnceReplay(s, fs);
    } else {
      hide Inv, Once;
      OnceExtend(s, fs);
    }
  }

  lemma OnceAddEquation(s: State, fs: seq<Fn>)
    requires Inv(s) && Once(s)
    ensures var x := Extend(s, fs);
            CalledIds(x.trace.calls) + Ids(x.list.value[From(s)..]) == Minus(Upto(x.trace.additions), x.trace.dropped)
    ensures !s.firing ==> Extend(s, fs).list.value[0..] == Extend(s, fs).list.value
  {
    var t, n' := s.trace, Extend(s, fs).trace.additions;
    PendingAfterExtend(s, fs);
    assert n' >= t.additions;
    UptoGrows(t.additions, n', t.dropped);
    Reassociate(CalledIds(t.calls), Ids(Pending(s)), Upto(n')[t.additions..]);
  }

  lemma Reassociate(a: seq<nat>, b: seq<nat>, c: seq<nat>)
    ensures (a + b) + c == a + (b + c)
  {
  }

  lemma OnceReplay(s: State, fs: seq<Fn>)
    requires Inv(s) && Once(s) && !s.firing && s.memory.Some?
    ensures Once(Add(s, fs))
  {
    hide Minus, Increasing, Inv, Push, Upto;
    OnceAddEquation(s, fs);
    var b := BeginRound(Extend(s, fs), s.memory.value, 0, true);
    assert b.firingIndex == 0 && b.trace.current.data == s.memory.value;
    assert OnceAtTest(b);
    OnceLoop(b);
    assert Add(s, fs) == Loop(b);
  }

  /** Taking the removed numbers off both sides of the equation in `Once`. */
  lemma OnceEquation(called: seq<nat>, pending: seq<Entry>, n: nat, dropped: set<nat>, f: Fn)
    requires called + Ids(pending) == Minus(Upto(n), dropped)
    ensures called + Ids(Keep(pending, f)) == Minus(Upto(n), dropped + IdsOf(pending, f))
    ensures forall i :: i in called ==> i !in IdsOf(pending, f)
  {
    var d := IdsOf(pending, f);
    MinusIncreasing(Upto(n), dropped);
    assert Increasing(Ids(pending)) by {
      forall i, j | 0 <= i < j < |pending| ensures Ids(pending)[i] < Ids(pending)[j] {
        assert (called + Ids(pending))[|called| + i] < (called + Ids(pending))[|called| + j];
      }
    }
    IdsOfExact(pending, f);
    KeepIds(pending, f, d);
    CalledBeforePending(called, pending, f);
    MinusUntouched(called, d);
    MinusAppend(called, Ids(pending), d);
    MinusUnion(Upto(n), dropped, d);
  }

  lemma OnceRemove(s: State, f: Fn)
    requires Inv(s) && Once(s)
    ensures Once(Remove(s, f))
  {
    var t, called := s.trace, CalledIds(s.trace.calls);
    OnceEquation(called, Pending(s), t.additions, t.dropped, f);
    assert Pending(s) == s.list.value[From(s)..];
    DroppedArePending(s.list.value, From(s), called, f);
    assert Remove(s, f).trace.dropped == t.dropped + IdsOf(Pending(s), f);
    assert !s.firing ==> Pending(Remove(s, f)) == Keep(Pending(s), f);
    if s.firing {
      PendingAfterRemove(s, f);
      KeptBefore(s, f);
    }
  }

  lemma KeptBefore(s: State, f: Fn)
    requires s.list.Some? && s.firing && Shaped(s)
    requires forall k :: 0 <= k <= s.firingIndex ==> s.list.value[k].id in CalledIds(s.trace.calls)
    ensures var s' := Remove(s, f);
            Shaped(s') && forall k :: 0 <= k <= s'.firingIndex ==> s'.list.value[k].id in CalledIds(s.trace.calls)
  {
    var es, from, s' := s.list.value, s.firingIndex + 1, Remove(s, f);
    assert es == es[..from] + es[from..];
    PendingAfterRemove(s, f);
    KeepAppend(es[..from], es[from..], f);
    KeptWereThere(es[..from], f);
    forall k | 0 <= k <= s'.firingIndex ensures s'.list.value[k].id in CalledIds(s.trace.calls) {
      assert s'.list.value[k] == Keep(es[..from], f)[k] && Keep(es[..from], f)[k] in es[..from];
    }
  }

  lemma {:induction false} KeptWereThere(es: seq<Entry>, f: Fn)
    ensures forall e :: e in Keep(es, f) ==> e in es
  {
    if es != [] { KeptWereThere(es[..|es| - 1], f); }
  }

  lemma DroppedArePending(es: seq<Entry>, from: nat, called: seq<nat>, f: Fn)
    requires from <= |es| && forall k :: 0 <= k < from ==> es[k].id in called
    requires forall i :: i in called ==> i !in IdsOf(es[from..], f)
    ensures (set i | i in IdsOf(es, f) && i !in called) == IdsOf(es[from..], f)
  {
    forall i | i in IdsOf(es, f) && i !in called ensures i in IdsOf(es[from..], f) {
      var k :| 0 <= k < |es| && es[k].fn == f && es[k].id == i;
      assert es[from..][k - from] == es[k];
    }
    forall i | i in IdsOf(es[from..], f) ensures i in IdsOf(es, f) {
      var k :| 0 <= k < |es[from..]| && es[from..][k].fn == f && es[from..][k].id == i;
      assert es[from + k] == es[from..][k];
    }
  }

  lemma OnceFire(s: State, data: Data)
    requires Inv(s) && Once(s)
    ensures Once(FireWith(s, data))
  {
    if !s.fired {
      var a := s.(trace := s.trace.(accepted := s.trace.accepted + [data]));
      assert s.list.value[0..] == s.list.value == Pending(s);
      OnceLoop(BeginRound(a, data, 0, false));
    }
  }

  lemma OnceStep(s: State, op: Op)
    requires Inv(s) && Once(s) && !op.OpLock? && !op.OpDisable?
    ensures Once(Step(s, op))
  {
    match op {
      case OpAdd(fs) => hide *; OnceAdd(s, fs);
      case OpRemove(f) => hide *; OnceRemove(s, f);
      case OpFire(data) => hide *; OnceFire(s, data);
      case OpReturn =>
        hide Inv, Minus, Increasing, Upto;
        if s.firing { OnceLoop(s.(firingIndex := s.firingIndex + 1)); }
      case OpLock =>
      case OpDisable =>
    }
  }

  lemma {:induction false} OnceReachable(options: Options, ops: seq<Op>)
    requires options.once && options.memory && NeverLocks(ops)
    ensures Once(Run(options, ops))
  {
    if ops == [] {
      assert CalledIds([]) + Ids([]) == Minus(Upto(0), {});
    } else {
      OnceReachable(options, ops[..|ops| - 1]);
      OnceStep(Run(options, ops[..|ops| - 1]), ops[|ops| - 1]);
    }
  }

  /** For a "once memory" list at rest after its fire, however re-entrantly it was used: every
      addition before, during or after the fire that was not removed before its turn has been
      called exactly once, in addition order, with the data of the first fire. */
  lemma OnceMemory(options: Options, ops: seq<Op>)
    requires options.once && options.memory && NeverLocks(ops)
    ensures var s := Run(options, ops);
            s.fired && !s.firing ==>
              && CalledIds(s.trace.calls) == Minus(Upto(s.trace.additions), s.trace.dropped)
              && |s.trace.accepted| == 1
              && forall c :: c in s.trace.calls ==> c.data == s.trace.accepted[0]
  {
    OnceReachable(options, ops);
    var s := Run(options, ops);
    if s.fired && !s.firing {
      assert CalledIds(s.trace.calls) + Ids(Pending(s)) == CalledIds(s.trace.calls);
    }
  }
}
