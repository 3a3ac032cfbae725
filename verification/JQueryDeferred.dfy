/** jQuery.Deferred: three callback lists and a state. The first three functions of the done
    and the fail list are the deferred's own: set the state, disable the other list, lock the
    progress list. They run before any function of the user can. */
module JQueryDeferred {
  import opened C = Callbacks
  import opened Wrappers
  import opened Seqs

  datatype Status = Pending | Resolved | Rejected
  datatype Side = Done | Fail

  datatype Deferred = Deferred(done: C.State, fail: C.State, progress: C.State, state: Status)

  const ONCE_MEMORY := Options(true, true, false)
  const MEMORY := Options(false, true, false)

  const SET_STATE: Fn := 0
  const DISABLE_OTHER: Fn := 1
  const LOCK_PROGRESS: Fn := 2

  function Init(): Deferred {
    var own := C.Add(C.Init(ONCE_MEMORY), [SET_STATE, DISABLE_OTHER, LOCK_PROGRESS]);
    Deferred(own, own, C.Init(MEMORY), Pending)
  }

  function ListOf(x: Deferred, side: Side): C.State {
    if side == Done then x.done else x.fail
  }

  function With(x: Deferred, side: Side, l: C.State): Deferred {
    if side == Done then x.(done := l) else x.(fail := l)
  }

  function Other(side: Side): Side {
    if side == Done then Fail else Done
  }

  function Final(side: Side): Status {
    if side == Done then Resolved else Rejected
  }

  /** The function a list is calling. */
  function Calling(l: C.State): Option<Fn> {
    if l.firing && l.list.Some? && 0 <= l.firingIndex < |l.list.value| then Some(l.list.value[l.firingIndex].fn) else None
  }

  /** What the deferred's own functions do. */
  function Effect(x: Deferred, side: Side, fn: Fn): Deferred {
    if fn == SET_STATE then x.(state := Final(side))
    else if fn == DISABLE_OTHER then With(x, Other(side), C.Disable(ListOf(x, Other(side))))
    else if fn == LOCK_PROGRESS then x.(progress := C.Lock(x.progress))
    else x
  }

  /** When a list is calling one of the deferred's own functions: its effect, then its return. */
  function Internal(x: Deferred, side: Side): Deferred {
    var l := ListOf(x, side);
    match Calling(l)
    case None => x
    case Some(fn) =>
      if fn <= LOCK_PROGRESS && C.Shaped(l) then With(Effect(x, side, fn), side, C.Return(l)) else x
  }

  /** resolveWith or rejectWith. */
  function Settle(x: Deferred, side: Side, data: Data): Deferred {
    Internal(Internal(Internal(With(x, side, C.FireWith(ListOf(x, side), data)), side), side), side)
  }

  datatype UserOp =
    | AddTo(side: Side, fs: seq<Fn>)
    | AddProgress(fs: seq<Fn>)
    | SettleWith(side: Side, data: Data)
    | NotifyWith(data: Data)
    | ReturnFrom(side: Side)
    | ReturnFromProgress

  /** A function of the user is none of the deferred's own. */
  predicate Legal(op: UserOp) {
    op.AddTo? ==> forall k :: 0 <= k < |op.fs| ==> op.fs[k] > LOCK_PROGRESS
  }

  predicate ShapedAll(x: Deferred) {
    C.Shaped(x.done) && C.Shaped(x.fail) && C.Shaped(x.progress)
  }

  function Step(x: Deferred, op: UserOp): Deferred
    requires ShapedAll(x)
  {
    match op
    case AddTo(side, fs) => With(x, side, C.Step(ListOf(x, side), OpAdd(fs)))
    case AddProgress(fs) => x.(progress := C.Step(x.progress, OpAdd(fs)))
    case SettleWith(side, data) => Settle(x, side, data)
    case NotifyWith(data) => x.(progress := C.Step(x.progress, OpFire(data)))
    case ReturnFrom(side) => With(x, side, C.Step(ListOf(x, side), OpReturn))
    case ReturnFromProgress => x.(progress := C.Step(x.progress, OpReturn))
  }

  // ------------------------------------------------------------------ invariant

  /** Not fired yet: the deferred's own functions, then those of the user; nothing was called. */
  predicate Waiting(l: C.State) {
    && !l.fired && !l.firing && l.list.Some? && |l.list.value| >= 3
    && (forall k :: 0 <= k < 3 ==> l.list.value[k].fn == k)
    && (forall k :: 3 <= k < |l.list.value| ==> l.list.value[k].fn > LOCK_PROGRESS)
    && l.trace.calls == [] && l.memory.None? && l.stack.None?
  }

  /** Fired, and past the deferred's own functions. */
  predicate Settled(l: C.State) {
    && l.fired && l.list.Some? && l.memory.Some? && l.stack.None?
    && (if l.firing then 3 <= l.firingIndex || forall k :: 0 <= k < |l.list.value| ==> l.list.value[k].fn > LOCK_PROGRESS
        else l.list.value == [])
    && (forall k :: 3 <= k < |l.list.value| ==> l.list.value[k].fn > LOCK_PROGRESS)
  }

  predicate Disabled(l: C.State) {
    l.list.None? && !l.fired && !l.firing && l.trace.calls == []
  }

  predicate Locked(l: C.State) {
    l.stack.None? && (l.list.Some? ==> l.fired)
  }

  /** One of the two lists that settle, as far as the callbacks machine goes. Nothing is ever
      removed from it. */
  predicate SideList(l: C.State) {
    C.Inv(l) && l.options == ONCE_MEMORY && (l.list.Some? ==> C.Once(l)) && l.trace.dropped == {}
  }

  predicate Inv(x: Deferred) {
    && SideList(x.done) && SideList(x.fail)
    && C.Inv(x.progress) && x.progress.options == MEMORY && (x.progress.memory.Some? ==> x.progress.fired)
    && match x.state
       case Pending => Waiting(x.done) && Waiting(x.fail)
       case Resolved => Settled(x.done) && Disabled(x.fail) && Locked(x.progress)
       case Rejected => Settled(x.fail) && Disabled(x.done) && Locked(x.progress)
  }

  lemma {:induction false} PushUsers(es: seq<Entry>, fs: seq<Fn>, id: nat)
    requires forall k :: 0 <= k < |fs| ==> fs[k] > LOCK_PROGRESS
    ensures forall k :: |es| <= k < |Push(es, fs, false, id)| ==> Push(es, fs, false, id)[k].fn > LOCK_PROGRESS
    decreases fs
  {
    if fs != [] {
      PushUsers(es + [Entry(fs[0], id)], fs[1..], id + 1);
      var r := Push(es, fs, false, id);
      assert r[..|es| + 1] == es + [Entry(fs[0], id)];
      assert r[|es|] == r[..|es| + 1][|es|];
    }
  }

  // ------------------------------------------------------------------ one list at a time

  lemma WaitingAdd(l: C.State, fs: seq<Fn>)
    requires Waiting(l) && !l.options.unique && forall k :: 0 <= k < |fs| ==> fs[k] > LOCK_PROGRESS
    ensures Waiting(C.Add(l, fs))
  {
    var es := Push(l.list.value, fs, false, l.trace.additions);
    PushUsers(l.list.value, fs, l.trace.additions);
    forall k | 0 <= k < |l.list.value| ensures es[k] == l.list.value[k] {
      assert es[..|l.list.value|][k] == l.list.value[k];
    }
  }

  /** The fire calls the three functions of the deferred first, one after the other. */
  lemma WaitingFire(l: C.State, data: Data)
    requires Waiting(l) && l.options == ONCE_MEMORY
    ensures var l0 := C.FireWith(l, data);
            && Calling(l0) == Some(SET_STATE) && C.Shaped(l0)
            && (var l1 := C.Return(l0);
                && Calling(l1) == Some(DISABLE_OTHER) && C.Shaped(l1) && l1.firing
                && (var l2 := C.Return(l1);
                    && Calling(l2) == Some(LOCK_PROGRESS) && C.Shaped(l2) && l2.firing
                    && Settled(C.Return(l2))))
  {
    var l0 := C.FireWith(l, data);
    var b := C.BeginRound(l.(trace := l.trace.(accepted := l.trace.accepted + [data])), data, 0, false);
    assert l0 == C.Loop(b) == C.CallNext(b);
    assert l0.firing && l0.firingIndex == 0 && l0.list == l.list;
    var l1 := C.Return(l0);
    assert l1.firing && l1.firingIndex == 1 && l1.list == l.list;
    var l2 := C.Return(l1);
    assert l2.firing && l2.firingIndex == 2 && l2.list == l.list;
    SettledLoop(l2.(firingIndex := 3));
  }

  lemma SettledLoop(l: C.State)
    requires l.fired && l.firing && l.list.Some? && l.memory.Some? && l.stack.None?
    requires 0 <= l.firingIndex <= l.firingLength == |l.list.value|
    requires 3 <= l.firingIndex || forall k :: 0 <= k < |l.list.value| ==> l.list.value[k].fn > LOCK_PROGRESS
    requires forall k :: 3 <= k < |l.list.value| ==> l.list.value[k].fn > LOCK_PROGRESS
    ensures Settled(C.Loop(l))
  {
  }

  lemma SettledStep(l: C.State, op: C.Op)
    requires Settled(l) && C.Inv(l) && l.options == ONCE_MEMORY
    requires op.OpAdd? || op.OpFire? || op.OpReturn?
    requires op.OpAdd? ==> forall k :: 0 <= k < |op.fs| ==> op.fs[k] > LOCK_PROGRESS
    ensures Settled(C.Step(l, op))
  {
    match op {
      case OpAdd(fs) =>
        var es := Push(l.list.value, fs, false, l.trace.additions);
        PushUsers(l.list.value, fs, l.trace.additions);
        forall k | 0 <= k < |l.list.value| ensures es[k] == l.list.value[k] {
          assert es[..|l.list.value|][k] == l.list.value[k];
        }
        if !l.firing {
          SettledLoop(C.BeginRound(C.Extend(l, fs), l.memory.value, 0, true));
        }
      case OpFire(_) =>
      case OpReturn =>
        if l.firing { SettledLoop(l.(firingIndex := l.firingIndex + 1)); }
      case OpRemove(_) =>
      case OpLock =>
      case OpDisable =>
    }
  }

  lemma DisabledStep(l: C.State, op: C.Op)
    requires Disabled(l)
    ensures Disabled(C.Step(l, op))
  {
  }

  /** A locked list answers no further fire; only replays for added functions can start. */
  lemma LockedLoop(l: C.State)
    requires C.AtTest(l) && Locked(l)
    ensures Locked(C.Loop(l)) && Answered(AllRounds(C.Loop(l))) == Answered(AllRounds(l))
  {
    var t, l' := l.trace, C.Loop(l);
    FlatSnoc(t.rounds, t.current);
    if l'.firing {
      FlatSnoc(t.rounds, l'.trace.current);
    } else {
      assert l' == C.EndRound(l) && l'.trace == C.Archive(l).trace;
      FlatSnoc(t.rounds, t.current.(cut := l.list.None?));
      assert AllRounds(l') == t.rounds + [t.current.(cut := l.list.None?)];
    }
  }

  lemma LockedAdd(l: C.State, fs: seq<C.Fn>)
    requires C.Inv(l) && Locked(l) && l.list.Some?
    ensures Locked(C.Step(l, C.OpAdd(fs))) && Answered(AllRounds(C.Step(l, C.OpAdd(fs)))) == Answered(AllRounds(l))
  {
    if l.firing {
      LockedExtend(l, fs);
    } else if l.memory.Some? {
      LockedReplay(l, fs);
    }
  }

  lemma LockedExtend(l: C.State, fs: seq<C.Fn>)
    requires C.Inv(l) && Locked(l) && l.list.Some? && l.firing
    ensures Locked(C.Extend(l, fs)) && Answered(AllRounds(C.Extend(l, fs))) == Answered(AllRounds(l))
  {
    var x := C.Extend(l, fs);
    C.ExtendKeepsHistory(l, fs);
    hide C.Inv, C.Extend, C.History, Flat;
    FlatSnoc(l.trace.rounds, l.trace.current);
    FlatSnoc(l.trace.rounds, x.trace.current);
  }

  lemma LockedReplay(l: C.State, fs: seq<C.Fn>)
    requires C.Inv(l) && Locked(l) && l.list.Some? && !l.firing && l.memory.Some?
    ensures Locked(C.Step(l, C.OpAdd(fs))) && Answered(AllRounds(C.Step(l, C.OpAdd(fs)))) == Answered(AllRounds(l))
  {
    var x := C.Extend(l, fs);
    C.ExtendKeepsHistory(l, fs);
    var b := C.BeginRound(x, l.memory.value, |l.list.value|, true);
    C.BeginRoundKeeps(x, l.memory.value, |l.list.value|, true);
    hide C.Inv;
    FlatSnoc(x.trace.rounds, b.trace.current);
    LockedLoop(b);
  }

  lemma LockedStep(l: C.State, op: C.Op)
    requires C.Inv(l) && Locked(l) && (op.OpAdd? || op.OpFire? || op.OpReturn?)
    ensures Locked(C.Step(l, op)) && Answered(AllRounds(C.Step(l, op))) == Answered(AllRounds(l))
  {
    match op {
      case OpAdd(fs) =>
        if l.list.Some? { LockedAdd(l, fs); }
      case OpFire(_) =>
      case OpReturn =>
        if l.firing {
          var b := l.(firingIndex := l.firingIndex + 1);
          assert AllRounds(b) == AllRounds(l);
          LockedLoop(b);
        }
      case OpRemove(_) =>
      case OpLock =>
      case OpDisable =>
    }
  }

  lemma {:induction false} LoopFired(l: C.State)
    requires l.fired && (l.list.Some? ==> 0 <= l.firingIndex <= l.firingLength == |l.list.value|)
    ensures C.Loop(l).fired
    decreases if l.stack.Some? then |l.stack.value| else 0
  {
    if !(l.list.Some? && l.firingIndex < l.firingLength) && l.list.Some? && l.stack.Some? && l.stack.value != [] {
      var e := C.Archive(l);
      var rest, data := e.(stack := Some(e.stack.value[1..])), e.stack.value[0];
      LoopFired(C.BeginRound(rest, data, 0, false));
      assert C.Loop(l) == C.EndRound(l) == C.Fire(rest, data, 0, false);
    }
  }

  lemma MemoryMeansFired(l: C.State, op: C.Op)
    requires C.Inv(l) && (l.memory.Some? ==> l.fired)
    ensures C.Step(l, op).memory.Some? ==> C.Step(l, op).fired
  {
    match op {
      case OpAdd(fs) =>
        if l.list.Some? && !l.firing && l.memory.Some? {
          LoopFired(C.BeginRound(C.Extend(l, fs), l.memory.value, |l.list.value|, true));
        }
      case OpFire(data) =>
        if l.list.Some? && !l.firing {
          LoopFired(C.BeginRound(l.(trace := l.trace.(accepted := l.trace.accepted + [data])), data, 0, false));
        }
      case OpReturn => if l.firing { LoopFired(l.(firingIndex := l.firingIndex + 1)); }
      case OpRemove(_) =>
      case OpLock =>
      case OpDisable =>
    }
  }

  lemma {:induction false} DroppedLoop(l: C.State)
    requires l.list.Some? ==> 0 <= l.firingIndex <= l.firingLength == |l.list.value|
    ensures C.Loop(l).trace.dropped == l.trace.dropped
    decreases if l.stack.Some? then |l.stack.value| else 0
  {
    if !(l.list.Some? && l.firingIndex < l.firingLength) && l.list.Some? && l.stack.Some? && l.stack.value != [] {
      var e := C.Archive(l);
      var rest, data := e.(stack := Some(e.stack.value[1..])), e.stack.value[0];
      DroppedLoop(C.BeginRound(rest, data, 0, false));
      assert C.Loop(l) == C.EndRound(l) == C.Fire(rest, data, 0, false);
    }
  }

  /** Without remove, a step keeps what is said of a list that settles. */
  lemma SideListStep(l: C.State, op: C.Op)
    requires SideList(l) && !op.OpRemove? && !op.OpLock?
    ensures SideList(C.Step(l, op))
  {
    hide C.Inv, C.Once, C.Step;
    InvIsShaped(l);
    C.StepKeeps(l, op);
    if op.OpDisable? {
      DisableEmpties(l);
    } else if l.list.Some? {
      C.OnceStep(l, op);
    } else {
      NoneStays(l, op);
    }
    DroppedStep(l, op);
  }

  lemma InvIsShaped(l: C.State)
    requires C.Inv(l)
    ensures C.Shaped(l)
  {
    hide C.History, C.Queued, C.Progress;
  }

  lemma DisableEmpties(l: C.State)
    requires C.Shaped(l)
    ensures C.Step(l, OpDisable).list.None?
  {
  }

  lemma NoneStays(l: C.State, op: C.Op)
    requires l.list.None? && C.Shaped(l)
    ensures C.Step(l, op).list.None?
  {
    if op.OpReturn? && l.firing {
      var b := l.(firingIndex := l.firingIndex + 1);
      assert C.Return(l) == C.Loop(b) == C.EndRound(b) == C.Archive(b);
    }
  }

  lemma DroppedStep(l: C.State, op: C.Op)
    requires C.Shaped(l) && !op.OpRemove?
    ensures C.Step(l, op).trace.dropped == l.trace.dropped
  {
    match op {
      case OpAdd(fs) =>
        if l.list.Some? && !l.firing && l.memory.Some? {
          DroppedLoop(C.BeginRound(C.Extend(l, fs), l.memory.value, |l.list.value|, true));
        }
      case OpFire(data) =>
        if l.list.Some? && !l.firing {
          DroppedLoop(C.BeginRound(l.(trace := l.trace.(accepted := l.trace.accepted + [data])), data, 0, false));
        }
      case OpReturn => if l.firing { DroppedLoop(l.(firingIndex := l.firingIndex + 1)); }
      case OpRemove(_) =>
      case OpLock =>
      case OpDisable =>
    }
  }

  // ------------------------------------------------------------------ the three lists together

  lemma InternalRuns(x: Deferred, side: Side, fn: Fn)
    requires Calling(ListOf(x, side)) == Some(fn) && fn <= LOCK_PROGRESS && C.Shaped(ListOf(x, side))
    ensures Internal(x, side) == With(Effect(x, side, fn), side, C.Return(ListOf(x, side)))
  {
  }

  /** The list as it stands when its own three functions have returned. */
  lemma PastOwn(l: C.State, data: Data) returns (l0: C.State, l1: C.State, l2: C.State, l3: C.State)
    requires Waiting(l) && SideList(l)
    ensures l0 == C.FireWith(l, data) && Calling(l0) == Some(SET_STATE) && C.Shaped(l0)
    ensures l1 == C.Return(l0) && Calling(l1) == Some(DISABLE_OTHER) && C.Shaped(l1)
    ensures l2 == C.Return(l1) && Calling(l2) == Some(LOCK_PROGRESS) && C.Shaped(l2)
    ensures l3 == C.Return(l2) && Settled(l3) && SideList(l3)
  {
    WaitingFire(l, data);
    l0 := C.FireWith(l, data);
    l1 := C.Return(l0);
    l2 := C.Return(l1);
    l3 := C.Return(l2);
    assert SideList(l3) by {
      SideListStep(l, OpFire(data));
      SideListStep(l0, OpReturn);
      SideListStep(l1, OpReturn);
      SideListStep(l2, OpReturn);
    }
  }

  /** While pending, settling sets the state, disables the other list, locks the progress list
      and goes on to the functions of the user, in one piece. */
  lemma SettlePending(x: Deferred, side: Side, data: Data) returns (l3: C.State)
    requires Waiting(ListOf(x, side)) && SideList(ListOf(x, side))
    ensures Settle(x, side, data) ==
            With(With(x.(state := Final(side), progress := C.Lock(x.progress)), Other(side),
                      C.Disable(ListOf(x, Other(side)))), side, l3)
    ensures Settled(l3) && SideList(l3)
  {
    var l0, l1, l2;
    l0, l1, l2, l3 := PastOwn(ListOf(x, side), data);
    var x0 := With(x, side, l0);
    InternalRuns(x0, side, SET_STATE);
    var x1 := With(x0.(state := Final(side)), side, l1);
    InternalRuns(x1, side, DISABLE_OTHER);
    var x2 := With(With(x1, Other(side), C.Disable(ListOf(x, Other(side)))), side, l2);
    InternalRuns(x2, side, LOCK_PROGRESS);
  }

  lemma DisableWaiting(l: C.State)
    requires Waiting(l) && SideList(l)
    ensures Disabled(C.Disable(l)) && SideList(C.Disable(l))
  {
    SideListStep(l, OpDisable);
  }

  lemma LockProgressList(l: C.State)
    requires C.Inv(l) && l.options == MEMORY && (l.memory.Some? ==> l.fired)
    ensures var l' := C.Lock(l);
            Locked(l') && C.Inv(l') && l'.options == MEMORY && (l'.memory.Some? ==> l'.fired)
  {
    C.StepKeeps(l, OpLock);
    hide C.History, C.Queued, C.Progress;
  }

  lemma InvSettle(x: Deferred, side: Side, data: Data)
    requires Inv(x) && x.state == Pending
    ensures Inv(Settle(x, side, data)) && Settle(x, side, data).state == Final(side)
  {
    hide C.Inv, SideList, Waiting, Settled, Disabled, Locked, C.Lock, C.Disable, Settle;
    var l3 := SettlePending(x, side, data);
    DisableWaiting(ListOf(x, Other(side)));
    LockProgressList(x.progress);
  }

  lemma SettleAgain(x: Deferred, side: Side, data: Data)
    requires Inv(x) && x.state != Pending
    ensures Settle(x, side, data) == x
  {
    var l := ListOf(x, side);
    assert C.FireWith(l, data) == l;
    assert Internal(x, side) == x;
  }

  lemma PushOne(es: seq<Entry>, f: Fn, fs: seq<Fn>, id: nat)
    ensures Push(es, [f] + fs, false, id) == Push(es + [Entry(f, id)], fs, false, id + 1)
  {
    assert ([f] + fs)[1..] == fs;
  }

  lemma OwnFunctions()
    ensures Push([], [SET_STATE, DISABLE_OTHER, LOCK_PROGRESS], false, 0) == [Entry(0, 0), Entry(1, 1), Entry(2, 2)]
  {
    assert [SET_STATE, DISABLE_OTHER, LOCK_PROGRESS] == [SET_STATE] + [DISABLE_OTHER, LOCK_PROGRESS];
    assert [DISABLE_OTHER, LOCK_PROGRESS] == [DISABLE_OTHER] + [LOCK_PROGRESS] && [LOCK_PROGRESS] == [LOCK_PROGRESS] + [];
    assert [] + [Entry(0, 0)] == [Entry(0, 0)] && [Entry(0, 0)] + [Entry(1, 1)] == [Entry(0, 0), Entry(1, 1)];
    assert [Entry(0, 0), Entry(1, 1)] + [Entry(2, 2)] == [Entry(0, 0), Entry(1, 1), Entry(2, 2)];
    PushOne([], SET_STATE, [DISABLE_OTHER, LOCK_PROGRESS], 0);
    PushOne([Entry(0, 0)], DISABLE_OTHER, [LOCK_PROGRESS], 1);
    PushOne([Entry(0, 0), Entry(1, 1)], LOCK_PROGRESS, [], 2);
  }

  lemma NewSideList()
    ensures SideList(C.Init(ONCE_MEMORY)) && C.Inv(C.Init(MEMORY))
  {
    assert CalledIds([]) + Ids([]) == Minus(Upto(0), {});
  }

  lemma OwnSideList()
    ensures SideList(Init().done)
  {
    NewSideList();
    hide SideList, C.Inv, Push;
    SideListStep(C.Init(ONCE_MEMORY), OpAdd([SET_STATE, DISABLE_OTHER, LOCK_PROGRESS]));
  }

  lemma InvInit()
    ensures Inv(Init())
  {
    OwnFunctions();
    OwnSideList();
    NewSideList();
    hide SideList, C.Inv;
  }

  lemma InvSide(x: Deferred, side: Side, op: C.Op)
    requires Inv(x) && (op.OpAdd? || op.OpReturn?)
    requires op.OpAdd? ==> forall k :: 0 <= k < |op.fs| ==> op.fs[k] > LOCK_PROGRESS
    ensures Inv(With(x, side, C.Step(ListOf(x, side), op)))
  {
    var l := ListOf(x, side);
    SideListStep(l, op);
    if x.state == Pending {
      if op.OpAdd? { WaitingAdd(l, op.fs); }
    } else if x.state == Final(side) {
      SettledStep(l, op);
    } else {
      DisabledStep(l, op);
    }
  }

  lemma InvProgress(x: Deferred, op: C.Op)
    requires Inv(x) && (op.OpAdd? || op.OpFire? || op.OpReturn?)
    ensures Inv(x.(progress := C.Step(x.progress, op)))
    ensures x.state != Pending ==> Answered(AllRounds(C.Step(x.progress, op))) == Answered(AllRounds(x.progress))
  {
    C.StepKeeps(x.progress, op);
    MemoryMeansFired(x.progress, op);
    if x.state != Pending { LockedStep(x.progress, op); }
  }

  lemma InvStep(x: Deferred, op: UserOp)
    requires Inv(x) && Legal(op)
    ensures Inv(Step(x, op))
    ensures x.state != Pending ==> Step(x, op).state == x.state
    ensures x.state != Pending ==> Answered(AllRounds(Step(x, op).progress)) == Answered(AllRounds(x.progress))
  {
    hide Inv, C.Inv, C.Step, Settle, AllRounds, Answered;
    match op {
      case AddTo(side, fs) => InvSide(x, side, OpAdd(fs));
      case AddProgress(fs) => InvProgress(x, OpAdd(fs));
      case SettleWith(side, data) =>
        if x.state == Pending {
          InvSettle(x, side, data);
        } else {
          SettleAgain(x, side, data);
        }
      case NotifyWith(data) => InvProgress(x, OpFire(data));
      case ReturnFrom(side) => InvSide(x, side, OpReturn);
      case ReturnFromProgress => InvProgress(x, OpReturn);
    }
  }

  /** The deferred after a run of steps of its users, in any order. */
  function After(ops: seq<UserOp>): (x: Deferred)
    requires forall k :: 0 <= k < |ops| ==> Legal(ops[k])
    ensures Inv(x)
  {
    if ops == [] then InvInit(); Init()
    else
      var before := After(ops[..|ops| - 1]);
      InvStep(before, ops[|ops| - 1]);
      Step(before, ops[|ops| - 1])
  }

  /** Pending is left at most once, and after that no notify is answered by a round any more. */
  lemma {:induction false} SettlesOnce(ops: seq<UserOp>, n: nat)
    requires n <= |ops| && forall k :: 0 <= k < |ops| ==> Legal(ops[k])
    ensures After(ops[..n]).state != Pending ==>
              && After(ops).state == After(ops[..n]).state
              && Answered(AllRounds(After(ops).progress)) == Answered(AllRounds(After(ops[..n]).progress))
  {
    hide Inv, AllRounds, Answered, Step, After;
    if n == |ops| {
      assert ops[..n] == ops;
    } else {
      var front := ops[..|ops| - 1];
      assert front[..n] == ops[..n];
      SettlesOnce(front, n);
      AfterSnoc(ops);
      InvStep(After(front), ops[|ops| - 1]);
    }
  }

  lemma AfterSnoc(ops: seq<UserOp>)
    requires ops != [] && forall k :: 0 <= k < |ops| ==> Legal(ops[k])
    ensures After(ops) == Step(After(ops[..|ops| - 1]), ops[|ops| - 1])
  {
    hide Inv, Step;
  }

  /** Only the list of the outcome ever calls anything. At rest it has called every function
      added to it so far, its own and the user's, once, in order, with the settling data. */
  lemma OutcomeIsDelivered(ops: seq<UserOp>)
    requires forall k :: 0 <= k < |ops| ==> Legal(ops[k])
    ensures var x := After(ops);
            match x.state
            case Pending => x.done.trace.calls == [] && x.fail.trace.calls == []
            case Resolved => x.fail.trace.calls == [] && (!x.done.firing ==> AllCalled(x.done))
            case Rejected => x.done.trace.calls == [] && (!x.fail.firing ==> AllCalled(x.fail))
  {
    var x := After(ops);
    hide AllCalled;
    if x.state == Resolved && !x.done.firing { AllCalledAtRest(x.done); }
    if x.state == Rejected && !x.fail.firing { AllCalledAtRest(x.fail); }
  }

  lemma AllCalledAtRest(l: C.State)
    requires SideList(l) && Settled(l) && !l.firing
    ensures AllCalled(l)
  {
    hide C.Inv, Increasing;
    assert CalledIds(l.trace.calls) + Ids(C.Pending(l)) == CalledIds(l.trace.calls);
    MinusNothing(Upto(l.trace.additions));
  }

  predicate AllCalled(l: C.State) {
    && CalledIds(l.trace.calls) == Upto(l.trace.additions)
    && |l.trace.accepted| == 1
    && forall c :: c in l.trace.calls ==> c.data == l.trace.accepted[0]
  }
}
