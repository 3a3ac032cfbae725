/** What the users of a deferred may rely on, told by the calls they make: its three callback
    lists are plain lists that take the steps meant for them. */
module DeferredLaws {
  import opened C = Callbacks
  import opened CallbackLaws
  import opened Wrappers
  import opened Seqs
  import opened D = JQueryDeferred

  ghost predicate AllLegal(ops: seq<UserOp>) {
    forall k :: 0 <= k < |ops| ==> Legal(ops[k])
  }

  // ------------------------------------------------------------------ the steps each list takes

  predicate NeverSettles(ops: seq<UserOp>) {
    forall k :: 0 <= k < |ops| ==> !ops[k].SettleWith?
  }

  /** What a user step is for the done or the fail list. Only the first settlement counts: it
      fires its own list past the deferred's own functions and disables the other one. */
  function SideStep(side: Side, op: UserOp, pending: bool): seq<Op> {
    match op
    case AddTo(s, fs) => if s == side then [OpAdd(fs)] else []
    case ReturnFrom(s) => if s == side then [OpReturn] else []
    case SettleWith(s, data) =>
      if !pending then []
      else if s == side then [OpFire(data), OpReturn, OpReturn, OpReturn]
      else [OpDisable]
    case _ => []
  }

  function SideOps(side: Side, ops: seq<UserOp>): seq<Op> {
    if ops == [] then [OpAdd([SET_STATE, DISABLE_OTHER, LOCK_PROGRESS])]
    else
      var front := ops[..|ops| - 1];
      SideOps(side, front) + SideStep(side, ops[|ops| - 1], NeverSettles(front))
  }

  function ProgressStep(op: UserOp, pending: bool): seq<Op> {
    match op
    case AddProgress(fs) => [OpAdd(fs)]
    case NotifyWith(data) => [OpFire(data)]
    case ReturnFromProgress => [OpReturn]
    case SettleWith(_, _) => if pending then [OpLock] else []
    case _ => []
  }

  function ProgressOps(ops: seq<UserOp>): seq<Op> {
    if ops == [] then []
    else
      var front := ops[..|ops| - 1];
      ProgressOps(front) + ProgressStep(ops[|ops| - 1], NeverSettles(front))
  }

  lemma RunOne(options: Options, a: seq<Op>, op: Op)
    ensures C.Inv(C.Run(options, a))
    ensures C.Run(options, a + [op]) == C.Step(C.Run(options, a), op)
  {
    assert (a + [op])[..|a|] == a;
    hide C.Inv, C.Step;
  }

  lemma RunFour(options: Options, a: seq<Op>, data: Data)
    ensures var s0 := C.Run(options, a);
            && C.Inv(s0)
            && var s1 := C.Step(s0, OpFire(data));
            && C.Inv(s1)
            && var s2 := C.Step(s1, OpReturn);
            && C.Inv(s2)
            && var s3 := C.Step(s2, OpReturn);
            && C.Inv(s3)
            && C.Run(options, a + [OpFire(data), OpReturn, OpReturn, OpReturn]) == C.Step(s3, OpReturn)
  {
    var a1, a2, a3 := a + [OpFire(data)], a + [OpFire(data), OpReturn], a + [OpFire(data), OpReturn, OpReturn];
    assert a1 + [OpReturn] == a2 && a2 + [OpReturn] == a3;
    assert a3 + [OpReturn] == a + [OpFire(data), OpReturn, OpReturn, OpReturn];
    RunOne(options, a, OpFire(data));
    RunOne(options, a1, OpReturn);
    RunOne(options, a2, OpReturn);
    RunOne(options, a3, OpReturn);
    hide *;
  }

  /** The deferred settled: its state set, the other list disabled, the progress list locked. */
  function SettledWith(x: Deferred, side: Side, l3: C.State): Deferred {
    With(With(x.(state := Final(side), progress := C.Lock(x.progress)), Other(side), C.Disable(ListOf(x, Other(side)))),
         side, l3)
  }

  /** The list that settles takes the fire and the three returns. */
  lemma FireSteps(x: Deferred, side: Side, data: Data) returns (l3: C.State)
    requires Waiting(ListOf(x, side)) && SideList(ListOf(x, side))
    ensures var s1 := C.Step(ListOf(x, side), OpFire(data));
            && C.Shaped(s1)
            && var s2 := C.Step(s1, OpReturn);
            && C.Shaped(s2)
            && var s3 := C.Step(s2, OpReturn);
            C.Shaped(s3) && l3 == C.Step(s3, OpReturn)
    ensures Settle(x, side, data) == SettledWith(x, side, l3)
  {
    hide SideList, Waiting, D.Settled, C.Inv, Settle, SettledWith, C.FireWith, C.Return;
    var l0, l1, l2;
    l0, l1, l2, l3 := PastOwn(ListOf(x, side), data);
    SettleIs(x, side, data, l0, l1, l2, l3);
  }

  lemma SettleIs(x: Deferred, side: Side, data: Data, l0: C.State, l1: C.State, l2: C.State, l3: C.State)
    requires l0 == C.FireWith(ListOf(x, side), data) && Calling(l0) == Some(SET_STATE) && C.Shaped(l0)
    requires l1 == C.Return(l0) && Calling(l1) == Some(DISABLE_OTHER) && C.Shaped(l1)
    requires l2 == C.Return(l1) && Calling(l2) == Some(LOCK_PROGRESS) && C.Shaped(l2)
    requires l3 == C.Return(l2)
    ensures Settle(x, side, data) == SettledWith(x, side, l3)
  {
    hide C.Return, C.FireWith, C.Lock, C.Disable, Calling, C.Shaped;
    var x0 := With(x, side, l0);
    InternalRuns(x0, side, SET_STATE);
    var x1 := With(x0.(state := Final(side)), side, l1);
    InternalRuns(x1, side, DISABLE_OTHER);
    var x2 := With(With(x1, Other(side), C.Disable(ListOf(x, Other(side)))), side, l2);
    InternalRuns(x2, side, LOCK_PROGRESS);
    hide Internal;
  }

  lemma SettleRuns(x: Deferred, side: Side, mine: seq<Op>, data: Data) returns (l3: C.State)
    requires Waiting(ListOf(x, side)) && SideList(ListOf(x, side)) && ListOf(x, side) == C.Run(ONCE_MEMORY, mine)
    ensures l3 == C.Run(ONCE_MEMORY, mine + [OpFire(data), OpReturn, OpReturn, OpReturn])
    ensures Settle(x, side, data) == SettledWith(x, side, l3)
  {
    l3 := FireSteps(x, side, data);
    hide C.Inv, C.Run, Settle, C.FireWith, C.Return, C.Lock, C.Disable, SideList, Waiting, C.Step, SettledWith;
    RunFour(ONCE_MEMORY, mine, data);
  }

  /** The three lists have taken these steps. */
  ghost predicate Tracks(x: Deferred, done: seq<Op>, fail: seq<Op>, progress: seq<Op>) {
    && x.done == C.Run(ONCE_MEMORY, done) && x.fail == C.Run(ONCE_MEMORY, fail)
    && x.progress == C.Run(MEMORY, progress)
  }

  lemma RunSteps(l: C.State, options: Options, a: seq<Op>, steps: seq<Op>)
    requires l == C.Run(options, a) && |steps| <= 1
    ensures C.Shaped(l)
    ensures C.Run(options, a + steps) == if steps == [] then l else C.Step(l, steps[0])
  {
    if steps == [] { assert a + steps == a; } else {
      assert steps == [steps[0]];
      RunOne(options, a, steps[0]);
    }
    hide History, Queued, Progress, C.Step;
  }

  lemma TracksSettle(x: Deferred, side: Side, data: Data, done: seq<Op>, fail: seq<Op>, progress: seq<Op>)
    requires D.Inv(x) && x.state == D.Pending && Tracks(x, done, fail, progress)
    ensures var op, r := SettleWith(side, data), Settle(x, side, data);
            && r.state == Final(side)
            && Tracks(r, done + SideStep(Done, op, true), fail + SideStep(Fail, op, true), progress + ProgressStep(op, true))
  {
    var mine, theirs := if side == Done then done else fail, if side == Done then fail else done;
    hide D.Inv, C.Run, C.Inv, Settle, C.Lock, C.Disable, SideList, Waiting, C.Step, NeverLocks;
    WaitingBoth(x);
    var l3 := SettleRuns(x, side, mine, data);
    DisableRuns(ListOf(x, Other(side)), theirs);
    LockRuns(x.progress, progress);
  }

  lemma DisableRuns(l: C.State, a: seq<Op>)
    requires l == C.Run(ONCE_MEMORY, a)
    ensures C.Disable(l) == C.Run(ONCE_MEMORY, a + [OpDisable])
  {
    RunOne(ONCE_MEMORY, a, OpDisable);
    hide C.Inv, C.Run;
  }

  lemma LockRuns(l: C.State, a: seq<Op>)
    requires l == C.Run(MEMORY, a)
    ensures C.Lock(l) == C.Run(MEMORY, a + [OpLock])
  {
    RunOne(MEMORY, a, OpLock);
    hide C.Inv, C.Run;
  }

  lemma WaitingBoth(x: Deferred)
    requires D.Inv(x) && x.state == D.Pending
    ensures forall side :: Waiting(ListOf(x, side)) && SideList(ListOf(x, side))
  {
  }

  lemma TracksStep(x: Deferred, op: UserOp, done: seq<Op>, fail: seq<Op>, progress: seq<Op>)
    requires D.Inv(x) && Tracks(x, done, fail, progress)
    ensures var r, pending := D.Step(x, op), x.state == D.Pending;
            && Tracks(r, done + SideStep(Done, op, pending), fail + SideStep(Fail, op, pending),
                      progress + ProgressStep(op, pending))
            && r.state == if op.SettleWith? && pending then Final(op.side) else x.state
  {
    hide D.Inv, C.Run, Settle, C.Step, C.Inv, Tracks, SideStep, ProgressStep;
    if op.SettleWith? && x.state == D.Pending {
      TracksSettle(x, op.side, op.data, done, fail, progress);
      SettleStep(x, op);
    } else {
      if op.SettleWith? {
        SettleAgain(x, op.side, op.data);
        SettleStep(x, op);
      }
      QuietStep(x, op, done, fail, progress);
    }
  }

  lemma SettleStep(x: Deferred, op: UserOp)
    requires D.Inv(x) && op.SettleWith?
    ensures D.Step(x, op) == Settle(x, op.side, op.data)
  {
    hide Settle;
  }

  /** Any other step is a step of one list. */
  lemma QuietStep(x: Deferred, op: UserOp, done: seq<Op>, fail: seq<Op>, progress: seq<Op>)
    requires D.Inv(x) && Tracks(x, done, fail, progress)
    requires op.SettleWith? ==> x.state != D.Pending && D.Step(x, op) == x
    ensures var r, pending := D.Step(x, op), x.state == D.Pending;
            && Tracks(r, done + SideStep(Done, op, pending), fail + SideStep(Fail, op, pending),
                      progress + ProgressStep(op, pending))
            && r.state == x.state
  {
    hide D.Inv, C.Run, Settle, C.Step, C.Inv, History, Queued, Progress;
    var pending := x.state == D.Pending;
    RunSteps(x.done, ONCE_MEMORY, done, SideStep(Done, op, pending));
    RunSteps(x.fail, ONCE_MEMORY, fail, SideStep(Fail, op, pending));
    RunSteps(x.progress, MEMORY, progress, ProgressStep(op, pending));
  }

  lemma NewTracks()
    ensures Tracks(D.Init(), SideOps(Done, []), SideOps(Fail, []), ProgressOps([]))
  {
    var own := [SET_STATE, DISABLE_OTHER, LOCK_PROGRESS];
    RunOne(ONCE_MEMORY, [], OpAdd(own));
    assert [] + [OpAdd(own)] == [OpAdd(own)];
    hide C.Inv, C.Add;
  }

  /** In every run the lists of a deferred are what plain lists are after the steps meant for
      them, and the state is pending until the first settlement. */
  lemma {:induction false} ThreePlainLists(ops: seq<UserOp>)
    requires AllLegal(ops)
    ensures Tracks(After(ops), SideOps(Done, ops), SideOps(Fail, ops), ProgressOps(ops))
    ensures After(ops).state == D.Pending <==> NeverSettles(ops)
  {
    if ops == [] {
      NewTracks();
    } else {
      var front := ops[..|ops| - 1];
      ThreePlainLists(front);
      AfterSnoc(ops);
      hide Tracks, D.Inv, D.Step, SideStep, ProgressStep, After;
      TracksStep(After(front), ops[|ops| - 1], SideOps(Done, front), SideOps(Fail, front), ProgressOps(front));
      NeverSettlesSnoc(ops);
      assert Final(Done) != D.Pending && Final(Fail) != D.Pending;
    }
  }

  lemma NeverSettlesSnoc(ops: seq<UserOp>)
    requires ops != []
    ensures NeverSettles(ops) <==> NeverSettles(ops[..|ops| - 1]) && !ops[|ops| - 1].SettleWith?
  {
  }

  // ------------------------------------------------------------------ the first settlement decides

  predicate FirstSettlement(ops: seq<UserOp>, k: nat) {
    k < |ops| && ops[k].SettleWith? && NeverSettles(ops[..k])
  }

  lemma FirstSnoc(ops: seq<UserOp>, k: nat)
    requires ops != []
    ensures var n := |ops| - 1;
            FirstSettlement(ops, k) <==>
            FirstSettlement(ops[..n], k) || (k == n && ops[n].SettleWith? && NeverSettles(ops[..n]))
  {
    if k < |ops| - 1 { assert ops[..|ops| - 1][..k] == ops[..k]; }
  }

  /** `resolve` resolves and `reject` rejects, whoever of them comes first; both lists take the
      fires so decided. */
  lemma {:induction false} FirstSettlementDecides(ops: seq<UserOp>, k: nat)
    requires AllLegal(ops) && FirstSettlement(ops, k)
    ensures After(ops).state == if ops[k].side == Done then D.Resolved else D.Rejected
  {
    hide Tracks, D.Inv, D.Step, SideStep, ProgressStep, After, SideOps, ProgressOps;
    var n := |ops| - 1;
    var front := ops[..n];
    FirstSnoc(ops, k);
    AfterSnoc(ops);
    ThreePlainLists(front);
    TracksStep(After(front), ops[n], SideOps(Done, front), SideOps(Fail, front), ProgressOps(front));
    if k < n {
      FirstSettlementDecides(front, k);
      assert front[k] == ops[k];
    }
  }

  lemma TakenOne(a: seq<Op>, op: Op)
    ensures NeverLocks(a + [op]) <==> NeverLocks(a) && !op.OpLock? && !op.OpDisable?
    ensures Taken(a + [op]) == Taken(a) + if op.OpFire? && NeverLocks(a) then [op.data] else []
  {
    assert (a + [op])[..|a|] == a;
    NeverLocksFront(a + [op]);
  }

  lemma TakenSteps(side: Side, a: seq<Op>, op: UserOp, pending: bool)
    ensures var b, settles := a + SideStep(side, op, pending), pending && op.SettleWith?;
            && (NeverLocks(b) <==> NeverLocks(a) && (settles ==> op.side == side))
            && Taken(b) == Taken(a) + if NeverLocks(a) && settles && op.side == side then [op.data] else []
  {
    var steps := SideStep(side, op, pending);
    hide NeverLocks, Taken;
    if steps == [] {
      assert a + steps == a;
    } else if |steps| == 1 {
      TakenOne(a, steps[0]);
    } else {
      var a1 := a + [OpFire(op.data)];
      var a2, a3 := a1 + [OpReturn], a1 + [OpReturn] + [OpReturn];
      assert a + steps == a3 + [OpReturn];
      TakenOne(a, OpFire(op.data));
      TakenOne(a1, OpReturn);
      TakenOne(a2, OpReturn);
      TakenOne(a3, OpReturn);
    }
  }

  lemma {:induction false} SideQuiet(side: Side, ops: seq<UserOp>)
    requires NeverSettles(ops)
    ensures NeverLocks(SideOps(side, ops)) && Taken(SideOps(side, ops)) == []
  {
    if ops == [] {
      TakenOne([], OpAdd([SET_STATE, DISABLE_OTHER, LOCK_PROGRESS]));
      assert [] + SideOps(side, []) == SideOps(side, []);
    } else {
      SideQuiet(side, ops[..|ops| - 1]);
      TakenSteps(side, SideOps(side, ops[..|ops| - 1]), ops[|ops| - 1], true);
    }
  }

  /** The data of the fires each of the two lists takes. */
  lemma {:induction false} SideTakes(side: Side, ops: seq<UserOp>, k: nat)
    requires FirstSettlement(ops, k)
    ensures NeverLocks(SideOps(side, ops)) <==> ops[k].side == side
    ensures Taken(SideOps(side, ops)) == if ops[k].side == side then [ops[k].data] else []
  {
    var n := |ops| - 1;
    var front := ops[..n];
    FirstSnoc(ops, k);
    TakenSteps(side, SideOps(side, front), ops[n], NeverSettles(front));
    if k < n {
      SideTakes(side, front, k);
      assert front[k] == ops[k];
    } else {
      SideQuiet(side, front);
    }
  }

  // ------------------------------------------------------------------ what is delivered

  /** The functions the users add to a side, in order. */
  function UserFunctions(side: Side, ops: seq<UserOp>): seq<C.Fn> {
    if ops == [] then []
    else
      var last := ops[|ops| - 1];
      UserFunctions(side, ops[..|ops| - 1]) + if last.AddTo? && last.side == side then last.fs else []
  }

  lemma OfferedOne(a: seq<Op>, op: Op)
    ensures Offered(a + [op]) == Offered(a) + if op.OpAdd? then op.fs else []
  {
    assert (a + [op])[..|a|] == a;
  }

  lemma OfferedSteps(side: Side, a: seq<Op>, op: UserOp, pending: bool)
    ensures Offered(a + SideStep(side, op, pending)) == Offered(a) + if op.AddTo? && op.side == side then op.fs else []
  {
    var steps := SideStep(side, op, pending);
    hide Offered;
    if steps == [] {
      assert a + steps == a;
    } else if |steps| == 1 {
      OfferedOne(a, steps[0]);
    } else {
      var a1 := a + [OpFire(op.data)];
      var a2, a3 := a1 + [OpReturn], a1 + [OpReturn] + [OpReturn];
      assert a + steps == a3 + [OpReturn];
      OfferedOne(a, OpFire(op.data));
      OfferedOne(a1, OpReturn);
      OfferedOne(a2, OpReturn);
      OfferedOne(a3, OpReturn);
    }
  }

  const OWN: seq<C.Fn> := [SET_STATE, DISABLE_OTHER, LOCK_PROGRESS]

  lemma {:induction false} SideOffered(side: Side, ops: seq<UserOp>)
    ensures Offered(SideOps(side, ops)) == OWN + UserFunctions(side, ops)
  {
    if ops == [] {
      OfferedOne([], OpAdd(OWN));
      assert [] + SideOps(side, []) == SideOps(side, []);
    } else {
      var front := ops[..|ops| - 1];
      SideOffered(side, front);
      OfferedSteps(side, SideOps(side, front), ops[|ops| - 1], NeverSettles(front));
    }
  }

  /** The list takes the settlement `data` and its additions are, in order, the deferred's own
      functions and those of the users; at rest each was called once, in order, with `data`. */
  ghost predicate Delivers(l: C.State, fns: seq<C.Fn>, data: Data) {
    && l.trace.accepted == [data] && Named(l, fns)
    && (forall c :: c in l.trace.calls ==> c.data == data)
    && (!l.firing ==> CalledIds(l.trace.calls) == Upto(|fns|))
  }

  lemma SideDelivers(l: C.State, steps: seq<Op>, fns: seq<C.Fn>, data: Data)
    requires NeverLocks(steps) && Taken(steps) == [data] && Offered(steps) == fns
    requires l == C.Run(ONCE_MEMORY, steps) && l.trace.dropped == {}
    ensures Delivers(l, fns, data)
  {
    hide C.Inv, C.Run, NeverLocks, Taken, Minus, Increasing;
    FiresAreAccepted(ONCE_MEMORY, steps);
    AdditionsAreNamed(ONCE_MEMORY, steps);
    EveryFunctionIsAdded(ONCE_MEMORY, steps);
    OnceReachable(ONCE_MEMORY, steps);
    OnceMemory(ONCE_MEMORY, steps);
    MinusNothing(Upto(|fns|));
  }

  /** The side settled first delivers; the other list takes no fire and calls nothing. */
  lemma OutcomeByEvents(ops: seq<UserOp>, k: nat)
    requires AllLegal(ops) && FirstSettlement(ops, k)
    ensures var x, side, data := After(ops), ops[k].side, ops[k].data;
            && (side == Done ==> x.state == D.Resolved && Delivers(x.done, OWN + UserFunctions(Done, ops), data)
                                 && x.fail.trace.accepted == [] && x.fail.trace.calls == [])
            && (side == Fail ==> x.state == D.Rejected && Delivers(x.fail, OWN + UserFunctions(Fail, ops), data)
                                 && x.done.trace.accepted == [] && x.done.trace.calls == [])
  {
    hide After, D.Inv, C.Inv, NeverLocks, NeverSettles, Taken, Offered, SideOps, UserFunctions, Delivers, C.Run;
    var x, side := After(ops), ops[k].side;
    var other := Other(side);
    ThreePlainLists(ops);
    FirstSettlementDecides(ops, k);
    OutcomeIsDelivered(ops);
    SideTakes(side, ops, k);
    SideTakes(other, ops, k);
    SideOffered(side, ops);
    NothingDropped(ops, side);
    FiresAreAccepted(ONCE_MEMORY, SideOps(other, ops));
    SideDelivers(ListOf(x, side), SideOps(side, ops), OWN + UserFunctions(side, ops), ops[k].data);
  }

  lemma NothingDropped(ops: seq<UserOp>, side: Side)
    requires AllLegal(ops)
    ensures ListOf(After(ops), side).trace.dropped == {}
  {
  }

  // ------------------------------------------------------------------ progress

  /** The data of the notifies made before the first settlement. */
  function Notified(ops: seq<UserOp>): seq<Data> {
    if ops == [] then []
    else
      var front, last := ops[..|ops| - 1], ops[|ops| - 1];
      Notified(front) + if last.NotifyWith? && NeverSettles(front) then [last.data] else []
  }

  lemma {:induction false} ProgressTakes(ops: seq<UserOp>)
    ensures Taken(ProgressOps(ops)) == Notified(ops)
    ensures NeverLocks(ProgressOps(ops)) <==> NeverSettles(ops)
  {
    if ops != [] {
      var front, op := ops[..|ops| - 1], ops[|ops| - 1];
      ProgressTakes(front);
      NeverSettlesSnoc(ops);
      ProgressTakesStep(ProgressOps(front), op, NeverSettles(front));
      hide NeverLocks, NeverSettles, Taken, ProgressStep;
    }
  }

  lemma ProgressTakesStep(a: seq<Op>, op: UserOp, pending: bool)
    requires NeverLocks(a) <==> pending
    ensures var b := a + ProgressStep(op, pending);
            && (NeverLocks(b) <==> pending && !op.SettleWith?)
            && Taken(b) == Taken(a) + if op.NotifyWith? && pending then [op.data] else []
  {
    var steps := ProgressStep(op, pending);
    hide NeverLocks, Taken;
    if steps == [] {
      assert a + steps == a;
    } else {
      assert steps == [steps[0]];
      TakenOne(a, steps[0]);
    }
  }

  /** The progress list takes the notifies made before the first settlement, in order, and no
      others. While the deferred is pending each gets its round, as soon as those before it are
      over. */
  lemma NotifiesGetRounds(ops: seq<UserOp>)
    requires AllLegal(ops)
    ensures var x := After(ops);
            && x.progress.trace.accepted == Notified(ops)
            && (NeverSettles(ops) ==>
                  && x.progress.stack.Some?
                  && Answered(AllRounds(x.progress)) + x.progress.stack.value == Notified(ops)
                  && (!x.progress.firing ==> Answered(x.progress.trace.rounds) == Notified(ops)))
  {
    ThreePlainLists(ops);
    ProgressTakes(ops);
    hide D.Inv, After, C.Inv, C.Run, ProgressOps, SideOps, NeverLocks, NeverSettles, Answered, AllRounds;
    FiresAreAccepted(MEMORY, ProgressOps(ops));
    if NeverSettles(ops) { FiresBecomeRounds(MEMORY, ProgressOps(ops)); }
  }
}
