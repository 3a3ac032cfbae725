/** jQuery.when over several arguments: a counter, an array of values and a master deferred. */
module When {

  type Value = nat

  /** An argument: a plain value, or a deferred, which settles at most once. */
  datatype Subordinate = Plain(v: Value) | Waiting | Resolved(v: Value) | Rejected(reason: Value)

  /** A slot of resolveValues holds the deferred itself until its value is known. */
  datatype Slot = Promise | Val(v: Value)

  datatype Outcome = Undecided | ResolvedWith(values: seq<Slot>) | RejectedWith(reason: Value)

  predicate HasValue(s: Subordinate) {
    s.Plain? || s.Resolved?
  }

  function SlotOf(s: Subordinate): Slot {
    if HasValue(s) then Val(s.v) else Promise
  }

  /** The number of arguments whose value is not known. */
  function Missing(subs: seq<Subordinate>): (n: nat)
    ensures n <= |subs|
  {
    if subs == [] then 0
    else Missing(subs[..|subs| - 1]) + if HasValue(subs[|subs| - 1]) then 0 else 1
  }

  lemma {:induction false} NoneMissing(subs: seq<Subordinate>)
    ensures Missing(subs) == 0 <==> forall i :: 0 <= i < |subs| ==> HasValue(subs[i])
  {
    if subs != [] { NoneMissing(subs[..|subs| - 1]); }
  }

  lemma {:induction false} MissingAfterUpdate(subs: seq<Subordinate>, i: nat, s: Subordinate)
    requires i < |subs|
    ensures Missing(subs[i := s]) ==
            Missing(subs) - (if HasValue(subs[i]) then 0 else 1) + if HasValue(s) then 0 else 1
  {
    var n := |subs| - 1;
    if i < n {
      assert subs[i := s][..n] == subs[..n][i := s];
      MissingAfterUpdate(subs[..n], i, s);
    } else {
      assert subs[i := s][..n] == subs[..n];
    }
  }

  lemma MissingSnoc(subs: seq<Subordinate>, i: nat)
    requires i < |subs|
    ensures Missing(subs[..i + 1]) == Missing(subs[..i]) + if HasValue(subs[i]) then 0 else 1
  {
    assert subs[..i + 1][..i] == subs[..i];
  }

  lemma NoneYet(subs: seq<Subordinate>)
    ensures Missing(subs[..0]) == 0
  {
  }

  /** What the master must have done once these are the states of the arguments. */
  predicate Right(outcome: Outcome, subs: seq<Subordinate>) {
    match outcome
    case ResolvedWith(values) =>
      && |values| == |subs|
      && forall i :: 0 <= i < |subs| ==> HasValue(subs[i]) && values[i] == Val(subs[i].v)
    case RejectedWith(reason) =>
      exists i :: 0 <= i < |subs| && subs[i] == Rejected(reason)
    case Undecided =>
      && (exists i :: 0 <= i < |subs| && subs[i].Waiting?)
      && forall i :: 0 <= i < |subs| ==> !subs[i].Rejected?
  }

  /** What a deferred has done by itself. */
  function OutcomeOf(s: Subordinate): Outcome {
    match s
    case Resolved(v) => ResolvedWith([Val(v)])
    case Rejected(reason) => RejectedWith(reason)
    case _ => Undecided
  }

  /** The three outcomes exclude each other, so the state of the arguments decides. */
  lemma OutcomeIsDetermined(outcome: Outcome, subs: seq<Subordinate>)
    requires Right(outcome, subs)
    ensures outcome.ResolvedWith? <==> forall i :: 0 <= i < |subs| ==> HasValue(subs[i])
    ensures outcome.RejectedWith? <==> exists i :: 0 <= i < |subs| && subs[i].Rejected?
  {
    if outcome.RejectedWith? {
      var i :| 0 <= i < |subs| && subs[i] == Rejected(outcome.reason);
      assert !HasValue(subs[i]);
    }
  }

  /** Argument k is rejected, and none before it. */
  predicate FirstRejection(args: seq<Subordinate>, k: nat) {
    k < |args| && args[k].Rejected? && forall j :: 0 <= j < k ==> !args[j].Rejected?
  }

  class Master {
    /** A deferred that is the only argument is its own master. */
    const borrowed: bool
    var remaining: nat
    var resolveValues: seq<Slot>
    var outcome: Outcome
    ghost var subs: seq<Subordinate>

    ghost predicate Counting()
      reads this
    {
      && |resolveValues| == |subs|
      && (forall i :: 0 <= i < |subs| ==> resolveValues[i] == SlotOf(subs[i]))
    }

    ghost predicate Valid()
      reads this
    {
      && Right(outcome, subs)
      && (if borrowed then |subs| == 1 && !subs[0].Plain? else Counting() && remaining == Missing(subs))
    }

    /** The master is a deferred: the first settlement wins. */
    method Resolve()
      modifies this`outcome
      ensures outcome == if old(outcome).Undecided? then ResolvedWith(resolveValues) else old(outcome)
    {
      if outcome.Undecided? { outcome := ResolvedWith(resolveValues); }
    }

    method Reject(reason: Value)
      modifies this`outcome
      ensures outcome == if old(outcome).Undecided? then RejectedWith(reason) else old(outcome)
    {
      if outcome.Undecided? { outcome := RejectedWith(reason); }
    }

    /** Registering with the arguments in turn; one already settled answers at once. */
    constructor (args: seq<Subordinate>)
      ensures Valid() && subs == args
      ensures forall k: nat :: FirstRejection(args, k) ==> outcome == RejectedWith(args[k].reason)
    {
      borrowed := |args| == 1 && !args[0].Plain?;
      remaining := if |args| == 1 && args[0].Plain? then 0 else |args|;
      resolveValues := seq(|args|, i requires 0 <= i < |args| => if args[i].Plain? then Val(args[i].v) else Promise);
      outcome := if |args| == 1 then OutcomeOf(args[0]) else Undecided;
      subs := args;
      new;
      if |args| > 1 {
        Register(args);
      }
      NoneMissing(args);
      if remaining == 0 { Resolve(); }
    }

    method Register(args: seq<Subordinate>)
      requires remaining == |args| == |resolveValues| && outcome.Undecided?
      requires forall i :: 0 <= i < |args| ==> resolveValues[i] == if args[i].Plain? then SlotOf(args[i]) else Promise
      modifies this`remaining, this`resolveValues, this`outcome
      ensures |resolveValues| == |args| && forall i :: 0 <= i < |args| ==> resolveValues[i] == SlotOf(args[i])
      ensures remaining == Missing(args)
      ensures outcome.RejectedWith? ==> exists k :: 0 <= k < |args| && args[k] == Rejected(outcome.reason)
      ensures outcome.ResolvedWith? ==> outcome.values == resolveValues && remaining == 0
      ensures outcome.Undecided? ==> forall k :: 0 <= k < |args| ==> !args[k].Rejected?
      ensures forall k: nat :: FirstRejection(args, k) ==> outcome == RejectedWith(args[k].reason)
    {
      hide Missing;
      NoneYet(args);
      var i := 0;
      while i < |args|
        invariant 0 <= i <= |args| == |resolveValues|
        invariant forall k :: 0 <= k < |args| ==>
                    resolveValues[k] == if k < i || args[k].Plain? then SlotOf(args[k]) else Promise
        invariant remaining == Missing(args[..i]) + |args| - i
        invariant outcome.RejectedWith? ==> exists k :: 0 <= k < i && args[k] == Rejected(outcome.reason)
        invariant outcome.ResolvedWith? ==> i == |args| && outcome.values == resolveValues && remaining == 0
        invariant outcome.Undecided? ==> forall k :: 0 <= k < i ==> !args[k].Rejected?
        invariant forall k: nat :: FirstRejection(args, k) && k < i ==> outcome == RejectedWith(args[k].reason)
      {
        MissingSnoc(args, i);
        match args[i] {
          case Plain(_) =>
            remaining := remaining - 1;
          case Waiting =>
          case Resolved(v) =>
            resolveValues := resolveValues[i := Val(v)];
            remaining := remaining - 1;
            if remaining == 0 { Resolve(); }
          case Rejected(reason) =>
            Reject(reason);
        }
        i := i + 1;
      }
      assert args[..|args|] == args;
    }

    /** The done function of argument i, called when it is resolved. */
    method OnDone(i: nat, v: Value)
      requires Valid() && i < |subs| && subs[i].Waiting?
      modifies this
      ensures Valid() && subs == old(subs)[i := Resolved(v)]
      ensures !old(outcome).Undecided? ==> outcome == old(outcome)
    {
      MissingAfterUpdate(subs, i, Resolved(v));
      NoneMissing(subs[i := Resolved(v)]);
      if outcome.RejectedWith? {
        ghost var k :| 0 <= k < |subs| && subs[k] == Rejected(outcome.reason);
        assert subs[i := Resolved(v)][k] == Rejected(outcome.reason);
      }
      subs := subs[i := Resolved(v)];
      if borrowed {
        outcome := OutcomeOf(Resolved(v));
        return;
      }
      resolveValues := resolveValues[i := Val(v)];
      remaining := remaining - 1;
      if remaining == 0 { Resolve(); }
    }

    /** deferred.reject, registered as the fail function of every argument. */
    method OnFail(i: nat, reason: Value)
      requires Valid() && i < |subs| && subs[i].Waiting?
      modifies this
      ensures Valid() && subs == old(subs)[i := Rejected(reason)]
      ensures old(outcome).Undecided? ==> outcome == RejectedWith(reason)
      ensures !old(outcome).Undecided? ==> outcome == old(outcome)
    {
      MissingAfterUpdate(subs, i, Rejected(reason));
      if outcome.RejectedWith? {
        ghost var k :| 0 <= k < |subs| && subs[k] == Rejected(outcome.reason);
        assert subs[i := Rejected(reason)][k] == Rejected(outcome.reason);
      }
      subs := subs[i := Rejected(reason)];
      assert subs[i] == Rejected(reason);
      Reject(reason);
    }
  }
}
