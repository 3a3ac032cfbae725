/** The closure variables of jQuery.Callbacks and the functions that update them in place. Each
    one takes the step of the same name of the state machine. */
module CallbackList {
  import opened Callbacks
  import opened Wrappers
  import opened Seqs

  class List {
    const options: Options
    var list: Option<seq<Entry>>
    var stack: Option<seq<Data>>
    var memory: Option<Data>
    var fired: bool
    var firing: bool
    var firingIndex: int
    var firingLength: int
    var firingStart: nat
    var trace: Trace  // an observer's record, which numbers the additions; the code does not look at it

    function Model(): State
      reads this
    {
      State(options, list, stack, memory, fired, firing, firingIndex, firingLength, trace)
    }

    ghost predicate Valid()
      reads this
    {
      firingStart == 0 && Inv(Model())
    }

    constructor (options: Options)
      ensures Valid() && Model() == Init(options)
    {
      this.options := options;
      list, stack, memory := Some([]), if options.once then None else Some([]), None;
      fired, firing, firingIndex, firingLength, firingStart := false, false, 0, 0, 0;
      trace := Init(options).trace;
    }

    /** fire, with the loop broken off at the call of user code. */
    method Fire(data: Data, replay: bool)
      requires list.Some? && firingStart <= |list.value|
      modifies this
      ensures firingStart == 0
      ensures Model() == Callbacks.Fire(old(Model()), data, old(firingStart), replay)
      decreases if stack.Some? then |stack.value| else 0, 1
    {
      memory := if options.memory then Some(data) else None;
      fired := true;
      trace := trace.(current := Round(data, replay, Ids(list.value[firingStart..]), [], {}, false));
      firingIndex := firingStart;
      firingStart := 0;
      firingLength := |list.value|;
      firing := true;
      LoopTest();
    }

    method LoopTest()
      requires firing && firingStart == 0
      requires list.Some? ==> 0 <= firingIndex <= firingLength == |list.value|
      modifies this
      ensures firingStart == 0
      ensures Model() == Loop(old(Model()))
      decreases if stack.Some? then |stack.value| else 0, 0
    {
      if list.Some? && firingIndex < firingLength {
        // list[ firingIndex ].apply( ... )
        trace := CallNext(Model()).trace;
      } else {
        firing := false;
        trace := Archive(Model()).trace;
        if list.Some? {
          if stack.Some? {
            if stack.value != [] {
              var data := stack.value[0];
              stack := Some(stack.value[1..]);
              Fire(data, false);
            }
          } else if memory.Some? {
            list := Some([]);
          } else {
            DisableList();
          }
        }
      }
    }

    /** The callback being called returns to the loop. */
    method Return()
      requires Valid() && firing
      modifies this
      ensures Valid() && Model() == Step(old(Model()), OpReturn)
    {
      hide History, Queued, Progress;
      StepKeeps(Model(), OpReturn);
      firingIndex := firingIndex + 1;
      LoopTest();
    }

    /** The loop of add over its arguments. */
    static method PushEach(es: seq<Entry>, fs: seq<Fn>, unique: bool, n: nat) returns (xs: seq<Entry>)
      ensures xs == Push(es, fs, unique, n)
    {
      xs := es;
      var i := 0;
      while i < |fs|
        invariant 0 <= i <= |fs| && |xs| >= |es|
        invariant Push(xs, fs[i..], unique, n + |xs| - |es|) == Push(es, fs, unique, n)
      {
        assert fs[i..][1..] == fs[i + 1..];
        if !unique || !Has(xs, fs[i]) {
          xs := xs + [Entry(fs[i], n + |xs| - |es|)];
        }
        i := i + 1;
      }
    }

    method Add(fs: seq<Fn>)
      requires Valid()
      modifies this
      ensures Valid() && Model() == Step(old(Model()), OpAdd(fs))
    {
      hide Inv, Push;
      StepKeeps(Model(), OpAdd(fs));
      if list.Some? {
        var start, before := |list.value|, Model();
        var xs := PushEach(list.value, fs, options.unique, trace.additions);
        list := Some(xs);
        trace := Extend(before, fs).trace;
        if firing {
          firingLength := |xs|;
        } else if memory.Some? {
          firingStart := start;
          Fire(memory.value, true);
        }
      }
    }

    /** The first place of `f` at or after `from`, or -1. */
    static ghost predicate IsNext(f: Fn, es: seq<Entry>, from: nat, index: int) {
      && (index == -1 || from <= index < |es|)
      && (index >= 0 ==> es[index].fn == f)
      && (forall k :: from <= k < (if index >= 0 then index else |es|) ==> es[k].fn != f)
    }

    /** jQuery.inArray( f, list, from ). */
    static method IndexOf(f: Fn, es: seq<Entry>, from: nat) returns (index: int)
      requires from <= |es|
      ensures IsNext(f, es, from, index)
    {
      index := from;
      while index < |es|
        invariant from <= index <= |es|
        invariant forall k :: from <= k < index ==> es[k].fn != f
      {
        if es[index].fn == f { return; }
        index := index + 1;
      }
      index := -1;
    }

    /** The loop of remove; during a round both firing variables follow each splice. */
    static method SpliceEach(es: seq<Entry>, f: Fn, firing: bool, index0: int, length0: int)
      returns (xs: seq<Entry>, firingIndex: int, firingLength: int)
      requires firing ==> -1 <= index0 < |es| == length0
      ensures xs == Keep(es, f)
      ensures firing ==> firingLength == |xs| && firingIndex == |Keep(es[..index0 + 1], f)| - 1
      ensures !firing ==> firingIndex == index0 && firingLength == length0
    {
      xs, firingIndex, firingLength := es, index0, length0;
      ghost var p := 0;  // es[..p] has been searched
      var index := IndexOf(f, xs, 0);
      var found := 0;
      SearchStart(es, f);
      hide Keep, Shifted, Searching;
      while index > -1
        invariant p <= |es| && Searching(es, f, p, xs, found)
        invariant IsNext(f, xs, found, index)
        invariant firing ==> firingLength == |xs| && firingIndex == Shifted(es, f, p, index0)
        invariant !firing ==> firingIndex == index0 && firingLength == length0
        decreases |es| - p
      {
        SpliceStep(es, f, p, xs, found, index, if firing then index0 else -1);
        ghost var q := p + (index - found) + 1;
        xs := xs[..index] + xs[index + 1..];
        if firing {
          if index <= firingLength { firingLength := firingLength - 1; }
          if index <= firingIndex { firingIndex := firingIndex - 1; }
        }
        found, p := index, q;
        index := IndexOf(f, xs, index);
      }
      SearchDone(es, f, p, xs, found);
      if firing { ShiftDone(es, f, p, xs, found, index0); }
    }

    method Remove(f: Fn)
      requires Valid()
      modifies this
      ensures Valid() && Model() == Step(old(Model()), OpRemove(f))
    {
      hide History, Queued, Progress, Keep;
      StepKeeps(Model(), OpRemove(f));
      if list.Some? {
        var before := Model();
        var xs;
        xs, firingIndex, firingLength := SpliceEach(list.value, f, firing, firingIndex, firingLength);
        list := Some(xs);
        trace := Callbacks.Remove(before, f).trace;
      }
    }

    method DisableList()
      modifies this
      ensures Model() == Callbacks.Disable(old(Model())) && firingStart == old(firingStart)
    {
      list, stack, memory := None, None, None;
    }

    method Disable()
      requires Valid()
      modifies this
      ensures Valid() && Model() == Step(old(Model()), OpDisable)
    {
      StepKeeps(Model(), OpDisable);
      DisableList();
    }

    method Lock()
      requires Valid()
      modifies this
      ensures Valid() && Model() == Step(old(Model()), OpLock)
    {
      StepKeeps(Model(), OpLock);
      stack := None;
      if memory.None? {
        DisableList();
      }
    }

    method FireWith(data: Data)
      requires Valid()
      modifies this
      ensures Valid() && Model() == Step(old(Model()), OpFire(data))
    {
      hide Progress, Queued, Flat, Complete, Increasing, ReplaysRepeat, Answered;
      StepKeeps(Model(), OpFire(data));
      if list.Some? && (!fired || stack.Some?) {
        trace := trace.(accepted := trace.accepted + [data]);
        if firing {
          stack := Some(stack.value + [data]);
        } else {
          Fire(data, false);
        }
      }
    }
  }

  /** Where the firing index stands when es[..p] has been searched for `f`. */
  ghost function Shifted(es: seq<Entry>, f: Fn, p: nat, index: int): int
    requires p <= |es| && -1 <= index < |es|
  {
    if p <= index then index - (p - |Keep(es[..p], f)|) else |Keep(es[..index + 1], f)| - 1
  }

  lemma {:induction false} KeepAll(es: seq<Entry>, f: Fn)
    requires forall k :: 0 <= k < |es| ==> es[k].fn != f
    ensures Keep(es, f) == es
  {
    if es != [] { KeepAll(es[..|es| - 1], f); }
  }

  /** es[..p] has been searched for `f` and cleared of it; `found` entries of it are left. */
  ghost predicate Searching(es: seq<Entry>, f: Fn, p: nat, xs: seq<Entry>, found: nat) {
    p <= |es| && xs == Keep(es[..p], f) + es[p..] && found == |Keep(es[..p], f)|
  }

  lemma SearchStart(es: seq<Entry>, f: Fn)
    ensures Searching(es, f, 0, es, 0)
    ensures forall index :: -1 <= index < |es| ==> Shifted(es, f, 0, index) == index
  {
    assert es[..0] == [] && Keep([], f) == [];
  }

  /** The next occurrence is es[q - 1], with none in between. */
  lemma SearchedUpTo(es: seq<Entry>, f: Fn, p: nat, q: nat, xs: seq<Entry>, found: nat)
    requires p < q <= |es| && Searching(es, f, p, xs, found)
    requires xs[found + (q - 1 - p)].fn == f && forall k :: found <= k < found + (q - 1 - p) ==> xs[k].fn != f
    ensures es[q - 1].fn == f && forall k :: p <= k < q - 1 ==> es[k].fn != f
    ensures var index := found + (q - 1 - p);
            Searching(es, f, q, xs[..index] + xs[index + 1..], index)
  {
    hide Keep;
    forall k | p <= k < q ensures es[k] == xs[found + (k - p)] {}
    KeepBetween(es, f, p, q - 1);
    KeepPast(es, f, q);
    AroundFound(Keep(es[..p], f), es, p, q);
  }

  lemma KeepPast(es: seq<Entry>, f: Fn, q: nat)
    requires 0 < q <= |es| && es[q - 1].fn == f
    ensures Keep(es[..q], f) == Keep(es[..q - 1], f)
  {
    assert es[..q][..q - 1] == es[..q - 1];
  }

  lemma AroundFound(kept: seq<Entry>, es: seq<Entry>, p: nat, q: nat)
    requires p < q <= |es|
    ensures var xs, index := kept + es[p..], |kept| + (q - 1 - p);
            xs[..index] == kept + es[p..q - 1] && xs[index + 1..] == es[q..]
  {
  }

  /** One turn of the loop of remove. */
  lemma SpliceStep(es: seq<Entry>, f: Fn, p: nat, xs: seq<Entry>, found: nat, index: nat,
                                      index0: int)
    requires Searching(es, f, p, xs, found) && found <= index < |xs| && -1 <= index0 < |es|
    requires xs[index].fn == f && forall k :: found <= k < index ==> xs[k].fn != f
    ensures p <= |es|
    ensures var q := p + (index - found) + 1;
            && q <= |es|
            && Searching(es, f, q, xs[..index] + xs[index + 1..], index)
            && Shifted(es, f, q, index0) ==
               Shifted(es, f, p, index0) - if index <= Shifted(es, f, p, index0) then 1 else 0
  {
    var q := p + (index - found) + 1;
    SearchedUpTo(es, f, p, q, xs, found);
    ShiftedStep(es, f, p, q, index0);
  }

  lemma SearchDone(es: seq<Entry>, f: Fn, p: nat, xs: seq<Entry>, found: nat)
    requires Searching(es, f, p, xs, found) && forall k :: found <= k < |xs| ==> xs[k].fn != f
    ensures forall k :: p <= k < |es| ==> es[k].fn != f
    ensures xs == Keep(es, f)
  {
    forall k | p <= k < |es| ensures es[k] == xs[found + (k - p)] {}
    assert es[..|es|] == es && es[p..|es|] == es[p..];
    KeepBetween(es, f, p, |es|);
  }

  lemma ShiftDone(es: seq<Entry>, f: Fn, p: nat, xs: seq<Entry>, found: nat, index: int)
    requires Searching(es, f, p, xs, found) && forall k :: found <= k < |xs| ==> xs[k].fn != f
    requires -1 <= index < |es|
    ensures Shifted(es, f, p, index) == |Keep(es[..index + 1], f)| - 1
  {
    SearchDone(es, f, p, xs, found);
    if p <= index { KeepBetween(es, f, p, index + 1); }
  }

  lemma KeepBetween(es: seq<Entry>, f: Fn, p: nat, q: nat)
    requires p <= q <= |es| && forall k :: p <= k < q ==> es[k].fn != f
    ensures Keep(es[..q], f) == Keep(es[..p], f) + es[p..q]
  {
    assert es[..q] == es[..p] + es[p..q];
    KeepAppend(es[..p], es[p..q], f);
    KeepAll(es[p..q], f);
  }

  lemma ShiftedStep(es: seq<Entry>, f: Fn, p: nat, q: nat, index: int)
    requires p < q <= |es| && -1 <= index < |es|
    requires es[q - 1].fn == f && forall k :: p <= k < q - 1 ==> es[k].fn != f
    ensures Shifted(es, f, q, index) ==
            Shifted(es, f, p, index) - if |Keep(es[..p], f)| + (q - 1 - p) <= Shifted(es, f, p, index) then 1 else 0
  {
    KeepBetween(es, f, p, q - 1);
    assert es[..q][..q - 1] == es[..q - 1];
    if p <= index < q - 1 {
      KeepBetween(es, f, p, index + 1);
    } else if index < p {
      KeepPrefix(es[..p], f, index + 1);
      assert es[..p][..index + 1] == es[..index + 1];
    }
  }

  lemma KeepPrefix(es: seq<Entry>, f: Fn, n: nat)
    requires n <= |es|
    ensures |Keep(es[..n], f)| <= |Keep(es, f)|
  {
    assert es == es[..n] + es[n..];
    KeepAppend(es[..n], es[n..], f);
  }
}
