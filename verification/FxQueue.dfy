/** jQuery.queue and jQuery.dequeue for one element and one queue type. A function that calls
    `next`, before or after it returns, is a dequeue like any other. */
module FxQueue {
  import opened Wrappers

  type Fn = nat
  datatype Item = InProgress | Task(fn: Fn)

  /** `enqueued`, `started` and `emptied` (how often the empty hook fired, and what was left of
      the queue then) are an observer's record. */
  datatype State = State(fx: bool, queue: seq<Item>, enqueued: seq<Fn>, started: seq<Fn>, emptied: seq<seq<Fn>>)

  function Init(fx: bool): State {
    State(fx, [], [], [], [])
  }

  function Tasks(items: seq<Item>): (r: seq<Fn>)
    ensures |r| <= |items|
  {
    if items == [] then []
    else if items[0].Task? then [items[0].fn] + Tasks(items[1..])
    else Tasks(items[1..])
  }

  /** What the dequeue step must do: start the first task, or fire the empty hook. */
  function Dequeue(s: State): State {
    var tasks := Tasks(s.queue);
    if tasks == [] then s.(queue := [], emptied := s.emptied + [tasks])
    else
      s.(queue := (if s.fx then [InProgress] else []) + AsItems(tasks[1..]), started := s.started + [tasks[0]])
  }

  function AsItems(fns: seq<Fn>): (r: seq<Item>)
    ensures |r| == |fns| && forall k :: 0 <= k < |fns| ==> r[k] == Task(fns[k])
  {
    seq(|fns|, k requires 0 <= k < |fns| => Task(fns[k]))
  }

  function Enqueue(s: State, fn: Fn): State {
    var q := s.(queue := s.queue + [Task(fn)], enqueued := s.enqueued + [fn]);
    if s.fx && !q.queue[0].InProgress? then Dequeue(q) else q
  }

  /** The sentinel only at the head, and on the fx queue nothing waits without it. */
  predicate Shaped(s: State) {
    && (forall k :: 1 <= k < |s.queue| ==> s.queue[k].Task?)
    && (s.queue != [] ==> s.queue[0].InProgress? == s.fx)
  }

  /** Started functions and waiting ones are together the enqueued ones, in the same order. */
  predicate Conserves(s: State) {
    s.started + Tasks(s.queue) == s.enqueued
  }

  predicate Inv(s: State) {
    Shaped(s) && Conserves(s) && forall left :: left in s.emptied ==> left == []
  }

  lemma {:induction false} TasksOfItems(fns: seq<Fn>)
    ensures Tasks(AsItems(fns)) == fns
  {
    if fns != [] {
      assert AsItems(fns)[1..] == AsItems(fns[1..]);
      TasksOfItems(fns[1..]);
    }
  }

  lemma {:induction false} ItemsOfTasks(items: seq<Item>)
    requires forall k :: 0 <= k < |items| ==> items[k].Task?
    ensures AsItems(Tasks(items)) == items && |Tasks(items)| == |items|
  {
    if items != [] { ItemsOfTasks(items[1..]); }
  }

  lemma {:induction false} TasksSnoc(items: seq<Item>, fn: Fn)
    ensures Tasks(items + [Task(fn)]) == Tasks(items) + [fn]
  {
    if items == [] {
      assert [] + [Task(fn)] == [Task(fn)];
    } else {
      assert (items + [Task(fn)])[1..] == items[1..] + [Task(fn)];
      TasksSnoc(items[1..], fn);
    }
  }

  lemma DequeueKeeps(s: State)
    requires Conserves(s) && forall left :: left in s.emptied ==> left == []
    ensures Inv(Dequeue(s))
  {
    var tasks, s' := Tasks(s.queue), Dequeue(s);
    if tasks != [] {
      QueueOfRest(s.fx, tasks[1..]);
      hide Tasks, AsItems;
      assert (s.started + [tasks[0]]) + tasks[1..] == s.started + tasks;
    }
  }

  lemma QueueOfRest(fx: bool, fns: seq<Fn>)
    ensures var queue := (if fx then [InProgress] else []) + AsItems(fns);
            && Tasks(queue) == fns
            && (forall k :: 1 <= k < |queue| ==> queue[k].Task?)
            && (queue != [] ==> queue[0].InProgress? == fx)
  {
    var rest := AsItems(fns);
    TasksOfItems(fns);
    assert ([InProgress] + rest)[1..] == rest && [] + rest == rest;
  }

  lemma EnqueueKeeps(s: State, fn: Fn)
    requires Inv(s)
    ensures Inv(Enqueue(s, fn))
  {
    var q := s.(queue := s.queue + [Task(fn)], enqueued := s.enqueued + [fn]);
    TasksSnoc(s.queue, fn);
    assert s.started + (Tasks(s.queue) + [fn]) == (s.started + Tasks(s.queue)) + [fn];
    if s.fx && !q.queue[0].InProgress? { DequeueKeeps(q); }
  }

  datatype Event = OnEnqueue(fn: Fn) | OnDequeue

  /** Any run of enqueue and dequeue steps, those made by the queued functions included. */
  function Run(fx: bool, events: seq<Event>): (s: State)
    ensures Inv(s) && s.fx == fx
  {
    if events == [] then Init(fx)
    else
      var before := Run(fx, events[..|events| - 1]);
      match events[|events| - 1]
      case OnEnqueue(fn) => EnqueueKeeps(before, fn); Enqueue(before, fn)
      case OnDequeue => DequeueKeeps(before); Dequeue(before)
  }

  /** In every run the functions start in the order of their enqueueing, none twice and none
      passed over; the sentinel stands at the head or nowhere; and each time the empty hook
      fired nothing was left to run. */
  lemma FirstInFirstOut(fx: bool, events: seq<Event>)
    ensures var s := Run(fx, events);
            && s.started <= s.enqueued
            && s.started + Tasks(s.queue) == s.enqueued
            && (forall k :: 0 <= k < |s.queue| ==> (s.queue[k].InProgress? <==> k == 0 && fx))
            && forall left :: left in s.emptied ==> left == []
  {
  }

  /** The functions enqueued by the events, in order. */
  function Enqueued(events: seq<Event>): seq<Fn> {
    if events == [] then []
    else
      var last := events[|events| - 1];
      Enqueued(events[..|events| - 1]) + if last.OnEnqueue? then [last.fn] else []
  }

  lemma {:induction false} EnqueuedByEvents(fx: bool, events: seq<Event>)
    ensures Run(fx, events).enqueued == Enqueued(events)
  {
    if events != [] { EnqueuedByEvents(fx, events[..|events| - 1]); }
  }

  /** A dequeue starts the function that waits longest, and fires the empty hook only when none
      waits. */
  lemma DequeueStarts(fx: bool, events: seq<Event>)
    ensures var s, r := Run(fx, events), Run(fx, events + [OnDequeue]);
            && r.enqueued == s.enqueued
            && (s.started != s.enqueued ==>
                  && |s.started| < |s.enqueued|
                  && r.started == s.enqueued[..|s.started| + 1]
                  && r.emptied == s.emptied && (fx ==> r.queue != []))
            && (s.started == s.enqueued ==> r.started == s.started && r.queue == [] && |r.emptied| == |s.emptied| + 1)
  {
    var s, r := Run(fx, events), Run(fx, events + [OnDequeue]);
    assert (events + [OnDequeue])[..|events|] == events;
    assert s.started + Tasks(s.queue) == s.enqueued;
    if Tasks(s.queue) == [] {
      assert s.started == s.enqueued;
    } else {
      assert |s.enqueued| == |s.started| + |Tasks(s.queue)|;
      assert r.started == s.started + [Tasks(s.queue)[0]];
    }
  }

  /** An enqueue on the idle fx queue starts its function at once; otherwise it waits. */
  lemma EnqueueStarts(fx: bool, events: seq<Event>, fn: Fn)
    ensures var s, r := Run(fx, events), Run(fx, events + [OnEnqueue(fn)]);
            && r.enqueued == s.enqueued + [fn] && r.emptied == s.emptied && r.queue != []
            && r.started == if fx && s.queue == [] then s.enqueued + [fn] else s.started
  {
    var s, r := Run(fx, events), Run(fx, events + [OnEnqueue(fn)]);
    assert (events + [OnEnqueue(fn)])[..|events|] == events;
    assert s.started + Tasks(s.queue) == s.enqueued;
    TasksSnoc(s.queue, fn);
    if fx && s.queue == [] {
      assert Tasks([] + [Task(fn)]) == [fn];
      assert [] + [Task(fn)] == [Task(fn)];
    }
  }

  function Dequeues(n: nat): (r: seq<Event>)
    ensures |r| == n
  {
    seq(n, _ => OnDequeue)
  }

  /** Dequeues alone start all that waits: afterwards nothing is left out. */
  lemma {:induction false} DequeuesDrain(fx: bool, events: seq<Event>, n: nat)
    ensures var s, r := Run(fx, events), Run(fx, events + Dequeues(n));
            && r.enqueued == s.enqueued && |s.started| <= |s.enqueued|
            && r.started == (if |s.started| + n <= |s.enqueued| then s.enqueued[..|s.started| + n] else s.enqueued)
            && (|s.started| + n > |s.enqueued| ==> r.queue == [])
  {
    hide Run, Inv, Tasks;
    var s := Run(fx, events);
    FirstInFirstOut(fx, events);
    if n == 0 {
      assert events + Dequeues(0) == events;
    } else {
      DequeuesDrain(fx, events, n - 1);
      var before := events + Dequeues(n - 1);
      assert events + Dequeues(n) == before + [OnDequeue];
      DequeueStarts(fx, before);
    }
  }

  class Queue {
    const fx: bool
    var queue: seq<Item>
    ghost var enqueued: seq<Fn>
    ghost var started: seq<Fn>
    ghost var emptied: seq<seq<Fn>>

    ghost function Model(): State
      reads this
    {
      State(fx, queue, enqueued, started, emptied)
    }

    constructor (fx: bool)
      ensures Model() == Init(fx) && Inv(Model())
    {
      this.fx := fx;
      queue, enqueued, started, emptied := [], [], [], [];
    }

    /** jQuery.dequeue. What the started function does comes after, as further steps: the check
        of the empty hook below the call can only succeed when no function was started. */
    method DequeueStep()
      requires forall k :: 1 <= k < |queue| ==> queue[k].Task?
      modifies this
      ensures Model() == Dequeue(old(Model()))
    {
      var items := queue;
      var startLength := |items|;
      var fn := None;
      if |items| > 0 { ItemsOfTasks(items[1..]); fn, items := Some(items[0]), items[1..]; }
      if fn == Some(InProgress) {
        fn := None;
        if |items| > 0 { ItemsOfTasks(items[1..]); fn, items := Some(items[0]), items[1..]; }
        startLength := startLength - 1;
      }
      if fn.Some? {
        started := started + [fn.value.fn];
        if fx { items := [InProgress] + items; }
      }
      queue := items;
      if startLength == 0 {
        // hooks.empty.fire(), whose first function removes the queue
        emptied := emptied + [Tasks(queue)];
        queue := [];
      }
    }

    method EnqueueStep(fn: Fn)
      requires Inv(Model())
      modifies this
      ensures Model() == Enqueue(old(Model()), fn) && Inv(Model())
    {
      EnqueueKeeps(Model(), fn);
      queue := queue + [Task(fn)];
      enqueued := enqueued + [fn];
      if fx && queue[0] != InProgress {
        DequeueStep();
      }
    }
  }
}
