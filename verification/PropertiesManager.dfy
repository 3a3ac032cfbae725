/** PropertiesChangedManager: loads, registrations and the changes each listener is sent. */
module PropertiesManager {
  import opened PropertiesChange
  import opened Wrappers

  type Listener = nat

  /** What the single thread that holds the lock is in the middle of: the loop of onLoad, with
      the listeners still to be called, or a registration whose listener has been called but
      not yet put on the list. Inner frames come last. */
  datatype Frame = Notifying(rest: seq<Listener>, change: Change) | Joining(l: Listener)

  type Log = seq<(Listener, Change)>

  /** `log`: the calls made so far, oldest first. */
  datatype State = State(config: Config, listeners: seq<Listener>, log: Log, stack: seq<Frame>)

  const START := State(map[], [], [], [])

  /** What a listener has made, from the empty configuration, of what it was sent. */
  function Replay(log: Log, l: Listener): Config {
    if log == [] then map[]
    else
      var before := Replay(log[..|log| - 1], l);
      if log[|log| - 1].0 == l then Apply(log[|log| - 1].1, before) else before
  }

  function View(s: State, l: Listener): Config {
    Replay(s.log, l)
  }

  function Send(s: State, l: Listener, c: Change): (t: State)
    ensures forall m :: View(t, m) == if m == l then Apply(c, View(s, l)) else View(s, m)
  {
    assert (s.log + [(l, c)])[..|s.log|] == s.log;
    s.(log := s.log + [(l, c)])
  }

  datatype Event = Load(conf: Config) | Register(l: Listener) | Continue

  /** onLoad, up to its loop. */
  function OnLoad(s: State, conf: Config): State {
    var t, change := s.(config := conf), DiffOf(s.config, conf);
    if s.listeners == [] || !change.hasChange then t
    else t.(stack := s.stack + [Notifying(s.listeners, change)])
  }

  /** addPropertiesListener, up to the return of the listener it calls. */
  function OnRegister(s: State, l: Listener): State {
    var added := DiffOf(map[], s.config);
    if s.config != map[] && added.hasChange then Send(s, l, added).(stack := s.stack + [Joining(l)])
    else s.(listeners := s.listeners + [l])
  }

  /** The callback that is running returns, and the innermost frame goes on. */
  function OnContinue(s: State): State {
    if s.stack == [] then s
    else
      var outer := s.stack[..|s.stack| - 1];
      match s.stack[|s.stack| - 1]
      case Joining(l) => s.(listeners := s.listeners + [l], stack := outer)
      case Notifying(rest, c) =>
        if rest == [] then s.(stack := outer)
        else Send(s, rest[0], c).(stack := outer + [Notifying(rest[1..], c)])
  }

  function Step(s: State, e: Event): State {
    match e
    case Load(conf) => OnLoad(s, conf)
    case Register(l) => OnRegister(s, l)
    case Continue => OnContinue(s)
  }

  function Run(events: seq<Event>): State {
    if events == [] then START else Step(Run(events[..|events| - 1]), events[|events| - 1])
  }

  /** No listener loads a configuration while it is being called. */
  predicate NoNestedLoad(events: seq<Event>) {
    events == [] ||
    (NoNestedLoad(events[..|events| - 1]) && (events[|events| - 1].Load? ==> Run(events[..|events| - 1]).stack == []))
  }

  // ------------------------------------------------------------------ the replay invariant

  /** Still to be called by the loop at the bottom of the stack. */
  predicate Waiting(s: State, l: Listener) {
    s.stack != [] && s.stack[0].Notifying? && l in s.stack[0].rest
  }

  predicate Joins(s: State, l: Listener) {
    exists k :: 0 <= k < |s.stack| && s.stack[k] == Joining(l)
  }

  predicate Known(s: State, l: Listener) {
    l in s.listeners || Joins(s, l)
  }

  /** A listener is up to date, or will be when the loop has called it. */
  predicate UpToDate(s: State, l: Listener) {
    if Waiting(s, l) then Apply(s.stack[0].change, View(s, l)) == s.config
    else View(s, l) == s.config
  }

  ghost predicate Inv(s: State) {
    && (forall k :: 1 <= k < |s.stack| ==> s.stack[k].Joining?)
    && (s.stack != [] && s.stack[0].Notifying? ==> Apply(s.stack[0].change, s.config) == s.config)
    && (forall l :: Waiting(s, l) ==> l in s.listeners)
    && (forall l :: Known(s, l) ==> UpToDate(s, l))
    && (forall l :: !Known(s, l) ==> View(s, l) == map[])
  }

  lemma LoadKeeps(s: State, conf: Config)
    requires Inv(s) && s.stack == []
    ensures Inv(OnLoad(s, conf))
  {
    hide Apply, IsDiff;
    DiffApplied(DiffOf(s.config, conf), s.config, conf);
    var t := OnLoad(s, conf);
    assert forall l :: l in s.listeners <==> Known(s, l);
    if t.stack != [] {
      assert t.stack == [Notifying(s.listeners, DiffOf(s.config, conf))];
    }
  }

  lemma RegisterKeeps(s: State, l: Listener)
    requires Inv(s)
    ensures Inv(OnRegister(s, l))
  {
    var t := OnRegister(s, l);
    DiffApplied(DiffOf(map[], s.config), map[], s.config);
    if t.stack == s.stack {
      hide Apply, IsDiff;
      assert forall m :: Joins(t, m) == Joins(s, m) && Waiting(t, m) == Waiting(s, m);
      assert s.config == map[] || !DiffOf(map[], s.config).hasChange;
      assert s.config == map[];
      assert forall m :: View(t, m) == View(s, m);
      assert forall m :: Known(t, m) <==> Known(s, m) || m == l;
      forall m | Known(t, m) ensures UpToDate(t, m) {
        assert Known(s, m) ==> UpToDate(s, m);
      }
      forall m | !Known(t, m) ensures View(t, m) == map[] { assert !Known(s, m); }
    } else {
      JoinKeeps(s, l, DiffOf(map[], s.config));
    }
  }

  lemma JoiningFrame(s: State, t: State, l: Listener)
    requires t.stack == s.stack + [Joining(l)]
    ensures forall m :: Joins(t, m) <==> Joins(s, m) || m == l
    ensures forall m :: Waiting(t, m) == Waiting(s, m)
  {
    forall m ensures Joins(t, m) <==> Joins(s, m) || m == l {
      assert t.stack[|s.stack|] == Joining(l);
      assert forall k :: 0 <= k < |s.stack| ==> t.stack[k] == s.stack[k];
    }
    forall m ensures Waiting(t, m) == Waiting(s, m) {
      if s.stack != [] { assert t.stack[0] == s.stack[0]; }
    }
  }

  lemma JoinKeeps(s: State, l: Listener, added: Change)
    requires Inv(s) && IsDiff(added, map[], s.config)
    ensures Inv(Send(s, l, added).(stack := s.stack + [Joining(l)]))
  {
    hide Apply, IsDiff, Replay, View, Joins, Waiting, UpToDate;
    var t := Send(s, l, added).(stack := s.stack + [Joining(l)]);
    JoinedView(s, l, added);
    JoiningFrame(s, t, l);
    SendViews(s, l, added, t);
    assert Apart(s, t);
    hide Apart;
    NowUpToDate(s, t, l);
    forall m | Known(t, m) && m != l ensures UpToDate(t, m) {
      assert Known(s, m) && UpToDate(s, m) && View(t, m) == View(s, m);
      StillUpToDate(s, t, m);
    }
    forall m | Waiting(t, m) ensures m in t.listeners { assert Waiting(s, m); }
    forall m | !Known(t, m) ensures View(t, m) == map[] { assert !Known(s, m); }
    JoiningStack(s, t);
  }

  /** Another frame has been put on the stack. */
  predicate Apart(s: State, t: State) {
    && |t.stack| == |s.stack| + 1 && t.stack[..|s.stack|] == s.stack && t.stack[|s.stack|].Joining?
    && t.config == s.config && t.listeners == s.listeners
  }

  lemma JoiningStack(s: State, t: State)
    requires Apart(s, t) && forall k :: 1 <= k < |s.stack| ==> s.stack[k].Joining?
    ensures forall k :: 1 <= k < |t.stack| ==> t.stack[k].Joining?
    ensures t.stack != [] && (t.stack[0].Notifying? ==> s.stack != [] && s.stack[0] == t.stack[0])
  {
    forall k | 0 <= k < |s.stack| ensures t.stack[k] == s.stack[k] { assert t.stack[..|s.stack|][k] == s.stack[k]; }
  }

  lemma StillUpToDate(s: State, t: State, m: Listener)
    requires Apart(s, t) && UpToDate(s, m) && View(t, m) == View(s, m) && Waiting(t, m) == Waiting(s, m)
    ensures UpToDate(t, m)
  {
    hide Apply, View;
    if Waiting(s, m) { assert t.stack[..|s.stack|][0] == s.stack[0]; }
  }

  lemma NowUpToDate(s: State, t: State, l: Listener)
    requires Apart(s, t) && Waiting(t, l) == Waiting(s, l)
    requires if Waiting(s, l) then Apply(s.stack[0].change, View(t, l)) == s.config else View(t, l) == s.config
    ensures UpToDate(t, l)
  {
    hide Apply, View;
    if Waiting(s, l) { assert t.stack[..|s.stack|][0] == s.stack[0]; }
  }

  lemma SendViews(s: State, l: Listener, c: Change, t: State)
    requires t.log == Send(s, l, c).log
    ensures forall m :: View(t, m) == if m == l then View(Send(s, l, c), l) else View(s, m)
  {
    forall m ensures View(t, m) == View(Send(s, l, c), m) {}
  }

  /** What the listener that joins makes of what it is sent. */
  lemma JoinedView(s: State, l: Listener, added: Change)
    requires Inv(s) && IsDiff(added, map[], s.config)
    ensures var view := View(Send(s, l, added), l);
            if Waiting(s, l) then Apply(s.stack[0].change, view) == s.config else view == s.config
  {
    DiffApplied(added, map[], s.config);
    hide Apply, IsDiff, Replay;
    if Waiting(s, l) {
      assert Known(s, l) && UpToDate(s, l);
      ReplayedThenChanged(added, s.stack[0].change, View(s, l), s.config);
    } else if Known(s, l) {
      assert UpToDate(s, l);
    } else {
      assert View(s, l) == map[];
    }
  }

  lemma SendNextKeeps(s: State, rest: seq<Listener>, c: Change)
    requires Inv(s) && s.stack == [Notifying(rest, c)] && rest != []
    ensures Inv(Send(s, rest[0], c).(stack := [Notifying(rest[1..], c)]))
  {
    hide Apply;
    var l, t := rest[0], Send(s, rest[0], c).(stack := [Notifying(rest[1..], c)]);
    assert rest == [l] + rest[1..];
    assert forall m :: !Joins(s, m) && !Joins(t, m);
    assert Waiting(s, l) && Known(s, l);
    assert View(t, l) == s.config;
    assert UpToDate(t, l);
    forall m | Known(t, m) && m != l ensures UpToDate(t, m) {
      assert Known(s, m) && View(t, m) == View(s, m);
      assert Waiting(t, m) == Waiting(s, m);
    }
    forall m | Waiting(t, m) ensures m in t.listeners {
      assert Waiting(s, m);
    }
    forall m | !Known(t, m) ensures View(t, m) == map[] { assert !Known(s, m); }
  }

  lemma ContinueKeeps(s: State)
    requires Inv(s)
    ensures Inv(OnContinue(s))
  {
    hide Apply;
    if s.stack != [] {
      var n, t := |s.stack| - 1, OnContinue(s);
      match s.stack[n] {
        case Joining(l) =>
          forall m ensures Known(t, m) == Known(s, m) {}
          assert forall m :: Waiting(t, m) == Waiting(s, m);
        case Notifying(rest, c) =>
          assert n == 0 && s.stack == [Notifying(rest, c)];
          if rest != [] {
            SendNextKeeps(s, rest, c);
            assert t.stack == [Notifying(rest[1..], c)];
          } else {
            assert t.stack == [];
            assert forall m :: !Joins(s, m) && !Joins(t, m) && !Waiting(s, m);
            assert forall m :: Known(t, m) ==> Known(s, m) && UpToDate(s, m);
            forall m | !Known(t, m) ensures View(t, m) == map[] { assert !Known(s, m); }
          }
      }
    }
  }

  lemma {:induction false} InvRun(events: seq<Event>)
    requires NoNestedLoad(events)
    ensures Inv(Run(events))
  {
    if events != [] {
      var before := Run(events[..|events| - 1]);
      InvRun(events[..|events| - 1]);
      match events[|events| - 1] {
        case Load(conf) => LoadKeeps(before, conf);
        case Register(l) => RegisterKeeps(before, l);
        case Continue => ContinueKeeps(before);
      }
    }
  }

  /** Over every run of loads and registrations, also registrations made inside a callback:
      a registered listener that no loop has still to call has rebuilt the configuration. */
  lemma ListenersFollow(events: seq<Event>, l: Listener)
    requires NoNestedLoad(events)
    ensures var s := Run(events); l in s.listeners && !Waiting(s, l) ==> View(s, l) == s.config
    ensures var s := Run(events); l in s.listeners && s.stack == [] ==> View(s, l) == s.config
  {
    InvRun(events);
    assert l in Run(events).listeners ==> Known(Run(events), l);
  }

  // ------------------------------------------------------------------ what is sent

  /** One call for each of the listeners, in the order of the list. */
  function Calls(listeners: seq<Listener>, c: Change): (r: Log)
    ensures |r| == |listeners| && forall i :: 0 <= i < |r| ==> r[i] == (listeners[i], c)
  {
    seq(|listeners|, i requires 0 <= i < |listeners| => (listeners[i], c))
  }

  /** A load that changes nothing sends nothing; one that does calls every listener once, in
      order, with the difference, whatever it interrupts. */
  lemma {:induction false} LoadTells(events: seq<Event>, conf: Config, n: nat)
    requires n <= |Run(events).listeners|
    ensures var s, t := Run(events), Run(events + [Load(conf)] + Continues(n));
            if conf == s.config then Run(events + [Load(conf)]) == s
            else t.log == s.log + Calls(s.listeners[..n], DiffOf(s.config, conf)) && t.config == conf &&
                 (s.listeners != [] ==> t.stack == s.stack + [Notifying(s.listeners[n..], DiffOf(s.config, conf))])
  {
    hide Run, IsDiff;
    var s, loaded := Run(events), events + [Load(conf)];
    RunSnoc(events, Load(conf));
    DiffExists(s.config, conf);
    if conf != s.config {
      if n == 0 {
        assert loaded + Continues(0) == loaded;
        assert s.log + Calls(s.listeners[..0], DiffOf(s.config, conf)) == s.log;
        assert s.listeners[0..] == s.listeners;
      } else {
        LoadTells(events, conf, n - 1);
        assert loaded + Continues(n) == (loaded + Continues(n - 1)) + [Continue];
        RunSnoc(loaded + Continues(n - 1), Continue);
        NextCall(s, Run(loaded + Continues(n - 1)), DiffOf(s.config, conf), n);
      }
    }
  }

  lemma DiffExists(a: Config, b: Config)
    ensures DiffOf(a, b).hasChange <==> a != b
  {
  }

  lemma NextCall(s: State, t: State, c: Change, n: nat)
    requires 0 < n <= |s.listeners|
    requires t.log == s.log + Calls(s.listeners[..n - 1], c) && t.stack == s.stack + [Notifying(s.listeners[n - 1..], c)]
    ensures OnContinue(t).log == s.log + Calls(s.listeners[..n], c)
    ensures OnContinue(t).config == t.config && OnContinue(t).stack == s.stack + [Notifying(s.listeners[n..], c)]
  {
    assert Calls(s.listeners[..n], c) == Calls(s.listeners[..n - 1], c) + [(s.listeners[n - 1], c)];
    assert s.listeners[n - 1..][1..] == s.listeners[n..];
  }

  /** A listener that registers is sent everything there is, once, unless there is nothing. */
  lemma RegistrationTells(events: seq<Event>, l: Listener)
    ensures var s, t := Run(events), Run(events + [Register(l)]);
            && t.config == s.config
            && (if s.config == map[] then t.log == s.log && t.listeners == s.listeners + [l] && t.stack == s.stack
                else t.log == s.log + [(l, DiffOf(map[], s.config))] && t.listeners == s.listeners
                     && t.stack == s.stack + [Joining(l)])
  {
    RunSnoc(events, Register(l));
    DiffExists(map[], Run(events).config);
    hide IsDiff;
  }

  // ------------------------------------------------------------------ a load inside a callback

  lemma RunSnoc(events: seq<Event>, e: Event)
    ensures Run(events + [e]) == Step(Run(events), e)
  {
    assert (events + [e])[..|events|] == events;
  }

  function Continues(n: nat): (r: seq<Event>)
    ensures |r| == n && forall k :: 0 <= k < n ==> r[k] == Continue
  {
    seq(n, k requires 0 <= k < n => Continue)
  }

  /** How many calls and returns are left. */
  function Work(stack: seq<Frame>): (n: nat)
    ensures stack != [] ==> n >= 1
  {
    if stack == [] then 0
    else
      var top := stack[|stack| - 1];
      Work(stack[..|stack| - 1]) + 1 + if top.Notifying? then |top.rest| else 0
  }

  /** The state when all callbacks have returned, with no other event coming in between. */
  function Finish(s: State): State
    decreases Work(s.stack)
  {
    if s.stack == [] then s
    else
      OnContinueWorks(s);
      Finish(OnContinue(s))
  }

  lemma OnContinueWorks(s: State)
    requires s.stack != []
    ensures Work(OnContinue(s).stack) < Work(s.stack)
  {
    var outer, top := s.stack[..|s.stack| - 1], s.stack[|s.stack| - 1];
    if top.Notifying? && top.rest != [] {
      var t := outer + [Notifying(top.rest[1..], top.change)];
      assert t[..|t| - 1] == outer;
    }
  }

  lemma {:induction false} FinishAfterContinues(events: seq<Event>, n: nat)
    ensures Finish(Run(events + Continues(n))) == Finish(Run(events))
    ensures n >= Work(Run(events).stack) ==> Run(events + Continues(n)).stack == []
    ensures Run(events + Continues(n)).stack != [] ==> Work(Run(events + Continues(n)).stack) + n <= Work(Run(events).stack)
  {
    hide Finish, Work, OnContinue, Run;
    if n == 0 {
      assert events + Continues(0) == events;
    } else {
      FinishAfterContinues(events, n - 1);
      assert events + Continues(n) == (events + Continues(n - 1)) + [Continue];
      RunSnoc(events + Continues(n - 1), Continue);
      FinishStep(Run(events + Continues(n - 1)));
    }
  }

  lemma FinishStep(s: State)
    ensures Finish(OnContinue(s)) == Finish(s)
    ensures if s.stack == [] then OnContinue(s) == s else Work(OnContinue(s).stack) < Work(s.stack)
  {
    if s.stack != [] { OnContinueWorks(s); }
  }

  predicate Due(f: Frame, l: Listener) {
    f.Notifying? && l in f.rest
  }

  /** What becomes of a listener's copy: the loops that have still to call it do so, innermost
      first. */
  function Deliver(stack: seq<Frame>, l: Listener, view: Config): Config {
    if stack == [] then view
    else
      var top := stack[|stack| - 1];
      Deliver(stack[..|stack| - 1], l, if Due(top, l) then Apply(top.change, view) else view)
  }

  /** The listeners still to be put on the list, innermost first. */
  function Joined(stack: seq<Frame>): seq<Listener> {
    if stack == [] then []
    else
      var top := stack[|stack| - 1];
      (if top.Joining? then [top.l] else []) + Joined(stack[..|stack| - 1])
  }

  /** Whatever loads and registrations are nested in one another: when all callbacks have
      returned, the configuration has stayed, the listeners being registered are on the list, and
      each copy is what the due calls made of it. */
  lemma {:induction false} FinishDelivers(s: State, l: Listener)
    ensures var end := Finish(s);
            && end.stack == [] && end.config == s.config && end.listeners == s.listeners + Joined(s.stack)
            && View(end, l) == Deliver(s.stack, l, View(s, l))
    decreases Work(s.stack)
  {
    hide *;
    if s.stack == [] {
      FinishedStep(s, l);
    } else {
      OnContinueWorks(s);
      FinishStep(s);
      ContinueDelivers(s, l);
      FinishDelivers(OnContinue(s), l);
    }
  }

  lemma FinishedStep(s: State, l: Listener)
    requires s.stack == []
    ensures Finish(s) == s && Deliver(s.stack, l, View(s, l)) == View(s, l) && s.listeners + Joined(s.stack) == s.listeners
  {
  }

  /** One call or return of the innermost frame changes nothing of what the end will be. */
  lemma ContinueDelivers(s: State, l: Listener)
    requires s.stack != []
    ensures var t := OnContinue(s);
            && t.config == s.config && t.listeners + Joined(t.stack) == s.listeners + Joined(s.stack)
            && Deliver(t.stack, l, View(t, l)) == Deliver(s.stack, l, View(s, l))
  {
    hide Apply, Deliver, Joined;
    var outer, top, t := s.stack[..|s.stack| - 1], s.stack[|s.stack| - 1], OnContinue(s);
    assert s.stack == outer + [top];
    DeliverTop(outer, top, l, View(s, l));
    match top {
      case Joining(m) =>
        assert (s.listeners + [m]) + Joined(outer) == s.listeners + ([m] + Joined(outer));
      case Notifying(rest, c) =>
        if rest != [] {
          DeliverTop(outer, Notifying(rest[1..], c), l, View(t, l));
          assert l in rest <==> l == rest[0] || l in rest[1..];
          ApplyTwice(c, View(s, l));
        }
    }
  }

  lemma DeliverTop(outer: seq<Frame>, top: Frame, l: Listener, view: Config)
    ensures Deliver(outer + [top], l, view) == Deliver(outer, l, if Due(top, l) then Apply(top.change, view) else view)
    ensures Joined(outer + [top]) == if top.Joining? then [top.l] + Joined(outer) else Joined(outer)
  {
    hide Apply;
    assert (outer + [top])[..|outer|] == outer && [] + Joined(outer) == Joined(outer);
  }

  /** The due change that is delivered last among those that touch the key. */
  function LastDue(stack: seq<Frame>, l: Listener, k: Key): Option<Change> {
    if stack == [] then None
    else
      var top := stack[|stack| - 1];
      var below := LastDue(stack[..|stack| - 1], l, k);
      if below.Some? then below else if Due(top, l) && top.change.IsChange(k) then Some(top.change) else None
  }

  lemma {:induction false} DeliverAt(stack: seq<Frame>, l: Listener, view: Config, k: Key)
    ensures At(Deliver(stack, l, view), k) ==
            match LastDue(stack, l, k) { case None => At(view, k) case Some(c) => After(c, view, k) }
    ensures forall c :: LastDue(stack, l, k) == Some(c) ==> c.IsChange(k)
  {
    if stack != [] {
      var top := stack[|stack| - 1];
      var next := if Due(top, l) then Apply(top.change, view) else view;
      DeliverAt(stack[..|stack| - 1], l, next, k);
      if Due(top, l) { assert At(next, k) == After(top.change, view, k); }
    }
  }

  /** Key k of the listener's copy will be right: the change to it that is delivered last sets the
      present value, or none is due and the value is right already. */
  predicate WillBeRight(s: State, l: Listener, k: Key) {
    match LastDue(s.stack, l, k)
    case None => At(View(s, l), k) == At(s.config, k)
    case Some(c) => After(c, s.config, k) == At(s.config, k)
  }

  /** For every run, with loads and registrations nested in any way: once all callbacks have
      returned, a listener has rebuilt the configuration exactly if each key will be right, as the
      loops going on say beforehand. */
  lemma EndsRightIff(events: seq<Event>, n: nat, l: Listener)
    requires Run(events + Continues(n)).stack == []
    ensures var s, end := Run(events), Run(events + Continues(n));
            && end.config == s.config && end.listeners == s.listeners + Joined(s.stack)
            && (View(end, l) == end.config <==> forall k :: WillBeRight(s, l, k))
  {
    var s, end := Run(events), Run(events + Continues(n));
    FinishAfterContinues(events, n);
    FinishDelivers(s, l);
    hide Run, Deliver, Joined;
    forall k ensures At(View(end, l), k) == At(end.config, k) <==> WillBeRight(s, l, k) {
      DeliverAt(s.stack, l, View(s, l), k);
      hide Apply, LastDue;
    }
    if forall k :: WillBeRight(s, l, k) { SameAt(View(end, l), end.config); }
  }

  /** Frames that only join listeners deliver nothing. */
  lemma {:induction false} OnlyFirstDelivers(stack: seq<Frame>, l: Listener, view: Config)
    requires forall k :: 1 <= k < |stack| ==> stack[k].Joining?
    ensures Deliver(stack, l, view) == if stack != [] && Due(stack[0], l) then Apply(stack[0].change, view) else view
  {
    hide Apply;
    if |stack| > 1 {
      OnlyFirstDelivers(stack[..|stack| - 1], l, view);
    } else if |stack| == 1 {
      assert stack[..0] == [];
    }
  }

  lemma {:induction false} JoinedMembers(s: State, l: Listener)
    ensures l in Joined(s.stack) <==> Joins(s, l)
    decreases |s.stack|
  {
    if s.stack != [] {
      var front := s.(stack := s.stack[..|s.stack| - 1]);
      JoinedMembers(front, l);
      assert Joins(s, l) <==> Joins(front, l) || s.stack[|s.stack| - 1] == Joining(l) by {
        if k :| 0 <= k < |s.stack| && s.stack[k] == Joining(l) {
          assert k < |s.stack| - 1 ==> front.stack[k] == Joining(l);
        }
        if k :| 0 <= k < |front.stack| && front.stack[k] == Joining(l) { assert s.stack[k] == Joining(l); }
      }
    }
  }

  /** A load made inside any callback, of a loop or of a registration. Let c2 be loaded in any state
      of a run without earlier nested loads. When all callbacks have returned, every listener known
      by then is registered, and has rebuilt c2 exactly in these cases: one that was still being
      registered, if c2 is what was loaded before; any other, if the interrupted loop had not to
      call it any more, or if the two changes have no key in common. */
  lemma NestedLoad(events: seq<Event>, c2: Config, n: nat, l: Listener)
    requires NoNestedLoad(events) && Known(Run(events), l)
    requires Run(events + [Load(c2)] + Continues(n)).stack == []
    ensures var s, end := Run(events), Run(events + [Load(c2)] + Continues(n));
            && end.config == c2 && l in end.listeners
            && (View(end, l) == c2 <==>
                  if l !in s.listeners then s.config == c2
                  else !Waiting(s, l) || NoCommonKey(s.stack[0].change, DiffOf(s.config, c2)))
  {
    var s, loaded := Run(events), events + [Load(c2)];
    InvRun(events);
    RunSnoc(events, Load(c2));
    FinishAfterContinues(loaded, n);
    hide Run;
    NestedLoadEnds(s, c2, l);
  }

  /** The same, said of the state in which the load is made. */
  lemma NestedLoadEnds(s: State, c2: Config, l: Listener)
    requires Inv(s) && Known(s, l)
    ensures var end := Finish(OnLoad(s, c2));
            && end.stack == [] && end.config == c2 && l in end.listeners
            && (View(end, l) == c2 <==>
                  if l !in s.listeners then s.config == c2
                  else !Waiting(s, l) || NoCommonKey(s.stack[0].change, DiffOf(s.config, c2)))
  {
    var second, t := DiffOf(s.config, c2), OnLoad(s, c2);
    DiffApplied(second, s.config, c2);
    assert if Waiting(s, l) then Apply(s.stack[0].change, View(s, l)) == s.config else View(s, l) == s.config by {
      assert UpToDate(s, l);
    }
    assert Waiting(s, l) ==> l in s.listeners && Apply(s.stack[0].change, s.config) == s.config;
    FinishDelivers(t, l);
    JoinedMembers(s, l);
    var told := AfterLoad(s, c2, l);
    OnlyFirstDelivers(s.stack, l, told);
    hide Apply, IsDiff, DiffOf, UpToDate, Finish, Deliver, Joined, OnLoad, Joins, Inv;
    if Waiting(s, l) { OutOfOrder(s.stack[0].change, second, View(s, l), s.config, c2); }
  }

  /** What the loop of the nested load, if it has one, makes of a listener's copy. */
  lemma AfterLoad(s: State, c2: Config, l: Listener) returns (told: Config)
    ensures told == if l in s.listeners then Apply(DiffOf(s.config, c2), View(s, l)) else View(s, l)
    ensures var t := OnLoad(s, c2);
            && t.config == c2 && t.listeners == s.listeners && Joined(t.stack) == Joined(s.stack)
            && Deliver(t.stack, l, View(t, l)) == Deliver(s.stack, l, told)
  {
    hide Apply, DiffOf, Deliver, Joined, IsDiff, Replay;
    var second, t := DiffOf(s.config, c2), OnLoad(s, c2);
    told := if l in s.listeners then Apply(second, View(s, l)) else View(s, l);
    if !second.hasChange {
      NothingChanges(s.config, c2);
    } else if s.listeners != [] {
      DeliverTop(s.stack, Notifying(s.listeners, second), l, View(t, l));
    }
  }

  /** Without a change the difference changes nothing, for any listener. */
  lemma NothingChanges(a: Config, b: Config)
    requires !DiffOf(a, b).hasChange
    ensures a == b && forall m :: Apply(DiffOf(a, b), m) == m
  {
    forall m ensures Apply(DiffOf(a, b), m) == m {
      forall k ensures At(Apply(DiffOf(a, b), m), k) == At(m, k) {
        assert At(DiffOf(a, b).items, k) == ItemAt(a, b, k);
      }
      SameAt(Apply(DiffOf(a, b), m), m);
    }
  }

  /** It does happen in a loop: with two listeners, the first of which loads a second value of a
      key while it is told of the first value, the second listener ends with the first value. */
  lemma NestedLoadMisleads(k: Key, v1: Value, v2: Value) returns (events: seq<Event>)
    requires v1 != v2
    ensures var s := Run(events);
            s.stack == [] && 2 in s.listeners && s.config == map[k := v2] && View(s, 2) != s.config
  {
    var c1, c2 := map[k := v1], map[k := v2];
    var first, second := DiffOf(map[], c1), DiffOf(c1, c2);
    assert k in c1;
    var told := ToldFirst(c1, first);
    IsChangeIffDifferent(first, map[], c1, k);
    IsChangeIffDifferent(second, c1, c2, k);
    assert first.IsChange(k) && second.IsChange(k);
    hide Run, DiffOf, Apply, IsDiff;
    var n := Work(Run(told + [Load(c2)]).stack);
    FinishAfterContinues(told + [Load(c2)], n);
    events := told + [Load(c2)] + Continues(n);
    NestedLoad(told, c2, n, 2);
  }

  /** And in a registration: a listener that loads a second configuration while it is told of what
      there is when it registers ends with the first one, whatever the two are. */
  lemma RegistrationMisleads(c1: Config, c2: Config, l: Listener) returns (events: seq<Event>)
    requires c1 != map[] && c1 != c2
    ensures var s := Run(events); s.stack == [] && l in s.listeners && s.config == c2 && View(s, l) != c2
  {
    var joining := [Load(c1), Register(l)];
    JoiningAlone(c1, l);
    assert Known(Run(joining), l) by { assert Run(joining).stack[0] == Joining(l); }
    hide Run, DiffOf, Apply, IsDiff;
    var n := Work(Run(joining + [Load(c2)]).stack);
    FinishAfterContinues(joining + [Load(c2)], n);
    events := joining + [Load(c2)] + Continues(n);
    NestedLoad(joining, c2, n, l);
  }

  lemma JoiningAlone(c1: Config, l: Listener)
    requires c1 != map[]
    ensures NoNestedLoad([Load(c1), Register(l)])
    ensures var s := Run([Load(c1), Register(l)]); s.stack == [Joining(l)] && s.listeners == [] && s.config == c1
  {
    hide Apply, IsDiff;
    var e1, e2 := Load(c1), Register(l);
    assert [e1, e2][..1] == [e1] && [e1][..0] == [];
    assert NoNestedLoad([e1]) by { assert NoNestedLoad([]); }
    assert Run([e1]) == State(c1, [], [], []);
  }

  lemma ToldFirst(c1: Config, first: Change) returns (events: seq<Event>)
    requires c1 != map[] && first == DiffOf(map[], c1)
    ensures NoNestedLoad(events)
    ensures var s := Run(events); s.stack == [Notifying([2], first)] && s.listeners == [1, 2] && s.config == c1
  {
    hide Apply, IsDiff;
    var e1, e2, e3, e4 := Register(1), Register(2), Load(c1), Continue;
    events := [e1, e2, e3, e4];
    assert events[..3] == [e1, e2, e3] && [e1, e2, e3][..2] == [e1, e2] && [e1, e2][..1] == [e1] && [e1][..0] == [];
    assert Run([e1]) == State(map[], [1], [], []);
    assert Run([e1, e2]) == State(map[], [1, 2], [], []);
    assert Run([e1, e2, e3]) == State(c1, [1, 2], [], [Notifying([1, 2], first)]);
    assert [1, 2][1..] == [2];
    assert NoNestedLoad([e1, e2]) by { assert NoNestedLoad([e1]) by { assert NoNestedLoad([]); } }
    assert NoNestedLoad([e1, e2, e3]);
  }

  // ------------------------------------------------------------------ the manager

  /** A listener that only follows what it is told. */
  class Follower {
    var view: Config

    constructor ()
      ensures view == map[]
    {
      view := map[];
    }

    method OnChange(c: Change)
      modifies this
      ensures view == Apply(c, old(view))
    {
      view := Apply(c, view);
    }
  }

  class PropertiesChangedManager {
    var config: Config
    var propertiesChangeListeners: seq<Follower>
    ghost var sent: seq<(Follower, Change)>

    ghost predicate Valid()
      reads this, propertiesChangeListeners
    {
      forall l :: l in propertiesChangeListeners ==> l.view == config
    }

    constructor ()
      ensures Valid() && config == map[] && propertiesChangeListeners == [] && sent == []
    {
      config, propertiesChangeListeners, sent := map[], [], [];
    }

    /** triggerPropertiesChange */
    method Trigger(l: Follower, change: Change)
      modifies this`sent, l
      ensures l.view == Apply(change, old(l.view)) && sent == old(sent) + [(l, change)]
    {
      l.OnChange(change);
      sent := sent + [(l, change)];
    }

    method OnLoad(conf: Config)
      requires Valid()
      modifies this`config, this`sent, propertiesChangeListeners
      ensures Valid() && config == conf
      ensures old(config) == conf ==> sent == old(sent)
      ensures old(config) != conf ==>
        && |sent| == |old(sent)| + |propertiesChangeListeners| && old(sent) <= sent
        && forall i :: 0 <= i < |propertiesChangeListeners| ==>
             sent[|old(sent)| + i] == (propertiesChangeListeners[i], DiffOf(old(config), conf))
    {
      var oldConfig := config;
      config := conf;
      if propertiesChangeListeners == [] { return; }
      var change := Diff(oldConfig, config);
      DiffApplied(change, oldConfig, config);
      hide Apply, DiffOf, IsDiff;
      if !change.hasChange { return; }
      TriggerAll(propertiesChangeListeners, change, oldConfig, conf);
    }

    /** The loop of onLoad. */
    method TriggerAll(listeners: seq<Follower>, change: Change, ghost before: Config, ghost after: Config)
      requires Apply(change, before) == Apply(change, after) == after
      requires forall l :: l in listeners ==> l.view == before
      modifies this`sent, listeners
      ensures forall l :: l in listeners ==> l.view == after
      ensures |sent| == |old(sent)| + |listeners| && old(sent) <= sent
      ensures forall i :: 0 <= i < |listeners| ==> sent[|old(sent)| + i] == (listeners[i], change)
    {
      hide Apply;
      for i := 0 to |listeners|
        invariant forall l :: l in listeners ==> l.view == before || l.view == after
        invariant forall k :: 0 <= k < i ==> listeners[k].view == after
        invariant |sent| == |old(sent)| + i && old(sent) <= sent
        invariant forall k :: 0 <= k < i ==> sent[|old(sent)| + k] == (listeners[k], change)
      {
        Trigger(listeners[i], change);
      }
    }

    /** The listener may be new, or registered a second time. */
    method AddPropertiesListener(l: Follower)
      requires Valid() && (l in propertiesChangeListeners || l.view == map[])
      modifies this`propertiesChangeListeners, this`sent, l
      ensures Valid() && config == old(config)
      ensures sent == old(sent) + if config == map[] then [] else [(l, DiffOf(map[], config))]
      ensures propertiesChangeListeners == old(propertiesChangeListeners) + [l]
    {
      if config != map[] {
        var change := EverythingAdded(config);
        DiffApplied(change, map[], config);
        if change.hasChange {
          Trigger(l, change);
        }
      }
      propertiesChangeListeners := propertiesChangeListeners + [l];
    }
  }
}
