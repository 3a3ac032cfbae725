/** Server-side processing: numbered requests, and replies that may be late, reordered, repeated
    or lost. */
module ServerDraw {
  import opened Wrappers
  import opened Seqs

  type Data = nat

  /** A reply to request number `request`. `echo`: it carries that number, as it should. */
  datatype Reply = Reply(request: nat, echo: bool, data: Data)

  /** `iDraw`, `bAjaxDataGet` and `bDeferLoading` are the fields of the settings. `issued` are the
      numbers of the requests sent, `installed` the replies shown, oldest first, each with the
      number of the latest request at that moment. */
  datatype State = State(iDraw: nat, bAjaxDataGet: bool, bDeferLoading: bool,
                         issued: seq<nat>, installed: seq<(Reply, nat)>)

  function Init(defer: bool): State {
    State(0, true, defer, [], [])
  }

  /** _fnDraw, as far as it concerns requests. */
  function Draw(s: State): State {
    if s.bDeferLoading then s.(bDeferLoading := false, iDraw := s.iDraw + 1)
    else if s.bAjaxDataGet then s.(iDraw := s.iDraw + 1, issued := s.issued + [s.iDraw + 1])
    else s
  }

  /** The number of the latest request; 0 before the first. */
  function Latest(s: State): nat {
    if s.issued == [] then 0 else s.issued[|s.issued| - 1]
  }

  /** _fnAjaxUpdateDraw: `draws` further draws are asked for by callbacks of the drawing. */
  function Arrive(s: State, r: Reply, draws: nat): State {
    if r.echo && r.request != 0 && r.request < s.iDraw then s
    else
      var latest := Latest(s);
      var t := s.(iDraw := if r.echo && r.request != 0 then r.request else s.iDraw,
                  installed := s.installed + [(r, latest)],
                  bAjaxDataGet := false);
      Draws(t, draws + 1).(bAjaxDataGet := true)
  }

  function Draws(s: State, n: nat): State
    decreases n
  {
    if n == 0 then s else Draws(Draw(s), n - 1)
  }

  datatype Event = OnDraw | OnReply(r: Reply, draws: nat)

  /** A reply answers a request that was sent. */
  predicate Possible(s: State, e: Event) {
    e.OnReply? ==> e.r.request in s.issued
  }

  function Step(s: State, e: Event): State {
    match e
    case OnDraw => Draw(s)
    case OnReply(r, draws) => Arrive(s, r, draws)
  }

  /** The state after a run; an event that is not possible when it comes does nothing. */
  function Run(defer: bool, events: seq<Event>): State {
    if events == [] then Init(defer)
    else
      var before := Run(defer, events[..|events| - 1]);
      if Possible(before, events[|events| - 1]) then Step(before, events[|events| - 1]) else before
  }

  predicate Inv(s: State) {
    && s.bAjaxDataGet
    && Increasing(s.issued)
    && (s.issued != [] ==> s.issued[|s.issued| - 1] == s.iDraw && s.issued[0] >= 1 && !s.bDeferLoading)
  }

  /** What was shown belonged each time to the latest request, so its number never went down. */
  predicate InOrder(s: State) {
    && (forall k :: 0 <= k < |s.installed| ==>
          s.installed[k].0.request == s.installed[k].1 && s.installed[k].1 <= s.iDraw)
    && (forall j, k :: 0 <= j < k < |s.installed| ==> s.installed[j].0.request <= s.installed[k].0.request)
  }

  lemma {:induction false} NestedDrawsDoNothing(s: State, n: nat)
    requires !s.bAjaxDataGet && !s.bDeferLoading
    ensures Draws(s, n) == s
  {
    if n > 0 { NestedDrawsDoNothing(s, n - 1); }
  }

  /** A reply is installed exactly if it answers the latest request or carries no number; then
      the draw number stands where it was, and neither the drawing nor the draws asked for by
      its callbacks send anything. */
  lemma InstalledIffLatest(s: State, r: Reply, draws: nat)
    requires Inv(s) && r.request in s.issued
    ensures var s', latest := Arrive(s, r, draws), Latest(s);
            s' == if r.request == latest || !r.echo then s.(installed := s.installed + [(r, latest)]) else s
  {
    var k :| 0 <= k < |s.issued| && s.issued[k] == r.request;
    NestedDrawsDoNothing(s.(installed := s.installed + [(r, s.issued[|s.issued| - 1])], bAjaxDataGet := false), draws + 1);
  }

  lemma {:induction false} InvRun(defer: bool, events: seq<Event>)
    ensures Inv(Run(defer, events))
  {
    if events != [] {
      var before, e := Run(defer, events[..|events| - 1]), events[|events| - 1];
      InvRun(defer, events[..|events| - 1]);
      if Possible(before, e) {
        match e {
          case OnDraw =>
            if !before.bDeferLoading {
              var issued := Draw(before).issued;
              forall i, j | 0 <= i < j < |issued| ensures issued[i] < issued[j] {
                if j == |before.issued| && i < j - 1 { assert before.issued[i] < before.issued[j - 1]; }
              }
            }
          case OnReply(r, draws) => InstalledIffLatest(before, r, draws);
        }
      }
    }
  }

  /** How many draws there are among the events. */
  function DrawCount(events: seq<Event>): nat {
    if events == [] then 0 else DrawCount(events[..|events| - 1]) + if events[|events| - 1].OnDraw? then 1 else 0
  }

  /** Every draw sends one request, numbered in turn, except the first one when the page came
      with its data; replies, whatever drawing they cause, send none. */
  lemma {:induction false} EveryDrawRequests(defer: bool, events: seq<Event>)
    ensures var s, n := Run(defer, events), DrawCount(events);
            && s.iDraw == n && (s.bDeferLoading <==> defer && n == 0)
            && s.issued == seq(if defer && n > 0 then n - 1 else n, k => if defer then k + 2 else k + 1)
  {
    if events != [] {
      var front, e := events[..|events| - 1], events[|events| - 1];
      EveryDrawRequests(defer, front);
      InvRun(defer, front);
      var before := Run(defer, front);
      if e.OnReply? && Possible(before, e) { InstalledIffLatest(before, e.r, e.draws); }
    }
  }

  /** The marks of what was installed never went down. */
  predicate Marked(s: State) {
    && (forall k :: 0 <= k < |s.installed| ==> s.installed[k].1 <= s.iDraw)
    && (forall j, k :: 0 <= j < k < |s.installed| ==> s.installed[j].1 <= s.installed[k].1)
  }

  predicate AllLatest(s: State) {
    forall k :: 0 <= k < |s.installed| ==> s.installed[k].0.request == s.installed[k].1
  }

  lemma {:induction false} MarkedRun(defer: bool, events: seq<Event>)
    ensures Marked(Run(defer, events))
  {
    if events != [] {
      var before, e := Run(defer, events[..|events| - 1]), events[|events| - 1];
      MarkedRun(defer, events[..|events| - 1]);
      InvRun(defer, events[..|events| - 1]);
      if Possible(before, e) && e.OnReply? { InstalledIffLatest(before, e.r, e.draws); }
    }
  }

  /** Event k is a reply without its number to a request that is no longer the latest. */
  predicate Overtakes(defer: bool, events: seq<Event>, k: nat)
    requires k < |events|
  {
    var before := Run(defer, events[..k]);
    events[k].OnReply? && !events[k].r.echo && Possible(before, events[k]) && events[k].r.request != Latest(before)
  }

  /** Over every interleaving: what is shown is in order exactly if no reply without its number
      overtakes a later one. */
  lemma ShownInOrderIff(defer: bool, events: seq<Event>)
    ensures InOrder(Run(defer, events)) <==> forall k: nat :: k < |events| ==> !Overtakes(defer, events, k)
  {
    MarkedRun(defer, events);
    LatestIffNoneOvertakes(defer, events);
  }

  lemma {:induction false} LatestIffNoneOvertakes(defer: bool, events: seq<Event>)
    ensures AllLatest(Run(defer, events)) <==> forall k: nat :: k < |events| ==> !Overtakes(defer, events, k)
  {
    if events != [] {
      var front, n := events[..|events| - 1], |events| - 1;
      LatestIffNoneOvertakes(defer, front);
      forall k: nat | k < n ensures Overtakes(defer, events, k) <==> Overtakes(defer, front, k) {
        assert front[..k] == events[..k];
      }
      LastEvent(defer, events);
    }
  }

  lemma LastEvent(defer: bool, events: seq<Event>)
    requires events != []
    ensures AllLatest(Run(defer, events)) <==>
            AllLatest(Run(defer, events[..|events| - 1])) && !Overtakes(defer, events, |events| - 1)
  {
    var before, e := Run(defer, events[..|events| - 1]), events[|events| - 1];
    InvRun(defer, events[..|events| - 1]);
    if Possible(before, e) && e.OnReply? {
      InstalledIffLatest(before, e.r, e.draws);
      var installed := before.installed + [(e.r, Latest(before))];
      assert installed[|before.installed|] == (e.r, Latest(before));
      assert forall k :: 0 <= k < |before.installed| ==> installed[k] == before.installed[k];
    }
  }

  /** So replies that carry their number are always shown in order. */
  lemma ShownInOrder(defer: bool, events: seq<Event>)
    requires forall k :: 0 <= k < |events| && events[k].OnReply? ==> events[k].r.echo
    ensures InOrder(Run(defer, events))
  {
    ShownInOrderIff(defer, events);
  }

  /** And without the number the order can be lost: two requests, and the reply to the first. */
  lemma UnnumberedReplyOvertakes(data: Data, draws: nat)
    ensures !InOrder(Run(false, [OnDraw, OnDraw, OnReply(Reply(1, false, data), draws)]))
  {
    var events := [OnDraw, OnDraw, OnReply(Reply(1, false, data), draws)];
    TwoRequests();
    assert events[..2] == [OnDraw, OnDraw];
    assert Run(false, events[..2]).issued[0] == 1;
    assert Overtakes(false, events, 2);
    ShownInOrderIff(false, events);
  }

  lemma TwoRequests()
    ensures Run(false, [OnDraw, OnDraw]).issued == [1, 2]
  {
    assert [OnDraw, OnDraw][..1] == [OnDraw] && [OnDraw][..0] == [];
    assert Run(false, [OnDraw]).issued == [1];
  }

  // ------------------------------------------------------------------ the settings object

  class Settings {
    var iDraw: nat
    var bAjaxDataGet: bool
    var bDeferLoading: bool
    ghost var issued: seq<nat>
    ghost var installed: seq<(Reply, nat)>

    ghost function Model(): State
      reads this
    {
      State(iDraw, bAjaxDataGet, bDeferLoading, issued, installed)
    }

    constructor (defer: bool)
      ensures Model() == Init(defer)
    {
      iDraw, bAjaxDataGet, bDeferLoading, issued, installed := 0, true, defer, [], [];
    }

    /** _fnAjaxUpdate: whether the drawing may go on. */
    method AjaxUpdate() returns (goOn: bool)
      modifies this
      ensures goOn == !old(bAjaxDataGet)
      ensures Model() == if goOn then old(Model()) else old(Model()).(iDraw := old(iDraw) + 1, issued := old(issued) + [old(iDraw) + 1])
    {
      if bAjaxDataGet {
        iDraw := iDraw + 1;
        issued := issued + [iDraw];
        return false;
      }
      return true;
    }

    method DrawTable()
      modifies this
      ensures Model() == Draw(old(Model()))
    {
      if bDeferLoading {
        bDeferLoading := false;
        iDraw := iDraw + 1;
      } else {
        var goOn := AjaxUpdate();
      }
    }

    method AjaxUpdateDraw(r: Reply, callbackDraws: nat)
      modifies this
      ensures Model() == Arrive(old(Model()), r, callbackDraws)
    {
      if r.echo && r.request != 0 {
        if r.request < iDraw {
          return;
        }
        iDraw := r.request;
      }
      installed := installed + [(r, if issued == [] then 0 else issued[|issued| - 1])];
      bAjaxDataGet := false;
      ghost var t := Model();
      DrawTable();
      var n := 0;
      while n < callbackDraws
        invariant 0 <= n <= callbackDraws
        invariant Draws(Model(), callbackDraws - n) == Draws(t, callbackDraws + 1)
      {
        DrawTable();
        n := n + 1;
      }
      bAjaxDataGet := true;
    }
  }
}
