/** The node-label watcher: what `watchNodeLabels` does over a whole run of label
    events, whatever the outcome of the service commands it issues.
 */
module Watcher {
  import opened Common
  import opened Strings

  type Labels = map<string, string>

  const ENABLEMENT := "px/enabled"
  const SERVICE := "px/service"

  const DISABLED: seq<string> := ["false", "uninstall", "remove", "rm"]

  /** `inArray`: the first match ends the search. */
  method InArray(needle: string, stack: seq<string>) returns (has: bool)
    ensures has <==> needle in stack
  {
    has := false;
    for i := 0 to |stack|
      invariant !has && needle !in stack[..i]
    {
      has := needle == stack[i];
      if has {
        break;
      }
    }
  }

  predicate IsPxDisabled(labels: Labels) {
    ENABLEMENT in labels && Lower(labels[ENABLEMENT]) in DISABLED
  }

  predicate IsUninstallRequested(labels: Labels) {
    ENABLEMENT in labels && Lower(labels[ENABLEMENT]) in DISABLED[1..]
  }

  function GetServiceRequest(labels: Labels): string {
    if SERVICE in labels then Lower(labels[SERVICE]) else ""
  }

  lemma UninstallMeansDisabled(labels: Labels)
    requires IsUninstallRequested(labels)
    ensures IsPxDisabled(labels)
  {
    var lb := Lower(labels[ENABLEMENT]);
    var i :| 0 <= i < |DISABLED[1..]| && DISABLED[1..][i] == lb;
    assert DISABLED[i + 1] == lb;
  }

  /** One update of the node, and whether the service command succeeds if it comes to one. */
  datatype Event = Event(labels: Labels, commandOk: bool)

  datatype Action =
    | Install                      // doInstall
    | Disable                      // labelled disabled without an uninstall
    | Uninstall                    // doUninstall and DisablePx
    | Command(op: string, ok: bool)

  datatype State = State(lastPxDisabled: bool, lastServiceCmd: string)

  datatype Outcome = Outcome(state: State, actions: seq<Action>)

  const RESTART := "restart"
  const OPERATIONS: set<string> := {"start", "stop", RESTART, "enable", "disable"}

  /** `HandleRequest`: an unknown operation is an error before any command is run. */
  predicate Succeeds(op: string, commandOk: bool) {
    op in OPERATIONS && commandOk
  }

  /** What one event does. */
  function Watch(s: State, e: Event): Outcome {
    var disabled, req := IsPxDisabled(e.labels), GetServiceRequest(e.labels);
    var next := s.(lastPxDisabled := disabled);
    if !disabled && s.lastPxDisabled then Outcome(next, [Install])
    else if disabled && !s.lastPxDisabled then
      Outcome(next, [if IsUninstallRequested(e.labels) then Uninstall else Disable])
    else if req == "" || req == s.lastServiceCmd then Outcome(next, [])
    else
      var ok := Succeeds(req, e.commandOk);
      Outcome(next.(lastServiceCmd := if !ok then s.lastServiceCmd else if req == RESTART then "" else req),
              [Command(req, ok)])
  }

  function Run(s: State, events: seq<Event>): Outcome
    decreases |events|
  {
    if events == [] then Outcome(s, [])
    else
      var first := Watch(s, events[0]);
      var rest := Run(first.state, events[1..]);
      Outcome(rest.state, first.actions + rest.actions)
  }

  /** The node is labelled disabled. */
  predicate Off(labels: Labels) {
    "px/enabled" in labels && Lower(labels["px/enabled"]) in {"false", "uninstall", "remove", "rm"}
  }

  lemma OffIs(labels: Labels)
    ensures IsPxDisabled(labels) <==> Off(labels)
    ensures IsUninstallRequested(labels) <==> Off(labels) && Lower(labels["px/enabled"]) != "false"
  {
    assert DISABLED[0] == "false" && DISABLED[1] == "uninstall" && DISABLED[2] == "remove" && DISABLED[3] == "rm";
    assert DISABLED[1..] == ["uninstall", "remove", "rm"];
    assert |"false"| == 5 && |"uninstall"| == 9 && |"remove"| == 6 && |"rm"| == 2;
  }

  /** What the words of the enablement label mean, whatever their case: coming from enabled,
      "uninstall", "remove" and "rm" uninstall, "false" merely disables; coming from disabled,
      any other word, and no label at all, installs. */
  lemma WordsDecide(s: State, e: Event)
    ensures var r, labels := Watch(s, e), e.labels;
            && r.state.lastPxDisabled == Off(labels)
            && (r.actions == [Uninstall] <==> !s.lastPxDisabled && "px/enabled" in labels
                                              && Lower(labels["px/enabled"]) in {"uninstall", "remove", "rm"})
            && (r.actions == [Disable] <==> !s.lastPxDisabled && "px/enabled" in labels
                                            && Lower(labels["px/enabled"]) == "false")
            && (r.actions == [Install] <==> s.lastPxDisabled && !Off(labels))
  {
    OffIs(e.labels);
    assert |"false"| == 5 && |"uninstall"| == 9 && |"remove"| == 6 && |"rm"| == 2;
  }

  /** The word of the service label, "" for none. */
  function Word(labels: Labels): string {
    if "px/service" in labels then Lower(labels["px/service"]) else ""
  }

  /** What the service label means, while enablement does not change: a word is carried out
      unless it is the remembered one; it succeeds if it is a known one and its command does;
      then it is remembered, but for "restart", which is forgotten along with what was
      remembered. */
  lemma ServiceDecides(s: State, e: Event)
    requires Off(e.labels) == s.lastPxDisabled
    ensures var r, word := Watch(s, e), Word(e.labels);
            var known := word in {"start", "stop", "restart", "enable", "disable"};
            if word == "" || word == s.lastServiceCmd then r.actions == [] && r.state.lastServiceCmd == s.lastServiceCmd
            else
              && r.actions == [Command(word, known && e.commandOk)]
              && r.state.lastServiceCmd == (if !(known && e.commandOk) then s.lastServiceCmd
                                            else if word == "restart" then "" else word)
  {
    OffIs(e.labels);
  }

  class NodeWatcher {
    var lastPxDisabled: bool
    var lastServiceCmd: string
    var actions: seq<Action>

    constructor ()
      ensures lastPxDisabled == false && lastServiceCmd == "" && actions == []
    {
      lastPxDisabled, lastServiceCmd, actions := false, "", [];
    }

    method WatchNodeLabels(labels: Labels, commandOk: bool)
      modifies this
      ensures var r := Watch(old(State(lastPxDisabled, lastServiceCmd)), Event(labels, commandOk));
              State(lastPxDisabled, lastServiceCmd) == r.state && actions == old(actions) + r.actions
    {
      var isPxDisabled := IsPxDisabled(labels);
      var wasDisabled := lastPxDisabled;
      lastPxDisabled := isPxDisabled; // deferred, and so done on every return
      if !isPxDisabled && wasDisabled {
        actions := actions + [Install];
      } else if isPxDisabled && !wasDisabled {
        if IsUninstallRequested(labels) {
          actions := actions + [Uninstall];
        } else {
          actions := actions + [Disable];
        }
      } else {
        var req := GetServiceRequest(labels);
        if req != "" {
          if req == lastServiceCmd {
            return;
          }
          var ok := req in OPERATIONS && commandOk;
          actions := actions + [Command(req, ok)];
          if !ok {
          } else if req == RESTART {
            lastServiceCmd := "";
          } else {
            lastServiceCmd := req;
          }
        }
      }
    }

    /** A watch session: events are handled one after the other. */
    method WatchAll(events: seq<Event>)
      modifies this
      ensures var r := Run(old(State(lastPxDisabled, lastServiceCmd)), events);
              State(lastPxDisabled, lastServiceCmd) == r.state && actions == old(actions) + r.actions
    {
      ghost var whole := Run(State(lastPxDisabled, lastServiceCmd), events);
      ghost var done: seq<Action> := [];
      assert events[0..] == events;
      assert [] + whole.actions == whole.actions;
      for i := 0 to |events|
        invariant whole == Continued(done, Run(State(lastPxDisabled, lastServiceCmd), events[i..]))
        invariant actions == old(actions) + done
      {
        ghost var s := State(lastPxDisabled, lastServiceCmd);
        assert events[i..][1..] == events[i + 1..];
        WatchNodeLabels(events[i].labels, events[i].commandOk);
        ContinueOne(done, s, events[i..]);
        done := done + Watch(s, events[i]).actions;
      }
      assert events[|events|..] == [];
    }
  }

  function Continued(done: seq<Action>, rest: Outcome): Outcome {
    Outcome(rest.state, done + rest.actions)
  }

  lemma ContinueOne(done: seq<Action>, s: State, events: seq<Event>)
    requires events != []
    ensures var first := Watch(s, events[0]);
            Continued(done, Run(s, events)) == Continued(done + first.actions, Run(first.state, events[1..]))
  {
    var first := Watch(s, events[0]);
    var rest := Run(first.state, events[1..]).actions;
    assert done + (first.actions + rest) == (done + first.actions) + rest;
  }

  // ---------------------------------------------------------------- installs and uninstalls

  /** The actions other than service commands. */
  function Decisions(actions: seq<Action>): seq<Action> {
    if actions == [] then []
    else (if actions[0].Command? then [] else [actions[0]]) + Decisions(actions[1..])
  }

  lemma {:induction false} DecisionsConcat(a: seq<Action>, b: seq<Action>)
    ensures Decisions(a + b) == Decisions(a) + Decisions(b)
  {
    if a == [] {
      assert a + b == b;
    } else {
      var head := if a[0].Command? then [] else [a[0]];
      assert (a + b)[0] == a[0] && (a + b)[1..] == a[1..] + b;
      DecisionsConcat(a[1..], b);
      assert head + (Decisions(a[1..]) + Decisions(b)) == (head + Decisions(a[1..])) + Decisions(b);
    }
  }

  /** The edges of the enablement label, without any watcher: `was` is its value before. */
  function Edge(was: bool, labels: Labels): seq<Action> {
    if IsPxDisabled(labels) == was then []
    else if was then [Install]
    else [if IsUninstallRequested(labels) then Uninstall else Disable]
  }

  function Edges(was: bool, events: seq<Event>): seq<Action>
    decreases |events|
  {
    if events == [] then []
    else Edge(was, events[0].labels) + Edges(IsPxDisabled(events[0].labels), events[1..])
  }

  /** The decisions of a run are the edges of the label, nothing else: service requests
      and their failures do not matter.  And the watcher always knows the last value. */
  lemma {:induction false} DecisionsAreEdges(s: State, events: seq<Event>)
    ensures Decisions(Run(s, events).actions) == Edges(s.lastPxDisabled, events)
    ensures Run(s, events).state.lastPxDisabled ==
              if events == [] then s.lastPxDisabled else IsPxDisabled(events[|events| - 1].labels)
    decreases |events|
  {
    if events != [] {
      var first := Watch(s, events[0]);
      WatchDecides(s, events[0]);
      DecisionsAreEdges(first.state, events[1..]);
      DecisionsConcat(first.actions, Run(first.state, events[1..]).actions);
    }
  }

  lemma WatchDecides(s: State, e: Event)
    ensures Decisions(Watch(s, e).actions) == Edge(s.lastPxDisabled, e.labels)
    ensures Watch(s, e).state.lastPxDisabled == IsPxDisabled(e.labels)
  {
    var actions := Watch(s, e).actions;
    assert actions == [] || actions[1..] == [];
  }

  /** Disablements and installs take turns; `disabled`: whose turn it is not. */
  predicate Alternate(disabled: bool, decisions: seq<Action>)
    decreases |decisions|
  {
    decisions == [] ||
    ((if disabled then decisions[0] == Install else decisions[0] in {Disable, Uninstall}) &&
     Alternate(!disabled, decisions[1..]))
  }

  lemma {:induction false} EdgesAlternate(was: bool, events: seq<Event>)
    ensures Alternate(was, Edges(was, events))
    decreases |events|
  {
    if events != [] {
      EdgesAlternate(IsPxDisabled(events[0].labels), events[1..]);
      var edge, rest := Edge(was, events[0].labels), Edges(IsPxDisabled(events[0].labels), events[1..]);
      if edge == [] {
        assert edge + rest == rest;
      } else {
        assert (edge + rest)[1..] == rest;
      }
    }
  }

  /** Edge alternation: over every run from the start, disablement steps and installs
      strictly alternate, beginning with a disablement. */
  lemma RunsAlternate(s: State, events: seq<Event>)
    ensures Alternate(s.lastPxDisabled, Decisions(Run(s, events).actions))
  {
    DecisionsAreEdges(s, events);
    EdgesAlternate(s.lastPxDisabled, events);
  }

  lemma {:induction false} AlternatePosition(disabled: bool, decisions: seq<Action>, i: nat)
    requires Alternate(disabled, decisions) && i < |decisions|
    ensures decisions[i] == Install <==> disabled == (i % 2 == 0)
    decreases i
  {
    if i > 0 {
      AlternatePosition(!disabled, decisions[1..], i - 1);
    }
  }

  /** Between any two uninstalls there is an install. */
  lemma InstallBetweenUninstalls(s: State, events: seq<Event>, i: nat, j: nat)
    requires i < j < |Decisions(Run(s, events).actions)|
    requires Decisions(Run(s, events).actions)[i] == Uninstall && Decisions(Run(s, events).actions)[j] == Uninstall
    ensures exists k :: i < k < j && Decisions(Run(s, events).actions)[k] == Install
  {
    RunsAlternate(s, events);
    InstallBetween(s.lastPxDisabled, Decisions(Run(s, events).actions), i, j);
  }

  lemma InstallBetween(disabled: bool, decisions: seq<Action>, i: nat, j: nat)
    requires Alternate(disabled, decisions) && i < j < |decisions|
    requires decisions[i] == Uninstall && decisions[j] == Uninstall
    ensures exists k :: i < k < j && decisions[k] == Install
  {
    AlternatePosition(disabled, decisions, i);
    AlternatePosition(disabled, decisions, j);
    AlternatePosition(disabled, decisions, i + 1);
    assert decisions[i + 1] == Install;
  }

  /** `big` repeats each event of `events` one or more times in a row, service outcomes aside. */
  predicate Stutters(events: seq<Event>, big: seq<Event>)
    decreases |big|
  {
    if events == [] || big == [] then events == [] && big == []
    else big[0].labels == events[0].labels && (Stutters(events[1..], big[1..]) || Stutters(events, big[1..]))
  }

  lemma {:induction false} EdgesIgnoreStutter(was: bool, events: seq<Event>, big: seq<Event>)
    requires Stutters(events, big)
    ensures Edges(was, big) == Edges(was, events)
    decreases |big|
  {
    if events != [] {
      var now := IsPxDisabled(events[0].labels);
      if Stutters(events[1..], big[1..]) {
        EdgesIgnoreStutter(now, events[1..], big[1..]);
      } else {
        EdgesIgnoreStutter(now, events, big[1..]);
        assert Edge(now, events[0].labels) == [];
        assert [] + Edges(now, events[1..]) == Edges(now, events[1..]);
      }
    }
  }

  /** Stutter invariance: delivering events several times in a row changes no install or
      uninstall decision. */
  lemma StutterInvariance(s: State, t: State, events: seq<Event>, big: seq<Event>)
    requires Stutters(events, big) && s.lastPxDisabled == t.lastPxDisabled
    ensures Decisions(Run(t, big).actions) == Decisions(Run(s, events).actions)
  {
    DecisionsAreEdges(s, events);
    DecisionsAreEdges(t, big);
    EdgesIgnoreStutter(s.lastPxDisabled, events, big);
  }

  // ---------------------------------------------------------------- two registrations

  /** A delivery to a watcher that is registered twice: an event seen for the first time, or
      one that the other registration has delivered already. */
  datatype Delivery = Fresh(event: Event) | Again(event: Event)

  /** How two registrations deliver the same events, each in order and all of them: `order`
      says whose turn it is, `i` and `j` how far they are. */
  function Deliver(events: seq<Event>, i: nat, j: nat, order: seq<bool>): seq<Delivery>
    requires i <= |events| && j <= |events|
    decreases |order|
  {
    if order == [] then []
    else if order[0] && i < |events| then
      [if i >= j then Fresh(events[i]) else Again(events[i])] + Deliver(events, i + 1, j, order[1..])
    else if !order[0] && j < |events| then
      [if j >= i then Fresh(events[j]) else Again(events[j])] + Deliver(events, i, j + 1, order[1..])
    else Deliver(events, i, j, order[1..])
  }

  function EventsOf(ds: seq<Delivery>): seq<Event> {
    if ds == [] then [] else [ds[0].event] + EventsOf(ds[1..])
  }

  function FreshOf(ds: seq<Delivery>): seq<Event> {
    if ds == [] then []
    else if ds[0].Fresh? then [ds[0].event] + FreshOf(ds[1..])
    else FreshOf(ds[1..])
  }

  function Count(order: seq<bool>, who: bool): nat {
    if order == [] then 0 else (if order[0] == who then 1 else 0) + Count(order[1..], who)
  }

  function Top(i: nat, j: nat): nat {
    if i > j then i else j
  }

  lemma DeliverOne(events: seq<Event>, k: nat, other: nat, rest: seq<Delivery>)
    requires k < |events| && other <= |events| && FreshOf(rest) == events[Top(k + 1, other)..]
    ensures FreshOf([if k >= other then Fresh(events[k]) else Again(events[k])] + rest) == events[Top(k, other)..]
  {
    FreshFirst(if k >= other then Fresh(events[k]) else Again(events[k]), rest);
    assert [events[k]] + events[k + 1..] == events[k..];
  }

  /** What is fresh are the events themselves, whatever the order. */
  lemma {:induction false} FreshAreEvents(events: seq<Event>, i: nat, j: nat, order: seq<bool>)
    requires i <= |events| && j <= |events|
    requires i + Count(order, true) >= |events| || j + Count(order, false) >= |events|
    ensures FreshOf(Deliver(events, i, j, order)) == events[Top(i, j)..]
    decreases |order|
  {
    if order != [] {
      if order[0] && i < |events| {
        FreshAreEvents(events, i + 1, j, order[1..]);
        DeliverOne(events, i, j, Deliver(events, i + 1, j, order[1..]));
      } else if !order[0] && j < |events| {
        FreshAreEvents(events, i, j + 1, order[1..]);
        DeliverOne(events, j, i, Deliver(events, i, j + 1, order[1..]));
      } else {
        FreshAreEvents(events, i, j, order[1..]);
      }
    }
  }

  lemma FreshFirst(d: Delivery, ds: seq<Delivery>)
    ensures FreshOf([d] + ds) == (if d.Fresh? then [d.event] else []) + FreshOf(ds)
    ensures EventsOf([d] + ds) == [d.event] + EventsOf(ds)
  {
    assert ([d] + ds)[1..] == ds;
  }

  /** The repeated deliveries do no harm: each finds the label's status as it is; or a run of
      them anticipates, once, the very edge that the next fresh event would have made.
      `ahead`: the edge anticipated. */
  predicate Quiet(was: bool, ahead: Option<Action>, ds: seq<Delivery>)
    decreases |ds|
  {
    if ds == [] then ahead == None
    else
      var now, labels := IsPxDisabled(ds[0].event.labels), ds[0].event.labels;
      match (ahead, ds[0])
      case (None, Fresh(_)) => Quiet(now, None, ds[1..])
      case (None, Again(_)) => Quiet(now, if now == was then None else Some(Edge(was, labels)[0]), ds[1..])
      case (Some(edge), Fresh(_)) => now == was && Edge(!was, labels) == [edge] && Quiet(now, None, ds[1..])
      case (Some(edge), Again(_)) => now == was && Quiet(now, ahead, ds[1..])
  }

  /** Leaving deliveries out never adds an edge. */
  lemma {:induction false} FewerEdges(was: bool, ds: seq<Delivery>)
    ensures |Edges(was, FreshOf(ds))| <= |Edges(was, EventsOf(ds))|
    ensures |Edges(!was, FreshOf(ds))| <= |Edges(was, EventsOf(ds))| + 1
    decreases |ds|
  {
    if ds != [] {
      FewerEdges(IsPxDisabled(ds[0].event.labels), ds[1..]);
      FewerEdges(!IsPxDisabled(ds[0].event.labels), ds[1..]);
    }
  }

  /** What a fresh watcher would still have to do, an anticipated edge included. */
  function Expected(was: bool, ahead: Option<Action>, ds: seq<Delivery>): seq<Action> {
    Edges(if ahead == None then was else !was, FreshOf(ds))
  }

  function Done(was: bool, ahead: Option<Action>, ds: seq<Delivery>): seq<Action> {
    (if ahead == None then [] else [ahead.value]) + Edges(was, EventsOf(ds))
  }

  lemma SamePrefix(a: seq<Action>, b: seq<Action>, c: seq<Action>)
    ensures a + b == a + c <==> b == c
  {
    if a + b == a + c { assert b == (a + b)[|a|..] == (a + c)[|a|..] == c; }
  }

  /** The induction's claim. */
  ghost predicate Claim(was: bool, ahead: Option<Action>, ds: seq<Delivery>) {
    Quiet(was, ahead, ds) <==> Done(was, ahead, ds) == Expected(was, ahead, ds)
  }

  lemma ClaimBehind(was: bool, ds: seq<Delivery>)
    requires ds != []
    requires var labels := ds[0].event.labels;
             var now := IsPxDisabled(labels);
             Claim(now, if ds[0].Fresh? || now == was then None else Some(Edge(was, labels)[0]), ds[1..])
    ensures Claim(was, None, ds)
  {
    var labels := ds[0].event.labels;
    var now := IsPxDisabled(labels);
    SamePrefix(Edge(was, labels), Edges(now, EventsOf(ds[1..])), Edges(now, FreshOf(ds[1..])));
  }

  /** The status goes back before the anticipated edge: two edges too many. */
  lemma ClaimUndone(was: bool, edge: Action, ds: seq<Delivery>)
    requires ds != [] && IsPxDisabled(ds[0].event.labels) == !was
    ensures Claim(was, Some(edge), ds)
  {
    FewerEdges(!was, ds[1..]);
    assert |Expected(was, Some(edge), ds)| == |Edges(!was, FreshOf(ds[1..]))|;
    assert |Edges(was, EventsOf(ds))| == 1 + |Edges(!was, EventsOf(ds[1..]))|;
  }

  /** The anticipated edge. */
  lemma ClaimCaughtUp(was: bool, edge: Action, ds: seq<Delivery>)
    requires ds != [] && ds[0].Fresh? && IsPxDisabled(ds[0].event.labels) == was && Claim(was, None, ds[1..])
    ensures Claim(was, Some(edge), ds)
  {
    var e := Edge(!was, ds[0].event.labels)[0];
    var every, once := Edges(was, EventsOf(ds[1..])), Edges(was, FreshOf(ds[1..]));
    SameHead(edge, every, e, once);
    assert Edges(was, EventsOf(ds)) == [] + every == every;
    assert Edges(!was, FreshOf(ds)) == [e] + once;
    assert [] + every == every;
  }

  lemma ClaimStillAhead(was: bool, edge: Action, ds: seq<Delivery>)
    requires ds != [] && ds[0].Again? && IsPxDisabled(ds[0].event.labels) == was && Claim(was, Some(edge), ds[1..])
    ensures Claim(was, Some(edge), ds)
  {
    var every := Edges(was, EventsOf(ds[1..]));
    assert Edges(was, EventsOf(ds)) == [] + every == every;
  }

  lemma {:induction false} QuietMeans(was: bool, ahead: Option<Action>, ds: seq<Delivery>)
    ensures Claim(was, ahead, ds)
    decreases |ds|
  {
    if ds != [] {
      var labels := ds[0].event.labels;
      var now := IsPxDisabled(labels);
      if ahead == None {
        QuietMeans(now, if ds[0].Fresh? || now == was then None else Some(Edge(was, labels)[0]), ds[1..]);
        ClaimBehind(was, ds);
      } else {
        QuietMeans(now, if ds[0].Fresh? then None else ahead, ds[1..]);
        if now != was {
          ClaimUndone(was, ahead.value, ds);
        } else if ds[0].Fresh? {
          ClaimCaughtUp(was, ahead.value, ds);
        } else {
          ClaimStillAhead(was, ahead.value, ds);
        }
      }
    }
  }

  /** When a second registration of the watcher is harmless: made when the first one has
      handled `i` events, and starting again from the `j`-th, or none of them, it leaves the
      decisions those of the remaining events if and only if the repeated deliveries are
      quiet.  The second copy need not get to the end. */
  lemma SecondRegistrationHarmlessWhen(s: State, events: seq<Event>, i: nat, j: nat, order: seq<bool>)
    requires j <= i <= |events| && i + Count(order, true) >= |events|
    ensures var ds := Deliver(events, i, j, order);
            Quiet(s.lastPxDisabled, None, ds) <==>
              Decisions(Run(s, EventsOf(ds)).actions) == Decisions(Run(s, events[i..]).actions)
  {
    var ds := Deliver(events, i, j, order);
    FreshAreEvents(events, i, j, order);
    DecisionsAreEdges(s, events[i..]);
    DecisionsAreEdges(s, EventsOf(ds));
    QuietMeans(s.lastPxDisabled, None, ds);
    assert [] + Edges(s.lastPxDisabled, EventsOf(ds)) == Edges(s.lastPxDisabled, EventsOf(ds));
  }

  /** It is not when the second copy of a disablement and an enablement comes after the
      first: the node is disabled and installed once more. */
  lemma LateCopyRepeatsDecisions(s: State, off: Event, on: Event)
    requires !s.lastPxDisabled && IsPxDisabled(off.labels) && !IsPxDisabled(on.labels)
    ensures var ds := Deliver([off, on], 0, 0, [true, true, false, false]);
            && EventsOf(ds) == [off, on, off, on] && !Quiet(false, None, ds)
            && |Decisions(Run(s, EventsOf(ds)).actions)| == 4 && |Decisions(Run(s, [off, on]).actions)| == 2
  {
    var ds := [Fresh(off), Fresh(on), Again(off), Again(on)];
    LateCopyDelivered([off, on]);
    FourEvents(ds[0], ds[1], ds[2], ds[3]);
    DecisionsAreEdges(s, [off, on, off, on]);
    DecisionsAreEdges(s, [off, on]);
    FourEdges(off, on);
    assert [off, on][0..] == [off, on];
    SecondRegistrationHarmlessWhen(s, [off, on], 0, 0, [true, true, false, false]) by {
      assert [true, true, false, false][1..] == [true, false, false] && [true, false, false][1..] == [false, false];
      assert [false, false][1..] == [false] && [false][1..] == [];
    }
  }

  lemma LateCopyDelivered(events: seq<Event>)
    requires |events| == 2
    ensures Deliver(events, 0, 0, [true, true, false, false]) ==
              [Fresh(events[0]), Fresh(events[1]), Again(events[0]), Again(events[1])]
  {
    assert [true, true, false, false][1..] == [true, false, false] && [true, false, false][1..] == [false, false];
    assert [false, false][1..] == [false] && [false][1..] == [];
    assert Deliver(events, 2, 1, [false]) == [Again(events[1])];
    assert Deliver(events, 2, 0, [false, false]) == [Again(events[0]), Again(events[1])];
    assert Deliver(events, 1, 0, [true, false, false]) == [Fresh(events[1]), Again(events[0]), Again(events[1])];
  }

  lemma FourEvents(a: Delivery, b: Delivery, c: Delivery, d: Delivery)
    ensures EventsOf([a, b, c, d]) == [a.event, b.event, c.event, d.event]
  {
    assert [a, b, c, d] == [a] + ([b] + ([c] + ([d] + [])));
    FreshFirst(d, []);
    FreshFirst(c, [d] + []);
    FreshFirst(b, [c] + ([d] + []));
    FreshFirst(a, [b] + ([c] + ([d] + [])));
  }

  lemma FourEdges(off: Event, on: Event)
    requires IsPxDisabled(off.labels) && !IsPxDisabled(on.labels)
    ensures |Edges(false, [off, on])| == 2 && |Edges(false, [off, on, off, on])| == 4
  {
    assert [on][1..] == [] && [off, on][1..] == [on];
    assert [on, off, on][1..] == [off, on] && [off, on, off, on][1..] == [on, off, on];
    assert Edges(true, [on]) == [Install] + Edges(false, []);
    assert |Edges(false, [off, on])| == 1 + |Edges(true, [on])|;
    assert |Edges(true, [on, off, on])| == 1 + |Edges(false, [off, on])|;
  }

  /** An uninstall request is honoured only on the edge: once the node is labelled
      disabled in any way, no later label uninstalls until it has been enabled again. */
  lemma {:induction false} NoUninstallWhileDisabled(s: State, events: seq<Event>)
    requires s.lastPxDisabled && forall e :: e in events ==> IsPxDisabled(e.labels)
    ensures Decisions(Run(s, events).actions) == []
    decreases |events|
  {
    DecisionsAreEdges(s, events);
    if events != [] {
      assert events[0] in events;
      NoUninstallWhileDisabled(Watch(s, events[0]).state, events[1..]);
      DecisionsAreEdges(Watch(s, events[0]).state, events[1..]);
    }
  }

  // ---------------------------------------------------------------- service commands

  /** The commands that succeeded, in order. */
  function Successes(actions: seq<Action>): seq<string> {
    if actions == [] then []
    else (if actions[0].Command? && actions[0].ok then [actions[0].op] else []) + Successes(actions[1..])
  }

  lemma {:induction false} SuccessesConcat(a: seq<Action>, b: seq<Action>)
    ensures Successes(a + b) == Successes(a) + Successes(b)
  {
    if a == [] {
      assert a + b == b;
    } else {
      var head := if a[0].Command? && a[0].ok then [a[0].op] else [];
      assert (a + b)[0] == a[0] && (a + b)[1..] == a[1..] + b;
      SuccessesConcat(a[1..], b);
      assert head + (Successes(a[1..]) + Successes(b)) == (head + Successes(a[1..])) + Successes(b);
    }
  }

  /** What the watcher should remember after these successes. */
  function Remembered(before: string, successes: seq<string>): string {
    if successes == [] then before
    else
      var last := successes[|successes| - 1];
      if last == RESTART then "" else last
  }

  /** No successful command repeats the one before it, unless it is a restart. */
  predicate NoRepeats(before: string, successes: seq<string>)
    decreases |successes|
  {
    successes == [] ||
    (successes[0] in OPERATIONS && successes[0] != before &&
     NoRepeats(Remembered(before, successes[..1]), successes[1..]))
  }

  lemma RememberedConcat(before: string, a: seq<string>, b: seq<string>)
    ensures Remembered(before, a + b) == Remembered(Remembered(before, a), b)
  {
    if b == [] { assert a + b == a; }
  }

  lemma FirstSuccess(s: State, e: Event)
    requires s.lastServiceCmd != RESTART
    ensures var r := Watch(s, e);
            var done := Successes(r.actions);
            && r.state.lastServiceCmd == Remembered(s.lastServiceCmd, done) != RESTART
            && |done| <= 1 && (done != [] ==> done[0] in OPERATIONS && done[0] != s.lastServiceCmd)
  {
    var r := Watch(s, e);
    assert r.actions == [] || r.actions[1..] == [];
  }

  /** Service-command trace: in every run, with any command failures, `lastServiceCmd` is
      the last successful command, or "" at the start or after a restart, and no
      successful command directly repeats another, restarts excepted. */
  lemma {:induction false} ServiceTrace(s: State, events: seq<Event>)
    requires s.lastServiceCmd != RESTART
    ensures var r := Run(s, events);
            && r.state.lastServiceCmd == Remembered(s.lastServiceCmd, Successes(r.actions)) != RESTART
            && NoRepeats(s.lastServiceCmd, Successes(r.actions))
    decreases |events|
  {
    if events != [] {
      var first := Watch(s, events[0]);
      var rest := Run(first.state, events[1..]);
      FirstSuccess(s, events[0]);
      ServiceTrace(first.state, events[1..]);
      var done, more := Successes(first.actions), Successes(rest.actions);
      SuccessesConcat(first.actions, rest.actions);
      RememberedConcat(s.lastServiceCmd, done, more);
      if done == [] {
        assert done + more == more;
      } else {
        assert (done + more)[..1] == done && (done + more)[1..] == more;
      }
    }
  }

  /** In plain words: two adjacent equal successes are restarts. */
  lemma {:induction false} AdjacentSuccesses(before: string, successes: seq<string>, i: nat)
    requires NoRepeats(before, successes) && i + 1 < |successes| && successes[i] == successes[i + 1]
    ensures successes[i] == RESTART
    decreases i
  {
    var next := Remembered(before, successes[..1]);
    assert successes[..1][0] == successes[0];
    if i == 0 {
      assert successes[1..][0] == successes[1];
    } else {
      AdjacentSuccesses(next, successes[1..], i - 1);
    }
  }

  /** Off the edges, a request is carried out exactly if it is not the remembered one;
      so a restart always is, and a request that failed is again on the next event. */
  lemma RequestCarriedOut(s: State, e: Event)
    requires s.lastServiceCmd != RESTART && IsPxDisabled(e.labels) == s.lastPxDisabled
    requires GetServiceRequest(e.labels) != ""
    ensures var r, req := Watch(s, e), GetServiceRequest(e.labels);
            && (r.actions != [] <==> req != s.lastServiceCmd)
            && (req == RESTART ==> r.actions != [])
            && (r.actions == [Command(req, false)] ==>
                  forall again: Event :: again.labels == e.labels ==> Watch(r.state, again).actions != [])
  {
  }

  /** The other side of it: a command once carried out is not repeated while the label is
      gone and comes back, or while every other request fails. */
  lemma {:induction false} RepeatedRequestIgnored(s: State, events: seq<Event>, e: Event)
    requires s.lastServiceCmd != "" && s.lastServiceCmd != RESTART
    requires Successes(Run(s, events).actions) == []
    requires GetServiceRequest(e.labels) == s.lastServiceCmd
    ensures forall a :: a in Watch(Run(s, events).state, e).actions ==> !a.Command?
  {
    ServiceTrace(s, events);
  }
}
