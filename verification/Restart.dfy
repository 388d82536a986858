/**
 * A restart cannot be observed. Saving drops peers that observe nothing, so ids handed out after
 * loading may differ from those of an uninterrupted run; the id-free view and the exported table
 * do not.
 */
module Restart {
  import opened Base
  import opened Text
  import opened Prefix
  import opened Selection
  import opened PeerRegistry
  import opened RoutingState
  import opened System
  import opened SnapshotFormat
  import opened SnapshotCounter
  import opened SnapshotRoundTrip

  lemma RestartedCounter(s: System)
    requires ValidSystem(s)
    ensures Restarted(s).next == NextAfter(UsedPeers(s).Keys) <= s.next
  {
    var ids := UsedPeers(s).Keys;
    var next := NextAfter(ids);
    if next != 1 {
      var id :| id in ids && id + 1 == next;
      assert id in s.byId;
    }
    SmallModulo(next);
  }

  /** Whatever system saved contents load as, it is coherent and gives every used peer the id it had. */
  lemma LoadedResolves(s: System, t: System)
    requires Coherent(s) && IsLoaded(t, UsedContents(s))
    ensures Coherent(t) && Resolved(t) == Resolved(s)
  {
    UsedIsRegistered(s);
    forall p, q | p in s.view && q in s.view[p] ensures q in t.byId {
      assert IsObserved(s.view, StoredObservation(p, q, s.view[p][q]));
      assert q in UsedIds(s.view);
    }
    forall p, info ensures Lookup(Resolved(t), p, info) == Lookup(Resolved(s), p, info) {
      ResolvedLookup(s, p, info);
      ResolvedLookup(t, p, info);
      if info in t.byInfo {
        assert s.byId[t.byInfo[info]] == info;
      }
      if info in s.byInfo && Lookup(s.view, p, s.byInfo[info]).Some? {
        assert t.byId[s.byInfo[info]] == info;
      }
    }
    ResolvedRows(s);
    ResolvedRows(t);
    SameLookups(Resolved(t), Resolved(s));
  }

  /** A restart of a valid system is valid and resolves to the same view; its counter has not moved up. */
  lemma RestartedResolves(s: System)
    requires ValidSystem(s)
    ensures ValidSystem(Restarted(s)) && Restarted(s).next <= s.next
    ensures Resolved(Restarted(s)) == Resolved(s)
  {
    RestartedCounter(s);
    OnlyRestarted(s, Restarted(s));
    LoadedResolves(s, Restarted(s));
  }

  // ----- Runs interrupted by restarts -----

  datatype Action = Happens(event: Event) | SaveAndLoad

  /** Canonical prefixes, observed by peers whose names hold no tab or newline. */
  ghost predicate Writable(view: View<BinaryPrefix, PeerInfo>) {
    forall p :: p in view ==> Canonical(p) && forall info :: info in view[p] ==> CleanPeer(info)
  }

  /** That is what the round trip of the snapshot needs. */
  lemma WritableSystem(s: System)
    requires Coherent(s)
    ensures Writable(Resolved(s)) <==> CanonicalView(s.view) && UsedPeersClean(s)
  {
    if Writable(Resolved(s)) {
      forall id | id in UsedPeers(s) ensures CleanPeer(UsedPeers(s)[id]) {
        var o :| IsObserved(s.view, o) && o.peerId == id;
        assert s.byId[id] in Resolved(s)[o.prefix];
      }
      forall p | p in s.view ensures Canonical(p) {
        assert p in Resolved(s);
      }
    }
    if CanonicalView(s.view) && UsedPeersClean(s) {
      forall p, info | p in Resolved(s) && info in Resolved(s)[p] ensures CleanPeer(info) {
        var id := s.byInfo[info];
        assert IsObserved(s.view, StoredObservation(p, id, s.view[p][id]));
        assert id in UsedPeers(s);
      }
    }
  }

  ghost predicate PrintableEvent(e: Event) {
    Canonical(e.prefix) && CleanPeer(e.peer)
  }

  /**
   * One action and what it may end in. A save-and-load goes through the snapshot text, and ends in
   * any system its contents may be loaded as.
   */
  ghost predicate Acts(c: Inet6, s: System, action: Action, s': System) {
    match action
    case Happens(e) => s' == Step(s, e)
    case SaveAndLoad =>
      && UsedIds(s.view) <= s.byId.Keys
      && var loaded := LoadText(c, SnapshotText(c, s.byId, s.view));
      loaded.Ok? && IsLoaded(s', loaded.value)
  }

  /** A new peer's event is handed a free id; when `below`, also one before the last 32-bit id. */
  ghost predicate Admits(s: System, action: Action, below: bool) {
    action.Happens? && action.event.peer !in s.byInfo ==> if below then s.next < LAST_ID else s.next !in s.byId
  }

  /** A run, of any length, that hands out such ids only. */
  ghost predicate RunsTo(c: Inet6, s: System, actions: seq<Action>, s': System, below: bool) {
    if actions == [] then s' == s
    else
      var front, last := actions[..|actions| - 1], actions[|actions| - 1];
      exists mid :: RunsTo(c, s, front, mid, below) && Admits(mid, last, below) && Acts(c, mid, last, s')
  }

  /** The events of an interrupted run. */
  function EventsOf(actions: seq<Action>): seq<Event> {
    if actions == [] then []
    else
      var last := actions[|actions| - 1];
      EventsOf(actions[..|actions| - 1]) + (if last.Happens? then [last.event] else [])
  }

  lemma UpdatedWritable(view: View<BinaryPrefix, PeerInfo>, e: Event)
    requires Writable(view) && PrintableEvent(e)
    ensures Writable(Updated(view, e.prefix, e.peer, e.update))
  {}

  lemma {:induction false} ReplayedWritable(view: View<BinaryPrefix, PeerInfo>, events: seq<Event>)
    requires Writable(view) && forall e :: e in events ==> PrintableEvent(e)
    ensures Writable(Replayed(view, events))
  {
    if events == [] {
    } else {
      var front, last := events[..|events| - 1], events[|events| - 1];
      assert forall e :: e in front ==> e in events;
      ReplayedWritable(view, front);
      UpdatedWritable(Replayed(view, front), last);
    }
  }

  lemma RestartRoundTrips(c: Inet6, s: System, s': System)
    requires Coherent(s) && Writable(Resolved(s))
    ensures Acts(c, s, SaveAndLoad, s') <==> IsLoaded(s', UsedContents(s))
  {
    UsedIsRegistered(s);
    WritableSystem(s);
    CleanRoundTrip(c, s);
  }

  /** Saved contents load as some system. */
  lemma SomeRestart(s: System) returns (t: System)
    requires Coherent(s)
    ensures IsLoaded(t, UsedContents(s))
  {
    UsedPeersInjective(s);
    var next := SomeCounter(UsedPeers(s).Keys);
    t := System(Inverse(UsedPeers(s)), UsedPeers(s), next, s.view);
  }

  /** An event enters the id-free view; a save-and-load leaves it alone. */
  ghost function Enters(view: View<BinaryPrefix, PeerInfo>, action: Action): View<BinaryPrefix, PeerInfo> {
    match action
    case Happens(e) => Updated(view, e.prefix, e.peer, e.update)
    case SaveAndLoad => view
  }

  /**
   * An action can always be taken, and whatever it ends in is a coherent system with the view it
   * should have, with its counter still above all ids when the ids stay below the last one.
   */
  lemma ActResolves(c: Inet6, s: System, action: Action, s': System, below: bool)
    requires Coherent(s) && Writable(Resolved(s)) && (below ==> ValidSystem(s))
    requires action.Happens? ==> PrintableEvent(action.event)
    ensures exists t :: Acts(c, s, action, t)
    ensures Acts(c, s, action, s') && Admits(s, action, below) ==>
      && Coherent(s') && Writable(Resolved(s')) && Resolved(s') == Enters(Resolved(s), action)
      && (below ==> ValidSystem(s') && s'.next <= s.next + 1)
  {
    match action
    case Happens(e) =>
      assert Acts(c, s, action, Step(s, e));
      if Admits(s, action, below) {
        StepResolves(s, e);
        UpdatedWritable(Resolved(s), e);
        if below {
          StepStaysValid(s, e);
        }
      }
    case SaveAndLoad =>
      var t := SomeRestart(s);
      RestartRoundTrips(c, s, t);
      RestartRoundTrips(c, s, s');
      if Acts(c, s, action, s') {
        LoadedResolves(s, s');
        if below {
          OnlyRestarted(s, s');
          RestartedResolves(s);
        }
      }
  }

  lemma ReplayedOneMore(view: View<BinaryPrefix, PeerInfo>, actions: seq<Action>)
    requires actions != []
    ensures Replayed(view, EventsOf(actions))
         == Enters(Replayed(view, EventsOf(actions[..|actions| - 1])), actions[|actions| - 1])
  {
    var last, events := actions[|actions| - 1], EventsOf(actions);
    if last.Happens? {
      assert events[..|events| - 1] == EventsOf(actions[..|actions| - 1]);
    } else {
      assert events == EventsOf(actions[..|actions| - 1]);
    }
  }

  /** Interrupted or not, a run ends in the id-free view its events alone determine. */
  lemma {:induction false} ActionsResolve(c: Inet6, s: System, actions: seq<Action>, s': System, below: bool)
    requires Coherent(s) && Writable(Resolved(s)) && (below ==> ValidSystem(s))
    requires (forall e <- EventsOf(actions) :: PrintableEvent(e)) && RunsTo(c, s, actions, s', below)
    ensures Coherent(s') && Writable(Resolved(s')) && Resolved(s') == Replayed(Resolved(s), EventsOf(actions))
    ensures below ==> ValidSystem(s') && s'.next <= s.next + |actions|
  {
    if actions == [] {
    } else {
      var front, last := actions[..|actions| - 1], actions[|actions| - 1];
      assert forall e <- EventsOf(front) :: e in EventsOf(actions);
      assert last.Happens? ==> last.event in EventsOf(actions);
      var mid :| RunsTo(c, s, front, mid, below) && Admits(mid, last, below) && Acts(c, mid, last, s');
      ActionsResolve(c, s, front, mid, below);
      ActResolves(c, mid, last, s', below);
      ReplayedOneMore(Resolved(s), actions);
    }
  }

  /** However far a run has come, the next event or save-and-load is not refused. */
  lemma NeverRefused(c: Inet6, s: System, actions: seq<Action>, s': System, below: bool, action: Action)
    requires Coherent(s) && Writable(Resolved(s)) && (below ==> ValidSystem(s))
    requires (forall e <- EventsOf(actions) :: PrintableEvent(e)) && RunsTo(c, s, actions, s', below)
    requires action.Happens? ==> PrintableEvent(action.event)
    ensures exists t :: Acts(c, s', action, t)
  {
    ActionsResolve(c, s, actions, s', below);
    ActResolves(c, s', action, s', below);
  }

  /**
   * However often and wherever a run is saved and loaded, and however long it is, whatever it ends
   * in has the id-free view, the exported table and the active count of the run that was never
   * interrupted. Both runs are handed free ids; below the last 32-bit id they end in valid systems.
   */
  lemma RestartsUnobservable(c: Inet6, s: System, actions: seq<Action>, interrupted: System, below: bool)
    requires Coherent(s) && Writable(Resolved(s)) && (below ==> ValidSystem(s))
    requires (forall e <- EventsOf(actions) :: PrintableEvent(e)) && RunsTo(c, s, actions, interrupted, below)
    requires FreeAhead(s.byId, s.next, |Newcomers(s, EventsOf(actions))|)
    ensures var straight := Run(s, EventsOf(actions));
      && Coherent(interrupted) && Coherent(straight)
      && Resolved(interrupted) == Resolved(straight)
      && Winners(interrupted.view) == Winners(straight.view)
      && |interrupted.view| == |straight.view|
    ensures below ==> ValidSystem(interrupted)
    ensures ValidSystem(s) ==>
      (ValidSystem(Run(s, EventsOf(actions))) <==> s.next + |Newcomers(s, EventsOf(actions))| <= LAST_ID)
  {
    ActionsResolve(c, s, actions, interrupted, below);
    RunResolves(s, EventsOf(actions));
    if ValidSystem(s) {
      RunStaysValid(s, EventsOf(actions));
    }
    SameTables(interrupted, Run(s, EventsOf(actions)));
  }

  /** Systems with the same id-free view export the same table and count the same prefixes. */
  lemma SameTables(s: System, t: System)
    requires Coherent(s) && Coherent(t) && Resolved(s) == Resolved(t)
    ensures NoEmptyRows(s.view) && NoEmptyRows(t.view)
    ensures Winners(s.view) == Winners(t.view) && |s.view| == |t.view|
  {
    WinnersResolved(s);
    WinnersResolved(t);
    assert s.view.Keys == Resolved(s).Keys == t.view.Keys;
    assert |s.view| == |s.view.Keys| && |t.view| == |t.view.Keys|;
  }

  lemma RestartKeepsUsed(s: System, t: System)
    requires Coherent(s) && IsLoaded(t, UsedContents(s))
    ensures Coherent(t) && t.view == s.view && UsedPeers(t) == UsedPeers(s)
  {
    LoadedResolves(s, t);
  }

  /** Whatever system saved contents load as prints the text they were saved in. */
  lemma LoadedPrintsSame(c: Inet6, s: System, t: System)
    requires Coherent(s) && IsLoaded(t, UsedContents(s))
    ensures UsedIds(s.view) <= s.byId.Keys && UsedIds(t.view) <= t.byId.Keys
    ensures SnapshotText(c, t.byId, t.view) == SnapshotText(c, s.byId, s.view)
  {
    RestartKeepsUsed(s, t);
    TextIsCanonical(c, s, t);
  }

  /** Loading a saved text and saving again gives that text, byte for byte. */
  lemma SavedAgain(c: Inet6, s: System, t: System)
    requires Coherent(s) && Writable(Resolved(s)) && Acts(c, s, SaveAndLoad, t)
    ensures Coherent(t) && UsedIds(t.view) <= t.byId.Keys
    ensures SnapshotText(c, t.byId, t.view) == SnapshotText(c, s.byId, s.view)
  {
    RestartRoundTrips(c, s, t);
    LoadedResolves(s, t);
    LoadedPrintsSame(c, s, t);
  }

  /** The text depends on the observations and the used peers' identities alone. */
  lemma TextIsCanonical(c: Inet6, s: System, t: System)
    requires Coherent(s) && Coherent(t)
    requires s.view == t.view && UsedPeers(s) == UsedPeers(t)
    ensures UsedIds(s.view) <= s.byId.Keys && UsedIds(t.view) <= t.byId.Keys
    ensures SnapshotText(c, s.byId, s.view) == SnapshotText(c, t.byId, t.view)
  {
    UsedIsRegistered(s);
    UsedIsRegistered(t);
    PrintedIdsAreUsed(s);
    PeerLinesAgree(PrintedIds(s.view), s.byId, t.byId, UsedPeers(s));
    PrintedIdsAreUsed(t);
  }

  lemma {:induction false} PeerLinesAgree(ids: seq<uint32>, a: map<uint32, PeerInfo>, b: map<uint32, PeerInfo>,
                                          used: map<uint32, PeerInfo>)
    requires forall id <- ids :: id in used && id in a && id in b && a[id] == used[id] == b[id]
    ensures PeerLines(ids, a) == PeerLines(ids, b)
    decreases |ids|
  {
    if ids == [] {
    } else {
      PeerLinesAgree(ids[1..], a, b, used);
    }
  }
}
