/**
 * Registry and routing state as one system, and the view of it that knows no ids: which peer,
 * by full identity, last reported which origin for which prefix. Events act on the id-free view
 * directly, so whatever only changes ids (a restart, say) cannot be observed.
 */
module System {
  import opened Base
  import opened Prefix
  import opened Selection
  import opened RoutingTable
  import opened PeerRegistry

  datatype System = System(
    byInfo: map<PeerInfo, uint32>,
    byId: map<uint32, PeerInfo>,
    next: uint32,
    view: View<BinaryPrefix, uint32>)

  datatype Update = Announce(asn: uint32, timestamp: uint64) | Withdraw

  datatype Event = Event(peer: PeerInfo, prefix: BinaryPrefix, update: Update)

  /** Every id the routing state holds is registered. */
  ghost predicate Registered(view: View<BinaryPrefix, uint32>, byId: map<uint32, PeerInfo>) {
    forall p, q :: p in view && q in view[p] ==> q in byId
  }

  /** Registry and state fit together; the counter may stand anywhere. */
  ghost predicate Coherent(s: System) {
    && MutualInverses(s.byInfo, s.byId)
    && NoEmptyRows(s.view)
    && Registered(s.view, s.byId)
  }

  /** Coherent, with every id below a counter that has not wrapped. */
  ghost predicate ValidSystem(s: System) {
    && Coherent(s)
    && 1 <= s.next
    && (forall id :: id in s.byId ==> id < s.next)
  }

  /** With every id of the view registered, and not all ids in use, no counter is full. */
  lemma RegisteredCounts(view: View<BinaryPrefix, uint32>, byId: map<uint32, PeerInfo>, p: BinaryPrefix, q: uint32,
                         asn: uint32)
    requires Registered(view, byId) && q in byId && |byId| < U32_LIMIT
    ensures Countable(Row(view, p), q, asn)
  {
    assert |byId.Keys| == |byId|;
    NoCounterWraps(Row(view, p), q, asn, byId.Keys);
  }

  // ----- The system's own steps -----

  ghost function WithPeer(s: System, peer: PeerInfo): System {
    if peer in s.byInfo then s
    else s.(byInfo := s.byInfo[peer := s.next], byId := s.byId[s.next := peer],
            next := (s.next + 1) % U32_LIMIT)
  }

  ghost function Updated<Q>(view: View<BinaryPrefix, Q>, prefix: BinaryPrefix, q: Q, update: Update)
    : View<BinaryPrefix, Q> {
    match update
    case Announce(asn, timestamp) => Announced(view, prefix, q, Seen(asn, timestamp))
    case Withdraw => Withdrawn(view, prefix, q)
  }

  ghost function Step(s: System, e: Event): System {
    var s' := WithPeer(s, e.peer);
    s'.(view := Updated(s'.view, e.prefix, s'.byInfo[e.peer], e.update))
  }

  // ----- The id-free view -----

  ghost function Renamed(row: map<uint32, Seen>, byInfo: map<PeerInfo, uint32>): map<PeerInfo, Seen> {
    map info | info in byInfo && byInfo[info] in row :: row[byInfo[info]]
  }

  ghost function Resolved(s: System): View<BinaryPrefix, PeerInfo> {
    map p | p in s.view :: Renamed(s.view[p], s.byInfo)
  }

  lemma ResolvedLookup(s: System, p: BinaryPrefix, info: PeerInfo)
    ensures Lookup(Resolved(s), p, info)
         == if info in s.byInfo then Lookup(s.view, p, s.byInfo[info]) else None
  {}

  lemma ResolvedRows(s: System)
    requires Coherent(s)
    ensures NoEmptyRows(Resolved(s))
  {
    forall p | p in s.view ensures Resolved(s)[p] != map[] {
      assert s.view[p] != map[];
      var q :| q in s.view[p];
      assert s.byId[q] in Resolved(s)[p];
    }
  }

  /** An event of any peer, known or new, acts on the id-free view as on a plain table. */
  lemma StepResolves(s: System, e: Event)
    requires Coherent(s) && (e.peer in s.byInfo || s.next !in s.byId)
    ensures Coherent(Step(s, e))
    ensures Resolved(Step(s, e)) == Updated(Resolved(s), e.prefix, e.peer, e.update)
  {
    var s1 := WithPeer(s, e.peer);
    var s2 := Step(s, e);
    WithPeerResolves(s, e.peer);
    var id := s1.byInfo[e.peer];
    UpdatedRows(s1.view, e.prefix, id, e.update);
    UpdatedRegistered(s1, e.prefix, id, e.update);
    ResolvedRows(s);
    ResolvedRows(s2);
    var want := Updated(Resolved(s), e.prefix, e.peer, e.update);
    UpdatedRows(Resolved(s), e.prefix, e.peer, e.update);
    forall p, info ensures Lookup(Resolved(s2), p, info) == Lookup(want, p, info) {
      ResolvedLookup(s2, p, info);
      ResolvedLookup(s1, p, info);
      UpdatedLookup(Resolved(s), e.prefix, e.peer, e.update, p, info);
      if info in s1.byInfo {
        UpdatedLookup(s1.view, e.prefix, id, e.update, p, s1.byInfo[info]);
      }
    }
    SameLookups(Resolved(s2), want);
  }

  /** An event keeps the system coherent exactly when its peer is known or the next id is free. */
  lemma StepCoherentIff(s: System, e: Event)
    requires Coherent(s)
    ensures Coherent(Step(s, e)) <==> e.peer in s.byInfo || s.next !in s.byId
  {
    if e.peer in s.byInfo || s.next !in s.byId {
      StepResolves(s, e);
    } else {
      var former := s.byId[s.next];
      assert former in Step(s, e).byInfo && former != e.peer;
      assert Step(s, e).byId[s.next] == e.peer;
    }
  }

  /** Below the wrap the counter stays ahead of the ids. */
  lemma StepStaysValid(s: System, e: Event)
    requires ValidSystem(s) && (e.peer in s.byInfo || s.next < LAST_ID)
    ensures ValidSystem(Step(s, e)) && s.next <= Step(s, e).next <= s.next + 1
  {
    assert s.next < LAST_ID ==> (s.next + 1) % 0x1_0000_0000 == s.next + 1;
    StepResolves(s, e);
  }

  lemma UpdatedLookup<Q>(view: View<BinaryPrefix, Q>, p: BinaryPrefix, q: Q, update: Update, p': BinaryPrefix, q': Q)
    ensures Lookup(Updated(view, p, q, update), p', q')
         == if p == p' && q == q' then Effect(update) else Lookup(view, p', q')
  {
    match update
    case Announce(asn, timestamp) => AnnouncedLookup(view, p, q, Seen(asn, timestamp), p', q');
    case Withdraw => WithdrawnLookup(view, p, q, p', q');
  }

  /** What an update leaves behind for its own prefix and peer. */
  ghost function Effect(update: Update): Option<Seen> {
    match update
    case Announce(asn, timestamp) => Some(Seen(asn, timestamp))
    case Withdraw => None
  }

  lemma UpdatedRows<Q>(view: View<BinaryPrefix, Q>, p: BinaryPrefix, q: Q, update: Update)
    requires NoEmptyRows(view)
    ensures NoEmptyRows(Updated(view, p, q, update))
  {
    match update
    case Announce(asn, timestamp) => UpdatesKeepRows(view, p, q, Seen(asn, timestamp));
    case Withdraw => UpdatesKeepRows(view, p, q, Seen(0, 0));
  }

  lemma UpdatedRegistered(s: System, p: BinaryPrefix, q: uint32, update: Update)
    requires Registered(s.view, s.byId) && q in s.byId
    ensures Registered(Updated(s.view, p, q, update), s.byId)
  {}

  lemma WithPeerResolves(s: System, peer: PeerInfo)
    requires Coherent(s) && (peer in s.byInfo || s.next !in s.byId)
    ensures Coherent(WithPeer(s, peer)) && peer in WithPeer(s, peer).byInfo
    ensures Resolved(WithPeer(s, peer)) == Resolved(s)
  {
    if peer !in s.byInfo {
      var s' := WithPeer(s, peer);
      forall p | p in s.view ensures Renamed(s.view[p], s'.byInfo) == Renamed(s.view[p], s.byInfo) {
        forall q | q in s.view[p] ensures q != s.next {
          assert q in s.byId;
        }
      }
    }
  }

  // ----- Ids do not show in the exported table -----

  lemma RenamedCount(row: map<uint32, Seen>, byInfo: map<PeerInfo, uint32>, byId: map<uint32, PeerInfo>, asn: uint32)
    requires MutualInverses(byInfo, byId) && row.Keys <= byId.Keys
    ensures Count(Renamed(row, byInfo), asn) == Count(row, asn)
  {
    var ids, infos := Supporters(row, asn), Supporters(Renamed(row, byInfo), asn);
    forall info | info in infos ensures exists id :: id in ids && byId[id] == info {
      assert byInfo[info] in ids;
    }
    SizeThrough(ids, (id: uint32) => if id in byId then byId[id] else PeerInfo("", "", 0), infos);
  }

  lemma WinnersResolved(s: System)
    requires Coherent(s)
    ensures NoEmptyRows(Resolved(s)) && Winners(Resolved(s)) == Winners(s.view)
  {
    ResolvedRows(s);
    forall p | p in s.view ensures Winners(Resolved(s))[p] == Winners(s.view)[p] {
      var row, row' := s.view[p], Resolved(s)[p];
      forall asn: uint32 ensures Count(row', asn) == Count(row, asn) {
        RenamedCount(row, s.byInfo, s.byId, asn);
      }
      assert IsWinner(row', Winners(s.view)[p]);
      WinnerUnique(row', Winners(s.view)[p], Winners(Resolved(s))[p]);
    }
  }

  // ----- Whole runs: the last event of each prefix and peer decides -----

  ghost function Run(s: System, events: seq<Event>): System {
    if events == [] then s else Step(Run(s, events[..|events| - 1]), events[|events| - 1])
  }

  ghost function Replayed(view: View<BinaryPrefix, PeerInfo>, events: seq<Event>): View<BinaryPrefix, PeerInfo> {
    if events == [] then view
    else
      var e := events[|events| - 1];
      Updated(Replayed(view, events[..|events| - 1]), e.prefix, e.peer, e.update)
  }

  /** The peers of a run that have no id when it starts; each takes one, once. */
  ghost function Newcomers(s: System, events: seq<Event>): set<PeerInfo> {
    set e | e in events && e.peer !in s.byInfo :: e.peer
  }

  lemma NewcomersOneMore(s: System, events: seq<Event>)
    requires events != []
    ensures var front, e := events[..|events| - 1], events[|events| - 1];
      Newcomers(s, events) == Newcomers(s, front) + if e.peer in s.byInfo then {} else {e.peer}
  {
    var front, e := events[..|events| - 1], events[|events| - 1];
    assert forall x :: x in events <==> x in front || x == e;
  }

  /** A run registers exactly its newcomers, and no identity ever changes its id. */
  lemma {:induction false} RunRegisters(s: System, events: seq<Event>)
    ensures Run(s, events).byInfo.Keys == s.byInfo.Keys + Newcomers(s, events)
    ensures forall info :: info in s.byInfo ==> Run(s, events).byInfo[info] == s.byInfo[info]
  {
    if events == [] {
    } else {
      RunRegisters(s, events[..|events| - 1]);
      NewcomersOneMore(s, events);
    }
  }

  lemma OneMoreUnlessKnown<T>(known: set<T>, before: set<T>, after: set<T>, x: T)
    requires after == before + if x in known then {} else {x}
    ensures |after| == |before| + if x in known + before then 0 else 1
  {
    if x in known + before {
      assert after == before;
    }
  }

  /** The number of newcomers grows by one with the event of a peer that has no id yet. */
  lemma NewcomersCount(s: System, events: seq<Event>)
    requires events != []
    ensures var front, e := events[..|events| - 1], events[|events| - 1];
      |Newcomers(s, events)| == |Newcomers(s, front)| + if e.peer in Run(s, front).byInfo then 0 else 1
  {
    var front, peer := events[..|events| - 1], events[|events| - 1].peer;
    NewcomersOneMore(s, events);
    RunRegisters(s, front);
    OneMoreUnlessKnown(s.byInfo.Keys, Newcomers(s, front), Newcomers(s, events), peer);
    assert peer in Run(s, front).byInfo <==> peer in s.byInfo.Keys + Newcomers(s, front);
  }

  /** Two identities share an id. */
  ghost predicate Clashes(s: System) {
    exists a, b :: a in s.byInfo && b in s.byInfo && a != b && s.byInfo[a] == s.byInfo[b]
  }

  /** Once an id was handed out twice the registry stays broken. */
  lemma StepBreaksForGood(s: System, e: Event)
    requires Coherent(s) || Clashes(s)
    ensures Coherent(Step(s, e)) || Clashes(Step(s, e))
    ensures Clashes(s) ==> !Coherent(Step(s, e))
  {
    if Clashes(s) {
      var a, b :| a in s.byInfo && b in s.byInfo && a != b && s.byInfo[a] == s.byInfo[b];
      assert Step(s, e).byInfo[a] == Step(s, e).byInfo[b];
    } else {
      StepCoherentIff(s, e);
      if e.peer !in s.byInfo && s.next in s.byId {
        var former := s.byId[s.next];
        assert former in s.byInfo && Step(s, e).byInfo[former] == s.next == Step(s, e).byInfo[e.peer];
      }
    }
  }

  lemma StepFreeIff(s: System, e: Event, k: nat)
    requires Coherent(s) || Clashes(s)
    ensures Coherent(Step(s, e)) && FreeAhead(Step(s, e).byId, Step(s, e).next, k) <==>
      Coherent(s) && FreeAhead(s.byId, s.next, k + if e.peer in s.byInfo then 0 else 1)
  {
    StepBreaksForGood(s, e);
    if Coherent(s) {
      StepCoherentIff(s, e);
      FreeOneByOne(s.byId, s.next, k, e.peer);
    }
  }

  lemma {:induction false} RunFreeIff(s: System, events: seq<Event>, k: nat)
    requires Coherent(s)
    ensures Coherent(Run(s, events)) || Clashes(Run(s, events))
    ensures Coherent(Run(s, events)) && FreeAhead(Run(s, events).byId, Run(s, events).next, k) <==>
      FreeAhead(s.byId, s.next, |Newcomers(s, events)| + k)
  {
    if events == [] {
    } else {
      var front, e := events[..|events| - 1], events[|events| - 1];
      NewcomersCount(s, events);
      var more := if e.peer in Run(s, front).byInfo then 0 else 1;
      RunFreeIff(s, front, k + more);
      StepBreaksForGood(Run(s, front), e);
      StepFreeIff(Run(s, front), e, k);
    }
  }

  /** A whole run is coherent exactly when the ids its newcomers are handed are free when it starts. */
  lemma RunCoherentIff(s: System, events: seq<Event>)
    requires Coherent(s)
    ensures Coherent(Run(s, events)) <==> FreeAhead(s.byId, s.next, |Newcomers(s, events)|)
  {
    RunFreeIff(s, events, 0);
  }

  lemma NewcomersFrontFree(s: System, events: seq<Event>)
    requires events != [] && FreeAhead(s.byId, s.next, |Newcomers(s, events)|)
    ensures FreeAhead(s.byId, s.next, |Newcomers(s, events[..|events| - 1])|)
  {
    NewcomersCount(s, events);
  }

  /** While the ids its newcomers are handed are free, a run replays its events on the id-free view. */
  lemma {:induction false} RunResolves(s: System, events: seq<Event>)
    requires Coherent(s) && FreeAhead(s.byId, s.next, |Newcomers(s, events)|)
    ensures Coherent(Run(s, events))
    ensures Resolved(Run(s, events)) == Replayed(Resolved(s), events)
  {
    if events == [] {
    } else {
      var front, e := events[..|events| - 1], events[|events| - 1];
      NewcomersFrontFree(s, events);
      RunResolves(s, front);
      RunCoherentIff(s, events);
      StepCoherentIff(Run(s, front), e);
      StepResolves(Run(s, front), e);
    }
  }

  /** An id handed out once keeps its identity, and a known identity its id, for the rest of the run. */
  lemma RunKeepsIds(s: System, events: seq<Event>)
    requires Coherent(s) && FreeAhead(s.byId, s.next, |Newcomers(s, events)|)
    ensures forall id :: id in s.byId ==> id in Run(s, events).byId && Run(s, events).byId[id] == s.byId[id]
    ensures forall info :: info in s.byInfo ==> info in Run(s, events).byInfo && Run(s, events).byInfo[info] == s.byInfo[info]
    ensures Run(s, events).byInfo.Keys == s.byInfo.Keys + Newcomers(s, events)
  {
    RunRegisters(s, events);
    RunCoherentIff(s, events);
    forall id | id in s.byId ensures id in Run(s, events).byId && Run(s, events).byId[id] == s.byId[id] {
      assert Run(s, events).byInfo[s.byId[id]] == id;
    }
  }

  /** The counter reaches its wrap exactly when the last 32-bit id is handed out, and then stays behind it. */
  lemma StepValidIff(s: System, e: Event)
    requires ValidSystem(s) || LAST_ID in s.byId
    ensures ValidSystem(Step(s, e)) || LAST_ID in Step(s, e).byId
    ensures ValidSystem(Step(s, e)) <==> ValidSystem(s) && (e.peer in s.byInfo || s.next < LAST_ID)
    ensures ValidSystem(Step(s, e)) ==> Step(s, e).next == s.next + if e.peer in s.byInfo then 0 else 1
  {
    if ValidSystem(s) && (e.peer in s.byInfo || s.next < LAST_ID) {
      StepStaysValid(s, e);
      assert s.next < LAST_ID ==> (s.next + 1) % 0x1_0000_0000 == s.next + 1;
    } else {
      assert LAST_ID in Step(s, e).byId;
    }
  }

  /**
   * Every id stays below the counter exactly when the newcomers fit below the last 32-bit id; the
   * counter then has moved up by their number, and new ids are above all earlier ones.
   */
  lemma {:induction false} RunStaysValid(s: System, events: seq<Event>)
    requires ValidSystem(s)
    ensures ValidSystem(Run(s, events)) || LAST_ID in Run(s, events).byId
    ensures ValidSystem(Run(s, events)) <==> s.next + |Newcomers(s, events)| <= LAST_ID
    ensures ValidSystem(Run(s, events)) ==> Run(s, events).next == s.next + |Newcomers(s, events)|
    ensures ValidSystem(Run(s, events)) ==> forall id :: id in Run(s, events).byId && id !in s.byId ==> id >= s.next
  {
    if events == [] {
    } else {
      var front := events[..|events| - 1];
      RunStaysValid(s, front);
      NewcomersCount(s, events);
      StepValidIff(Run(s, front), events[|events| - 1]);
    }
  }

  /** The last thing a peer said about a prefix. */
  ghost function LastUpdate(events: seq<Event>, p: BinaryPrefix, peer: PeerInfo): Option<Update> {
    if events == [] then None
    else
      var e := events[|events| - 1];
      if e.prefix == p && e.peer == peer then Some(e.update)
      else LastUpdate(events[..|events| - 1], p, peer)
  }

  lemma {:induction false} ReplayedLookup(view: View<BinaryPrefix, PeerInfo>, events: seq<Event>,
                                          p: BinaryPrefix, peer: PeerInfo)
    requires NoEmptyRows(view)
    ensures NoEmptyRows(Replayed(view, events))
    ensures Lookup(Replayed(view, events), p, peer)
         == match LastUpdate(events, p, peer) case None => Lookup(view, p, peer) case Some(u) => Effect(u)
  {
    if events == [] {
    } else {
      var front, e := events[..|events| - 1], events[|events| - 1];
      ReplayedLookup(view, front, p, peer);
      UpdatedRows(Replayed(view, front), e.prefix, e.peer, e.update);
      UpdatedLookup(Replayed(view, front), e.prefix, e.peer, e.update, p, peer);
    }
  }

  /** The last thing is what the last event about the prefix by the peer says, and nothing without one. */
  lemma {:induction false} LastUpdateMeans(events: seq<Event>, p: BinaryPrefix, peer: PeerInfo, i: nat)
    requires i < |events| ==> events[i].prefix == p && events[i].peer == peer
    requires forall j :: i < j < |events| ==> !(events[j].prefix == p && events[j].peer == peer)
    requires i >= |events| ==> forall j :: 0 <= j < |events| ==> !(events[j].prefix == p && events[j].peer == peer)
    ensures LastUpdate(events, p, peer) == if i < |events| then Some(events[i].update) else None
  {
    if events == [] || i == |events| - 1 {
    } else {
      var front := events[..|events| - 1];
      LastUpdateMeans(front, p, peer, if i < |events| then i else |front|);
    }
  }

  lemma {:induction false} LastUpdateOfConcat(a: seq<Event>, b: seq<Event>, p: BinaryPrefix, peer: PeerInfo)
    ensures LastUpdate(a + b, p, peer)
         == if LastUpdate(b, p, peer).Some? then LastUpdate(b, p, peer) else LastUpdate(a, p, peer)
  {
    if b == [] {
      assert a + b == a;
    } else {
      var front := b[..|b| - 1];
      assert (a + b)[..|a + b| - 1] == a + front;
      LastUpdateOfConcat(a, front, p, peer);
    }
  }

  /** Once a peer withdraws a prefix and from then on everybody only withdraws, that is its last word. */
  lemma {:induction false} WithdrawalsLast(events: seq<Event>, i: nat)
    requires i < |events| && forall j :: i <= j < |events| ==> events[j].update == Withdraw
    ensures LastUpdate(events, events[i].prefix, events[i].peer) == Some(Withdraw)
  {
    if i == |events| - 1 {
    } else {
      WithdrawalsLast(events[..|events| - 1], i);
    }
  }

  ghost predicate SameLastUpdates(a: seq<Event>, b: seq<Event>) {
    forall p, peer :: LastUpdate(a, p, peer) == LastUpdate(b, p, peer)
  }

  /**
   * Two runs from one system whose last events agree pair by pair end in the same id-free view
   * and export the same table, whatever else happened, in whatever order, on the way.
   */
  lemma LastEventWins(s: System, a: seq<Event>, b: seq<Event>)
    requires Coherent(s)
    requires FreeAhead(s.byId, s.next, |Newcomers(s, a)|) && FreeAhead(s.byId, s.next, |Newcomers(s, b)|)
    requires SameLastUpdates(a, b)
    ensures Coherent(Run(s, a)) && Coherent(Run(s, b))
    ensures Resolved(Run(s, a)) == Resolved(Run(s, b))
    ensures Winners(Run(s, a).view) == Winners(Run(s, b).view)
  {
    RunResolves(s, a);
    RunResolves(s, b);
    ResolvedRows(s);
    var va, vb := Replayed(Resolved(s), a), Replayed(Resolved(s), b);
    forall p, peer ensures Lookup(va, p, peer) == Lookup(vb, p, peer) {
      ReplayedLookup(Resolved(s), a, p, peer);
      ReplayedLookup(Resolved(s), b, p, peer);
    }
    ResolvedRows(Run(s, a));
    ResolvedRows(Run(s, b));
    SameLookups(va, vb);
    WinnersResolved(Run(s, a));
    WinnersResolved(Run(s, b));
  }

  /** An event superseded later on may be dropped. */
  lemma DropSuperseded(a: seq<Event>, e: Event, b: seq<Event>)
    requires LastUpdate(b, e.prefix, e.peer).Some?
    ensures SameLastUpdates(a + [e] + b, a + b)
  {
    forall p, peer ensures LastUpdate(a + [e] + b, p, peer) == LastUpdate(a + b, p, peer) {
      LastUpdateOfConcat(a + [e], b, p, peer);
      LastUpdateOfConcat(a, b, p, peer);
      LastUpdateOfConcat(a, [e], p, peer);
    }
  }

  /** Events about different prefixes or by different peers may be exchanged. */
  lemma ExchangeIndependent(a: seq<Event>, x: Event, y: Event, b: seq<Event>)
    requires x.prefix != y.prefix || x.peer != y.peer
    ensures SameLastUpdates(a + [x, y] + b, a + [y, x] + b)
  {
    forall p, peer ensures LastUpdate(a + [x, y] + b, p, peer) == LastUpdate(a + [y, x] + b, p, peer) {
      LastUpdateOfConcat(a + [x, y], b, p, peer);
      LastUpdateOfConcat(a + [y, x], b, p, peer);
      LastUpdateOfConcat(a, [x, y], p, peer);
      LastUpdateOfConcat(a, [y, x], p, peer);
      LastUpdateOfConcat([x], [y], p, peer);
      LastUpdateOfConcat([y], [x], p, peer);
      assert [x] + [y] == [x, y] && [y] + [x] == [y, x];
    }
  }
}
