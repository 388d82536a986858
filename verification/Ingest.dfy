/**
 * The ingest loop of src/main.cpp: messages become events, events update the registry, the routing
 * state and both sets of counters, and the tracker is sampled on the way.
 */
module Ingest {
  import opened Base
  import opened Prefix
  import opened Selection
  import opened RoutingTable
  import opened PeerRegistry
  import opened RoutingState
  import opened System
  import opened SnapshotIO
  import opened GrowthStats
  import opened RisLiveParser

  class IngestionStats {
    var rawMessages: nat
    var parsedEvents: nat
    var announces: nat
    var withdraws: nat
    var ignored: nat

    constructor ()
      ensures rawMessages == parsedEvents == announces == withdraws == ignored == 0
    {
      rawMessages, parsedEvents, announces, withdraws, ignored := 0, 0, 0, 0, 0;
    }
  }

  // ----- Parsed events as system events -----

  function UpdateOf(e: ParsedEvent): Update {
    if e.eventType == AnnounceEvent then Announce(e.originAsn, e.timestamp) else Withdraw
  }

  predicate Decodable(c: Inet6, e: ParsedEvent) {
    ParsePrefix(c, e.prefix).Ok?
  }

  function Decode(c: Inet6, e: ParsedEvent): Event
    requires Decodable(c, e)
  {
    Event(e.peer, ParsePrefix(c, e.prefix).value, UpdateOf(e))
  }

  ghost predicate AllDecodable(c: Inet6, events: seq<ParsedEvent>) {
    forall i :: 0 <= i < |events| ==> Decodable(c, events[i])
  }

  ghost function Mapped<A(!new), B>(f: A -> B, s: seq<A>): (r: seq<B>)
    ensures |r| == |s| && forall i :: 0 <= i < |s| ==> r[i] == f(s[i])
  {
    seq(|s|, i requires 0 <= i < |s| => f(s[i]))
  }

  lemma MappedConcat<A(!new), B>(f: A -> B, a: seq<A>, b: seq<A>)
    ensures Mapped(f, a + b) == Mapped(f, a) + Mapped(f, b)
  {}

  /** Decode, made total. */
  ghost function Decoder(c: Inet6): ParsedEvent -> Event {
    e => if Decodable(c, e) then Decode(c, e) else Event(e.peer, V4(PrefixV4(0, 0)), Withdraw)
  }

  ghost function DecodeAll(c: Inet6, events: seq<ParsedEvent>): (decoded: seq<Event>)
    requires AllDecodable(c, events)
    ensures |decoded| == |events| && forall i :: 0 <= i < |events| ==> decoded[i] == Decode(c, events[i])
  {
    Mapped(Decoder(c), events)
  }

  lemma DecodableConcat(c: Inet6, a: seq<ParsedEvent>, b: seq<ParsedEvent>)
    requires AllDecodable(c, a) && AllDecodable(c, b)
    ensures AllDecodable(c, a + b)
  {
    forall i | 0 <= i < |a + b| ensures Decodable(c, (a + b)[i]) {
      if i < |a| {
        assert (a + b)[i] == a[i];
      } else {
        assert (a + b)[i] == b[i - |a|];
      }
    }
  }

  lemma DecodeConcat(c: Inet6, a: seq<ParsedEvent>, b: seq<ParsedEvent>)
    requires AllDecodable(c, a) && AllDecodable(c, b)
    ensures AllDecodable(c, a + b) && DecodeAll(c, a + b) == DecodeAll(c, a) + DecodeAll(c, b)
  {
    DecodableConcat(c, a, b);
    MappedConcat(Decoder(c), a, b);
  }

  // ----- What the events amount to -----

  /** The id-free view, and every prefix and ASN ever mentioned. */
  datatype Account = Account(view: View<BinaryPrefix, PeerInfo>, prefixes: set<BinaryPrefix>, asns: set<uint32>)

  ghost function NamedAsns(update: Update): set<uint32> {
    match update
    case Announce(asn, _) => {asn}
    case Withdraw => {}
  }

  ghost function Took(a: Account, e: Event): Account {
    Account(Updated(a.view, e.prefix, e.peer, e.update), a.prefixes + {e.prefix}, a.asns + NamedAsns(e.update))
  }

  ghost function TookAll(a: Account, events: seq<Event>): Account {
    if events == [] then a else Took(TookAll(a, events[..|events| - 1]), events[|events| - 1])
  }

  lemma {:induction false} TookConcat(a: Account, first: seq<Event>, second: seq<Event>)
    ensures TookAll(a, first + second) == TookAll(TookAll(a, first), second)
  {
    if second == [] {
      assert first + second == first;
    } else {
      var front := second[..|second| - 1];
      assert (first + second)[..|first + second| - 1] == first + front;
      TookConcat(a, first, front);
    }
  }

  /** The view replays the events; what was mentioned is what they name. */
  lemma {:induction false} TookAllMeans(a: Account, events: seq<Event>)
    ensures TookAll(a, events).view == Replayed(a.view, events)
    ensures TookAll(a, events).prefixes == a.prefixes + set e | e in events :: e.prefix
    ensures TookAll(a, events).asns == a.asns + set e, asn | e in events && asn in NamedAsns(e.update) :: asn
  {
    if events == [] {
    } else {
      var front, last := events[..|events| - 1], events[|events| - 1];
      TookAllMeans(a, front);
      assert events == front + [last];
      assert forall e :: e in events <==> e in front || e == last;
    }
  }

  // ----- One event -----

  ghost predicate Counted(stats: IngestionStats, growth: GrowthStatsTracker)
    reads stats, growth
  {
    growth.announces == stats.announces && growth.withdraws == stats.withdraws
  }

  lemma UpdatedKeys<Q>(view: View<BinaryPrefix, Q>, p: BinaryPrefix, q: Q, update: Update)
    ensures Updated(view, p, q, update).Keys <= view.Keys + {p}
  {}

  /** The counter an announcement adds to has room. */
  ghost predicate Fits(e: ParsedEvent, view: View<BinaryPrefix, uint32>, prefix: BinaryPrefix, peerId: uint32) {
    e.eventType == AnnounceEvent ==> Countable(Row(view, prefix), peerId, e.originAsn)
  }

  /** The event reaches the state, the counters and the tracker, whatever room its counter has. */
  method ApplyUpdate(e: ParsedEvent, prefix: BinaryPrefix, peerId: uint32, state: RoutingState,
                     stats: IngestionStats, growth: GrowthStatsTracker)
    requires state.Sound() && growth.Valid() && Counted(stats, growth)
    modifies state, stats`announces, stats`withdraws
    modifies growth`everSeenAsns, growth`everSeenV4, growth`everSeenV6, growth`announces, growth`withdraws
    ensures state.Sound() && growth.Valid() && Counted(stats, growth)
    ensures state.observed == Updated(old(state.observed), prefix, peerId, UpdateOf(e))
    ensures old(state.Valid()) ==> (state.Valid() <==> Fits(e, old(state.observed), prefix, peerId))
    ensures growth.EverSeen() == old(growth.EverSeen()) + {prefix}
    ensures growth.everSeenAsns == old(growth.everSeenAsns) + NamedAsns(UpdateOf(e))
    ensures stats.announces == old(stats.announces) + (if e.eventType == AnnounceEvent then 1 else 0)
    ensures stats.withdraws == old(stats.withdraws) + (if e.eventType == WithdrawEvent then 1 else 0)
  {
    match e.eventType
    case AnnounceEvent =>
      ApplyAnnounce(e, prefix, peerId, state, stats, growth);
    case WithdrawEvent =>
      ApplyWithdraw(prefix, peerId, state, stats, growth);
  }

  method ApplyAnnounce(e: ParsedEvent, prefix: BinaryPrefix, peerId: uint32, state: RoutingState,
                       stats: IngestionStats, growth: GrowthStatsTracker)
    requires state.Sound() && growth.Valid() && Counted(stats, growth)
    modifies state, stats`announces
    modifies growth`everSeenAsns, growth`everSeenV4, growth`everSeenV6, growth`announces
    ensures state.Sound() && growth.Valid() && Counted(stats, growth)
    ensures state.observed == Announced(old(state.observed), prefix, peerId, Seen(e.originAsn, e.timestamp))
    ensures old(state.Valid()) ==> (state.Valid() <==> Countable(Row(old(state.observed), prefix), peerId, e.originAsn))
    ensures growth.EverSeen() == old(growth.EverSeen()) + {prefix}
    ensures growth.everSeenAsns == old(growth.everSeenAsns) + {e.originAsn}
    ensures stats.announces == old(stats.announces) + 1
  {
    state.Announce(peerId, prefix, e.originAsn, e.timestamp);
    stats.announces := stats.announces + 1;
    growth.OnAnnounce(e.originAsn, prefix);
  }

  method ApplyWithdraw(prefix: BinaryPrefix, peerId: uint32, state: RoutingState, stats: IngestionStats,
                       growth: GrowthStatsTracker)
    requires state.Sound() && growth.Valid() && Counted(stats, growth)
    modifies state, stats`withdraws
    modifies growth`everSeenV4, growth`everSeenV6, growth`withdraws
    ensures state.Sound() && growth.Valid() && Counted(stats, growth)
    ensures state.observed == Withdrawn(old(state.observed), prefix, peerId)
    ensures old(state.Valid()) ==> state.Valid()
    ensures growth.EverSeen() == old(growth.EverSeen()) + {prefix}
    ensures stats.withdraws == old(stats.withdraws) + 1
  {
    state.Withdraw(peerId, prefix);
    stats.withdraws := stats.withdraws + 1;
    growth.OnWithdraw(prefix);
  }

  /**
   * The meters agree: the tracker's counters are the statistics' counters, what was applied is what
   * was counted as parsed and `pending` events more, active prefixes have been seen, and without
   * pending events the recorded active counts are those of the state. Closed, see Base.Key.
   */
  ghost predicate Metered(state: RoutingState, stats: IngestionStats, growth: GrowthStatsTracker, pending: nat)
    reads state, stats, growth
  {
    forall k {:trigger Key(MeterDoor, k)} :: Key(MeterDoor, k) ==> MeteredExactly(state, stats, growth, pending)
  }

  ghost predicate MeteredExactly(state: RoutingState, stats: IngestionStats, growth: GrowthStatsTracker, pending: nat)
    reads state, stats, growth
  {
    && growth.Valid() && Counted(stats, growth)
    && stats.parsedEvents + pending == stats.announces + stats.withdraws
    && growth.parsedEvents == stats.parsedEvents && growth.rawMessages == stats.rawMessages
    && (pending == 0 ==> growth.activeV4 == |OfFamily(state.observed.Keys, FamilyV4)|)
    && (pending == 0 ==> growth.activeV6 == |OfFamily(state.observed.Keys, FamilyV6)|)
  }

  lemma OpenMetered(state: RoutingState, stats: IngestionStats, growth: GrowthStatsTracker, pending: nat)
    requires Metered(state, stats, growth, pending)
    ensures MeteredExactly(state, stats, growth, pending)
  {
    assert Key(MeterDoor, 0);
  }

  /** One event more has been applied than was counted as parsed. */
  method ApplyMeteredUpdate(e: ParsedEvent, prefix: BinaryPrefix, peerId: uint32, ghost pending: nat, state: RoutingState,
                            stats: IngestionStats, growth: GrowthStatsTracker)
    requires state.Sound() && Metered(state, stats, growth, pending)
    modifies state, stats`announces, stats`withdraws
    modifies growth`everSeenAsns, growth`everSeenV4, growth`everSeenV6, growth`announces, growth`withdraws
    ensures state.Sound() && Metered(state, stats, growth, pending + 1)
    ensures state.observed == Updated(old(state.observed), prefix, peerId, UpdateOf(e))
    ensures old(state.Valid()) ==> (state.Valid() <==> Fits(e, old(state.observed), prefix, peerId))
    ensures growth.EverSeen() == old(growth.EverSeen()) + {prefix}
    ensures growth.everSeenAsns == old(growth.everSeenAsns) + NamedAsns(UpdateOf(e))
    ensures stats.announces == old(stats.announces) + (if e.eventType == AnnounceEvent then 1 else 0)
    ensures stats.withdraws == old(stats.withdraws) + (if e.eventType == WithdrawEvent then 1 else 0)
  {
    OpenMetered(state, stats, growth, pending);
    ApplyUpdate(e, prefix, peerId, state, stats, growth);
    StillMetered(state, stats, growth, pending + 1);
  }

  lemma StillMetered(state: RoutingState, stats: IngestionStats, growth: GrowthStatsTracker, pending: nat)
    requires growth.Valid() && Counted(stats, growth) && pending > 0
    requires stats.parsedEvents + pending == stats.announces + stats.withdraws
    requires growth.parsedEvents == stats.parsedEvents && growth.rawMessages == stats.rawMessages
    ensures Metered(state, stats, growth, pending)
  {}

  /** Text that is no prefix changes nothing. */
  method ApplyEvent(c: Inet6, e: ParsedEvent, peerId: uint32, ghost pending: nat, state: RoutingState,
                    stats: IngestionStats, growth: GrowthStatsTracker)
    returns (r: Result<BinaryPrefix, PrefixError>)
    requires state.Sound() && Metered(state, stats, growth, pending)
    modifies state, stats`announces, stats`withdraws
    modifies growth`everSeenAsns, growth`everSeenV4, growth`everSeenV6, growth`announces, growth`withdraws
    ensures state.Sound() && Metered(state, stats, growth, if r.Ok? then pending + 1 else pending)
    ensures r == ParsePrefix(c, e.prefix)
    ensures r.Err? ==> unchanged(state) && unchanged(stats) && unchanged(growth)
    ensures r.Ok? ==> state.observed == Updated(old(state.observed), r.value, peerId, UpdateOf(e))
    ensures r.Ok? && old(state.Valid()) ==> (state.Valid() <==> Fits(e, old(state.observed), r.value, peerId))
    ensures r.Ok? ==> growth.EverSeen() == old(growth.EverSeen()) + {r.value}
    ensures r.Ok? ==> growth.everSeenAsns == old(growth.everSeenAsns) + NamedAsns(UpdateOf(e))
    ensures r.Ok? ==> stats.announces == old(stats.announces) + (if e.eventType == AnnounceEvent then 1 else 0)
    ensures r.Ok? ==> stats.withdraws == old(stats.withdraws) + (if e.eventType == WithdrawEvent then 1 else 0)
  {
    r := ParsePrefix(c, e.prefix);
    if r.Ok? {
      ApplyMeteredUpdate(e, r.value, peerId, pending, state, stats, growth);
    }
  }

  // ----- One message -----

  /** Registry, state and tracker together show the account; closed, see Base.Key. */
  ghost predicate Shows(registry: PeerRegistry, state: RoutingState, growth: GrowthStatsTracker, account: Account)
    reads registry, state, growth`everSeenAsns, growth`everSeenV4, growth`everSeenV6
  {
    forall k {:trigger Key(PairDoor, k)} :: Key(PairDoor, k) ==> ShowsExactly(registry, state, growth, account)
  }

  /** The system is coherent, an id is left over, it resolves to the view, every active prefix has been seen. */
  ghost predicate ShowsExactly(registry: PeerRegistry, state: RoutingState, growth: GrowthStatsTracker, account: Account)
    reads registry, state, growth`everSeenAsns, growth`everSeenV4, growth`everSeenV6
  {
    && state.Valid() && Coherent(SystemOf(registry, state)) && |registry.byId| < U32_LIMIT
    && account.view == Resolved(SystemOf(registry, state))
    && account.prefixes == growth.EverSeen() && account.asns == growth.everSeenAsns
    && account.view.Keys <= account.prefixes
  }

  lemma OpenShows(registry: PeerRegistry, state: RoutingState, growth: GrowthStatsTracker, account: Account)
    requires Shows(registry, state, growth, account)
    ensures ShowsExactly(registry, state, growth, account)
  {
    assert Key(PairDoor, 0);
  }

  /** The system after resolving a peer and, with its id, applying one of its events. */
  lemma CachedIdSteps(c: Inet6, s: System, id: uint32, e: ParsedEvent)
    requires Coherent(s) && e.peer in s.byInfo && s.byInfo[e.peer] == id && Decodable(c, e)
    ensures var s' := s.(view := Updated(s.view, ParsePrefix(c, e.prefix).value, id, UpdateOf(e)));
      && Coherent(s')
      && Resolved(s') == Updated(Resolved(s), ParsePrefix(c, e.prefix).value, e.peer, UpdateOf(e))
  {
    StepResolves(s, Decode(c, e));
  }

  /** The event entered the account, unless its text is no prefix; closed, see Base.Key. */
  ghost predicate Entered(c: Inet6, e: ParsedEvent, before: Account, failure: Option<PrefixError>, after: Account) {
    forall k {:trigger Key(RunDoor, k)} :: Key(RunDoor, k) ==> EnteredExactly(c, e, before, failure, after)
  }

  ghost predicate EnteredExactly(c: Inet6, e: ParsedEvent, before: Account, failure: Option<PrefixError>, after: Account) {
    match ParsePrefix(c, e.prefix)
    case Ok(p) => failure == None && after == Took(before, Event(e.peer, p, UpdateOf(e)))
    case Err(error) => failure == Some(error) && after == before
  }

  /** An event of a peer whose id is known enters the account under the peer's own name. */
  method ApplyResolvedEvent(c: Inet6, e: ParsedEvent, peerId: uint32, ghost pending: nat, ghost account: Account,
                            registry: PeerRegistry, state: RoutingState, stats: IngestionStats, growth: GrowthStatsTracker)
    returns (failure: Option<PrefixError>, ghost account': Account)
    requires Shows(registry, state, growth, account) && e.peer in registry.byInfo && registry.byInfo[e.peer] == peerId
    requires Metered(state, stats, growth, pending)
    modifies state, stats`announces, stats`withdraws
    modifies growth`everSeenAsns, growth`everSeenV4, growth`everSeenV6, growth`announces, growth`withdraws
    ensures Shows(registry, state, growth, account') && Entered(c, e, account, failure, account')
    ensures Metered(state, stats, growth, if failure == None then pending + 1 else pending)
    ensures stats.announces + stats.withdraws == old(stats.announces + stats.withdraws) + (if failure == None then 1 else 0)
  {
    OpenShows(registry, state, growth, account);
    ghost var s := SystemOf(registry, state);
    forall p ensures Countable(Row(state.observed, p), peerId, e.originAsn) {
      RegisteredCounts(state.observed, registry.byId, p, peerId, e.originAsn);
    }
    var r := ApplyEvent(c, e, peerId, pending, state, stats, growth);
    if r.Err? {
      failure, account' := Some(r.error), account;
    } else {
      CachedIdSteps(c, s, peerId, e);
      UpdatedKeys(account.view, r.value, e.peer, UpdateOf(e));
      failure, account' := None, Took(account, Event(e.peer, r.value, UpdateOf(e)));
    }
  }

  /**
   * The ids the registry would hand out to those of the peers it does not know are free; when
   * `ordered`, also every id is below a counter that does not reach its wrap on the way. Closed, see
   * Base.Key.
   */
  ghost predicate Spare(registry: PeerRegistry, peers: set<PeerInfo>, ordered: bool)
    reads registry
  {
    SpareIds(registry.byInfo, registry.byId, registry.nextPeerId, peers, ordered)
  }

  ghost predicate SpareIds(byInfo: map<PeerInfo, uint32>, byId: map<uint32, PeerInfo>, next: uint32,
                           peers: set<PeerInfo>, ordered: bool) {
    forall k {:trigger Key(PairDoor, k)} :: Key(PairDoor, k) ==> SpareExactly(byInfo, byId, next, peers, ordered)
  }

  ghost predicate SpareExactly(byInfo: map<PeerInfo, uint32>, byId: map<uint32, PeerInfo>, next: uint32,
                               peers: set<PeerInfo>, ordered: bool) {
    && Room(byId, next, |peers - byInfo.Keys|)
    && (ordered ==> FitsBelow(byId, next, |peers - byInfo.Keys|))
  }

  /** With `k` ids more, all are still below the counter and the counter below its wrap. */
  ghost predicate FitsBelow(byId: map<uint32, PeerInfo>, next: uint32, k: nat) {
    1 <= next && (forall id :: id in byId ==> id < next) && next + k <= LAST_ID
  }

  lemma FitsOneFewer(byId: map<uint32, PeerInfo>, next: uint32, k: nat, peer: PeerInfo)
    requires FitsBelow(byId, next, k) && k > 0
    ensures FitsBelow(byId[next := peer], (next + 1) % U32_LIMIT, k - 1)
  {
    assert (next + 1) % 0x1_0000_0000 == next + 1;
  }

  lemma OpenSpare(byInfo: map<PeerInfo, uint32>, byId: map<uint32, PeerInfo>, next: uint32, peers: set<PeerInfo>,
                  ordered: bool)
    requires SpareIds(byInfo, byId, next, peers, ordered)
    ensures SpareExactly(byInfo, byId, next, peers, ordered)
  {
    assert Key(PairDoor, 0);
  }

  /** Not all 32-bit ids are in use. */
  lemma SpareBounds(registry: PeerRegistry, peers: set<PeerInfo>, ordered: bool)
    requires Spare(registry, peers, ordered)
    ensures |registry.byId| < U32_LIMIT
  {
    OpenSpare(registry.byInfo, registry.byId, registry.nextPeerId, peers, ordered);
  }

  lemma OneFewer<T, V>(all: set<T>, known: map<T, V>, x: T, v: V)
    requires x in all && x !in known
    ensures |all - known.Keys| == |all - known[x := v].Keys| + 1
  {
    assert all - known.Keys == all - known[x := v].Keys + {x};
  }

  lemma SpareOneFewer(byInfo: map<PeerInfo, uint32>, byId: map<uint32, PeerInfo>, next: uint32, peer: PeerInfo,
                      peers: set<PeerInfo>, ordered: bool)
    requires SpareIds(byInfo, byId, next, peers, ordered) && peer in peers && peer !in byInfo
    ensures next !in byId
    ensures SpareIds(byInfo[peer := next], byId[next := peer], (next + 1) % U32_LIMIT, peers, ordered)
  {
    var k := |peers - byInfo.Keys|;
    OpenSpare(byInfo, byId, next, peers, ordered);
    OneFewer(peers, byInfo, peer, next);
    RoomForRest(byId, next, k, peer);
    if ordered {
      FitsOneFewer(byId, next, k, peer);
    }
  }

  /** The peers a message is about; none when it carries no events. */
  ghost function PeersOf(message: Message): set<PeerInfo> {
    set e | e in EventsOf(message) :: e.peer
  }

  /** Closed, see Base.Key. */
  ghost predicate Covers(peers: set<PeerInfo>, message: Message) {
    forall k {:trigger Key(RunDoor, k)} :: Key(RunDoor, k) ==> PeersOf(message) <= peers
  }

  ghost predicate SharePeer(events: seq<ParsedEvent>) {
    forall i :: 0 <= i < |events| ==> events[i].peer == events[0].peer
  }

  /** All events were applied, or those before the first text that is no prefix. */
  ghost predicate StopsAt(c: Inet6, events: seq<ParsedEvent>, applied: nat, failure: Option<PrefixError>) {
    && applied <= |events|
    && (failure == None <==> applied == |events|)
    && (failure.Some? ==> ParsePrefix(c, events[applied].prefix) == Err(failure.value))
  }

  /**
   * The first `applied` of the events took the account from `before` to `after`; closed, see
   * Base.Key.
   */
  ghost predicate Advanced(c: Inet6, before: Account, events: seq<ParsedEvent>, applied: nat,
                           after: Account) {
    forall k {:trigger Key(RunDoor, k)} :: Key(RunDoor, k) ==> AdvancedExactly(c, before, events, applied, after)
  }

  ghost predicate AdvancedExactly(c: Inet6, before: Account, events: seq<ParsedEvent>, applied: nat,
                                  after: Account) {
    && applied <= |events| && AllDecodable(c, events[..applied])
    && after == TookAll(before, DecodeAll(c, events[..applied]))
  }

  lemma OpenAdvanced(c: Inet6, before: Account, events: seq<ParsedEvent>, applied: nat,
                     after: Account)
    requires Advanced(c, before, events, applied, after)
    ensures AdvancedExactly(c, before, events, applied, after)
  {
    assert Key(RunDoor, 0);
  }

  lemma AdvancedByNone(c: Inet6, account: Account, events: seq<ParsedEvent>)
    ensures Advanced(c, account, events, 0, account)
  {}

  lemma DecodedOneMore(c: Inet6, events: seq<ParsedEvent>, n: nat)
    requires n < |events| && AllDecodable(c, events[..n]) && Decodable(c, events[n])
    ensures AllDecodable(c, events[..n + 1])
    ensures DecodeAll(c, events[..n + 1]) == DecodeAll(c, events[..n]) + [Decode(c, events[n])]
  {
    assert events[..n + 1] == events[..n] + [events[n]];
    DecodeConcat(c, events[..n], [events[n]]);
  }

  lemma TookOneMore(a: Account, events: seq<Event>, e: Event)
    ensures TookAll(a, events + [e]) == Took(TookAll(a, events), e)
  {
    assert (events + [e])[..|events|] == events;
  }

  lemma AdvancedByOne(c: Inet6, before: Account, events: seq<ParsedEvent>, applied: nat, account: Account)
    requires Advanced(c, before, events, applied, account)
    requires applied < |events| && Decodable(c, events[applied])
    ensures Advanced(c, before, events, applied + 1, Took(account, Decode(c, events[applied])))
  {
    OpenAdvanced(c, before, events, applied, account);
    DecodedOneMore(c, events, applied);
    TookOneMore(before, DecodeAll(c, events[..applied]), Decode(c, events[applied]));
  }

  /** Where the events stopped; closed, see Base.Key. */
  ghost predicate Halts(c: Inet6, events: seq<ParsedEvent>, applied: nat, failure: Option<PrefixError>) {
    forall k {:trigger Key(RunDoor, k)} :: Key(RunDoor, k) ==> StopsAt(c, events, applied, failure)
  }

  lemma HaltsNowhere(c: Inet6, events: seq<ParsedEvent>, applied: nat, failure: Option<PrefixError>)
    requires applied == |events| && failure == None
    ensures Halts(c, events, applied, failure)
  {}

  lemma EnteredAdvances(c: Inet6, start: Account, events: seq<ParsedEvent>, i: nat, before: Account,
                        failure: Option<PrefixError>, after: Account, next: nat)
    requires Advanced(c, start, events, i, before) && i < |events| && Entered(c, events[i], before, failure, after)
    requires next == if failure == None then i + 1 else i
    ensures Advanced(c, start, events, next, after)
    ensures failure.Some? ==> Halts(c, events, next, failure)
  {
    assert EnteredExactly(c, events[i], before, failure, after) by {
      assert Key(RunDoor, 0);
    }
    if failure == None {
      AdvancedByOne(c, start, events, i, before);
    }
  }

  /**
   * The callback body over the events of one message: the peer is resolved at the first event and
   * its id reused. Stops at the first text that is no prefix.
   */
  method ApplyEvents(c: Inet6, events: seq<ParsedEvent>, ghost start: Account, ghost peers: set<PeerInfo>,
                     ghost ordered: bool, registry: PeerRegistry, state: RoutingState, stats: IngestionStats, growth: GrowthStatsTracker)
    returns (applied: nat, failure: Option<PrefixError>, ghost account: Account)
    requires SharePeer(events) && (events != [] ==> events[0].peer in peers)
    requires Shows(registry, state, growth, start) && Spare(registry, peers, ordered)
    requires Metered(state, stats, growth, 0)
    modifies registry, state, stats`announces, stats`withdraws
    modifies growth`everSeenAsns, growth`everSeenV4, growth`everSeenV6, growth`announces, growth`withdraws
    ensures Shows(registry, state, growth, account) && Metered(state, stats, growth, applied)
    ensures Spare(registry, peers, ordered)
    ensures Halts(c, events, applied, failure) && (failure == None ==> applied == |events|)
    ensures stats.announces + stats.withdraws == old(stats.announces + stats.withdraws) + applied
    ensures Advanced(c, start, events, applied, account)
  {
    applied, failure, account := 0, None, start;
    AdvancedByNone(c, start, events);
    var peerResolved := false;
    var cachedPeerId: uint32 := 0;
    while applied < |events| && failure == None
      invariant Shows(registry, state, growth, account) && Metered(state, stats, growth, applied)
      invariant Spare(registry, peers, ordered) && (!peerResolved ==> applied == 0)
      invariant peerResolved && events != [] ==>
        events[0].peer in registry.byInfo && registry.byInfo[events[0].peer] == cachedPeerId
      invariant stats.announces + stats.withdraws == old(stats.announces + stats.withdraws) + applied
      invariant applied <= |events| && Advanced(c, start, events, applied, account)
      invariant failure.Some? ==> Halts(c, events, applied, failure)
      decreases |events| - applied, failure == None
    {
      if !peerResolved {
        cachedPeerId := ResolvePeer(events[applied].peer, account, peers, ordered, registry, state, growth);
        peerResolved := true;
      }
      ghost var before := account;
      failure, account :=
        ApplyResolvedEvent(c, events[applied], cachedPeerId, applied, account, registry, state, stats, growth);
      var next := if failure == None then applied + 1 else applied;
      EnteredAdvances(c, start, events, applied, before, failure, account, next);
      applied := next;
    }
    if failure == None {
      HaltsNowhere(c, events, applied, failure);
    }
  }

  /** Resolving a peer may hand out an id, which nobody can observe. */
  method ResolvePeer(peer: PeerInfo, ghost account: Account, ghost peers: set<PeerInfo>, ghost ordered: bool,
                     registry: PeerRegistry, ghost state: RoutingState, ghost growth: GrowthStatsTracker)
    returns (id: uint32)
    requires Shows(registry, state, growth, account) && peer in peers && Spare(registry, peers, ordered)
    modifies registry
    ensures Shows(registry, state, growth, account) && Spare(registry, peers, ordered)
    ensures peer in registry.byInfo && registry.byInfo[peer] == id
  {
    OpenShows(registry, state, growth, account);
    ghost var s := SystemOf(registry, state);
    id := HandOut(peer, peers, ordered, registry);
    SpareBounds(registry, peers, ordered);
    WithPeerResolves(s, peer);
    assert SystemOf(registry, state) == WithPeer(s, peer);
  }

  /** The id handed to a new peer is free, and so are those for the peers still unknown. */
  method HandOut(peer: PeerInfo, ghost peers: set<PeerInfo>, ghost ordered: bool, registry: PeerRegistry)
    returns (id: uint32)
    requires MutualInverses(registry.byInfo, registry.byId) && peer in peers && Spare(registry, peers, ordered)
    modifies registry
    ensures Spare(registry, peers, ordered) && peer in registry.byInfo && registry.byInfo[peer] == id
    ensures peer in old(registry.byInfo) || old(registry.nextPeerId) !in old(registry.byId)
    ensures if peer in old(registry.byInfo) then
        registry.byInfo == old(registry.byInfo) && registry.byId == old(registry.byId)
        && registry.nextPeerId == old(registry.nextPeerId)
      else
      && registry.byInfo == old(registry.byInfo)[peer := id] && registry.byId == old(registry.byId)[id := peer]
      && id == old(registry.nextPeerId) && registry.nextPeerId == (id + 1) % U32_LIMIT
  {
    ghost var s := System(registry.byInfo, registry.byId, registry.nextPeerId, map[]);
    if peer !in s.byInfo {
      SpareOneFewer(s.byInfo, s.byId, s.next, peer, peers, ordered);
    }
    id := registry.GetOrAdd(peer);
    assert registry.byInfo == WithPeer(s, peer).byInfo;
    assert registry.byId == WithPeer(s, peer).byId;
    assert registry.nextPeerId == WithPeer(s, peer).next;
  }

  /** The callback's arguments; closed, see Base.Key. */
  ghost predicate Carries(message: Message, events: seq<ParsedEvent>) {
    forall k {:trigger Key(RunDoor, k)} :: Key(RunDoor, k) ==> events == EventsOf(message)
  }

  lemma CarriedPeer(message: Message, events: seq<ParsedEvent>, peers: set<PeerInfo>)
    requires Carries(message, events) && Covers(peers, message)
    ensures events != [] ==> events[0].peer in peers
  {
    assert Key(RunDoor, 0);
    if events != [] {
      assert events[0] in EventsOf(message) && events[0].peer in PeersOf(message);
    }
  }

  method ParseMessage(message: Message) returns (events: seq<ParsedEvent>, emitted: nat)
    ensures Carries(message, events) && emitted == |events| && SharePeer(events)
  {
    events, emitted := ParseRisLiveMessage(message);
    MessageShape(message);
  }

  /** Before a message is parsed it is counted, in both places. */
  method CountMessage(state: RoutingState, stats: IngestionStats, growth: GrowthStatsTracker)
    requires Metered(state, stats, growth, 0)
    modifies stats`rawMessages, growth`rawMessages
    ensures Metered(state, stats, growth, 0) && stats.rawMessages == old(stats.rawMessages) + 1
  {
    OpenMetered(state, stats, growth, 0);
    stats.rawMessages := stats.rawMessages + 1;
    growth.OnMessageReceived();
  }

  /** After the last event of a message: its events are counted and the active counts refreshed. */
  method CloseMessage(emitted: nat, ghost account: Account, registry: PeerRegistry, state: RoutingState,
                      stats: IngestionStats, growth: GrowthStatsTracker)
    requires Shows(registry, state, growth, account) && Metered(state, stats, growth, emitted)
    modifies stats`parsedEvents, stats`ignored, growth`parsedEvents, growth`activeV4, growth`activeV6
    ensures Metered(state, stats, growth, 0)
    ensures stats.ignored == old(stats.ignored) + (if emitted == 0 then 1 else 0)
  {
    CountParsed(emitted, state, stats, growth);
    if emitted == 0 {
      stats.ignored := stats.ignored + 1;
      return;
    }
    OpenShows(registry, state, growth, account);
    RefreshActive(state, stats, growth);
  }

  /** The events of a message move from pending to parsed, in both places. */
  method CountParsed(emitted: nat, ghost state: RoutingState, stats: IngestionStats, growth: GrowthStatsTracker)
    requires Metered(state, stats, growth, emitted)
    modifies stats`parsedEvents, growth`parsedEvents
    ensures AllParsed(stats, growth) && (emitted == 0 ==> Metered(state, stats, growth, 0))
  {
    OpenMetered(state, stats, growth, emitted);
    stats.parsedEvents := stats.parsedEvents + emitted;
    growth.OnParsedEvents(emitted);
  }

  /** What is left of the meters while the active counts may be behind. */
  ghost predicate AllParsed(stats: IngestionStats, growth: GrowthStatsTracker)
    reads stats, growth
  {
    && growth.Valid() && Counted(stats, growth)
    && stats.parsedEvents == stats.announces + stats.withdraws
    && growth.parsedEvents == stats.parsedEvents && growth.rawMessages == stats.rawMessages
  }

  method RefreshActive(state: RoutingState, ghost stats: IngestionStats, growth: GrowthStatsTracker)
    requires state.Valid() && AllParsed(stats, growth)
    modifies growth`activeV4, growth`activeV6
    ensures Metered(state, stats, growth, 0)
  {
    var v4 := state.ActivePrefixesV4Count();
    var v6 := state.ActivePrefixesV6Count();
    growth.SetActivePrefixCounts(v4, v6);
  }

  // ----- What a run of messages amounts to -----

  ghost function FlatMap<A, B>(f: A -> seq<B>, items: seq<A>): seq<B> {
    if items == [] then [] else FlatMap(f, items[..|items| - 1]) + f(items[|items| - 1])
  }

  lemma FlatMapOne<A, B>(f: A -> seq<B>, item: A)
    ensures FlatMap(f, [item]) == f(item)
  {
    assert [item][..0] == [];
  }

  lemma {:induction false} FlatMapConcat<A, B>(f: A -> seq<B>, a: seq<A>, b: seq<A>)
    ensures FlatMap(f, a + b) == FlatMap(f, a) + FlatMap(f, b)
  {
    if b == [] {
      assert a + b == a;
    } else {
      var front := b[..|b| - 1];
      assert (a + b)[..|a + b| - 1] == a + front;
      FlatMapConcat(f, a, front);
    }
  }

  ghost function AllEvents(messages: seq<Message>): seq<ParsedEvent> {
    FlatMap(EventsOf, messages)
  }

  /**
   * The first `applied` events of the messages took the account from `before` to `after`, and
   * they are all of them unless the next one is no prefix; closed, see Base.Key.
   */
  ghost predicate Ran(c: Inet6, before: Account, messages: seq<Message>, applied: nat,
                      failure: Option<PrefixError>, after: Account) {
    forall k {:trigger Key(RunDoor, k)} :: Key(RunDoor, k) ==> RanExactly(c, before, messages, applied, failure, after)
  }

  ghost predicate RanExactly(c: Inet6, before: Account, messages: seq<Message>, applied: nat,
                             failure: Option<PrefixError>, after: Account) {
    && StopsAt(c, AllEvents(messages), applied, failure)
    && AdvancedExactly(c, before, AllEvents(messages), applied, after)
  }

  lemma OpenRan(c: Inet6, before: Account, messages: seq<Message>, applied: nat,
                failure: Option<PrefixError>, after: Account)
    requires Ran(c, before, messages, applied, failure, after)
    ensures RanExactly(c, before, messages, applied, failure, after)
  {
    assert Key(RunDoor, 0);
  }

  lemma RanNone(c: Inet6, account: Account)
    ensures Ran(c, account, [], 0, None, account)
  {}

  lemma RanOneMessage(c: Inet6, message: Message, events: seq<ParsedEvent>, before: Account,
                      applied: nat, failure: Option<PrefixError>, after: Account)
    requires Carries(message, events)
    requires Halts(c, events, applied, failure) && Advanced(c, before, events, applied, after)
    ensures Ran(c, before, [message], applied, failure, after)
  {
    OpenAdvanced(c, before, events, applied, after);
    assert Key(RunDoor, 0);
    FlatMapOne(EventsOf, message);
  }

  lemma AdvancedTwice(c: Inet6, a: Account, first: seq<ParsedEvent>,
                      b: Account, second: seq<ParsedEvent>, n: nat, d: Account,
                      all: seq<ParsedEvent>, total: nat)
    requires all == first + second && total == |first| + n
    requires AdvancedExactly(c, a, first, |first|, b) && AdvancedExactly(c, b, second, n, d)
    ensures AdvancedExactly(c, a, all, total, d)
  {
    assert first[..|first|] == first;
    assert all[..total] == first + second[..n];
    DecodeConcat(c, first, second[..n]);
    TookConcat(a, DecodeAll(c, first), DecodeAll(c, second[..n]));
  }

  lemma StopsLater(c: Inet6, first: seq<ParsedEvent>, second: seq<ParsedEvent>, n: nat, failure: Option<PrefixError>,
                   all: seq<ParsedEvent>, total: nat)
    requires all == first + second && total == |first| + n && StopsAt(c, second, n, failure)
    ensures StopsAt(c, all, total, failure)
  {}

  /** A complete run followed by another run. */
  lemma RanTwice(c: Inet6, a: Account, messages: seq<Message>, applied: nat,
                 b: Account, more: seq<Message>, n: nat, failure: Option<PrefixError>,
                 d: Account, messages': seq<Message>, applied': nat)
    requires Ran(c, a, messages, applied, None, b) && Ran(c, b, more, n, failure, d)
    requires messages' == messages + more && applied' == applied + n
    ensures Ran(c, a, messages', applied', failure, d)
  {
    OpenRan(c, a, messages, applied, None, b);
    OpenRan(c, b, more, n, failure, d);
    var first, second, all := AllEvents(messages), AllEvents(more), AllEvents(messages');
    FlatMapConcat(EventsOf, messages, more);
    AdvancedTwice(c, a, first, b, second, n, d, all, applied');
    StopsLater(c, first, second, n, failure, all, applied');
  }

  /** The events of one message, before they are counted as parsed. */
  method ApplyMessage(c: Inet6, message: Message, ghost start: Account, ghost peers: set<PeerInfo>,
                      ghost ordered: bool,
                      registry: PeerRegistry, state: RoutingState, stats: IngestionStats, growth: GrowthStatsTracker)
    returns (emitted: nat, applied: nat, failure: Option<PrefixError>, ghost account: Account)
    requires Shows(registry, state, growth, start) && Covers(peers, message) && Spare(registry, peers, ordered)
    requires Metered(state, stats, growth, 0)
    modifies registry, state, stats`announces, stats`withdraws
    modifies growth`everSeenAsns, growth`everSeenV4, growth`everSeenV6, growth`announces, growth`withdraws
    ensures Shows(registry, state, growth, account) && Spare(registry, peers, ordered)
    ensures Metered(state, stats, growth, applied) && (failure == None ==> emitted == applied)
    ensures stats.announces + stats.withdraws == old(stats.announces + stats.withdraws) + applied
    ensures Ran(c, start, [message], applied, failure, account)
  {
    var events;
    events, emitted := ParseMessage(message);
    CarriedPeer(message, events, peers);
    applied, failure, account := ApplyEvents(c, events, start, peers, ordered, registry, state, stats, growth);
    RanOneMessage(c, message, events, start, applied, failure, account);
  }

  /** One raw message: counted, parsed, applied up to the first text that is no prefix. */
  method ProcessMessage(c: Inet6, message: Message, ghost start: Account, ghost peers: set<PeerInfo>,
                        ghost ordered: bool,
                        registry: PeerRegistry, state: RoutingState, stats: IngestionStats, growth: GrowthStatsTracker)
    returns (applied: nat, failure: Option<PrefixError>, ghost account: Account)
    requires Shows(registry, state, growth, start) && Covers(peers, message) && Spare(registry, peers, ordered)
    requires Metered(state, stats, growth, 0)
    modifies registry, state, stats
    modifies growth`everSeenAsns, growth`everSeenV4, growth`everSeenV6, growth`announces, growth`withdraws
    modifies growth`rawMessages, growth`parsedEvents, growth`activeV4, growth`activeV6
    ensures Shows(registry, state, growth, account) && Spare(registry, peers, ordered)
    ensures Metered(state, stats, growth, if failure == None then 0 else applied)
    ensures stats.rawMessages == old(stats.rawMessages) + 1
    ensures failure == None ==> stats.ignored == old(stats.ignored) + (if applied == 0 then 1 else 0)
    ensures stats.announces + stats.withdraws == old(stats.announces + stats.withdraws) + applied
    ensures Ran(c, start, [message], applied, failure, account)
  {
    var emitted;
    emitted, applied, failure, account := ReceiveMessage(c, message, start, peers, ordered, registry, state, stats, growth);
    if failure == None {
      CloseMessage(emitted, account, registry, state, stats, growth);
    }
  }

  /** Counted, parsed and applied; its events still pending. */
  method ReceiveMessage(c: Inet6, message: Message, ghost start: Account, ghost peers: set<PeerInfo>,
                        ghost ordered: bool,
                        registry: PeerRegistry, state: RoutingState, stats: IngestionStats, growth: GrowthStatsTracker)
    returns (emitted: nat, applied: nat, failure: Option<PrefixError>, ghost account: Account)
    requires Shows(registry, state, growth, start) && Covers(peers, message) && Spare(registry, peers, ordered)
    requires Metered(state, stats, growth, 0)
    modifies registry, state, stats`announces, stats`withdraws, stats`rawMessages
    modifies growth`everSeenAsns, growth`everSeenV4, growth`everSeenV6, growth`announces, growth`withdraws
    modifies growth`rawMessages
    ensures Shows(registry, state, growth, account) && Spare(registry, peers, ordered)
    ensures Metered(state, stats, growth, applied) && (failure == None ==> emitted == applied)
    ensures stats.rawMessages == old(stats.rawMessages) + 1
    ensures stats.announces + stats.withdraws == old(stats.announces + stats.withdraws) + applied
    ensures Ran(c, start, [message], applied, failure, account)
  {
    CountMessage(state, stats, growth);
    emitted, applied, failure, account := ApplyMessage(c, message, start, peers, ordered, registry, state, stats, growth);
  }

  /** The event names this prefix and this peer. */
  ghost predicate Names(c: Inet6, e: ParsedEvent, p: BinaryPrefix, peer: PeerInfo) {
    ParsePrefix(c, e.prefix) == Ok(p) && e.peer == peer
  }

  /**
   * After a run, what a peer observes for a prefix is what the last of the events naming both says: an
   * announcement its origin and timestamp, a withdrawal nothing; without such an event it is as before.
   */
  lemma LastEventShows(c: Inet6, before: Account, messages: seq<Message>, applied: nat, failure: Option<PrefixError>,
                       after: Account, p: BinaryPrefix, peer: PeerInfo, i: nat)
    requires Ran(c, before, messages, applied, failure, after) && NoEmptyRows(before.view)
    requires applied <= |AllEvents(messages)|
    requires i < applied ==> Names(c, AllEvents(messages)[i], p, peer)
    requires forall j :: i < j < applied ==> !Names(c, AllEvents(messages)[j], p, peer)
    requires i >= applied ==> forall j :: 0 <= j < applied ==> !Names(c, AllEvents(messages)[j], p, peer)
    ensures Lookup(after.view, p, peer) ==
      if i >= applied then Lookup(before.view, p, peer)
      else
        var e := AllEvents(messages)[i];
        if e.eventType == AnnounceEvent then Some(Seen(e.originAsn, e.timestamp)) else None
  {
    OpenRan(c, before, messages, applied, failure, after);
    var events := AllEvents(messages)[..applied];
    var decoded := DecodeAll(c, events);
    TookAllMeans(before, decoded);
    ReplayedLookup(before.view, decoded, p, peer);
    forall j | 0 <= j < applied
      ensures decoded[j].prefix == p && decoded[j].peer == peer <==> Names(c, AllEvents(messages)[j], p, peer)
    {
      assert Decodable(c, events[j]) && decoded[j] == Decode(c, events[j]);
    }
    LastUpdateMeans(decoded, p, peer, i);
  }

  /** After a run, the prefixes seen are those seen before and every prefix named, withdrawn ones included. */
  lemma PrefixesSeen(c: Inet6, before: Account, messages: seq<Message>, applied: nat, failure: Option<PrefixError>,
                     after: Account, p: BinaryPrefix)
    requires Ran(c, before, messages, applied, failure, after) && applied <= |AllEvents(messages)|
    ensures p in after.prefixes <==> p in before.prefixes || IsNamed(c, AllEvents(messages), applied, p)
  {
    OpenRan(c, before, messages, applied, failure, after);
    var events := AllEvents(messages)[..applied];
    var decoded := DecodeAll(c, events);
    TookAllMeans(before, decoded);
    forall j | 0 <= j < applied ensures decoded[j].prefix == p <==> ParsePrefix(c, AllEvents(messages)[j].prefix) == Ok(p) {
      assert decoded[j] == Decode(c, events[j]) && events[j] == AllEvents(messages)[j];
    }
    if e :| e in decoded && e.prefix == p {
      var j :| 0 <= j < applied && decoded[j] == e;
    }
    if j :| 0 <= j < applied && ParsePrefix(c, AllEvents(messages)[j].prefix) == Ok(p) {
      assert decoded[j] in decoded;
    }
  }

  ghost predicate IsNamed(c: Inet6, events: seq<ParsedEvent>, applied: nat, p: BinaryPrefix)
    requires applied <= |events|
  {
    exists i :: 0 <= i < applied && ParsePrefix(c, events[i].prefix) == Ok(p)
  }

  /** The ASNs seen are those seen before and every origin announced. */
  lemma AsnsSeen(c: Inet6, before: Account, messages: seq<Message>, applied: nat, failure: Option<PrefixError>,
                 after: Account, asn: uint32)
    requires Ran(c, before, messages, applied, failure, after) && applied <= |AllEvents(messages)|
    ensures asn in after.asns <==> asn in before.asns || IsAnnounced(AllEvents(messages), applied, asn)
  {
    OpenRan(c, before, messages, applied, failure, after);
    var events := AllEvents(messages)[..applied];
    var decoded := DecodeAll(c, events);
    TookAllMeans(before, decoded);
    forall j | 0 <= j < applied
      ensures asn in NamedAsns(decoded[j].update) <==> Announces(AllEvents(messages)[j], asn)
    {
      assert decoded[j] == Decode(c, events[j]) && events[j] == AllEvents(messages)[j];
    }
    if e :| e in decoded && asn in NamedAsns(e.update) {
      var j :| 0 <= j < applied && decoded[j] == e;
      assert Announces(AllEvents(messages)[j], asn);
    }
    if j :| 0 <= j < applied && Announces(AllEvents(messages)[j], asn) {
      assert decoded[j] in decoded;
    }
  }

  ghost predicate Announces(e: ParsedEvent, asn: uint32) {
    e.eventType == AnnounceEvent && e.originAsn == asn
  }

  ghost predicate IsAnnounced(events: seq<ParsedEvent>, applied: nat, asn: uint32)
    requires applied <= |events|
  {
    exists i :: 0 <= i < applied && Announces(events[i], asn)
  }

  lemma WithdrawnAtLast(c: Inet6, before: Account, events: seq<ParsedEvent>, i: nat)
    requires AllDecodable(c, events) && NoEmptyRows(before.view) && i < |events|
    requires forall j :: i <= j < |events| ==> events[j].eventType == WithdrawEvent
    ensures var e := Decode(c, events[i]); Lookup(TookAll(before, DecodeAll(c, events)).view, e.prefix, e.peer) == None
  {
    var decoded := DecodeAll(c, events);
    WithdrawalsLast(decoded, i);
    TookAllMeans(before, decoded);
    ReplayedLookup(before.view, decoded, decoded[i].prefix, decoded[i].peer);
  }

  /**
   * Announcements of a message are applied before its withdrawals: a prefix withdrawn by a message
   * is not observed by its peer afterwards, even when the same message announces it as well.
   */
  lemma WithdrawalWins(c: Inet6, before: Account, message: Message, applied: nat, after: Account, i: nat)
    requires Ran(c, before, [message], applied, None, after) && NoEmptyRows(before.view)
    requires i < |EventsOf(message)| && EventsOf(message)[i].eventType == WithdrawEvent
    ensures AllDecodable(c, EventsOf(message))
    ensures var e := Decode(c, EventsOf(message)[i]); Lookup(after.view, e.prefix, e.peer) == None
  {
    OpenRan(c, before, [message], applied, None, after);
    FlatMapOne(EventsOf, message);
    assert EventsOf(message)[..applied] == EventsOf(message);
    WithdrawalsStay(message, i);
    WithdrawnAtLast(c, before, EventsOf(message), i);
  }

  // ----- The loop -----

  datatype IngestConfig = IngestConfig(maxMessages: nat, statsEnabled: bool, statsInterval: real)

  /** What the outside world answers during one turn of the loop; no message means the source ended. */
  datatype Tick = Tick(stop: bool, message: Option<Message>, signal: bool,
                       checkedAt: real, sampledAt: real, rearmedAt: real)

  /** The peers the messages of the ticks are about. */
  ghost function TickPeers(ticks: seq<Tick>): set<PeerInfo> {
    set i, peer | 0 <= i < |ticks| && ticks[i].message.Some? && peer in PeersOf(ticks[i].message.value) :: peer
  }

  ghost predicate CoversAll(peers: set<PeerInfo>, ticks: seq<Tick>) {
    forall i :: 0 <= i < |ticks| && ticks[i].message.Some? ==> Covers(peers, ticks[i].message.value)
  }

  lemma TickPeersCover(ticks: seq<Tick>)
    ensures CoversAll(TickPeers(ticks), ticks)
  {
    forall i | 0 <= i < |ticks| && ticks[i].message.Some? ensures Covers(TickPeers(ticks), ticks[i].message.value) {
      assert PeersOf(ticks[i].message.value) <= TickPeers(ticks);
    }
  }

  datatype Outcome = Stopped | SourceEnded | Signalled | LimitReached | StillRunning | Failed(error: PrefixError)

  function FailureOf(outcome: Outcome): Option<PrefixError> {
    if outcome.Failed? then Some(outcome.error) else None
  }

  /** The steady clock: samples are taken in order, between two times; closed, see Base.Key. */
  ghost predicate ClockRuns(from: real, ticks: seq<Tick>, to: real) {
    forall k {:trigger Key(MeterDoor, k)} :: Key(MeterDoor, k) ==> ClockRunsExactly(from, ticks, to)
  }

  ghost predicate ClockRunsExactly(from: real, ticks: seq<Tick>, to: real) {
    && from <= to
    && (forall i :: 0 <= i < |ticks| ==> from <= ticks[i].sampledAt <= to)
    && (forall i, j :: 0 <= i < j < |ticks| ==> ticks[i].sampledAt <= ticks[j].sampledAt)
  }

  lemma ClockStarts(from: real, ticks: seq<Tick>, to: real)
    requires ClockRuns(from, ticks, to)
    ensures from <= to && (ticks != [] ==> from <= ticks[0].sampledAt)
  {
    assert Key(MeterDoor, 0);
  }

  lemma ClockGoesOn(from: real, ticks: seq<Tick>, to: real, i: nat)
    requires ClockRuns(from, ticks, to) && i < |ticks|
    ensures ticks[i].sampledAt <= to && (i + 1 < |ticks| ==> ticks[i].sampledAt <= ticks[i + 1].sampledAt)
  {
    assert Key(MeterDoor, 0);
  }

  function NewPrefixes(samples: seq<GrowthSample>): nat {
    if samples == [] then 0 else NewPrefixes(samples[..|samples| - 1]) + samples[|samples| - 1].newPrefixes
  }

  function NewAsns(samples: seq<GrowthSample>): nat {
    if samples == [] then 0 else NewAsns(samples[..|samples| - 1]) + samples[|samples| - 1].newAsns
  }

  /** One message more: its events extend the run, or the run fails inside it. */
  method TakeMessage(c: Inet6, message: Message, messages: seq<Message>, applied: nat,
                     ghost start: Account, ghost before: Account,
                     ghost peers: set<PeerInfo>, ghost ordered: bool,
                     registry: PeerRegistry, state: RoutingState, stats: IngestionStats, growth: GrowthStatsTracker)
    returns (messages': seq<Message>, applied': nat, failure: Option<PrefixError>, ghost pending: nat,
             ghost account: Account)
    requires Shows(registry, state, growth, before) && Covers(peers, message) && Spare(registry, peers, ordered)
    requires Metered(state, stats, growth, 0) && Ran(c, start, messages, applied, None, before)
    modifies registry, state, stats
    modifies growth`everSeenAsns, growth`everSeenV4, growth`everSeenV6, growth`announces, growth`withdraws
    modifies growth`rawMessages, growth`parsedEvents, growth`activeV4, growth`activeV6
    ensures Shows(registry, state, growth, account) && Spare(registry, peers, ordered)
    ensures Metered(state, stats, growth, pending) && (failure == None ==> pending == 0)
    ensures messages' == messages + [message] && Ran(c, start, messages', applied', failure, account)
    ensures stats.rawMessages == old(stats.rawMessages) + 1
    ensures stats.announces + stats.withdraws == old(stats.announces + stats.withdraws) + applied' - applied
  {
    var appliedNow;
    appliedNow, failure, account := ProcessMessage(c, message, before, peers, ordered, registry, state, stats, growth);
    messages' := messages + [message];
    applied' := applied + appliedNow;
    pending := if failure == None then 0 else appliedNow;
    RanTwice(c, start, messages, applied, before, [message], appliedNow, failure, account, messages', applied');
  }

  ghost function Moments(samples: seq<GrowthSample>): (moments: seq<Moment>)
    ensures |moments| == |samples|
    ensures forall i :: 0 <= i < |samples| ==> moments[i] == Moment(samples[i].newPrefixesPerSec, samples[i].uptime)
  {
    seq(|samples|, i requires 0 <= i < |samples| => Moment(samples[i].newPrefixesPerSec, samples[i].uptime))
  }

  /** The uptime of the last sample, zero before the first. */
  ghost function LastUptime(samples: seq<GrowthSample>): real {
    if samples == [] then 0.0 else samples[|samples| - 1].uptime
  }

  /** Since the sample before it, each sample's rates times the time passed are its deltas. */
  ghost predicate RatesFit(samples: seq<GrowthSample>) {
    forall i :: 0 <= i < |samples| ==> RateFits(samples[i], LastUptime(samples[..i]))
  }

  ghost predicate RateFits(sample: GrowthSample, before: real) {
    if sample.uptime > before then
      && sample.newPrefixesPerSec * (sample.uptime - before) == sample.newPrefixes as real
      && sample.newAsnsPerSec * (sample.uptime - before) == sample.newAsns as real
    else
      sample.uptime == before && sample.newPrefixesPerSec == sample.newAsnsPerSec == 0.0
  }

  lemma RatesOverInterval(sample: GrowthSample, before: real, interval: real)
    requires interval == sample.uptime - before >= 0.0
    requires interval > 0.0 ==> sample.newPrefixesPerSec * interval == sample.newPrefixes as real
    requires interval > 0.0 ==> sample.newAsnsPerSec * interval == sample.newAsns as real
    requires interval == 0.0 ==> sample.newPrefixesPerSec == sample.newAsnsPerSec == 0.0
    ensures RateFits(sample, before)
  {}

  /** When the samples were taken. */
  ghost function TimesOf(startedAt: real, samples: seq<GrowthSample>): (times: seq<real>)
    ensures |times| == |samples| && forall i :: 0 <= i < |samples| ==> times[i] == startedAt + samples[i].uptime
  {
    seq(|samples|, i requires 0 <= i < |samples| => startedAt + samples[i].uptime)
  }

  lemma OneMoreTime(startedAt: real, samples: seq<GrowthSample>, sample: GrowthSample)
    ensures TimesOf(startedAt, samples + [sample]) == TimesOf(startedAt, samples) + [startedAt + sample.uptime]
    ensures LastUptime(samples + [sample]) == sample.uptime
  {}

  lemma OneMoreRate(samples: seq<GrowthSample>, sample: GrowthSample)
    requires RatesFit(samples) && RateFits(sample, LastUptime(samples))
    ensures RatesFit(samples + [sample])
  {
    var more := samples + [sample];
    forall i | 0 <= i < |more| ensures RateFits(more[i], LastUptime(more[..i])) {
      if i < |samples| {
        assert more[..i] == samples[..i];
      } else {
        assert more[..i] == samples;
      }
    }
  }

  /** The tracker's history and the deltas it reported are those of the samples; closed, see Base.Key. */
  ghost predicate Recorded(growth: GrowthStatsTracker, samples: seq<GrowthSample>)
    reads growth`history, growth`reportedAsns, growth`reportedPrefixes, growth`lastSampleAt
  {
    IsRecord(growth.history, growth.reportedAsns, growth.reportedPrefixes, growth.startedAt, growth.lastSampleAt, samples)
  }

  ghost predicate IsRecord(history: seq<Moment>, asns: nat, prefixes: nat, startedAt: real, lastAt: real,
                           samples: seq<GrowthSample>) {
    forall k {:trigger Key(MeterDoor, k)} :: Key(MeterDoor, k) ==>
      IsExactRecord(history, asns, prefixes, startedAt, lastAt, samples)
  }

  ghost predicate IsExactRecord(history: seq<Moment>, asns: nat, prefixes: nat, startedAt: real, lastAt: real,
                                samples: seq<GrowthSample>) {
    && history == Moments(samples)
    && RatesFit(samples) && lastAt == startedAt + LastUptime(samples)
    && asns == NewAsns(samples) && prefixes == NewPrefixes(samples)
  }

  lemma RecordOneMore(history: seq<Moment>, asns: nat, prefixes: nat, startedAt: real, lastAt: real,
                      samples: seq<GrowthSample>, sample: GrowthSample, now: real)
    requires IsRecord(history, asns, prefixes, startedAt, lastAt, samples)
    requires sample.uptime == now - startedAt && RateFits(sample, lastAt - startedAt)
    ensures IsRecord(history + [Moment(sample.newPrefixesPerSec, sample.uptime)], asns + sample.newAsns,
                     prefixes + sample.newPrefixes, startedAt, now, samples + [sample])
    ensures TimesOf(startedAt, samples + [sample]) == TimesOf(startedAt, samples) + [now]
    ensures NewAsns(samples + [sample]) == asns + sample.newAsns
    ensures NewPrefixes(samples + [sample]) == prefixes + sample.newPrefixes
  {
    assert Key(MeterDoor, 0);
    OneMoreSample(samples, sample);
    OneMoreTime(startedAt, samples, sample);
    OneMoreRate(samples, sample);
  }

  lemma OpenRecorded(growth: GrowthStatsTracker, samples: seq<GrowthSample>)
    requires Recorded(growth, samples)
    ensures growth.history == Moments(samples) && RatesFit(samples)
  {
    assert Key(MeterDoor, 0);
  }

  lemma OneMoreSample(samples: seq<GrowthSample>, sample: GrowthSample)
    ensures Moments(samples + [sample]) == Moments(samples) + [Moment(sample.newPrefixesPerSec, sample.uptime)]
    ensures NewAsns(samples + [sample]) == NewAsns(samples) + sample.newAsns
    ensures NewPrefixes(samples + [sample]) == NewPrefixes(samples) + sample.newPrefixes
  {
    assert (samples + [sample])[..|samples|] == samples;
  }

  /** A sample leaves the meters alone, and all deltas so far are the growth since seeding. */
  method MeteredSample(now: real, ghost state: RoutingState, ghost stats: IngestionStats, growth: GrowthStatsTracker)
    returns (sample: GrowthSample)
    requires Metered(state, stats, growth, 0) && growth.lastSampleAt <= now
    modifies growth`lastSampleAsns, growth`lastSamplePrefixes, growth`lastSampleAt, growth`recentRates,
      growth`recentSum, growth`plateauDetected, growth`plateauUptime, growth`detectedOnLastSample, growth`history,
      growth`reportedAsns, growth`reportedPrefixes
    ensures Metered(state, stats, growth, 0) && growth.lastSampleAt == now
    ensures growth.history == old(growth.history) + [Moment(sample.newPrefixesPerSec, sample.uptime)]
    ensures growth.reportedAsns == old(growth.reportedAsns) + sample.newAsns == |growth.everSeenAsns| - growth.seededAsns
    ensures growth.reportedPrefixes == old(growth.reportedPrefixes) + sample.newPrefixes
    ensures growth.reportedPrefixes == |growth.EverSeen()| - growth.seededPrefixes
    ensures sample.uptime == now - growth.startedAt && RateFits(sample, old(growth.lastSampleAt) - growth.startedAt)
  {
    OpenMetered(state, stats, growth, 0);
    ghost var lastAt := growth.lastSampleAt;
    sample := growth.SampleNow(now);
    RatesOverInterval(sample, lastAt - growth.startedAt, now - lastAt);
    growth.DeltasAddUp();
  }

  /** One sample, taken and recorded. */
  method TakeSample(now: real, samples: seq<GrowthSample>, ghost state: RoutingState, ghost stats: IngestionStats,
                    growth: GrowthStatsTracker)
    returns (samples': seq<GrowthSample>)
    requires Metered(state, stats, growth, 0) && growth.lastSampleAt <= now && Recorded(growth, samples)
    modifies growth`lastSampleAsns, growth`lastSamplePrefixes, growth`lastSampleAt, growth`recentRates,
      growth`recentSum, growth`plateauDetected, growth`plateauUptime, growth`detectedOnLastSample, growth`history,
      growth`reportedAsns, growth`reportedPrefixes
    ensures Metered(state, stats, growth, 0) && growth.lastSampleAt == now && Recorded(growth, samples')
    ensures TimesOf(growth.startedAt, samples') == TimesOf(growth.startedAt, samples) + [now]
    ensures NewAsns(samples') == |growth.everSeenAsns| - growth.seededAsns
    ensures NewPrefixes(samples') == |growth.EverSeen()| - growth.seededPrefixes
  {
    ghost var history, asns, prefixes, lastAt := growth.history, growth.reportedAsns, growth.reportedPrefixes, growth.lastSampleAt;
    var sample := MeteredSample(now, state, stats, growth);
    samples' := samples + [sample];
    RecordOneMore(history, asns, prefixes, growth.startedAt, lastAt, samples, sample, now);
  }

  /** When samples were taken, and when the next one is due. */
  datatype Sampling = Sampling(times: seq<real>, nextAt: real)

  ghost function Sampled(cfg: IngestConfig, sampling: Sampling, tick: Tick): Sampling {
    if cfg.statsEnabled && tick.checkedAt >= sampling.nextAt
    then Sampling(sampling.times + [tick.sampledAt], tick.rearmedAt + cfg.statsInterval)
    else sampling
  }

  /** The samples due over completed turns. */
  ghost function Schedule(cfg: IngestConfig, firstSampleAt: real, ticks: seq<Tick>): Sampling {
    if ticks == [] then Sampling([], firstSampleAt)
    else Sampled(cfg, Schedule(cfg, firstSampleAt, ticks[..|ticks| - 1]), ticks[|ticks| - 1])
  }

  /** The turn of tick `i` takes a sample. */
  ghost predicate SampledAt(cfg: IngestConfig, firstSampleAt: real, ticks: seq<Tick>, i: nat)
    requires i < |ticks|
  {
    Schedule(cfg, firstSampleAt, ticks[..i + 1]).times == Schedule(cfg, firstSampleAt, ticks[..i]).times + [ticks[i].sampledAt]
  }

  /** The time the next sample is due after `n` turns. */
  lemma {:induction false} NextDue(cfg: IngestConfig, firstSampleAt: real, ticks: seq<Tick>, n: nat, last: int)
    requires n <= |ticks| && -1 <= last < n && (last >= 0 ==> SampledAt(cfg, firstSampleAt, ticks, last))
    requires forall i :: last < i < n ==> !SampledAt(cfg, firstSampleAt, ticks, i)
    ensures Schedule(cfg, firstSampleAt, ticks[..n]).nextAt
         == if last < 0 then firstSampleAt else ticks[last].rearmedAt + cfg.statsInterval
  {
    if n == 0 {
      assert ticks[..0] == [];
    } else {
      ScheduleOneMore(cfg, firstSampleAt, ticks, n - 1);
      if last < n - 1 {
        assert !SampledAt(cfg, firstSampleAt, ticks, n - 1);
        NextDue(cfg, firstSampleAt, ticks, n - 1, last);
      } else {
        assert SampledAt(cfg, firstSampleAt, ticks, n - 1);
      }
    }
  }

  /**
   * A turn takes a sample exactly when statistics are on and its clock has passed the first sampling
   * time, or the interval after the latest sample.
   */
  lemma SampleTimes(cfg: IngestConfig, firstSampleAt: real, ticks: seq<Tick>, i: nat, last: int)
    requires i < |ticks| && -1 <= last < i && (last >= 0 ==> SampledAt(cfg, firstSampleAt, ticks, last))
    requires forall k :: last < k < i ==> !SampledAt(cfg, firstSampleAt, ticks, k)
    ensures SampledAt(cfg, firstSampleAt, ticks, i) <==>
      && cfg.statsEnabled
      && ticks[i].checkedAt >= if last < 0 then firstSampleAt else ticks[last].rearmedAt + cfg.statsInterval
  {
    NextDue(cfg, firstSampleAt, ticks, i, last);
    ScheduleOneMore(cfg, firstSampleAt, ticks, i);
  }

  /** The sampling times are those turns' own, in order. */
  lemma SamplesInOrder(cfg: IngestConfig, firstSampleAt: real, ticks: seq<Tick>, i: nat)
    requires i < |ticks|
    ensures Schedule(cfg, firstSampleAt, ticks[..0]).times == []
    ensures Schedule(cfg, firstSampleAt, ticks[..i + 1]).times
         == Schedule(cfg, firstSampleAt, ticks[..i]).times
          + if SampledAt(cfg, firstSampleAt, ticks, i) then [ticks[i].sampledAt] else []
  {
    assert ticks[..0] == [];
    ScheduleOneMore(cfg, firstSampleAt, ticks, i);
  }

  /** The periodic sample, when the clock says it is due. */
  method SampleIfDue(cfg: IngestConfig, tick: Tick, nextSampleAt: real, samples: seq<GrowthSample>,
                     ghost state: RoutingState, ghost stats: IngestionStats, growth: GrowthStatsTracker)
    returns (nextSampleAt': real, samples': seq<GrowthSample>)
    requires Metered(state, stats, growth, 0) && growth.lastSampleAt <= tick.sampledAt && Recorded(growth, samples)
    modifies growth`lastSampleAsns, growth`lastSamplePrefixes, growth`lastSampleAt, growth`recentRates,
      growth`recentSum, growth`plateauDetected, growth`plateauUptime, growth`detectedOnLastSample, growth`history,
      growth`reportedAsns, growth`reportedPrefixes
    ensures Metered(state, stats, growth, 0) && growth.lastSampleAt <= tick.sampledAt && Recorded(growth, samples')
    ensures Sampling(TimesOf(growth.startedAt, samples'), nextSampleAt') == Sampled(cfg, Sampling(TimesOf(growth.startedAt, samples), nextSampleAt), tick)
  {
    nextSampleAt', samples' := nextSampleAt, samples;
    if cfg.statsEnabled && tick.checkedAt >= nextSampleAt {
      samples' := TakeSample(tick.sampledAt, samples, state, stats, growth);
      nextSampleAt' := tick.rearmedAt + cfg.statsInterval;
    }
  }

  /** How a turn ends: the tests are made in this order, and a message taken is the tick's own. */
  predicate TurnEnds(cfg: IngestConfig, tick: Tick, messages: seq<Message>, messages': seq<Message>, rawMessages: nat,
                     outcome: Outcome) {
    if tick.stop then outcome == Stopped && messages' == messages
    else if tick.message == None then outcome == SourceEnded && messages' == messages
    else if tick.signal then outcome == Signalled && messages' == messages
    else
      && messages' == messages + [tick.message.value]
      && (outcome.Failed? || outcome == if LimitHit(cfg, rawMessages) then LimitReached else StillRunning)
  }

  /** A turn is completed when it took a message that did not fail. */
  predicate Completes(messages: seq<Message>, messages': seq<Message>, outcome: Outcome) {
    |messages'| > |messages| && !outcome.Failed?
  }

  predicate LimitHit(cfg: IngestConfig, rawMessages: nat) {
    cfg.maxMessages != 0 && rawMessages >= cfg.maxMessages
  }

  /**
   * How the loop ends: the messages taken are those of the first ticks, none of which asked to
   * stop, none but the last of which reached the limit, and the loop was left at the first tick that
   * asked to stop, at the limit, or at a failure.
   */
  ghost predicate LoopEnds(cfg: IngestConfig, ticks: seq<Tick>, messages: seq<Message>, rawMessages: nat, outcome: Outcome) {
    var n := |messages|;
    && n <= |ticks|
    && (forall j :: 0 <= j < n ==> ticks[j].message == Some(messages[j]) && !ticks[j].stop && !ticks[j].signal)
    && (n > 1 && cfg.maxMessages != 0 ==> rawMessages <= cfg.maxMessages)
    && (n > 0 && outcome in {Stopped, SourceEnded, Signalled} ==> (cfg.maxMessages == 0 || rawMessages < cfg.maxMessages))
    && match outcome
       case StillRunning => n == |ticks| && (n > 0 ==> (cfg.maxMessages == 0 || rawMessages < cfg.maxMessages))
       case LimitReached => n > 0 && cfg.maxMessages != 0 && rawMessages >= cfg.maxMessages
       case Stopped => n < |ticks| && ticks[n].stop
       case SourceEnded => n < |ticks| && !ticks[n].stop && ticks[n].message == None
       case Signalled => n < |ticks| && !ticks[n].stop && ticks[n].message.Some? && ticks[n].signal
       case Failed(_) => n > 0
  }

  /** One turn of the loop; anything but StillRunning leaves it. */
  method Turn(c: Inet6, cfg: IngestConfig, tick: Tick, messages: seq<Message>, applied: nat, nextSampleAt: real,
              samples: seq<GrowthSample>, ghost start: Account, ghost before: Account,
              ghost peers: set<PeerInfo>, ghost ordered: bool,
              registry: PeerRegistry, state: RoutingState, stats: IngestionStats, growth: GrowthStatsTracker)
    returns (outcome: Outcome, messages': seq<Message>, applied': nat, nextSampleAt': real, samples': seq<GrowthSample>,
             ghost pending: nat, ghost account: Account)
    requires Shows(registry, state, growth, before) && Spare(registry, peers, ordered)
    requires tick.message.Some? ==> Covers(peers, tick.message.value)
    requires Metered(state, stats, growth, 0) && growth.lastSampleAt <= tick.sampledAt && Recorded(growth, samples)
    requires Ran(c, start, messages, applied, None, before)
    modifies registry, state, stats
    modifies growth`everSeenAsns, growth`everSeenV4, growth`everSeenV6, growth`announces, growth`withdraws
    modifies growth`rawMessages, growth`parsedEvents, growth`activeV4, growth`activeV6
    modifies growth`lastSampleAsns, growth`lastSamplePrefixes, growth`lastSampleAt, growth`recentRates,
      growth`recentSum, growth`plateauDetected, growth`plateauUptime, growth`detectedOnLastSample, growth`history,
      growth`reportedAsns, growth`reportedPrefixes
    ensures Shows(registry, state, growth, account) && Spare(registry, peers, ordered)
    ensures Metered(state, stats, growth, pending) && (outcome.Failed? || pending == 0)
    ensures growth.lastSampleAt <= tick.sampledAt && Recorded(growth, samples')
    ensures TurnEnds(cfg, tick, messages, messages', stats.rawMessages, outcome)
    ensures Sampling(TimesOf(growth.startedAt, samples'), nextSampleAt') == if Completes(messages, messages', outcome)
      then Sampled(cfg, Sampling(TimesOf(growth.startedAt, samples), nextSampleAt), tick) else Sampling(TimesOf(growth.startedAt, samples), nextSampleAt)
    ensures Ran(c, start, messages', applied', FailureOf(outcome), account)
    ensures stats.rawMessages == old(stats.rawMessages) + |messages'| - |messages|
    ensures stats.announces + stats.withdraws == old(stats.announces + stats.withdraws) + applied' - applied
  {
    messages', applied', nextSampleAt', samples', pending, account := messages, applied, nextSampleAt, samples, 0, before;
    if tick.stop {
      outcome := Stopped;
    } else if tick.message == None {
      outcome := SourceEnded;
    } else if tick.signal {
      outcome := Signalled;
    } else {
      outcome, messages', applied', nextSampleAt', samples', pending, account := MessageTurn(c, cfg, tick, messages, applied,
        nextSampleAt, samples, start, before, peers, ordered, registry, state, stats, growth);
    }
  }

  /** A turn that takes its message. */
  method MessageTurn(c: Inet6, cfg: IngestConfig, tick: Tick, messages: seq<Message>, applied: nat, nextSampleAt: real,
                     samples: seq<GrowthSample>, ghost start: Account, ghost before: Account,
                     ghost peers: set<PeerInfo>, ghost ordered: bool,
                     registry: PeerRegistry, state: RoutingState, stats: IngestionStats, growth: GrowthStatsTracker)
    returns (outcome: Outcome, messages': seq<Message>, applied': nat, nextSampleAt': real, samples': seq<GrowthSample>,
             ghost pending: nat, ghost account: Account)
    requires Shows(registry, state, growth, before) && Spare(registry, peers, ordered)
    requires tick.message.Some? && Covers(peers, tick.message.value)
    requires Metered(state, stats, growth, 0) && growth.lastSampleAt <= tick.sampledAt && Recorded(growth, samples)
    requires Ran(c, start, messages, applied, None, before)
    modifies registry, state, stats
    modifies growth`everSeenAsns, growth`everSeenV4, growth`everSeenV6, growth`announces, growth`withdraws
    modifies growth`rawMessages, growth`parsedEvents, growth`activeV4, growth`activeV6
    modifies growth`lastSampleAsns, growth`lastSamplePrefixes, growth`lastSampleAt, growth`recentRates,
      growth`recentSum, growth`plateauDetected, growth`plateauUptime, growth`detectedOnLastSample, growth`history,
      growth`reportedAsns, growth`reportedPrefixes
    ensures Shows(registry, state, growth, account) && Spare(registry, peers, ordered)
    ensures Metered(state, stats, growth, pending) && (outcome.Failed? || pending == 0)
    ensures growth.lastSampleAt <= tick.sampledAt && Recorded(growth, samples')
    ensures messages' == messages + [tick.message.value]
    ensures outcome.Failed? || outcome == if LimitHit(cfg, stats.rawMessages) then LimitReached else StillRunning
    ensures Sampling(TimesOf(growth.startedAt, samples'), nextSampleAt') == if outcome.Failed? then Sampling(TimesOf(growth.startedAt, samples), nextSampleAt)
      else Sampled(cfg, Sampling(TimesOf(growth.startedAt, samples), nextSampleAt), tick)
    ensures Ran(c, start, messages', applied', FailureOf(outcome), account)
    ensures stats.rawMessages == old(stats.rawMessages) + 1
    ensures stats.announces + stats.withdraws == old(stats.announces + stats.withdraws) + applied' - applied
  {
    nextSampleAt', samples' := nextSampleAt, samples;
    var failure;
    messages', applied', failure, pending, account :=
      TakeMessage(c, tick.message.value, messages, applied, start, before, peers, ordered, registry, state, stats, growth);
    if failure.Some? {
      outcome := Failed(failure.value);
    } else {
      nextSampleAt', samples' := SampleIfDue(cfg, tick, nextSampleAt, samples, state, stats, growth);
      outcome := if cfg.maxMessages != 0 && stats.rawMessages >= cfg.maxMessages then LimitReached else StillRunning;
    }
  }

  /** The turns that were completed. */
  ghost function Completed(messages: seq<Message>, outcome: Outcome): nat {
    if outcome.Failed? && messages != [] then |messages| - 1 else |messages|
  }

  lemma ScheduleOneMore(cfg: IngestConfig, firstSampleAt: real, ticks: seq<Tick>, i: nat)
    requires i < |ticks|
    ensures Schedule(cfg, firstSampleAt, ticks[..i + 1]) == Sampled(cfg, Schedule(cfg, firstSampleAt, ticks[..i]), ticks[i])
  {
    assert ticks[..i + 1][..i] == ticks[..i];
  }

  lemma LoopEndsOneMore(cfg: IngestConfig, ticks: seq<Tick>, i: nat, messages: seq<Message>, messages': seq<Message>,
                        before: nat, rawMessages: nat, outcome: Outcome)
    requires i < |ticks| && LoopEnds(cfg, ticks[..i], messages, before, StillRunning)
    requires TurnEnds(cfg, ticks[i], messages, messages', rawMessages, outcome)
    requires rawMessages == before + |messages'| - |messages|
    ensures LoopEnds(cfg, ticks[..i + 1], messages', rawMessages, outcome)
  {
    assert ticks[..i + 1] == ticks[..i] + [ticks[i]];
  }

  /** Where the loop stands after `i` turns: how it would end here, and the samples due so far; closed, see Base.Key. */
  ghost predicate LoopAt(cfg: IngestConfig, firstSampleAt: real, ticks: seq<Tick>, i: nat, messages: seq<Message>,
                         rawMessages: nat, outcome: Outcome, sampling: Sampling) {
    forall k {:trigger Key(RunDoor, k)} :: Key(RunDoor, k) ==>
      LoopAtExactly(cfg, firstSampleAt, ticks, i, messages, rawMessages, outcome, sampling)
  }

  ghost predicate LoopAtExactly(cfg: IngestConfig, firstSampleAt: real, ticks: seq<Tick>, i: nat, messages: seq<Message>,
                                rawMessages: nat, outcome: Outcome, sampling: Sampling) {
    && i <= |ticks| && LoopEnds(cfg, ticks[..i], messages, rawMessages, outcome)
    && sampling == Schedule(cfg, firstSampleAt, ticks[..Completed(messages, outcome)])
  }

  lemma LoopStarts(cfg: IngestConfig, firstSampleAt: real, ticks: seq<Tick>, rawMessages: nat)
    ensures LoopAt(cfg, firstSampleAt, ticks, 0, [], rawMessages, StillRunning, Sampling([], firstSampleAt))
  {
    assert ticks[..0] == [];
  }

  lemma LoopGoesOn(cfg: IngestConfig, firstSampleAt: real, ticks: seq<Tick>, i: nat, messages: seq<Message>,
                   messages': seq<Message>, before: nat, rawMessages: nat, outcome: Outcome, sampling: Sampling,
                   sampling': Sampling)
    requires i < |ticks| && LoopAt(cfg, firstSampleAt, ticks, i, messages, before, StillRunning, sampling)
    requires TurnEnds(cfg, ticks[i], messages, messages', rawMessages, outcome)
    requires rawMessages == before + |messages'| - |messages|
    requires sampling' == if Completes(messages, messages', outcome) then Sampled(cfg, sampling, ticks[i]) else sampling
    ensures LoopAt(cfg, firstSampleAt, ticks, i + 1, messages', rawMessages, outcome, sampling')
  {
    assert LoopAtExactly(cfg, firstSampleAt, ticks, i, messages, before, StillRunning, sampling) by {
      assert Key(RunDoor, 0);
    }
    LoopEndsOneMore(cfg, ticks, i, messages, messages', before, rawMessages, outcome);
    ScheduleOneMore(cfg, firstSampleAt, ticks, i);
  }

  lemma LoopDone(cfg: IngestConfig, firstSampleAt: real, ticks: seq<Tick>, i: nat, messages: seq<Message>,
                 rawMessages: nat, outcome: Outcome, sampling: Sampling)
    requires LoopAt(cfg, firstSampleAt, ticks, i, messages, rawMessages, outcome, sampling)
    requires i == |ticks| || outcome != StillRunning
    ensures LoopEnds(cfg, ticks, messages, rawMessages, outcome)
    ensures sampling == Schedule(cfg, firstSampleAt, ticks[..Completed(messages, outcome)])
  {
    assert LoopAtExactly(cfg, firstSampleAt, ticks, i, messages, rawMessages, outcome, sampling) by {
      assert Key(RunDoor, 0);
    }
    if i == |ticks| {
      assert ticks[..i] == ticks;
    }
  }

  /** The turn of tick `i` takes the loop from where it stood to where it stands after it. */
  method NextTurn(c: Inet6, cfg: IngestConfig, ticks: seq<Tick>, ghost firstSampleAt: real, i: nat,
                  messages: seq<Message>, applied: nat, nextSampleAt: real, samples: seq<GrowthSample>,
                  ghost start: Account, ghost before: Account, ghost peers: set<PeerInfo>, ghost ordered: bool,
                  registry: PeerRegistry, state: RoutingState, stats: IngestionStats, growth: GrowthStatsTracker)
    returns (outcome: Outcome, messages': seq<Message>, applied': nat, nextSampleAt': real, samples': seq<GrowthSample>,
             ghost pending: nat, ghost account: Account)
    requires Shows(registry, state, growth, before) && CoversAll(peers, ticks) && Spare(registry, peers, ordered)
    requires i < |ticks| && LoopAt(cfg, firstSampleAt, ticks, i, messages, stats.rawMessages, StillRunning,
                                   Sampling(TimesOf(growth.startedAt, samples), nextSampleAt))
    requires Metered(state, stats, growth, 0) && growth.lastSampleAt <= ticks[i].sampledAt && Recorded(growth, samples)
    requires Ran(c, start, messages, applied, None, before)
    modifies registry, state, stats
    modifies growth`everSeenAsns, growth`everSeenV4, growth`everSeenV6, growth`announces, growth`withdraws
    modifies growth`rawMessages, growth`parsedEvents, growth`activeV4, growth`activeV6
    modifies growth`lastSampleAsns, growth`lastSamplePrefixes, growth`lastSampleAt, growth`recentRates,
      growth`recentSum, growth`plateauDetected, growth`plateauUptime, growth`detectedOnLastSample, growth`history,
      growth`reportedAsns, growth`reportedPrefixes
    ensures Shows(registry, state, growth, account) && Spare(registry, peers, ordered)
    ensures Metered(state, stats, growth, pending) && (outcome.Failed? || pending == 0)
    ensures growth.lastSampleAt <= ticks[i].sampledAt && Recorded(growth, samples')
    ensures LoopAt(cfg, firstSampleAt, ticks, i + 1, messages', stats.rawMessages, outcome,
                   Sampling(TimesOf(growth.startedAt, samples'), nextSampleAt'))
    ensures Ran(c, start, messages', applied', FailureOf(outcome), account)
    ensures stats.rawMessages == old(stats.rawMessages) + |messages'| - |messages|
    ensures stats.announces + stats.withdraws == old(stats.announces + stats.withdraws) + applied' - applied
  {
    ghost var rawBefore := stats.rawMessages;
    outcome, messages', applied', nextSampleAt', samples', pending, account := Turn(c, cfg, ticks[i], messages, applied,
      nextSampleAt, samples, start, before, peers, ordered, registry, state, stats, growth);
    LoopGoesOn(cfg, firstSampleAt, ticks, i, messages, messages', rawBefore, stats.rawMessages, outcome,
               Sampling(TimesOf(growth.startedAt, samples), nextSampleAt), Sampling(TimesOf(growth.startedAt, samples'), nextSampleAt'));
  }

  /** Turns until one leaves the loop or there are no more ticks. */
  method TakeTurns(c: Inet6, cfg: IngestConfig, ticks: seq<Tick>, firstSampleAt: real, ghost endTime: real,
                   ghost start: Account, ghost peers: set<PeerInfo>, ghost ordered: bool,
                   registry: PeerRegistry, state: RoutingState, stats: IngestionStats, growth: GrowthStatsTracker)
    returns (outcome: Outcome, messages: seq<Message>, applied: nat, samples: seq<GrowthSample>,
             ghost pending: nat, ghost account: Account, turns: nat,
             nextSampleAt: real)
    requires Shows(registry, state, growth, start) && CoversAll(peers, ticks) && Spare(registry, peers, ordered)
    requires Metered(state, stats, growth, 0) && ClockRuns(growth.lastSampleAt, ticks, endTime)
    requires Recorded(growth, [])
    modifies registry, state, stats
    modifies growth`everSeenAsns, growth`everSeenV4, growth`everSeenV6, growth`announces, growth`withdraws
    modifies growth`rawMessages, growth`parsedEvents, growth`activeV4, growth`activeV6
    modifies growth`lastSampleAsns, growth`lastSamplePrefixes, growth`lastSampleAt, growth`recentRates,
      growth`recentSum, growth`plateauDetected, growth`plateauUptime, growth`detectedOnLastSample, growth`history,
      growth`reportedAsns, growth`reportedPrefixes
    ensures Shows(registry, state, growth, account) && Spare(registry, peers, ordered)
    ensures Metered(state, stats, growth, pending) && (outcome.Failed? || pending == 0)
    ensures growth.lastSampleAt <= endTime && Recorded(growth, samples)
    ensures turns == |ticks| || outcome != StillRunning
    ensures LoopAt(cfg, firstSampleAt, ticks, turns, messages, stats.rawMessages, outcome,
                   Sampling(TimesOf(growth.startedAt, samples), nextSampleAt))
    ensures stats.rawMessages == old(stats.rawMessages) + |messages|
    ensures stats.announces + stats.withdraws == old(stats.announces + stats.withdraws) + applied
    ensures Ran(c, start, messages, applied, FailureOf(outcome), account)
  {
    nextSampleAt := firstSampleAt;
    messages, applied, samples, pending, account := [], 0, [], 0, start;
    RanNone(c, start);
    outcome := StillRunning;
    turns := 0;
    LoopStarts(cfg, firstSampleAt, ticks, stats.rawMessages);
    ghost var from := growth.lastSampleAt;
    ClockStarts(from, ticks, endTime);
    while turns < |ticks| && outcome == StillRunning
      invariant Shows(registry, state, growth, account) && turns <= |ticks| && Spare(registry, peers, ordered)
      invariant Metered(state, stats, growth, pending) && (outcome.Failed? || pending == 0)
      invariant LoopAt(cfg, firstSampleAt, ticks, turns, messages, stats.rawMessages, outcome,
                       Sampling(TimesOf(growth.startedAt, samples), nextSampleAt))
      invariant growth.lastSampleAt <= endTime && Recorded(growth, samples)
      invariant turns < |ticks| ==> growth.lastSampleAt <= ticks[turns].sampledAt
      invariant Ran(c, start, messages, applied, FailureOf(outcome), account)
      invariant stats.rawMessages == old(stats.rawMessages) + |messages|
      invariant stats.announces + stats.withdraws == old(stats.announces + stats.withdraws) + applied
    {
      outcome, messages, applied, nextSampleAt, samples, pending, account := NextTurn(c, cfg, ticks, firstSampleAt, turns,
        messages, applied, nextSampleAt, samples, start, account, peers, ordered, registry, state, stats, growth);
      ClockGoesOn(from, ticks, endTime, turns);
      turns := turns + 1;
    }
  }

  /**
   * The loop, over any ticks whose messages are about the given peers; those not yet known to the
   * registry are handed ids that are free.
   */
  method IngestLoop(c: Inet6, cfg: IngestConfig, ticks: seq<Tick>, firstSampleAt: real, ghost endTime: real,
                    ghost start: Account, ghost peers: set<PeerInfo>, ghost ordered: bool,
                    registry: PeerRegistry, state: RoutingState, stats: IngestionStats, growth: GrowthStatsTracker)
    returns (outcome: Outcome, messages: seq<Message>, applied: nat, samples: seq<GrowthSample>,
             ghost pending: nat, ghost account: Account)
    requires Shows(registry, state, growth, start) && CoversAll(peers, ticks) && Spare(registry, peers, ordered)
    requires Metered(state, stats, growth, 0) && ClockRuns(growth.lastSampleAt, ticks, endTime)
    requires Recorded(growth, [])
    modifies registry, state, stats
    modifies growth`everSeenAsns, growth`everSeenV4, growth`everSeenV6, growth`announces, growth`withdraws
    modifies growth`rawMessages, growth`parsedEvents, growth`activeV4, growth`activeV6
    modifies growth`lastSampleAsns, growth`lastSamplePrefixes, growth`lastSampleAt, growth`recentRates,
      growth`recentSum, growth`plateauDetected, growth`plateauUptime, growth`detectedOnLastSample, growth`history,
      growth`reportedAsns, growth`reportedPrefixes
    ensures Shows(registry, state, growth, account) && Spare(registry, peers, ordered)
    ensures Metered(state, stats, growth, pending) && (outcome.Failed? || pending == 0)
    ensures growth.lastSampleAt <= endTime && Recorded(growth, samples)
    ensures LoopEnds(cfg, ticks, messages, stats.rawMessages, outcome)
    ensures old(stats.rawMessages) == 0 && outcome == LimitReached ==>
      cfg.maxMessages != 0 && |messages| == cfg.maxMessages
    ensures old(stats.rawMessages) == 0 && outcome != LimitReached && !outcome.Failed? ==>
      cfg.maxMessages == 0 || |messages| < cfg.maxMessages
    ensures TimesOf(growth.startedAt, samples) == Schedule(cfg, firstSampleAt, ticks[..Completed(messages, outcome)]).times
    ensures RatesFit(samples)
    ensures stats.rawMessages == old(stats.rawMessages) + |messages|
    ensures stats.announces + stats.withdraws == old(stats.announces + stats.withdraws) + applied
    ensures Ran(c, start, messages, applied, FailureOf(outcome), account)
  {
    var turns, nextSampleAt;
    outcome, messages, applied, samples, pending, account, turns, nextSampleAt :=
      TakeTurns(c, cfg, ticks, firstSampleAt, endTime, start, peers, ordered, registry, state, stats, growth);
    LoopDone(cfg, firstSampleAt, ticks, turns, messages, stats.rawMessages, outcome,
             Sampling(TimesOf(growth.startedAt, samples), nextSampleAt));
    OpenRecorded(growth, samples);
  }
}
