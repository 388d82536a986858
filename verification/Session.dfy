/**
 * One session of the program (main of src/main.cpp): load a snapshot if there is one, ingest,
 * sample, save and export; and what sessions joined by their snapshots amount to.
 */
module Session {
  import opened Base
  import Text
  import Ordering
  import opened Prefix
  import opened Selection
  import opened PeerRegistry
  import opened RoutingState
  import opened Export
  import opened System
  import opened SnapshotFormat
  import opened SnapshotCounter
  import opened SnapshotRoundTrip
  import opened SnapshotIO
  import opened Restart
  import opened GrowthStats
  import opened RisLiveParser
  import opened Ingest

  /** What a session starts from: nothing, or the contents a snapshot text denotes. */
  ghost function Loaded(c: Inet6, input: Option<string>): Result<Contents, LoadError> {
    match input
    case None => Ok(Contents(map[], map[]))
    case Some(text) => LoadText(c, text)
  }

  /** A fresh tracker has seen exactly what the loaded system observes. */
  ghost function AccountOf(s: System): Account {
    Account(Resolved(s), s.view.Keys, ObservedAsns(s.view))
  }

  /** Everything observed counts as seen: its prefix, and its origin. */
  lemma AccountMeans(s: System, p: BinaryPrefix, asn: uint32)
    ensures AccountOf(s).view == Resolved(s)
    ensures p in AccountOf(s).prefixes <==> p in s.view
    ensures asn in AccountOf(s).asns <==> exists x, q :: x in s.view && q in s.view[x] && s.view[x][q].asn == asn
  {
    if asn in AccountOf(s).asns {
      var o :| o in Observations(s.view) && o.seen.asn == asn;
      assert IsObserved(s.view, o);
    }
    if x, q :| x in s.view && q in s.view[x] && s.view[x][q].asn == asn {
      assert IsObserved(s.view, StoredObservation(x, q, s.view[x][q]));
    }
  }

  // ----- Loaded systems -----

  lemma {:induction false} RestoreKeeps(c: Inet6, peers: map<uint32, PeerInfo>, view: View<BinaryPrefix, uint32>,
                                        observations: seq<SnapshotObservation>)
    requires NoEmptyRows(view) && Registered(view, peers) && CanonicalView(view)
    requires Restore(c, peers, view, observations).Ok?
    ensures var v := Restore(c, peers, view, observations).value;
      NoEmptyRows(v) && Registered(v, peers) && CanonicalView(v)
    decreases |observations|
  {
    if observations == [] {
    } else {
      var o := observations[0];
      var p, seen := ParseAs(c, o.family, o.prefixText).value, Seen(o.originAsn, o.timestamp);
      ParsedIsCanonical(c, o.family, o.prefixText);
      UpdatesKeepRows(view, p, o.peerId, seen);
      RestoreKeeps(c, peers, Announced(view, p, o.peerId, seen), observations[1..]);
    }
  }

  /**
   * Whatever text loads, it loads as a coherent system of canonical prefixes, whose ids are all
   * below the counter exactly when the last 32-bit id is not among them.
   */
  lemma LoadedCoherent(c: Inet6, input: Option<string>, s: System)
    requires Loaded(c, input).Ok? && IsLoaded(s, Loaded(c, input).value)
    ensures Coherent(s) && CanonicalView(s.view)
    ensures ValidSystem(s) <==> LAST_ID !in s.byId
  {
    CounterAhead(s.byId.Keys, s.next);
    if input.Some? {
      var r := ReadLines(START, Text.Lines(input.value)).value;
      if r.sawHeader {
        ObservationLeTotal();
        RestoreKeeps(c, r.peers, map[], Ordering.Sort(ObservationLe, r.observations));
      }
    }
  }

  /** Whatever loads can be saved and loaded again. */
  lemma LoadedWritable(c: Inet6, input: Option<string>, s: System)
    requires Loaded(c, input).Ok? && IsLoaded(s, Loaded(c, input).value)
    ensures Coherent(s) && Writable(Resolved(s))
  {
    LoadedCoherent(c, input, s);
    if input.Some? {
      LoadedPeersClean(c, input.value);
    }
    WritableSystem(s);
  }

  /** Whatever system is loaded, its registry has a free id for each of the peers it does not know. */
  ghost predicate RoomAfterLoading(c: Inet6, input: Option<string>, peers: set<PeerInfo>) {
    Loaded(c, input).Ok? ==>
      forall s :: IsLoaded(s, Loaded(c, input).value) ==> Room(s.byId, s.next, |peers - s.byInfo.Keys|)
  }

  lemma KnownPeers(byInfo: map<PeerInfo, uint32>, byId: map<uint32, PeerInfo>)
    requires MutualInverses(byInfo, byId)
    ensures byInfo.Keys == byId.Values
  {
    forall info ensures info in byInfo <==> info in byId.Values {
      if info in byInfo {
        assert byId[byInfo[info]] == info;
      }
    }
  }

  /** That is so when the ids read are far enough below the last one. */
  lemma RoomBelowLast(c: Inet6, input: Option<string>, peers: set<PeerInfo>)
    requires Loaded(c, input).Ok? ==>
      var known := Loaded(c, input).value.peers;
      NextAfter(known.Keys) + |peers - known.Values| <= LAST_ID
    ensures RoomAfterLoading(c, input, peers)
  {
    if Loaded(c, input).Ok? {
      var contents := Loaded(c, input).value;
      forall s | IsLoaded(s, contents) ensures Room(s.byId, s.next, |peers - s.byInfo.Keys|) {
        KnownPeers(s.byInfo, contents.peers);
        CounterIsNext(contents.peers.Keys, s.next);
        RoomBelowWrap(s.byId, s.next, |peers - s.byInfo.Keys|);
      }
    }
  }

  // ----- Sessions joined by a snapshot -----

  /** A snapshot the program wrote itself loads, and without exhausting the ids. */
  lemma OwnTextLoads(c: Inet6, s: System)
    requires Coherent(s) && Writable(Resolved(s)) && |s.byId| < U32_LIMIT
    ensures UsedIds(s.view) <= s.byId.Keys
    ensures LoadText(c, SnapshotText(c, s.byId, s.view)) == Ok(UsedContents(s)) && |UsedPeers(s)| < U32_LIMIT
  {
    UsedIsRegistered(s);
    WritableSystem(s);
    CleanRoundTrip(c, s);
    assert UsedPeers(s).Keys <= s.byId.Keys;
    CardinalityMonotone(UsedPeers(s).Keys, s.byId.Keys);
    assert |UsedPeers(s).Keys| == |UsedPeers(s)| && |s.byId.Keys| == |s.byId|;
  }

  ghost predicate CleanEvents(messages: seq<Message>) {
    forall e :: e in AllEvents(messages) ==> CleanPeer(e.peer)
  }

  lemma DecodedPrintable(c: Inet6, e: ParsedEvent)
    requires Decodable(c, e) && CleanPeer(e.peer)
    ensures PrintableEvent(Decode(c, e))
  {
    ParsedIsCanonical(c, InferFamily(e.prefix).value, e.prefix);
  }

  /** A run of clean events from a writable view ends in a writable view. */
  lemma RanWritable(c: Inet6, before: Account, messages: seq<Message>, applied: nat, failure: Option<PrefixError>,
                    after: Account)
    requires Ran(c, before, messages, applied, failure, after)
    requires Writable(before.view) && CleanEvents(messages)
    ensures Writable(after.view)
  {
    OpenRan(c, before, messages, applied, failure, after);
    var taken := AllEvents(messages)[..applied];
    forall e | e in DecodeAll(c, taken) ensures PrintableEvent(e) {
      var i :| 0 <= i < |taken| && DecodeAll(c, taken)[i] == e;
      assert taken[i] in AllEvents(messages);
      DecodedPrintable(c, taken[i]);
    }
    TookAllMeans(before, DecodeAll(c, taken));
    ReplayedWritable(before.view, DecodeAll(c, taken));
  }

  /** A run says the same about the view from any account with that view. */
  lemma RanFromSameView(c: Inet6, a: Account, messages: seq<Message>, applied: nat, failure: Option<PrefixError>,
                        b: Account, a': Account) returns (b': Account)
    requires Ran(c, a, messages, applied, failure, b) && a'.view == a.view
    ensures Ran(c, a', messages, applied, failure, b') && b'.view == b.view
  {
    OpenRan(c, a, messages, applied, failure, b);
    var events := DecodeAll(c, AllEvents(messages)[..applied]);
    b' := TookAll(a', events);
    TookAllMeans(a, events);
    TookAllMeans(a', events);
  }

  /**
   * Two sessions joined by the snapshot the first one saved: the text loads, and whatever system
   * `r1` it loads as, together they show the view and export the table of one session fed all the
   * messages.
   */
  lemma SessionsJoin(c: Inet6, s0: System, first: seq<Message>, n1: nat, a1: Account, s1: System, r1: System,
                     second: seq<Message>, n2: nat, failure: Option<PrefixError>, a2: Account, s2: System)
    returns (whole: Account)
    requires Coherent(s1) && Coherent(s2) && Writable(Resolved(s1)) && |s1.byId| < U32_LIMIT
    requires Ran(c, AccountOf(s0), first, n1, None, a1) && Resolved(s1) == a1.view
    requires UsedIds(s1.view) <= s1.byId.Keys && LoadText(c, SnapshotText(c, s1.byId, s1.view)).Ok? ==>
      IsLoaded(r1, LoadText(c, SnapshotText(c, s1.byId, s1.view)).value)
    requires Ran(c, AccountOf(r1), second, n2, failure, a2) && Resolved(s2) == a2.view
    ensures UsedIds(s1.view) <= s1.byId.Keys
    ensures LoadText(c, SnapshotText(c, s1.byId, s1.view)) == Ok(UsedContents(s1)) && |UsedPeers(s1)| < U32_LIMIT
    ensures Ran(c, AccountOf(s0), first + second, n1 + n2, failure, whole)
    ensures whole.view == Resolved(s2) && NoEmptyRows(whole.view) && NoEmptyRows(s2.view)
    ensures Winners(whole.view) == Winners(s2.view)
  {
    OwnTextLoads(c, s1);
    LoadedResolves(s1, r1);
    whole := RanFromSameView(c, AccountOf(r1), second, n2, failure, a2, a1);
    RanTwice(c, AccountOf(s0), first, n1, a1, second, n2, failure, whole, first + second, n1 + n2);
    WinnersResolved(s2);
  }

  // ----- One session -----

  datatype Output = Output(text: string, rows: seq<(string, uint32)>, asnRows: seq<AsnRow>, plateau: PlateauStatus)

  const NO_OUTPUT := Output("", [], [], PlateauStatus(false, false, 0.0))

  datatype Abort = CannotLoad(loadError: LoadError) | CannotApply(prefixError: PrefixError)

  /** The snapshot, if there is one, in fresh components. */
  method Load(c: Inet6, input: Option<string>)
    returns (failure: Option<LoadError>, registry: PeerRegistry, state: RoutingState)
    ensures fresh(registry) && fresh(state)
    ensures failure == match Loaded(c, input) case Ok(_) => None case Err(error) => Some(error)
    ensures failure == None ==> state.Sound() && IsLoaded(SystemOf(registry, state), Loaded(c, input).value)
    ensures failure == None && |registry.byId| < U32_LIMIT ==> state.Valid()
    ensures failure == None ==> (registry.Valid() <==> LAST_ID !in Loaded(c, input).value.peers)
  {
    registry := new PeerRegistry();
    state := new RoutingState();
    failure := None;
    if input.Some? {
      var loaded := LoadSnapshot(c, input.value, registry, state);
      failure := if loaded.Err? then Some(loaded.error) else None;
    } else {
      EmptyIsLoaded(SystemOf(registry, state));
    }
  }

  /** The tracker has seen what the state observes, and deltas count from there; closed, see Base.Key. */
  ghost predicate SeededFrom(growth: GrowthStatsTracker, state: RoutingState)
    reads growth, state
  {
    forall k {:trigger Key(MeterDoor, k)} :: Key(MeterDoor, k) ==> SeededExactly(growth, state)
  }

  ghost predicate SeededExactly(growth: GrowthStatsTracker, state: RoutingState)
    reads growth, state
  {
    && growth.EverSeen() == state.observed.Keys && growth.everSeenAsns == ObservedAsns(state.observed)
    && growth.activeV4 == |OfFamily(state.observed.Keys, FamilyV4)|
    && growth.activeV6 == |OfFamily(state.observed.Keys, FamilyV6)|
    && growth.seededAsns == |growth.everSeenAsns| && growth.seededPrefixes == |growth.EverSeen()|
    && growth.reportedAsns == growth.reportedPrefixes == 0
  }

  /** Nothing was counted or sampled yet; closed, see Base.Key. */
  ghost predicate Unused(growth: GrowthStatsTracker)
    reads growth`rawMessages, growth`parsedEvents, growth`announces, growth`withdraws, growth`history
  {
    forall k {:trigger Key(MeterDoor, k)} :: Key(MeterDoor, k) ==>
      growth.rawMessages == growth.parsedEvents == growth.announces == growth.withdraws == 0 && growth.history == []
  }

  method SeedTracker(growth: GrowthStatsTracker, state: RoutingState)
    requires state.Valid() && growth.Valid() && growth.EverSeen() == {} && growth.everSeenAsns == {}
    modifies growth`everSeenAsns, growth`everSeenV4, growth`everSeenV6, growth`activeV4, growth`activeV6,
      growth`lastSampleAsns, growth`lastSamplePrefixes, growth`seededAsns, growth`seededPrefixes,
      growth`reportedAsns, growth`reportedPrefixes
    ensures growth.Valid() && SeededFrom(growth, state)
  {
    growth.SeedFromState(state);
  }

  method NewTracker(settings: PlateauSettings, now: real, state: RoutingState) returns (growth: GrowthStatsTracker)
    requires state.Valid()
    ensures fresh(growth) && growth.Valid() && growth.settings == settings && growth.startedAt == growth.lastSampleAt == now
    ensures SeededFrom(growth, state) && Unused(growth)
  {
    growth := new GrowthStatsTracker(settings, now);
    assert Unused(growth);
    SeedTracker(growth, state);
  }

  /** Fresh counters and a tracker seeded from the state. */
  method Seed(settings: PlateauSettings, now: real, registry: PeerRegistry, state: RoutingState)
    returns (stats: IngestionStats, growth: GrowthStatsTracker)
    requires state.Valid() && Coherent(SystemOf(registry, state)) && |registry.byId| < U32_LIMIT
    ensures fresh(stats) && fresh(growth) && stats.rawMessages == 0 && growth.settings == settings
    ensures growth.startedAt == growth.lastSampleAt == now && SeededCounts(growth, AccountOf(SystemOf(registry, state)))
    ensures Metered(state, stats, growth, 0) && Recorded(growth, [])
    ensures Shows(registry, state, growth, AccountOf(SystemOf(registry, state)))
  {
    growth := NewTracker(settings, now, state);
    stats := new IngestionStats();
    StartShows(registry, state, growth);
    StartMetered(state, stats, growth);
    StartRecorded(growth, state);
  }

  ghost predicate SeededCounts(growth: GrowthStatsTracker, account: Account)
    reads growth`seededAsns, growth`seededPrefixes
  {
    growth.seededAsns == |account.asns| && growth.seededPrefixes == |account.prefixes|
  }

  lemma StartShows(registry: PeerRegistry, state: RoutingState, growth: GrowthStatsTracker)
    requires state.Valid() && Coherent(SystemOf(registry, state)) && |registry.byId| < U32_LIMIT
    requires SeededFrom(growth, state)
    ensures Shows(registry, state, growth, AccountOf(SystemOf(registry, state)))
    ensures SeededCounts(growth, AccountOf(SystemOf(registry, state)))
  {
    assert Key(MeterDoor, 0);
  }

  lemma StartMetered(state: RoutingState, stats: IngestionStats, growth: GrowthStatsTracker)
    requires growth.Valid() && SeededFrom(growth, state) && Unused(growth)
    requires stats.rawMessages == stats.parsedEvents == stats.announces == stats.withdraws == 0
    ensures Metered(state, stats, growth, 0)
  {
    assert Key(MeterDoor, 0);
  }

  lemma StartRecorded(growth: GrowthStatsTracker, state: RoutingState)
    requires SeededFrom(growth, state) && Unused(growth) && growth.lastSampleAt == growth.startedAt
    ensures Recorded(growth, [])
  {
    assert Key(MeterDoor, 0);
  }

  ghost function FinalTime(cfg: IngestConfig, endedAt: real): seq<real> {
    if cfg.statsEnabled then [endedAt] else []
  }

  /** The last sample of a session: after it, all deltas together are the growth since seeding. */
  method FinalSample(cfg: IngestConfig, now: real, samples: seq<GrowthSample>, ghost state: RoutingState,
                     ghost stats: IngestionStats, growth: GrowthStatsTracker)
    returns (samples': seq<GrowthSample>)
    requires Metered(state, stats, growth, 0) && growth.lastSampleAt <= now && Recorded(growth, samples)
    modifies growth`lastSampleAsns, growth`lastSamplePrefixes, growth`lastSampleAt, growth`recentRates,
      growth`recentSum, growth`plateauDetected, growth`plateauUptime, growth`detectedOnLastSample, growth`history,
      growth`reportedAsns, growth`reportedPrefixes
    ensures Metered(state, stats, growth, 0) && Recorded(growth, samples')
    ensures cfg.statsEnabled ==> NewAsns(samples') == |growth.everSeenAsns| - growth.seededAsns
    ensures cfg.statsEnabled ==> NewPrefixes(samples') == |growth.EverSeen()| - growth.seededPrefixes
    ensures TimesOf(growth.startedAt, samples') == TimesOf(growth.startedAt, samples) + FinalTime(cfg, now)
    ensures RatesFit(samples')
  {
    samples' := samples;
    if cfg.statsEnabled {
      samples' := TakeSample(now, samples, state, stats, growth);
    }
    OpenRecorded(growth, samples');
  }

  /** What a session leaves behind: the snapshot of its final system and the tables of its account. */
  ghost predicate Published(c: Inet6, account: Account, after: System, output: Output) {
    && Coherent(after) && |after.byId| < U32_LIMIT && Resolved(after) == account.view && NoEmptyRows(account.view)
    && UsedIds(after.view) <= after.byId.Keys && output.text == SnapshotText(c, after.byId, after.view)
    && DistinctTexts(output.rows)
    && (forall row :: row in output.rows <==> RowOf(c, Winners(account.view), row))
    && WellFormedRows(output.asnRows) && multiset(Inverted(output.asnRows)) == multiset(output.rows)
  }

  method Publish(c: Inet6, registry: PeerRegistry, state: RoutingState, plateau: PlateauStatus,
                 ghost growth: GrowthStatsTracker, ghost account: Account)
    returns (output: Output)
    requires Shows(registry, state, growth, account)
    ensures Published(c, account, SystemOf(registry, state), output) && output.plateau == plateau
  {
    OpenShows(registry, state, growth, account);
    ghost var s := SystemOf(registry, state);
    UsedIsRegistered(s);
    WinnersResolved(s);
    state.AggregatedIsRecount();
    var saved := SaveSnapshot(c, registry, state);
    var rows, asnRows := state.ExportTables(c);
    output := Output(saved.value.0, rows, asnRows, plateau);
  }

  /** The status printed last tells the first calm sample of the session, if there was one. */
  method FinalStatus(samples: seq<GrowthSample>, ghost state: RoutingState, ghost stats: IngestionStats,
                     growth: GrowthStatsTracker)
    returns (plateau: PlateauStatus)
    requires Metered(state, stats, growth, 0) && Recorded(growth, samples)
    ensures Reports(growth.settings, Moments(samples), plateau)
  {
    OpenMetered(state, stats, growth, 0);
    OpenRecorded(growth, samples);
    plateau := growth.PlateauStatusNow();
  }

  /** The end of a session that was not aborted. */
  method Finish(c: Inet6, cfg: IngestConfig, now: real, samples: seq<GrowthSample>, registry: PeerRegistry,
                state: RoutingState, ghost stats: IngestionStats, growth: GrowthStatsTracker, ghost account: Account)
    returns (output: Output, samples': seq<GrowthSample>)
    requires Shows(registry, state, growth, account)
    requires Metered(state, stats, growth, 0) && growth.lastSampleAt <= now && Recorded(growth, samples)
    modifies growth`lastSampleAsns, growth`lastSamplePrefixes, growth`lastSampleAt, growth`recentRates,
      growth`recentSum, growth`plateauDetected, growth`plateauUptime, growth`detectedOnLastSample, growth`history,
      growth`reportedAsns, growth`reportedPrefixes
    ensures Published(c, account, SystemOf(registry, state), output)
    ensures Reports(growth.settings, Moments(samples'), output.plateau)
    ensures TimesOf(growth.startedAt, samples') == TimesOf(growth.startedAt, samples) + FinalTime(cfg, now)
    ensures RatesFit(samples')
    ensures cfg.statsEnabled ==> NewAsns(samples') == |account.asns| - growth.seededAsns
    ensures cfg.statsEnabled ==> NewPrefixes(samples') == |account.prefixes| - growth.seededPrefixes
  {
    samples' := FinalSample(cfg, now, samples, state, stats, growth);
    var plateau := FinalStatus(samples', state, stats, growth);
    output := Publish(c, registry, state, plateau, growth, account);
    OpenShows(registry, state, growth, account);
  }

  /** The tables, the snapshot, the telescoped growth and the plateau of a session from `start`. */
  ghost predicate Concluded(c: Inet6, settings: PlateauSettings, cfg: IngestConfig, start: Account, account: Account,
                            after: System, output: Output, samples: seq<GrowthSample>) {
    && Published(c, account, after, output)
    && Reports(settings, Moments(samples), output.plateau)
    && (cfg.statsEnabled ==> NewAsns(samples) == |account.asns| - |start.asns|)
    && (cfg.statsEnabled ==> NewPrefixes(samples) == |account.prefixes| - |start.prefixes|)
  }

  /** When samples are due: in the loop, and at the end unless the session is aborted. */
  ghost function SamplesDue(cfg: IngestConfig, firstSampleAt: real, endedAt: real, ticks: seq<Tick>, messages: seq<Message>,
                            outcome: Outcome): seq<real>
    requires |messages| <= |ticks|
  {
    Schedule(cfg, firstSampleAt, ticks[..Completed(messages, outcome)]).times
      + if outcome.Failed? then [] else FinalTime(cfg, endedAt)
  }

  /** The loop and what follows it, over seeded components. */
  method RunSeeded(c: Inet6, cfg: IngestConfig, ticks: seq<Tick>, firstSampleAt: real, endedAt: real,
                   ghost start: Account, ghost peers: set<PeerInfo>, ghost ordered: bool,
                   registry: PeerRegistry, state: RoutingState, stats: IngestionStats, growth: GrowthStatsTracker)
    returns (outcome: Outcome, output: Output, messages: seq<Message>, applied: nat, samples: seq<GrowthSample>,
             ghost account: Account)
    requires Shows(registry, state, growth, start) && CoversAll(peers, ticks) && Spare(registry, peers, ordered)
    requires Metered(state, stats, growth, 0) && ClockRuns(growth.lastSampleAt, ticks, endedAt)
    requires Recorded(growth, []) && stats.rawMessages == 0
    modifies registry, state, stats
    modifies growth`everSeenAsns, growth`everSeenV4, growth`everSeenV6, growth`announces, growth`withdraws
    modifies growth`rawMessages, growth`parsedEvents, growth`activeV4, growth`activeV6
    modifies growth`lastSampleAsns, growth`lastSamplePrefixes, growth`lastSampleAt, growth`recentRates,
      growth`recentSum, growth`plateauDetected, growth`plateauUptime, growth`detectedOnLastSample, growth`history,
      growth`reportedAsns, growth`reportedPrefixes
    ensures LoopEnds(cfg, ticks, messages, |messages|, outcome) && Spare(registry, peers, ordered)
    ensures TimesOf(growth.startedAt, samples) == SamplesDue(cfg, firstSampleAt, endedAt, ticks, messages, outcome)
    ensures RatesFit(samples)
    ensures Ran(c, start, messages, applied, FailureOf(outcome), account)
    ensures !outcome.Failed? ==> Published(c, account, SystemOf(registry, state), output)
    ensures !outcome.Failed? ==> Reports(growth.settings, Moments(samples), output.plateau)
    ensures !outcome.Failed? && cfg.statsEnabled ==> NewAsns(samples) == |account.asns| - growth.seededAsns
    ensures !outcome.Failed? && cfg.statsEnabled ==> NewPrefixes(samples) == |account.prefixes| - growth.seededPrefixes
  {
    ghost var pending;
    outcome, messages, applied, samples, pending, account :=
      IngestLoop(c, cfg, ticks, firstSampleAt, endedAt, start, peers, ordered, registry, state, stats, growth);
    output := NO_OUTPUT;
    if !outcome.Failed? {
      output, samples := Finish(c, cfg, endedAt, samples, registry, state, stats, growth, account);
    }
  }

  /** A session over a system already loaded. */
  method RunFrom(c: Inet6, settings: PlateauSettings, cfg: IngestConfig, ticks: seq<Tick>, startedAt: real,
                 firstSampleAt: real, endedAt: real, ghost start: System, ghost peers: set<PeerInfo>,
                 ghost ordered: bool, registry: PeerRegistry, state: RoutingState)
    returns (outcome: Outcome, output: Output, messages: seq<Message>, applied: nat, samples: seq<GrowthSample>,
             ghost account: Account)
    requires state.Valid() && SystemOf(registry, state) == start && Coherent(start)
    requires CoversAll(peers, ticks) && Spare(registry, peers, ordered) && ClockRuns(startedAt, ticks, endedAt)
    modifies registry, state
    ensures LoopEnds(cfg, ticks, messages, |messages|, outcome) && Spare(registry, peers, ordered)
    ensures TimesOf(startedAt, samples) == SamplesDue(cfg, firstSampleAt, endedAt, ticks, messages, outcome)
    ensures RatesFit(samples)
    ensures Ran(c, AccountOf(start), messages, applied, FailureOf(outcome), account)
    ensures !outcome.Failed? ==>
      Concluded(c, settings, cfg, AccountOf(start), account, SystemOf(registry, state), output, samples)
  {
    ghost var begin := AccountOf(start);
    SpareBounds(registry, peers, ordered);
    var stats, growth := Seed(settings, startedAt, registry, state);
    outcome, output, messages, applied, samples, account :=
      RunSeeded(c, cfg, ticks, firstSampleAt, endedAt, begin, peers, ordered, registry, state, stats, growth);
  }

  /**
   * The loop took the messages of the first ticks and the samples that were due; a text that is no
   * prefix aborts the session.
   */
  ghost predicate Ends(cfg: IngestConfig, startedAt: real, firstSampleAt: real, endedAt: real, ticks: seq<Tick>,
                       messages: seq<Message>, samples: seq<GrowthSample>, outcome: Outcome, r: Result<Output, Abort>) {
    && LoopEnds(cfg, ticks, messages, |messages|, outcome)
    && TimesOf(startedAt, samples) == SamplesDue(cfg, firstSampleAt, endedAt, ticks, messages, outcome) && RatesFit(samples)
    && (outcome.Failed? ==> r == Err(CannotApply(outcome.error)))
    && (!outcome.Failed? ==> r.Ok?)
  }

  /** Even with an id for every peer of the ticks the counter does not reach its wrap. */
  ghost predicate StaysBelow(s: System, ticks: seq<Tick>) {
    ValidSystem(s) && s.next + |TickPeers(ticks) - s.byInfo.Keys| <= LAST_ID
  }

  /**
   * A whole session. A snapshot that does not load aborts it at once; otherwise it publishes what
   * all the messages taken, in order, make of the system loaded, whichever that is. Without the last
   * 32-bit id, and below the wrap, it leaves a valid system.
   */
  method RunSession(c: Inet6, settings: PlateauSettings, cfg: IngestConfig, input: Option<string>, ticks: seq<Tick>,
                    startedAt: real, firstSampleAt: real, endedAt: real)
    returns (r: Result<Output, Abort>, outcome: Outcome, messages: seq<Message>, applied: nat,
             samples: seq<GrowthSample>, ghost before: System, ghost account: Account, ghost after: System)
    requires ClockRuns(startedAt, ticks, endedAt) && RoomAfterLoading(c, input, TickPeers(ticks))
    ensures Loaded(c, input).Err? ==> r == Err(CannotLoad(Loaded(c, input).error))
    ensures Loaded(c, input).Ok? ==> Ends(cfg, startedAt, firstSampleAt, endedAt, ticks, messages, samples, outcome, r)
    ensures outcome == LimitReached ==> cfg.maxMessages != 0 && |messages| == cfg.maxMessages
    ensures outcome != LimitReached && !outcome.Failed? ==> cfg.maxMessages == 0 || |messages| < cfg.maxMessages
    ensures Loaded(c, input).Ok? ==> IsLoaded(before, Loaded(c, input).value)
    ensures Loaded(c, input).Ok? ==> Ran(c, AccountOf(before), messages, applied, FailureOf(outcome), account)
    ensures Loaded(c, input).Ok? && r.Ok? ==>
      Concluded(c, settings, cfg, AccountOf(before), account, after, r.value, samples)
    ensures Loaded(c, input).Ok? && r.Ok? && StaysBelow(before, ticks) ==> ValidSystem(after)
  {
    var failure, registry, state := Load(c, input);
    before := SystemOf(registry, state);
    account, after := AccountOf(before), before;
    outcome, messages, applied, samples := StillRunning, [], 0, [];
    if failure.Some? {
      r := Err(CannotLoad(failure.value));
    } else {
      LoadedCoherent(c, input, before);
      ghost var ordered := StaysBelow(before, ticks);
      ghost var peers := TickPeers(ticks);
      TickPeersCover(ticks);
      assert Spare(registry, peers, ordered);
      var output;
      outcome, output, messages, applied, samples, account :=
        RunFrom(c, settings, cfg, ticks, startedAt, firstSampleAt, endedAt, before, peers, ordered, registry, state);
      OpenSpare(registry.byInfo, registry.byId, registry.nextPeerId, peers, ordered);
      r := if outcome.Failed? then Err(CannotApply(outcome.error)) else Ok(output);
      after := SystemOf(registry, state);
    }
  }
}
