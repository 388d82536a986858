# ASNPrefixMap, verified

A Dafny model of the routing-state engine of ASNPrefixMap and of what is built on it: the snapshot
format, the peer registry, the prefix codec, the growth statistics, the parser, the ingest loop, a
whole session of the program, and the reconnect backoff of the live source.

The common specification is a view: prefix → (peer → (origin ASN, timestamp)). `Selection` says what
a view means for the exported table, namely the origin most peers report, the smallest ASN winning a
tie. The routing state caches this answer incrementally; every valid state is proved to hold exactly
the recount. `System` adds the registry and the id-free form of the view, keyed by full peer identity.
Events act on the id-free view as on a plain table, which is why nothing that only changes ids, a
restart in particular, can be observed.

| file | content |
|---|---|
| `Base`, `Text`, `Ordering` | machine integers, string and number text, sorting by a total order |
| `Prefix` | masking at bit level, CIDR parsing and printing |
| `Selection`, `RoutingTable`, `Export`, `RoutingState` | the view, the per-family tables, the exports, the class |
| `PeerRegistry`, `System` | ids and identities, the id-free view, whole runs of events |
| `SnapshotFormat`, `SnapshotCounter`, `SnapshotRoundTrip`, `SnapshotOrder` | the text format, where the id counter stands after a load, printer and parser against each other, line order |
| `SnapshotIO`, `SnapshotMeaning`, `Restart` | the loops that write and read, what a text looks like and denotes in its own characters, runs interrupted by saving and loading |
| `GrowthStats` | the tracker and the plateau detector |
| `RisLiveParser`, `Ingest`, `Session` | messages to events, the ingest loop, one session from loading to saving, sessions joined by snapshots |
| `Backoff` | the live source's reconnect loop |

Main results, hardest first:

- `Restart.RestartsUnobservable`, `Session.SessionsJoin`: saving and loading, anywhere and any number
  of times in a run of any length, changes neither the id-free view nor the exported table, although
  dropped peers may get different ids later. `Restart.SavedAgain`: what was saved, loaded and saved
  again is the same text. `SnapshotRoundTrip.RoundTripIffClean` gives the exact condition: the text
  reads back if and only if no used peer's host or address holds a tab or newline
  (`TabBreaksRoundTrip` is a concrete failure).
- `SnapshotOrder.LoadIgnoresLineOrder`: the order of data lines does not show in what is loaded if and
  only if id 2^32-1 is not among the peers read or is the only one. Otherwise the id counter after
  loading depends on the order in which a hash map delivers the peers (`SnapshotCounter.OneCounterIff`),
  and it may lead to an id that is taken (`LastIdLoadsTwoWays` is a concrete text). Prefixes, votes and
  peers never depend on the order (`ContentsIgnoreLineOrder`).
- `RoutingState.RoutingState.AggregatedIsRecount` with the contracts of the mutating methods: over
  every run the cached table is the recount, through swap removal and the shortcut updates;
  `CachedOrigin` says what that is, counting peers.
- `SnapshotMeaning.WhatIsRead`, `WhatIsLoaded`: which texts load, and what is then held for each prefix
  and peer; `ObservationsInOrder`, `ObservationLinesTell`, `TextLayout`: the saved text, line by line.
- `Ingest.LastEventShows` with `RisLiveParser.EventOrigin`, `EventTexts` and `Prefix.ParsesV4`: from the
  JSON of the messages, what every peer observes after a run, down to the bits of the network.
- `System.RunCoherentIff`: a run of any length keeps registry and state together if and only if the
  ids handed to its newcomers, each peer unknown at the start counted once, are free when it starts.
  Then `System.LastEventWins`: only the last event of each prefix and peer matters.
- `Ingest.IngestLoop`, `Session.RunSession`: no more messages are taken than `max_messages` allows,
  what was parsed is what was applied is what all counters say, and what is saved and exported is what
  the events, in order, make of what was loaded.
- `GrowthStats.GrowthStatsTracker.SampleNow` with `FirstCalmIsLeast`: the plateau is reported once, on
  exactly the first calm sample, whatever the run.
- `Backoff.BackoffIffNoWrap`: the delay is `min(initial * 2^k, cap)` for ever if and only if there is
  no delay at all or doubling the cap fits 64 bits (`WrapLosesDelay` is a concrete failure).

Some invariants and run records are kept closed: `Base.Key` is always true, and a definition of the
form "for all k, Key(door, k) implies P" means P but is unfolded only where a proof mentions a key.

Where code and documentation could be read differently, the code is followed: announcements of a
message are applied before its withdrawals (`Ingest.WithdrawalWins`), whatever section 4.3 of RFC
4271 recommends.

## Model

| member | source | states |
|---|---|---|
| Text.UnsignedMeans | src/prefix/prefix.cpp:91-94 | blanks are skipped, the digits read, the rest ignored; no digits or 2^64 and more are refused |
| Text.SignedMeans | src/prefix/prefix.cpp:91-94 | the same after a sign; a minus negates modulo 2^64 |
| Text.StoulU32Means | src/snapshot/snapshot_io.cpp:187-201 | a 32-bit field keeps the low half of the number |
| Text.DecimalUnique | src/snapshot/snapshot_io.cpp:112-129 | a number's text is its one digit string without needless zeros |
| Text.SplitMeans | src/snapshot/snapshot_io.cpp:25-39 | the fields are the one way to write a line as tab-free texts with tabs between them |
| Text.LinesMean | src/snapshot/snapshot_io.cpp:147-149 | lines end at newlines; a last line needs none, and a final newline opens none |
| Text.EveryText | src/snapshot/snapshot_io.cpp:147-149 | every text is made of such lines |
| Text.TrimMeans | src/snapshot/snapshot_io.cpp:41-49 | blanks, tabs and line ends go at both ends and nowhere else |
| Text.StrLeMeans | src/snapshot/snapshot_io.cpp:94-96 | texts compare by the first byte in which they differ, a beginning first |
| Prefix.ApplyMaskV6 | src/prefix/prefix.cpp:62-81 | the in-place byte loop computes the recursive byte mask |
| Prefix.MaskBits | src/prefix/prefix.cpp:62-81 | bit i of a masked address is bit i when i < length and clear otherwise |
| Prefix.MaskV4IsByteLoop | src/prefix/prefix.cpp:53-81 | the IPv4 shift agrees with the byte algorithm on four bytes, length 0 and 32 included |
| Prefix.MaskCompose | src/prefix/prefix.cpp:62-81 | masking twice is masking once with the shorter length |
| Prefix.MaskComposeV4 | src/prefix/prefix.cpp:53-60 | the same for the IPv4 shift |
| Prefix.SameNetworkIffPrefixAgrees | src/prefix/prefix.cpp:62-81 | two addresses normalise alike if and only if their first length bits agree |
| Prefix.SameNetworkV4 | src/prefix/prefix.cpp:53-60 | the same for IPv4 |
| Prefix.MaskedBitV4 | src/prefix/prefix.cpp:53-60 | bit i of a masked IPv4 word, by shifting |
| Prefix.MaskedBitV6 | src/prefix/prefix.cpp:62-81 | bit k of byte j of a masked IPv6 address, by shifting |
| Prefix.ParsesV4 | src/prefix/prefix.cpp:135-152 | any address written, host bits included, gives the network of its first length bits and that length; what follows a zero byte is ignored |
| Prefix.OnlyParsesV4 | src/prefix/prefix.cpp:135-152 | no other text is parsed as an IPv4 prefix |
| Prefix.ParsesV6 | src/prefix/prefix.cpp:154-168 | the same bits for IPv6, for any text the platform reads as an address |
| Prefix.ParsesAsItsFamily | src/prefix/prefix.cpp:99-133 | a colon before the first slash decides for IPv6, else a dot for IPv4 |
| Prefix.ParseErrors | src/prefix/prefix.cpp:83-168 | which error a text is refused with, and that no other is refused |
| Prefix.PtonV4Means | src/prefix/prefix.cpp:141-152 | an IPv4 address has exactly one text |
| Prefix.NtopV4Means | src/prefix/prefix.cpp:170-184 | that text is the four bytes, most significant first, as decimal numbers between dots |
| Prefix.PrintedForm | src/prefix/prefix.cpp:170-200 | a printed prefix ends in a slash and its length without needless zeros |
| Prefix.ParsedIsCanonical | src/prefix/prefix.cpp:135-168 | every parsed prefix has a length in range, no bit set beyond it, and the requested family |
| Prefix.PtonOfNtopV4 | src/prefix/prefix.cpp:135-184 | dotted decimal printing and parsing undo each other on every address |
| Prefix.PrefixRoundTrip | src/prefix/prefix.cpp:83-200 | parsing a printed canonical prefix gives it back, with and without the family given, and infers its family |
| Prefix.PrintingInjective | src/prefix/prefix.cpp:170-200 | no two prefixes of either family print the same text |
| Selection.WinnerUnique | src/routing_state.cpp:9-15 | the selection order has at most one winner |
| Selection.HasWinner | src/routing_state.cpp:9-15 | any observed prefix has a winner |
| Selection.WinnerWith | src/routing_state.cpp:102-110 | after a new vote the winner is the ASN voted for when its peers are then more, or as many and its number smaller, else the old one |
| Selection.WinnerWithout | src/routing_state.cpp:83-96 | losing a vote for another origin leaves the winner in place |
| Selection.AnnouncedLookup | src/routing_state.cpp:62-113 | an announcement is what its peer then observes for its prefix, and nothing else changes |
| Selection.WithdrawnLookup | src/routing_state.cpp:115-157 | after a withdrawal its peer observes nothing for its prefix, and nothing else changes |
| RoutingTable.IncrementAsnCount | src/routing_state.cpp:17-19 | one more, modulo 2^32, and the other counters unchanged |
| RoutingTable.DecrementAsnCount | src/routing_state.cpp:21-34 | one less, the counter dropped at zero, an absent counter left absent |
| RoutingTable.CountsWith | src/routing_state.cpp:17-19 | counting one vote more keeps the counters exact if and only if the counter of its ASN is not full; a full one goes to zero |
| RoutingTable.NoCounterWraps | src/routing_state.cpp:17-19 | by pigeonhole: with fewer than 2^32 distinct ids no 32-bit counter is full |
| RoutingTable.SpareId | src/routing_state.cpp:17-19 | one id that is not in use, whichever it is, is enough for that |
| RoutingTable.CountersSumToObservations | src/routing_state.cpp:17-34 | in every valid record the counters sum to the number of observations |
| RoutingTable.RecomputeSelectedFromCounts | src/routing_state.cpp:36-48 | the scan finds the smallest ASN among those with the largest counter, in any iteration order |
| RoutingTable.MaximumIsWinner | src/routing_state.cpp:36-48 | with exact counters that maximum is the recounted winner, ASN 0 included |
| RoutingTable.ReplaceObservation | src/routing_state.cpp:71-100 | a listed peer's vote is replaced, and a valid record stays valid if and only if the counter of the new ASN has room; the selection is unchanged for an unchanged origin |
| RoutingTable.AppendObservation | src/routing_state.cpp:102-110 | a new peer's vote is added; a valid or fresh record gives a valid one if and only if the counter of its ASN has room |
| RoutingTable.AnnounceImpl | src/routing_state.cpp:62-113 | the view changes at one prefix and peer only, and exact caches stay exact if and only if the counter of the ASN has room |
| RoutingTable.StoreRecord | src/routing_state.cpp:50-60 | storing a record with one vote more or changed announces that vote only; with its selection as the cached entry a valid table stays valid if and only if the record is |
| RoutingTable.SwapRemoveVote | src/routing_state.cpp:135-142 | moving the tail into the hole removes exactly one peer's vote |
| RoutingTable.RemoveObservation | src/routing_state.cpp:126-152 | one vote less, and a valid record stays valid unless that was its last vote |
| RoutingTable.WithdrawRecord | src/routing_state.cpp:50-60 | storing a record with one vote less withdraws that vote only; with its selection as the cached entry a valid table stays valid if and only if the record is |
| RoutingTable.DropRecord | src/routing_state.cpp:144-148 | dropping record and cached entry of a prefix that lost its last vote withdraws that vote only |
| RoutingTable.WithdrawImpl | src/routing_state.cpp:115-157 | one prefix and peer withdrawn, the prefix dropped with its last peer, absent ones ignored; exact caches stay exact |
| RoutingTable.CacheIsRecount | src/routing_state.cpp:62-157 | on a valid table the cached map equals the winners of a from-scratch recount |
| RoutingTable.RecomputeIsIdentity | src/routing_state.cpp:279-289 | recomputing a valid record changes nothing |
| RoutingTable.RebuildImpl | src/routing_state.cpp:265-289 | rebuilding the cache, in any order, changes no vote, and on a valid table nothing at all |
| RoutingState.RoutingState.AggregatedIsRecount | src/routing_state.cpp:62-157 | in every valid state both families' cached tables are the recount of what is observed |
| RoutingState.RoutingState.CachedOrigin | src/routing_state.cpp:9-15 | the cached origin of an observed prefix has a peer, no other origin has more peers, and those with as many have larger numbers |
| RoutingState.RoutingState.Announce | src/routing_state.cpp:182-194 | the observed view after an announcement, in every case; exact caches stay exact if and only if the counter of the ASN has room |
| RoutingState.RoutingState.Withdraw | src/routing_state.cpp:196-204 | the observed view after a withdrawal; exact caches stay exact |
| RoutingState.RoutingState.RestoreObservation | src/routing_state.cpp:251-263 | the same effect as an announcement |
| RoutingState.RoutingState.Clear | src/routing_state.cpp:244-249 | nothing is observed |
| RoutingState.RoutingState.RebuildAggregated | src/routing_state.cpp:265-277 | changes nothing on any valid state, and nothing observed on any other |
| RoutingState.RoutingState.StoredObservations | src/routing_state.cpp:159-167 | lists every observation exactly once, in some order |
| RoutingState.RoutingState.ActivePrefixesV4Count | src/routing_state.cpp:232-234 | the number of observed IPv4 prefixes |
| RoutingState.RoutingState.ActivePrefixesV6Count | src/routing_state.cpp:236-238 | the number of observed IPv6 prefixes |
| RoutingState.RoutingState.ExportTables | src/routing_state.cpp:206-223 | one row per active prefix with its winner; the ASN table is sorted, non-empty rows, the exact inverse, lengths summing to the active count |
| Export.AppendExports | src/routing_state.cpp:169-178 | rows and per-ASN lists grow together, whatever the iteration order |
| Export.AsnTable | src/routing_state.cpp:215-222 | well-formed rows whose pairs are exactly the prefix rows |
| Export.TablesInverse | src/routing_state.cpp:206-223 | inverting the ASN table gives back the prefix table as a multiset |
| PeerRegistry.PeerRegistry.GetOrAdd | src/peer/peer_registry.cpp:13-23 | known identities keep their id, new ones get the counter; the maps stay inverse if and only if that id is free |
| PeerRegistry.PeerRegistry.InsertWithId | src/peer/peer_registry.cpp:25-38 | fails exactly on a taken id or identity and then changes nothing |
| PeerRegistry.PeerRegistry.Get | src/peer/peer_registry.cpp:44-51 | succeeds exactly for registered ids and gives the identity registered under the id, whose id this is |
| PeerRegistry.PeerRegistry.Clear | src/peer/peer_registry.cpp:53-57 | empty, counting from 1 |
| PeerRegistry.CounterPassesId | src/peer/peer_registry.cpp:35-37 | an inserted id stays below the counter if and only if it is not 2^32-1 |
| PeerRegistry.FreeOneByOne | src/peer/peer_registry.cpp:13-23 | the next ids are free if and only if the first is, and the others are once it is handed out, the wrap included |
| PeerRegistry.RoomBelowWrap | src/peer/peer_registry.cpp:13-23 | with all ids below the counter, the next ids handed out are free as far as the wrap allows |
| System.StepResolves | src/main.cpp:205-219 | an event of a known peer, or of a new one while the next id is free, acts on the id-free view as on a plain table and keeps registry and state coherent |
| System.StepCoherentIff | src/peer/peer_registry.cpp:13-23 | an event keeps registry and state coherent if and only if its peer is known or the next id is free |
| System.RunCoherentIff | src/peer/peer_registry.cpp:13-23 | a whole run keeps registry and state coherent if and only if the ids its newcomers are handed are free at its start; an id handed out twice is never repaired |
| System.RunResolves | src/main.cpp:184-220 | over a run of any length whose newcomers are handed free ids, the counter wrapping included, the id-free view is the replay of its events |
| System.RunKeepsIds | src/peer/peer_registry.cpp:13-23 | over such a run an id once handed out keeps its identity and an identity its id, and exactly the newcomers are added |
| System.RunStaysValid | src/peer/peer_registry.cpp:13-23 | every id stays below the counter if and only if as many ids as newcomers are left below 2^32-1; the counter has then moved up by their number, and new ids are above all earlier ones |
| System.WinnersResolved | src/routing_state.cpp:36-48 | the exported table is the same computed with ids or with identities |
| System.ReplayedLookup | src/routing_state.cpp:62-157 | what a peer observes is what its last event for the prefix says |
| System.LastUpdateMeans | src/routing_state.cpp:62-157 | the last word on a prefix and peer is that of the last event naming both |
| System.LastEventWins | src/routing_state.cpp:71-157 | runs of any length agreeing on the last event of every prefix and peer end in the same view and table |
| System.DropSuperseded | src/routing_state.cpp:71-100 | an event superseded later can be dropped |
| System.ExchangeIndependent | src/routing_state.cpp:62-157 | events of different prefixes or peers can be exchanged |
| SnapshotFormat.ObservationLeTotal | src/snapshot/snapshot_io.cpp:90-104 | the five-key comparison is a total order |
| SnapshotMeaning.TextLayout | src/snapshot/snapshot_io.cpp:111-129 | a saved text is the header, the peer lines and the observation lines under their marks |
| SnapshotMeaning.PeerLineAt | src/snapshot/snapshot_io.cpp:113-118 | each peer line is id, host, address and ASN with tabs between |
| SnapshotMeaning.PeersInOrder | src/snapshot/snapshot_io.cpp:64-76 | the ids ascend, and exactly the observing ones are printed |
| SnapshotMeaning.ObservationLinesTell | src/snapshot/snapshot_io.cpp:78-88 | each observation line is family, prefix, peer id, origin and timestamp of an observation, one line for each |
| SnapshotMeaning.ObservationsInOrder | src/snapshot/snapshot_io.cpp:90-104 | IPv4 lines come first, then prefix texts ascend byte by byte, then peer ids; no two are equal |
| SnapshotMeaning.WhatIsRead | src/snapshot/snapshot_io.cpp:147-207 | lines are accepted if and only if the first that is not blank is the header, each later one is blank, a mark or a record of its section, and no peer id comes twice; then what is read |
| SnapshotMeaning.PeersAreTold | src/snapshot/snapshot_io.cpp:182-193 | a peer is read if and only if some peer line tells it, with the names of that line |
| SnapshotMeaning.WhatIsLoaded | src/snapshot/snapshot_io.cpp:209-264 | which accepted lines load, and that of several observations of one prefix and peer the one with the largest text, origin and timestamp counts |
| SnapshotIO.SortedPrintIsCanonical | src/snapshot/snapshot_io.cpp:62-104 | the sorted lines are the same for every listing of the same observations |
| SnapshotIO.CollectUsedIds | src/snapshot/snapshot_io.cpp:64-67 | the sorted distinct ids that observe something |
| SnapshotIO.LookUpPeers | src/snapshot/snapshot_io.cpp:69-76 | every peer found, or the first unknown id |
| SnapshotIO.WriteSnapshot | src/snapshot/snapshot_io.cpp:59-132 | the canonical text and counts, or failure exactly when a used id is unknown, naming the least one |
| SnapshotIO.SaveSnapshot | src/snapshot/snapshot_io.cpp:59-132 | the same for a routing state |
| SnapshotIO.SplitTabFields | src/snapshot/snapshot_io.cpp:25-39 | the scanning loop splits at every tab |
| SnapshotIO.ReadSnapshotLines | src/snapshot/snapshot_io.cpp:150-207 | the line loop, up to the first refused line |
| SnapshotIO.FillRegistry | src/snapshot/snapshot_io.cpp:238-240 | in any order of insertion: it fails exactly on a repeated identity; otherwise the registry is the given bijection, its counter one that some order leaves, and all ids are below the counter if and only if 2^32-1 is not among them |
| SnapshotIO.RestoreObservations | src/snapshot/snapshot_io.cpp:242-261 | the observations replayed in order onto a coherent state, or the first unknown peer or bad prefix; exact caches stay exact unless all 2^32 ids are registered |
| SnapshotIO.LoadSnapshot | src/snapshot/snapshot_io.cpp:134-265 | registry and state hold what any text denotes, or the load's error, and the counts are those of peers and observation lines; the registry is valid if and only if id 2^32-1 was not read; the caches are exact unless all 2^32 ids were; nothing changes when a line is refused |
| SnapshotRoundTrip.DataLine | src/snapshot/snapshot_io.cpp:150-206 | a line that starts with no blank and no bracket is read as a record of its section, or refused outside one |
| SnapshotRoundTrip.PeerLineReads | src/snapshot/snapshot_io.cpp:182-193 | a printed peer is read back as exactly that peer when its names hold no tab or newline |
| SnapshotRoundTrip.ObservationLineReads | src/snapshot/snapshot_io.cpp:195-206 | a printed observation is read back, every field |
| SnapshotRoundTrip.SnapshotLinesRead | src/snapshot/snapshot_io.cpp:111-207 | reading printed lines gathers the used peers and the sorted observations; no data line is taken for another kind |
| SnapshotRoundTrip.CleanRoundTrip | src/snapshot/snapshot_io.cpp:59-265 | the printed text denotes the observations and the peers they use, for any ids |
| SnapshotRoundTrip.LoadedPeersClean | src/snapshot/snapshot_io.cpp:182-193 | no loaded peer name holds a tab or newline |
| SnapshotRoundTrip.RoundTripIffClean | src/snapshot/snapshot_io.cpp:59-265 | the round trip holds if and only if no used peer's name holds a tab or newline |
| SnapshotRoundTrip.TabBreaksRoundTrip | src/snapshot/snapshot_io.cpp:113-118 | a concrete system that does not survive saving and loading |
| SnapshotCounter.OneCounterIff | src/peer/peer_registry.cpp:35-37 | the counter after inserting a set of ids is the same for every order if and only if 2^32-1 is not among them or is the only one |
| SnapshotCounter.OneSystemIff | src/snapshot/snapshot_io.cpp:238-240 | registry and state after a load are the same for every order of insertion under the same condition, and only then |
| SnapshotCounter.LoadedUnique | src/snapshot/snapshot_io.cpp:238-240 | without id 2^32-1 they are the system whose counter is right above the ids read |
| SnapshotOrder.LoadIgnoresLineOrder | src/snapshot/snapshot_io.cpp:150-263 | a block of data lines in two orders loads as the same system, in any order of insertion, if and only if id 2^32-1 is not among the peers read or is the only one; refused in one order is refused in the other |
| SnapshotOrder.ContentsIgnoreLineOrder | src/snapshot/snapshot_io.cpp:150-263 | peers and observations loaded never depend on the order of data lines, duplicates included |
| SnapshotOrder.LastIdLoadsTwoWays | src/snapshot/snapshot_io.cpp:238-240 | a concrete text of two peers after which the counter may stand at 6, or at 0 with a taken id ahead |
| Restart.LoadedResolves | src/snapshot/snapshot_io.cpp:209-264 | whatever system the saved contents load as shows the id-free view of the saved one |
| Restart.RestartedResolves | src/snapshot/snapshot_io.cpp:59-265 | dropping unused peers keeps a valid system valid, its counter no higher, and leaves the id-free view unchanged |
| Restart.ActResolves | src/snapshot/snapshot_io.cpp:59-265 | one event or one save-and-load, through the text and with any outcome of the load, is never refused, and acts on the id-free view as it should when a new peer is handed a free id |
| Restart.NeverRefused | src/main.cpp:148-290 | however far and long a run has come, the next event or save-and-load goes through |
| Restart.RestartsUnobservable | src/main.cpp:148-290 | a run of any length saved and loaded anywhere, any number of times, ends with the view, table and active count of the uninterrupted run, as long as new peers are handed free ids |
| Restart.SavedAgain | src/snapshot/snapshot_io.cpp:59-265 | saving, loading and saving again gives the first text, byte for byte, with any outcome of the load |
| Restart.TextIsCanonical | src/snapshot/snapshot_io.cpp:62-129 | equal observations and equal identities of used peers give byte-identical text |
| GrowthStats.SlideWindow | src/stats/growth_stats.cpp:110-115 | the deque is the last window of rates and the running sum is its sum |
| GrowthStats.FirstCalmIsLeast | src/stats/growth_stats.cpp:117-127 | the recorded sample is the least calm one of the history, and none is recorded if and only if none was calm |
| GrowthStats.CalmMeans | src/stats/growth_stats.cpp:117-122 | a sample is calm when it ends a full window, late enough, whose rates average below the threshold |
| GrowthStats.StatusMeans | src/stats/growth_stats.cpp:136-142 | the status tells the uptime of the first calm sample, as new on that sample only |
| GrowthStats.NoStatusMeans | src/stats/growth_stats.cpp:136-142 | without a calm sample there is nothing to tell |
| GrowthStats.Detect | src/stats/growth_stats.cpp:108-128 | window and latch stay exact over one sample more, for the whole history |
| GrowthStats.TestLatch | src/stats/growth_stats.cpp:117-127 | the latch is set exactly by a calm sample while unset |
| GrowthStats.GrowthStatsTracker.SeedFromState | src/stats/growth_stats.cpp:26-45 | everything observed counts as seen and the deltas start there |
| GrowthStats.GrowthStatsTracker.OnAnnounce | src/stats/growth_stats.cpp:55-65 | prefix and ASN seen, one announcement more |
| GrowthStats.GrowthStatsTracker.OnWithdraw | src/stats/growth_stats.cpp:67-75 | prefix seen, no ASN, one withdrawal more |
| GrowthStats.GrowthStatsTracker.SampleNow | src/stats/growth_stats.cpp:82-134 | every field of the sample; the deltas are the growth since the last sample and the rates times the interval are the deltas; the history grows by its rate |
| GrowthStats.GrowthStatsTracker.DeltasAddUp | src/stats/growth_stats.cpp:86-89 | right after a sample all reported deltas sum to the growth since seeding |
| GrowthStats.GrowthStatsTracker.PlateauStatusNow | src/stats/growth_stats.cpp:136-142 | detected from the first calm sample on, with its uptime, and flagged on that sample only |
| RisLiveParser.AppendAnnounceEvents | src/parser/ris_live_parser.cpp:78-112 | the announcement events of the message and their number |
| RisLiveParser.AppendWithdrawEvents | src/parser/ris_live_parser.cpp:114-136 | the withdrawal events of the message and their number |
| RisLiveParser.ParseRisLiveMessage | src/parser/ris_live_parser.cpp:140-176 | exactly the events a message means, none when malformed or of another type, and the count returned is their number |
| RisLiveParser.OnlyUpdatesSpeak | src/parser/ris_live_parser.cpp:143-165 | only a ris_message whose data is of type UPDATE has events |
| RisLiveParser.EventFields | src/parser/ris_live_parser.cpp:14-58 | host, address, ASN and timestamp of every event, by their keys, empty or zero when missing or of another type |
| RisLiveParser.EventOrigin | src/parser/ris_live_parser.cpp:60-76 | every announcement carries the last number of the path, modulo 2^32 |
| RisLiveParser.NoPathNoAnnouncement | src/parser/ris_live_parser.cpp:60-87 | without a path that ends in a number there is no announcement; withdrawals carry origin 0 |
| RisLiveParser.EventTexts | src/parser/ris_live_parser.cpp:78-136 | the events name all announced prefixes in order and then all withdrawn ones |
| RisLiveParser.AllPrefixesConcat | src/parser/ris_live_parser.cpp:94-111 | announcements are taken one after the other |
| RisLiveParser.AllPrefixesOne | src/parser/ris_live_parser.cpp:95-98 | one announcement gives the texts of its own array, if it has one |
| RisLiveParser.StringsConcat | src/parser/ris_live_parser.cpp:100-110 | the elements of an array are taken one after the other |
| RisLiveParser.StringsOne | src/parser/ris_live_parser.cpp:101-103 | an element counts if and only if it is a text |
| RisLiveParser.StringsMembers | src/parser/ris_live_parser.cpp:125-135 | a text is taken if and only if it is a string element |
| RisLiveParser.AllPrefixesMembers | src/parser/ris_live_parser.cpp:94-111 | a text is announced if and only if some announcement lists it |
| RisLiveParser.MessageShape | src/parser/ris_live_parser.cpp:167-173 | one peer and one timestamp per message, announcements before withdrawals, one origin for all announcements |
| Ingest.ApplyUpdate | src/main.cpp:106-115 | one event reaches state, statistics and tracker alike; exact caches stay exact if and only if the counter an announcement adds to has room |
| Ingest.ApplyEvent | src/main.cpp:95-118 | a text that is no prefix changes nothing and reports its error |
| Ingest.ResolvePeer | src/main.cpp:205-208 | resolving a peer takes a free id only when the peer is unknown, and cannot be observed |
| Ingest.ApplyEvents | src/main.cpp:193-219 | with the id cached per message the events enter the account in order, up to the first bad prefix |
| Ingest.CloseMessage | src/main.cpp:221-230 | parsed events counted, active counts equal to the state's, or the message ignored |
| Ingest.ProcessMessage | src/main.cpp:190-230 | counters conserved over one message |
| Ingest.TookAllMeans | src/stats/growth_stats.cpp:55-75 | after any events the account is the replayed view, and every prefix and announced ASN ever named |
| Ingest.LastEventShows | src/main.cpp:184-220 | after a run a peer observes for a prefix the origin and timestamp of the last event naming both if that is an announcement, nothing if it is a withdrawal, and what it did before without one |
| Ingest.PrefixesSeen | src/stats/growth_stats.cpp:55-75 | the prefixes seen are those before and all named |
| Ingest.AsnsSeen | src/stats/growth_stats.cpp:55-65 | the ASNs seen are those before and all announced |
| Ingest.RanTwice | src/main.cpp:184-220 | runs over consecutive messages compose |
| Ingest.WithdrawalWins | src/parser/ris_live_parser.cpp:172-173 | a prefix both announced and withdrawn by one message ends withdrawn |
| Ingest.TakeSample | src/stats/growth_stats.cpp:82-134 | a sample leaves the meters alone; with it the deltas of all samples sum to the growth since seeding |
| Ingest.SampleIfDue | src/main.cpp:235-246 | a sample is taken exactly when due, and the clock rearmed |
| Ingest.SampleTimes | src/main.cpp:235-246 | a turn takes a sample if and only if statistics are on and its clock has passed the first time, or the latest sample by the interval |
| Ingest.SamplesInOrder | src/main.cpp:235-246 | the sampling times are the times of those turns, in order |
| Ingest.Turn | src/main.cpp:184-250 | one turn of the loop: which test ends it, and what it conserves |
| Ingest.IngestLoop | src/main.cpp:184-251 | at the end of any run, of any length: which messages were taken and why it ended, by the limit exactly when as many were taken as max_messages says; parsed = applied = counted in both places, active prefixes all seen, one sample per due turn at its time, rates and deltas fitting; ids are used up by unknown peers only |
| Session.LoadedCoherent | src/snapshot/snapshot_io.cpp:209-264 | whatever loads is a coherent system of canonical prefixes; its counter is above every id if and only if 2^32-1 is not among them |
| Session.LoadedWritable | src/snapshot/snapshot_io.cpp:59-265 | whatever loads, id 2^32-1 included, can be saved and loaded again |
| Session.RoomBelowLast | src/peer/peer_registry.cpp:13-38 | ids read far enough below 2^32-1 leave a free id for each unknown peer |
| Session.OwnTextLoads | src/snapshot/snapshot_io.cpp:59-265 | a text saved from a writable system loads as its used contents, which never exhaust the ids |
| Session.RanWritable | src/main.cpp:184-220 | a session that starts without such a name and reads none ends without one |
| Session.SessionsJoin | src/main.cpp:148-290 | two sessions joined by the first one's snapshot, whatever system it loads as, show the view and table of one session over all messages, if no peer still observing at the joint has a tab or newline in its name |
| Session.Seed | src/main.cpp:146-158 | after seeding, meters agree and exactly the observed prefixes and ASNs count as seen |
| Session.AccountMeans | src/stats/growth_stats.cpp:26-45 | at the start a prefix counts as seen if and only if it is observed, an ASN if and only if some peer observes it as origin |
| Session.FinalSample | src/main.cpp:262-271 | with the last sample the deltas of all samples sum to the growth since seeding |
| Session.FinalStatus | src/main.cpp:277-284 | the final status tells the first calm sample of the session, or that there was none |
| Session.Publish | src/main.cpp:286-290 | saving cannot fail; text and tables are those of the account; an id is left over |
| Session.RunSession | src/main.cpp:148-290 | the result of a whole session of any length: the messages taken, exactly max_messages when the limit ended it and fewer otherwise, the times of all samples and their rates over the time between, the account of the loaded system and the events in order, and the text, tables and status that follow from it |
| Backoff.DelayClosedForm | src/source/ris_live_websocket_source.cpp:144-148 | after k doublings the delay is min(initial * 2^k, cap) and at least initial, when doubling the cap does not wrap |
| Backoff.BackoffIffNoWrap | src/source/ris_live_websocket_source.cpp:144-148 | the closed form holds for all k if and only if initial is 0 or twice the cap is below 2^64 |
| Backoff.WrapLosesDelay | src/source/ris_live_websocket_source.cpp:145 | a concrete configuration whose first doubling gives no delay |
| Backoff.PacedRun | src/source/ris_live_websocket_source.cpp:111-153 | in a paced trace every sleep is the documented backoff and every retry follows a full sleep |
| Backoff.SleepAfterTrouble | src/source/ris_live_websocket_source.cpp:111-199 | sleeps come after a refusal or a broken link only, the first attempt of all is not preceded by one, and an attempt after trouble comes after a full sleep only |
| Backoff.SleepWithStop | src/source/ris_live_websocket_source.cpp:205-220 | sleeps the whole delay if and only if no poll in time says stop, otherwise as many whole chunks as polls before |
| Backoff.RisLiveSource.DocumentedBackoff | src/source/ris_live_websocket_source.cpp:111-153 | the same for every valid source, across calls |
| Backoff.RisLiveSource.Attempt | src/source/ris_live_websocket_source.cpp:127-149 | one connect and the delay fields after success, refusal, or the last refusal |
| Backoff.RisLiveSource.OneTry | src/source/ris_live_websocket_source.cpp:113-149 | one turn of the reconnect loop polls at most once more than its rest has chunks and tries once unless stopped |
| Backoff.RisLiveSource.ReconnectWithBackoff | src/source/ris_live_websocket_source.cpp:111-153 | at most the allowed attempts, all but a last successful one refused; gives up only when stopped or out of attempts, and with a limit always ends by itself; every other refusal doubles the delay; the trace only grows |
| Backoff.RisLiveSource.EnsureConnected | src/source/ris_live_websocket_source.cpp:85-109 | no network use while connected; with reconnecting off exactly one attempt unless stopped, and its answer is the result |
| Backoff.RisLiveSource.LoseConnection | src/source/ris_live_websocket_source.cpp:193-199 | a broken link asks for a delay before the next attempt and keeps the delay reached |
| Backoff.RisLiveSource.NextMessage | src/source/ris_live_websocket_source.cpp:63-83 | the first message that can be read, over any number of connections |

## Left out

- Files, clocks, signals, the keypress thread and console output: texts and times are parameters; the
  source's answers, stop requests and signals come in as ticks or scripts.
- JSON text: the parser starts from a value tree, with a malformed case that emits nothing.
- `inet_pton` and `inet_ntop` for IPv6 are an assumed pair (`Prefix.Inet6`) that prints readably and
  reads back what it prints; `Prefix.ToyIsLawful` shows the assumption can be met.
- The callback is modelled as a list of events the ingest side applies in order; the interleaving of
  parsing and applying cannot be observed.
- Prefix records are values in a map: updating one through a reference becomes reading it, changing
  it and storing it back. Aliasing of records is not modelled.
- Counters of `size_t`, the attempt counter included, are unbounded; peer counts, ids and ASNs are 32
  bits wide and the backoff delay is 64 bits wide.
- Rates, uptimes and the rolling sum are real numbers, without floating-point rounding.
- `std::stoul` is that of a platform whose unsigned long has 64 bits.
- SnapshotIO.LoadSnapshot: what is left in registry and state after a failure later than the reading of
  lines is not specified.
- SnapshotIO.ReadSnapshotLine: error texts and line numbers are reduced to the kind of error; the test
  for a missing header after the loop cannot succeed and is omitted.
- RoutingTable.AnnounceImpl: once a counter has wrapped, only the observed view is described, not what
  counters and caches hold; that takes 2^32 peers announcing one origin for one prefix.
- Ingest.IngestLoop: requires a free id for each peer its messages name that the registry does not know,
  and one id left over; otherwise the registry breaks (`System.RunCoherentIff`).
- Session.RunSession: requires the same of whatever system the snapshot loads as (`RoomBelowLast` says
  when); a session aborted by a bad prefix leaves no output.
- Restart.RestartsUnobservable: requires that new peers are handed free ids, in the interrupted run at
  each event (`Admits`) and in the uninterrupted one as a whole; restarts may use up more ids, since a
  peer that was dropped takes a new one when it comes back.
- Hash functions, small-vector capacity, the configuration file, the JSONL source, the demo program,
  peer key printing, `all_peers`, the CSV writer and `format_duration_hms`.
- TLS, WebSocket and resolver handling: connecting and subscribing are one success or refusal.
