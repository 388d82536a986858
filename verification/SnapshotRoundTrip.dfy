/** Loading a saved snapshot restores the observations and the peers they use. */
module SnapshotRoundTrip {
  import opened Base
  import opened Text
  import opened Ordering
  import opened Prefix
  import opened Selection
  import opened PeerRegistry
  import opened RoutingState
  import opened System
  import opened SnapshotFormat
  import opened SnapshotCounter

  // ----- Lines of the two sections -----

  predicate CleanField(s: string) {
    '\t' !in s && '\n' !in s
  }

  predicate CleanPeer(peer: PeerInfo) {
    CleanField(peer.host) && CleanField(peer.peerIp)
  }

  lemma FieldsOf(a: string, b: string, c: string, d: string)
    requires '\t' !in a && '\t' !in b && '\t' !in c && '\t' !in d
    ensures Split(a + "\t" + (b + "\t" + (c + "\t" + d)), '\t') == [a, b, c, d]
  {
    SplitLast(d, '\t');
    SplitMore(c, '\t', d, [d]);
    SplitMore(b, '\t', c + "\t" + d, [c] + [d]);
    SplitMore(a, '\t', b + "\t" + (c + "\t" + d), [b] + ([c] + [d]));
  }

  lemma FiveFields(a: string, b: string, c: string, d: string, e: string)
    requires '\t' !in a && '\t' !in b && '\t' !in c && '\t' !in d && '\t' !in e
    ensures Split(a + "\t" + (b + "\t" + (c + "\t" + (d + "\t" + e))), '\t') == [a, b, c, d, e]
  {
    FieldsOf(b, c, d, e);
    SplitMore(a, '\t', b + "\t" + (c + "\t" + (d + "\t" + e)), [b, c, d, e]);
  }

  /** A line whose first character is neither blank nor a bracket is a data line. */
  lemma DataLine(r: Reader, line: string)
    requires r.sawHeader && line != [] && !IsBlank(line[0]) && line[0] != '['
    ensures ReadLine(r, line) == match r.section
      case NoSection => Err(DataBeforeSection)
      case Peers => ReadPeer(r, Split(line, '\t'))
      case ObservationsSection => ReadObservation(r, Split(line, '\t'))
  {
    assert TrimLeft(line) == line;
    TrimRightKeepsFirst(line);
    assert Trim(line)[0] == line[0];
    assert PEERS_MARK[0] == '[' && OBSERVATIONS_MARK[0] == '[';
  }

  lemma PeerLineReads(r: Reader, id: uint32, peer: PeerInfo)
    requires r.sawHeader && r.section == Peers && id !in r.peers && CleanPeer(peer)
    ensures ReadLine(r, PeerLine(id, peer)) == Ok(r.(peers := r.peers[id := peer]))
    ensures '\n' !in PeerLine(id, peer)
  {
    var line := PeerLine(id, peer);
    assert line[0] == Decimal(id)[0] && IsDigit(line[0]);
    DataLine(r, line);
    PeerFields(id, peer);
    PeerFieldsRead(r, id, peer);
  }

  lemma PeerFields(id: uint32, peer: PeerInfo)
    requires CleanPeer(peer)
    ensures Split(PeerLine(id, peer), '\t') == [Decimal(id), peer.host, peer.peerIp, Decimal(peer.peerAsn)]
    ensures '\n' !in PeerLine(id, peer)
  {
    NotADigit(id, '\t');
    NotADigit(peer.peerAsn, '\t');
    FieldsOf(Decimal(id), peer.host, peer.peerIp, Decimal(peer.peerAsn));
    NotADigit(id, '\n');
    NotADigit(peer.peerAsn, '\n');
  }

  lemma PeerFieldsRead(r: Reader, id: uint32, peer: PeerInfo)
    requires id !in r.peers
    ensures ReadPeer(r, [Decimal(id), peer.host, peer.peerIp, Decimal(peer.peerAsn)])
         == Ok(r.(peers := r.peers[id := peer]))
  {
    StoulU32OfDecimal(id);
    StoulU32OfDecimal(peer.peerAsn);
  }

  lemma ObservationFields(o: SnapshotObservation)
    requires CleanField(o.prefixText)
    ensures Split(ObservationLine(o), '\t')
         == [FamilyText(o.family), o.prefixText, Decimal(o.peerId), Decimal(o.originAsn), Decimal(o.timestamp)]
  {
    var id, asn, ts := Decimal(o.peerId), Decimal(o.originAsn), Decimal(o.timestamp);
    NotADigit(o.peerId, '\t');
    NotADigit(o.originAsn, '\t');
    NotADigit(o.timestamp, '\t');
    FiveFields(FamilyText(o.family), o.prefixText, id, asn, ts);
  }

  lemma ObservationLineChars(o: SnapshotObservation)
    requires CleanField(o.prefixText)
    ensures '\n' !in ObservationLine(o) && ObservationLine(o)[0] == 'v'
  {
    NotADigit(o.peerId, '\n');
    NotADigit(o.originAsn, '\n');
    NotADigit(o.timestamp, '\n');
  }

  lemma ObservationParses(o: SnapshotObservation)
    ensures ParseObservation(
      [FamilyText(o.family), o.prefixText, Decimal(o.peerId), Decimal(o.originAsn), Decimal(o.timestamp)]) == Ok(o)
  {
    StoulU32OfDecimal(o.peerId);
    StoulU32OfDecimal(o.originAsn);
    StoullOfDecimal(o.timestamp);
  }

  lemma ObservationLineReads(r: Reader, o: SnapshotObservation)
    requires r.sawHeader && r.section == ObservationsSection && CleanField(o.prefixText)
    ensures ReadLine(r, ObservationLine(o)) == Ok(r.(observations := r.observations + [o]))
  {
    ObservationLineChars(o);
    DataLine(r, ObservationLine(o));
    ObservationFields(o);
    ObservationParses(o);
  }

  lemma {:induction false} ReadLinesConcat(r: Reader, a: seq<string>, b: seq<string>)
    ensures ReadLines(r, a + b)
         == if ReadLines(r, a).Err? then ReadLines(r, a) else ReadLines(ReadLines(r, a).value, b)
    decreases |a|
  {
    if a == [] {
      assert a + b == b;
    } else {
      assert (a + b)[1..] == a[1..] + b;
      if ReadLine(r, a[0]).Ok? {
        ReadLinesConcat(ReadLine(r, a[0]).value, a[1..], b);
      }
    }
  }

  lemma {:induction false} PeerLinesRead(r: Reader, ids: seq<uint32>, byId: map<uint32, PeerInfo>)
    requires r.sawHeader && r.section == Peers && NoDuplicates(ids)
    requires forall id <- ids :: id in byId && id !in r.peers && CleanPeer(byId[id])
    ensures ReadLines(r, PeerLines(ids, byId))
         == Ok(r.(peers := r.peers + PickedPeers(ids, byId)))
    decreases |ids|
  {
    if ids == [] {
      assert r.peers + PickedPeers(ids, byId) == r.peers;
    } else {
      var id := ids[0];
      PeerLineReads(r, id, byId[id]);
      var r' := r.(peers := r.peers[id := byId[id]]);
      PeerLinesRead(r', ids[1..], byId);
      PickedPeersStep(r.peers, ids, byId);
    }
  }

  ghost function PickedPeers(ids: seq<uint32>, byId: map<uint32, PeerInfo>): map<uint32, PeerInfo> {
    map id | id in ids && id in byId :: byId[id]
  }

  lemma PickedPeersStep(peers: map<uint32, PeerInfo>, ids: seq<uint32>, byId: map<uint32, PeerInfo>)
    requires ids != [] && ids[0] in byId
    ensures peers[ids[0] := byId[ids[0]]] + PickedPeers(ids[1..], byId) == peers + PickedPeers(ids, byId)
  {
    assert ids == [ids[0]] + ids[1..];
  }

  lemma ShiftHead<T>(a: seq<T>, b: seq<T>)
    requires b != []
    ensures a + [b[0]] + b[1..] == a + b
  {}

  lemma {:induction false} ObservationLinesRead(r: Reader, observations: seq<SnapshotObservation>)
    requires r.sawHeader && r.section == ObservationsSection
    requires forall o <- observations :: CleanField(o.prefixText)
    ensures ReadLines(r, ObservationLines(observations)) == Ok(r.(observations := r.observations + observations))
    decreases |observations|
  {
    if observations == [] {
      assert r.observations + observations == r.observations;
    } else {
      ObservationLineReads(r, observations[0]);
      var r' := r.(observations := r.observations + [observations[0]]);
      ObservationLinesRead(r', observations[1..]);
      ShiftHead(r.observations, observations);
    }
  }

  // ----- Observations come back -----

  ghost predicate CanonicalView(view: View<BinaryPrefix, uint32>) {
    forall p :: p in view ==> Canonical(p)
  }

  /** The prefix a line's text denotes, where it denotes one. */
  ghost function PrefixIn(c: Inet6, o: SnapshotObservation): BinaryPrefix {
    var p := ParseAs(c, o.family, o.prefixText);
    if p.Ok? then p.value else V4(PrefixV4(0, 0))
  }

  /** A line's observation names a registered peer and a prefix that parses to one of the view. */
  ghost predicate ReadsAs(c: Inet6, peers: map<uint32, PeerInfo>, view: View<BinaryPrefix, uint32>,
                          o: SnapshotObservation) {
    && o.peerId in peers
    && ParseAs(c, o.family, o.prefixText).Ok?
    && Lookup(view, PrefixIn(c, o), o.peerId) == Some(Seen(o.originAsn, o.timestamp))
  }

  lemma PrintedReadsAs(c: Inet6, peers: map<uint32, PeerInfo>, view: View<BinaryPrefix, uint32>, o: StoredObservation)
    requires CanonicalView(view) && IsObserved(view, o) && o.peerId in peers
    ensures ReadsAs(c, peers, view, Printed(c, o)) && CleanField(Printed(c, o).prefixText)
    ensures PrefixIn(c, Printed(c, o)) == o.prefix
  {
    PrefixRoundTrip(c, o.prefix);
    PrintedChars(c, o.prefix);
  }

  /** Replaying observations of a view gives nothing but the view's entries, and all those replayed. */
  lemma {:induction false} RestoreLookups(c: Inet6, peers: map<uint32, PeerInfo>, view: View<BinaryPrefix, uint32>,
                                          start: View<BinaryPrefix, uint32>, observations: seq<SnapshotObservation>)
    requires forall o <- observations :: ReadsAs(c, peers, view, o)
    requires NoEmptyRows(start)
    ensures Restore(c, peers, start, observations).Ok?
    ensures var v := Restore(c, peers, start, observations).value;
      && NoEmptyRows(v)
      && (forall p, q :: Lookup(v, p, q) in {Lookup(start, p, q), Lookup(view, p, q)})
      && (forall o <- observations ::
        Lookup(v, PrefixIn(c, o), o.peerId) == Some(Seen(o.originAsn, o.timestamp)))
    decreases |observations|
  {
    if observations == [] {
    } else {
      var o := observations[0];
      var p0 := PrefixIn(c, o);
      var seen := Seen(o.originAsn, o.timestamp);
      var next := Announced(start, p0, o.peerId, seen);
      UpdatesKeepRows(start, p0, o.peerId, seen);
      assert ReadsAs(c, peers, view, o);
      RestoreLookups(c, peers, view, next, observations[1..]);
      assert Restore(c, peers, start, observations) == Restore(c, peers, next, observations[1..]);
      var v := Restore(c, peers, start, observations).value;
      forall p, q ensures Lookup(v, p, q) in {Lookup(start, p, q), Lookup(view, p, q)} {
        AnnouncedLookup(start, p0, o.peerId, seen, p, q);
        assert Lookup(v, p, q) in {Lookup(next, p, q), Lookup(view, p, q)};
      }
      AnnouncedLookup(start, p0, o.peerId, seen, p0, o.peerId);
      assert Lookup(v, p0, o.peerId) in {Lookup(next, p0, o.peerId), Lookup(view, p0, o.peerId)};
    }
  }

  /** Observations listing a whole view, in any order, restore that view. */
  lemma RestoreWhole(c: Inet6, peers: map<uint32, PeerInfo>, view: View<BinaryPrefix, uint32>,
                     observations: seq<SnapshotObservation>)
    requires NoEmptyRows(view) && CanonicalView(view)
    requires forall o <- observations :: ReadsAs(c, peers, view, o)
    requires forall o :: IsObserved(view, o) ==> o.peerId in peers && Printed(c, o) in observations
    ensures Restore(c, peers, map[], observations) == Ok(view)
  {
    RestoreLookups(c, peers, view, map[], observations);
    var v := Restore(c, peers, map[], observations).value;
    forall p, q ensures Lookup(v, p, q) == Lookup(view, p, q) {
      assert Lookup(v, p, q) in {Lookup(map[], p, q), Lookup(view, p, q)};
      if Lookup(view, p, q).Some? {
        var o := StoredObservation(p, q, Lookup(view, p, q).value);
        PrintedReadsAs(c, peers, view, o);
      }
    }
    SameLookups(v, view);
  }

  // ----- The whole round trip -----

  /** The registry after saving and loading: only peers that still observe something. */
  ghost function UsedPeers(s: System): map<uint32, PeerInfo> {
    map id | id in s.byId && id in UsedIds(s.view) :: s.byId[id]
  }

  lemma UsedPeersInjective(s: System)
    requires MutualInverses(s.byInfo, s.byId)
    ensures Injective(UsedPeers(s))
  {}

  /** What is left after saving: the peers that still observe something, and the observations. */
  ghost function UsedContents(s: System): Contents {
    Contents(UsedPeers(s), s.view)
  }

  ghost function Restarted(s: System): System
    requires MutualInverses(s.byInfo, s.byId)
  {
    UsedPeersInjective(s);
    Rebuilt(UsedPeers(s), s.view)
  }

  /** The contents saved from a valid system load as one system only. */
  lemma OnlyRestarted(s: System, t: System)
    requires ValidSystem(s)
    ensures IsLoaded(t, UsedContents(s)) <==> t == Restarted(s)
  {
    UsedPeersInjective(s);
    LoadedUnique(t, UsedContents(s));
  }

  ghost predicate UsedPeersClean(s: System) {
    forall id :: id in UsedPeers(s) ==> CleanPeer(UsedPeers(s)[id])
  }

  lemma UsedIsRegistered(s: System)
    requires Coherent(s)
    ensures UsedIds(s.view) <= s.byId.Keys
  {
    forall q | q in UsedIds(s.view) ensures q in s.byId {
      var o :| IsObserved(s.view, o) && o.peerId == q;
    }
  }

  /** Reading the printed lines gathers the used peers and the sorted observations. */
  lemma SnapshotLinesRead(c: Inet6, s: System)
    requires Coherent(s) && CanonicalView(s.view) && UsedPeersClean(s) && UsedIds(s.view) <= s.byId.Keys
    ensures ReadLines(START, SnapshotLines(c, s.byId, s.view))
         == Ok(Reader(ObservationsSection, true, UsedPeers(s), PrintedObservations(c, s.view)))
  {
    var ids, observations := PrintedIds(s.view), PrintedObservations(c, s.view);
    var opening, peerLines := [HEADER, "", PEERS_MARK], PeerLines(ids, s.byId);
    var middle, observationLines := ["", OBSERVATIONS_MARK], ObservationLines(observations);
    var r1 := Reader(Peers, true, map[], []);
    var r2 := r1.(peers := UsedPeers(s));
    var r3 := r2.(section := ObservationsSection);
    OpeningReads();
    assert ReadLines(r1, peerLines) == Ok(r2) by {
      UsedPeerLinesRead(s, r1);
    }
    MiddleReads(r2);
    forall o | o in observations ensures CleanField(o.prefixText) {
      var st :| IsObserved(s.view, st) && Printed(c, st) == o;
      PrintedChars(c, st.prefix);
    }
    ObservationLinesRead(r3, observations);
    assert r3.observations + observations == observations;
    ReadFourParts(opening, peerLines, middle, observationLines, r1, r2, r3);
  }

  lemma PrintedIdsAreUsed(s: System)
    requires UsedIds(s.view) <= s.byId.Keys
    ensures PickedPeers(PrintedIds(s.view), s.byId) == UsedPeers(s)
    ensures forall id <- PrintedIds(s.view) :: id in UsedPeers(s)
  {
    var ids := PrintedIds(s.view);
    forall id ensures id in ids <==> id in UsedIds(s.view) {
      assert id in ids <==> id in (set q | q in ids);
    }
  }

  lemma UsedPeerLinesRead(s: System, r: Reader)
    requires UsedPeersClean(s) && UsedIds(s.view) <= s.byId.Keys
    requires r.sawHeader && r.section == Peers && r.peers == map[]
    ensures ReadLines(r, PeerLines(PrintedIds(s.view), s.byId)) == Ok(r.(peers := UsedPeers(s)))
  {
    var ids := PrintedIds(s.view);
    PrintedIdsAreUsed(s);
    PeerLinesRead(r, ids, s.byId);
    NothingPlus(UsedPeers(s));
  }

  lemma NothingPlus<K, V>(m: map<K, V>)
    ensures map[] + m == m
  {}

  lemma ReadFourParts(a: seq<string>, b: seq<string>, c: seq<string>, d: seq<string>, r1: Reader, r2: Reader, r3: Reader)
    requires ReadLines(START, a) == Ok(r1) && ReadLines(r1, b) == Ok(r2) && ReadLines(r2, c) == Ok(r3)
    ensures ReadLines(START, a + b + c + d) == ReadLines(r3, d)
  {
    ReadLinesConcat(START, a, b);
    ReadLinesConcat(START, a + b, c);
    ReadLinesConcat(START, a + b + c, d);
  }

  lemma ReadOneMore(r: Reader, line: string, rest: seq<string>, r': Reader)
    requires ReadLine(r, line) == Ok(r')
    ensures ReadLines(r, [line] + rest) == ReadLines(r', rest)
  {
    assert ([line] + rest)[1..] == rest;
  }

  lemma OpeningReads()
    ensures ReadLines(START, [HEADER, "", PEERS_MARK]) == Ok(Reader(Peers, true, map[], []))
  {
    var r := START.(sawHeader := true);
    TrimPlain(HEADER);
    TrimPlain(PEERS_MARK);
    ReadOneMore(START, HEADER, ["", PEERS_MARK], r);
    ReadOneMore(r, "", [PEERS_MARK], r);
    ReadOneMore(r, PEERS_MARK, [], r.(section := Peers));
    assert [HEADER] + ["", PEERS_MARK] == [HEADER, "", PEERS_MARK];
    assert [""] + [PEERS_MARK] == ["", PEERS_MARK];
    assert [PEERS_MARK] + [] == [PEERS_MARK];
  }

  lemma MiddleReads(r: Reader)
    requires r.sawHeader
    ensures ReadLines(r, ["", OBSERVATIONS_MARK]) == Ok(r.(section := ObservationsSection))
  {
    TrimPlain(OBSERVATIONS_MARK);
    assert OBSERVATIONS_MARK[1] != PEERS_MARK[1];
    ReadOneMore(r, "", [OBSERVATIONS_MARK], r);
    ReadOneMore(r, OBSERVATIONS_MARK, [], r.(section := ObservationsSection));
    assert [""] + [OBSERVATIONS_MARK] == ["", OBSERVATIONS_MARK];
    assert [OBSERVATIONS_MARK] + [] == [OBSERVATIONS_MARK];
  }

  lemma TrimPlain(s: string)
    requires s != [] && !IsBlank(s[0]) && !IsBlank(s[|s| - 1])
    ensures Trim(s) == s
  {}

  lemma {:induction false} PeerLinesNoNewline(ids: seq<uint32>, byId: map<uint32, PeerInfo>)
    requires forall id <- ids :: id in byId && CleanPeer(byId[id])
    ensures forall line <- PeerLines(ids, byId) :: '\n' !in line
    decreases |ids|
  {
    if ids == [] {
    } else {
      NotADigit(ids[0], '\n');
      NotADigit(byId[ids[0]].peerAsn, '\n');
      PeerLinesNoNewline(ids[1..], byId);
    }
  }

  lemma {:induction false} ObservationLinesNoNewline(observations: seq<SnapshotObservation>)
    requires forall o <- observations :: CleanField(o.prefixText)
    ensures forall line <- ObservationLines(observations) :: '\n' !in line
    decreases |observations|
  {
    if observations == [] {
    } else {
      ObservationLineChars(observations[0]);
      ObservationLinesNoNewline(observations[1..]);
    }
  }

  lemma PrintedObservationsClean(c: Inet6, view: View<BinaryPrefix, uint32>)
    requires CanonicalView(view)
    ensures forall o <- PrintedObservations(c, view) :: CleanField(o.prefixText)
  {
    forall o | o in PrintedObservations(c, view) ensures CleanField(o.prefixText) {
      var st :| IsObserved(view, st) && Printed(c, st) == o;
      PrintedChars(c, st.prefix);
    }
  }

  lemma SnapshotIsLines(c: Inet6, s: System)
    requires CanonicalView(s.view) && UsedPeersClean(s) && UsedIds(s.view) <= s.byId.Keys
    ensures Lines(SnapshotText(c, s.byId, s.view)) == SnapshotLines(c, s.byId, s.view)
  {
    PrintedIdsAreUsed(s);
    PeerLinesNoNewline(PrintedIds(s.view), s.byId);
    PrintedObservationsClean(c, s.view);
    ObservationLinesNoNewline(PrintedObservations(c, s.view));
    LinesOfUnlines(SnapshotLines(c, s.byId, s.view));
  }

  lemma PrintedObservationsRestore(c: Inet6, s: System)
    requires Coherent(s) && CanonicalView(s.view)
    ensures Restore(c, UsedPeers(s), map[], PrintedObservations(c, s.view)) == Ok(s.view)
  {
    var observations := PrintedObservations(c, s.view);
    UsedIsRegistered(s);
    forall o | o in observations ensures ReadsAs(c, UsedPeers(s), s.view, o) {
      var st :| IsObserved(s.view, st) && Printed(c, st) == o;
      assert st.peerId in UsedIds(s.view);
      PrintedReadsAs(c, UsedPeers(s), s.view, st);
    }
    forall st | IsObserved(s.view, st) ensures st.peerId in UsedPeers(s) && Printed(c, st) in observations {
      assert st.peerId in UsedIds(s.view);
    }
    RestoreWhole(c, UsedPeers(s), s.view, observations);
  }

  /** Saving and loading a system whose used peers have clean names gives its restart. */
  lemma CleanRoundTrip(c: Inet6, s: System)
    requires Coherent(s) && CanonicalView(s.view) && UsedPeersClean(s) && UsedIds(s.view) <= s.byId.Keys
    ensures LoadText(c, SnapshotText(c, s.byId, s.view)) == Ok(UsedContents(s))
  {
    SnapshotIsLines(c, s);
    SnapshotLinesRead(c, s);
    ObservationLeTotal();
    SortedStaysPut(ObservationLe, PrintedObservations(c, s.view));
    PrintedObservationsRestore(c, s);
    UsedPeersInjective(s);
  }

  // ----- And no other system round-trips -----

  lemma ReadLineKeepsClean(r: Reader, line: string)
    requires '\n' !in line && forall id :: id in r.peers ==> CleanPeer(r.peers[id])
    requires ReadLine(r, line).Ok?
    ensures forall id :: id in ReadLine(r, line).value.peers ==> CleanPeer(ReadLine(r, line).value.peers[id])
  {
    SplitClean(line, '\t');
    var fields := Split(line, '\t');
    forall i | 0 <= i < |fields| ensures CleanField(fields[i]) {
      assert fields[i] in fields;
    }
  }

  lemma {:induction false} ReadLinesKeepClean(r: Reader, lines: seq<string>)
    requires forall line <- lines :: '\n' !in line
    requires forall id :: id in r.peers ==> CleanPeer(r.peers[id])
    requires ReadLines(r, lines).Ok?
    ensures forall id :: id in ReadLines(r, lines).value.peers ==> CleanPeer(ReadLines(r, lines).value.peers[id])
    decreases |lines|
  {
    if lines == [] {
    } else {
      ReadLineKeepsClean(r, lines[0]);
      ReadLinesKeepClean(ReadLine(r, lines[0]).value, lines[1..]);
    }
  }

  /** No text loads to a peer whose name has a tab or a newline. */
  lemma LoadedPeersClean(c: Inet6, text: string)
    requires LoadText(c, text).Ok?
    ensures forall id :: id in LoadText(c, text).value.peers ==> CleanPeer(LoadText(c, text).value.peers[id])
  {
    LinesHaveNoNewline(text);
    ReadLinesKeepClean(START, Lines(text));
  }

  /**
   * Saving and loading gives back the observations and the used peers exactly when no used peer's
   * host or address holds a tab or a newline.
   */
  lemma RoundTripIffClean(c: Inet6, s: System)
    requires Coherent(s) && CanonicalView(s.view)
    ensures UsedIds(s.view) <= s.byId.Keys
    ensures LoadText(c, SnapshotText(c, s.byId, s.view)) == Ok(UsedContents(s)) <==> UsedPeersClean(s)
  {
    UsedIsRegistered(s);
    if UsedPeersClean(s) {
      CleanRoundTrip(c, s);
    }
    if LoadText(c, SnapshotText(c, s.byId, s.view)) == Ok(UsedContents(s)) {
      LoadedPeersClean(c, SnapshotText(c, s.byId, s.view));
    }
  }

  /** One peer observing one prefix. */
  function Lone(info: PeerInfo, p: BinaryPrefix, seen: Seen): System {
    System(map[info := 1], map[1 := info], 2, map[p := map[1 := seen]])
  }

  lemma LoneIsValid(info: PeerInfo, p: BinaryPrefix, seen: Seen)
    requires Canonical(p)
    ensures var s := Lone(info, p, seen);
      && ValidSystem(s) && CanonicalView(s.view) && UsedIds(s.view) <= s.byId.Keys
      && 1 in UsedPeers(s) && UsedPeers(s)[1] == info
  {
    var s := Lone(info, p, seen);
    assert 1 in s.view[p];
    UsedIsRegistered(s);
    assert IsObserved(s.view, StoredObservation(p, 1, seen));
  }

  /** A tab in a host name is enough to lose the round trip. */
  lemma TabBreaksRoundTrip(c: Inet6)
    ensures var s := Lone(PeerInfo("a\tb", "", 0), V4(PrefixV4(0, 0)), Seen(0, 0));
      && ValidSystem(s) && CanonicalView(s.view) && UsedIds(s.view) <= s.byId.Keys
      && LoadText(c, SnapshotText(c, s.byId, s.view)) != Ok(UsedContents(s))
  {
    var info := PeerInfo("a\tb", "", 0);
    assert info.host[1] == '\t';
    LoneIsValid(info, V4(PrefixV4(0, 0)), Seen(0, 0));
    RoundTripIffClean(c, Lone(info, V4(PrefixV4(0, 0)), Seen(0, 0)));
  }
}
