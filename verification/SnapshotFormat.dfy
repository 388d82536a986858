/**
 * The snapshot format (src/snapshot/snapshot_io.cpp) as functions: what text a system prints, and
 * what a text denotes. SnapshotIO proves the printing and reading loops against these.
 */
module SnapshotFormat {
  import opened Base
  import opened Text
  import opened Ordering
  import opened Prefix
  import opened Selection
  import opened PeerRegistry
  import opened RoutingState
  import opened System

  const HEADER := "# ASNPrefixMap snapshot v1"
  const PEERS_MARK := "[peers]"
  const OBSERVATIONS_MARK := "[observations]"

  datatype SnapshotObservation = SnapshotObservation(
    family: Family, prefixText: string, peerId: uint32, originAsn: uint32, timestamp: uint64)

  // ----- The five-key order -----

  function FamilyRank(f: Family): nat {
    if f == FamilyV4 then 0 else 1
  }

  predicate ObservationLe(a: SnapshotObservation, b: SnapshotObservation) {
    if a.family != b.family then FamilyRank(a.family) < FamilyRank(b.family)
    else if a.prefixText != b.prefixText then StrLe(a.prefixText, b.prefixText)
    else if a.peerId != b.peerId then a.peerId < b.peerId
    else if a.originAsn != b.originAsn then a.originAsn < b.originAsn
    else a.timestamp <= b.timestamp
  }

  lemma ObservationLeTotal()
    ensures TotalOrder(ObservationLe)
  {
    forall a, b
      ensures ObservationLe(a, b) || ObservationLe(b, a)
      ensures ObservationLe(a, b) && ObservationLe(b, a) ==> a == b
    {
      StrLeTotal(a.prefixText, b.prefixText);
    }
    forall a, b, c | ObservationLe(a, b) && ObservationLe(b, c) ensures ObservationLe(a, c) {
      StrLeTotal(a.prefixText, b.prefixText);
      if StrLe(a.prefixText, b.prefixText) && StrLe(b.prefixText, c.prefixText) {
        StrLeTransitive(a.prefixText, b.prefixText, c.prefixText);
        StrLeTotal(b.prefixText, c.prefixText);
      }
    }
  }

  predicate IdLe(a: uint32, b: uint32) {
    a <= b
  }

  lemma IdLeTotal()
    ensures TotalOrder(IdLe)
  {}

  // ----- Printing -----

  function FamilyText(f: Family): string {
    if f == FamilyV4 then "v4" else "v6"
  }

  function PeerLine(id: uint32, peer: PeerInfo): string {
    Decimal(id) + "\t" + (peer.host + "\t" + (peer.peerIp + "\t" + Decimal(peer.peerAsn)))
  }

  function ObservationLine(o: SnapshotObservation): string {
    FamilyText(o.family) + "\t" + (o.prefixText + "\t" +
    (Decimal(o.peerId) + "\t" + (Decimal(o.originAsn) + "\t" + Decimal(o.timestamp))))
  }

  function PeerLines(ids: seq<uint32>, byId: map<uint32, PeerInfo>): (lines: seq<string>)
    requires forall id <- ids :: id in byId
    ensures |lines| == |ids|
  {
    if ids == [] then [] else [PeerLine(ids[0], byId[ids[0]])] + PeerLines(ids[1..], byId)
  }

  function ObservationLines(observations: seq<SnapshotObservation>): (lines: seq<string>)
    ensures |lines| == |observations|
  {
    if observations == [] then [] else [ObservationLine(observations[0])] + ObservationLines(observations[1..])
  }

  /** The printed form of a stored observation. */
  function Printed(c: Inet6, o: StoredObservation): SnapshotObservation {
    SnapshotObservation(FamilyOf(o.prefix), ToString(c, o.prefix), o.peerId, o.seen.asn, o.seen.timestamp)
  }

  function PrintedAll(c: Inet6, stored: seq<StoredObservation>): (r: seq<SnapshotObservation>)
    ensures |r| == |stored|
    ensures forall i :: 0 <= i < |r| ==> r[i] == Printed(c, stored[i])
  {
    seq(|stored|, i requires 0 <= i < |stored| => Printed(c, stored[i]))
  }

  ghost function UsedIds(view: View<BinaryPrefix, uint32>): (ids: set<uint32>)
    ensures forall q :: q in ids <==> exists o :: IsObserved(view, o) && o.peerId == q
  {
    var ids := set o | o in Observations(view) :: o.peerId;
    assert forall o :: IsObserved(view, o) ==> o in Observations(view);
    ids
  }

  /** The two sequences a snapshot prints, sorted. */
  ghost function PrintedIds(view: View<BinaryPrefix, uint32>): (ids: seq<uint32>)
    ensures SortedBy(IdLe, ids) && Lists(ids, UsedIds(view))
  {
    IdLeTotal();
    var ids := Sort(IdLe, Listing(UsedIds(view)));
    ListsMultiset(Listing(UsedIds(view)), UsedIds(view));
    MultisetLists(ids, UsedIds(view));
    ids
  }

  lemma PrintedMembers(c: Inet6, stored: seq<StoredObservation>, o: SnapshotObservation)
    ensures o in PrintedAll(c, stored) <==> exists st :: st in stored && Printed(c, st) == o
  {
    var printed := PrintedAll(c, stored);
    if o in printed {
      var i :| 0 <= i < |printed| && printed[i] == o;
      assert stored[i] in stored;
    }
    if st :| st in stored && Printed(c, st) == o {
      var i :| 0 <= i < |stored| && stored[i] == st;
      assert printed[i] == o;
    }
  }

  /** Sorting the printed listing of all observations keeps exactly the printed observations. */
  lemma SortedPrint(c: Inet6, view: View<BinaryPrefix, uint32>, stored: seq<StoredObservation>, o: SnapshotObservation)
    requires TotalOrder(ObservationLe) && Lists(stored, Observations(view))
    ensures o in Sort(ObservationLe, PrintedAll(c, stored)) <==> exists st :: IsObserved(view, st) && Printed(c, st) == o
  {
    var printed := PrintedAll(c, stored);
    var r := Sort(ObservationLe, printed);
    assert o in multiset(r) <==> o in multiset(printed);
    PrintedMembers(c, stored, o);
    forall st ensures st in stored <==> IsObserved(view, st) {
      assert st in stored <==> st in (set x | x in stored);
    }
  }

  ghost function PrintedObservations(c: Inet6, view: View<BinaryPrefix, uint32>): (r: seq<SnapshotObservation>)
    ensures SortedBy(ObservationLe, r)
    ensures forall o :: o in r <==> exists st :: IsObserved(view, st) && Printed(c, st) == o
  {
    ObservationLeTotal();
    var stored := Listing(Observations(view));
    var r := Sort(ObservationLe, PrintedAll(c, stored));
    assert forall o :: o in r <==> exists st :: IsObserved(view, st) && Printed(c, st) == o by {
      forall o ensures o in r <==> exists st :: IsObserved(view, st) && Printed(c, st) == o {
        SortedPrint(c, view, stored, o);
      }
    }
    r
  }

  ghost function SnapshotLines(c: Inet6, byId: map<uint32, PeerInfo>, view: View<BinaryPrefix, uint32>): seq<string>
    requires UsedIds(view) <= byId.Keys
  {
    [HEADER, "", PEERS_MARK] + PeerLines(PrintedIds(view), byId) + ["", OBSERVATIONS_MARK] +
    ObservationLines(PrintedObservations(c, view))
  }

  /** The text a snapshot of these observations has. */
  ghost function SnapshotText(c: Inet6, byId: map<uint32, PeerInfo>, view: View<BinaryPrefix, uint32>): string
    requires UsedIds(view) <= byId.Keys
  {
    Unlines(SnapshotLines(c, byId, view))
  }

  // ----- Reading -----

  datatype Section = NoSection | Peers | ObservationsSection

  datatype LoadError =
    | BadHeader | UnknownSection | DataBeforeSection
    | PeerFieldCount | ObservationFieldCount | DuplicatePeerId | BadNumber | BadFamily
    | RepeatedIdentity | UnknownPeer | BadPrefix(error: PrefixError)

  /** What the reader has gathered so far. */
  datatype Reader = Reader(section: Section, sawHeader: bool, peers: map<uint32, PeerInfo>,
                           observations: seq<SnapshotObservation>)

  const START := Reader(NoSection, false, map[], [])

  function ParseFamily(text: string): Result<Family, LoadError> {
    if text == "v4" then Ok(FamilyV4) else if text == "v6" then Ok(FamilyV6) else Err(BadFamily)
  }

  function ReadPeer(r: Reader, fields: seq<string>): Result<Reader, LoadError> {
    if |fields| != 4 then Err(PeerFieldCount)
    else
      var id := StoulU32(fields[0]);
      if id == None then Err(BadNumber)
      else if id.value in r.peers then Err(DuplicatePeerId)
      else
        var asn := StoulU32(fields[3]);
        if asn == None then Err(BadNumber)
        else Ok(r.(peers := r.peers[id.value := PeerInfo(fields[1], fields[2], asn.value)]))
  }

  function ParseObservation(fields: seq<string>): Result<SnapshotObservation, LoadError> {
    if |fields| != 5 then Err(ObservationFieldCount)
    else
      var family := ParseFamily(fields[0]);
      var id := StoulU32(fields[2]);
      var asn := StoulU32(fields[3]);
      var timestamp := Stoull(fields[4]);
      if family.Err? then Err(family.error)
      else if id == None || asn == None || timestamp == None then Err(BadNumber)
      else Ok(SnapshotObservation(family.value, fields[1], id.value, asn.value, timestamp.value))
  }

  function ReadObservation(r: Reader, fields: seq<string>): Result<Reader, LoadError> {
    var o := ParseObservation(fields);
    if o.Err? then Err(o.error) else Ok(r.(observations := r.observations + [o.value]))
  }

  function ReadLine(r: Reader, line: string): Result<Reader, LoadError> {
    var trimmed := Trim(line);
    if trimmed == [] then Ok(r)
    else if !r.sawHeader then
      if trimmed != HEADER then Err(BadHeader) else Ok(r.(sawHeader := true))
    else if trimmed == PEERS_MARK then Ok(r.(section := Peers))
    else if trimmed == OBSERVATIONS_MARK then Ok(r.(section := ObservationsSection))
    else if trimmed[0] == '[' && trimmed[|trimmed| - 1] == ']' then Err(UnknownSection)
    else match r.section
      case NoSection => Err(DataBeforeSection)
      case Peers => ReadPeer(r, Split(line, '\t'))
      case ObservationsSection => ReadObservation(r, Split(line, '\t'))
  }

  function ReadLines(r: Reader, lines: seq<string>): Result<Reader, LoadError>
    decreases |lines|
  {
    if lines == [] then Ok(r)
    else
      var next := ReadLine(r, lines[0]);
      if next.Err? then next else ReadLines(next.value, lines[1..])
  }

  /** Replays sorted observations onto an empty routing state. */
  ghost function Restore(c: Inet6, peers: map<uint32, PeerInfo>, view: View<BinaryPrefix, uint32>,
                   observations: seq<SnapshotObservation>): Result<View<BinaryPrefix, uint32>, LoadError>
    decreases |observations|
  {
    if observations == [] then Ok(view)
    else
      var o := observations[0];
      if o.peerId !in peers then Err(UnknownPeer)
      else
        var p := ParseAs(c, o.family, o.prefixText);
        if p.Err? then Err(BadPrefix(p.error))
        else Restore(c, peers, Announced(view, p.value, o.peerId, Seen(o.originAsn, o.timestamp)), observations[1..])
  }

  /** The smallest counter value above every id, and at least 1. */
  ghost function NextAfter(ids: set<uint32>): (next: nat)
    ensures 1 <= next <= U32_LIMIT
    ensures forall id :: id in ids ==> id < next
    ensures next == 1 || exists id :: id in ids && id + 1 == next
  {
    if ids == {} then 1
    else
      var id :| id in ids;
      var rest := NextAfter(ids - {id});
      assert forall other :: other in ids <==> other == id || other in ids - {id};
      if id + 1 > rest then assert id in ids; id + 1 else rest
  }

  ghost function Inverse(peers: map<uint32, PeerInfo>): (byInfo: map<PeerInfo, uint32>)
    requires Injective(peers)
    ensures MutualInverses(byInfo, peers)
  {
    map info | info in peers.Values :: (var id :| id in peers && peers[id] == info; id)
  }

  lemma InverseUnique(a: map<PeerInfo, uint32>, b: map<PeerInfo, uint32>, peers: map<uint32, PeerInfo>)
    requires MutualInverses(a, peers) && MutualInverses(b, peers)
    ensures a == b
  {
    forall info ensures info in a <==> info in b {
      if info in a {
        assert peers[a[info]] in b;
      }
      if info in b {
        assert peers[b[info]] in a;
      }
    }
    forall info | info in a ensures a[info] == b[info] {
      assert peers[b[info]] == info;
    }
  }

  // ----- What a text denotes -----

  /** Peers and observations. The id counter is not part of it: that depends on the order of insertion. */
  datatype Contents = Contents(peers: map<uint32, PeerInfo>, view: View<BinaryPrefix, uint32>)

  /** The counter after inserting these ids, one after the other, into an empty registry. */
  function CounterOf(order: seq<uint32>): uint32 {
    if order == [] then 1 else CounterAfter(CounterOf(order[..|order| - 1]), order[|order| - 1])
  }

  /** Where the counter may stand, whatever order the hash map delivers the ids in. */
  ghost predicate PossibleCounter(ids: set<uint32>, next: uint32) {
    exists order :: Lists(order, ids) && CounterOf(order) == next
  }

  /** A system the contents may be loaded as. */
  ghost predicate IsLoaded(s: System, contents: Contents) {
    && s.byId == contents.peers && s.view == contents.view
    && MutualInverses(s.byInfo, s.byId)
    && PossibleCounter(contents.peers.Keys, s.next)
  }

  /** The registry holding exactly the given peers, its counter right above their ids; and the observations. */
  ghost function Rebuilt(peers: map<uint32, PeerInfo>, view: View<BinaryPrefix, uint32>): System
    requires Injective(peers)
  {
    System(Inverse(peers), peers, NextAfter(peers.Keys) % U32_LIMIT, view)
  }

  /** Everything after the last line was read. */
  ghost function Build(c: Inet6, r: Reader): Result<Contents, LoadError> {
    ObservationLeTotal();
    if !r.sawHeader then Ok(Contents(map[], map[]))
    else if !Injective(r.peers) then Err(RepeatedIdentity)
    else
      var view := Restore(c, r.peers, map[], Sort(ObservationLe, r.observations));
      if view.Err? then Err(view.error) else Ok(Contents(r.peers, view.value))
  }

  ghost function LoadLines(c: Inet6, lines: seq<string>): Result<Contents, LoadError> {
    var r := ReadLines(START, lines);
    if r.Err? then Err(r.error) else Build(c, r.value)
  }

  /** What a snapshot text denotes, or why it is refused. */
  ghost function LoadText(c: Inet6, text: string): Result<Contents, LoadError> {
    LoadLines(c, Lines(text))
  }
}
