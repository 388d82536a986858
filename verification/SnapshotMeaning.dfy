/**
 * What a saved text looks like and what a text denotes, in its own characters: the layout, the order
 * of the lines, which lines are accepted, and which of several lines about the same thing counts.
 */
module SnapshotMeaning {
  import opened Base
  import opened Text
  import opened Ordering
  import opened Prefix
  import opened Selection
  import opened PeerRegistry
  import opened RoutingTable
  import opened RoutingState
  import opened System
  import opened SnapshotFormat
  import opened SnapshotRoundTrip
  import opened SnapshotIO

  // ----- The saved text -----

  lemma TextLayout(c: Inet6, byId: map<uint32, PeerInfo>, view: View<BinaryPrefix, uint32>)
    requires UsedIds(view) <= byId.Keys
    ensures forall id <- PrintedIds(view) :: id in byId
    ensures SnapshotText(c, byId, view)
         == "# ASNPrefixMap snapshot v1" + "\n\n" + "[peers]" + "\n" + Unlines(PeerLines(PrintedIds(view), byId)) +
            "\n" + "[observations]" + "\n" + Unlines(ObservationLines(PrintedObservations(c, view)))
  {
    TextInParts(c, byId, view);
  }

  lemma {:induction false} PeerLineAt(ids: seq<uint32>, byId: map<uint32, PeerInfo>, k: nat)
    requires (forall id <- ids :: id in byId) && k < |ids|
    ensures var peer := byId[ids[k]];
      PeerLines(ids, byId)[k] ==
        Decimal(ids[k]) + "\t" + (peer.host + "\t" + (peer.peerIp + "\t" + Decimal(peer.peerAsn)))
  {
    if k == 0 {
    } else {
      PeerLineAt(ids[1..], byId, k - 1);
    }
  }

  lemma {:induction false} ObservationLineAt(observations: seq<SnapshotObservation>, k: nat)
    requires k < |observations|
    ensures ObservationLines(observations)[k] == ObservationLine(observations[k])
  {
    if k == 0 {
    } else {
      ObservationLineAt(observations[1..], k - 1);
    }
  }

  /** Each peer line names a used id, the ids ascending; every used id has its line. */
  lemma PeersInOrder(view: View<BinaryPrefix, uint32>, i: nat, j: nat, q: uint32)
    requires i < j < |PrintedIds(view)|
    ensures PrintedIds(view)[i] < PrintedIds(view)[j]
    ensures q in PrintedIds(view) <==> exists o :: IsObserved(view, o) && o.peerId == q
  {
    var ids := PrintedIds(view);
    assert IdLe(ids[i], ids[j]) && ids[i] != ids[j];
    PrintedIdsMembers(view);
  }

  lemma PrintedApart(c: Inet6, x: StoredObservation, y: StoredObservation)
    requires Printed(c, x) == Printed(c, y)
    ensures x == y
  {
    PrintingInjective(c, x.prefix, y.prefix);
  }

  /** No observation is printed twice. */
  lemma PrintedOnce(c: Inet6, view: View<BinaryPrefix, uint32>)
    ensures NoDuplicates(PrintedObservations(c, view))
    ensures |PrintedObservations(c, view)| == |Observations(view)|
  {
    ObservationLeTotal();
    var stored := Listing(Observations(view));
    var printed := PrintedAll(c, stored);
    forall i, j | 0 <= i < j < |printed| ensures printed[i] != printed[j] {
      if printed[i] == printed[j] {
        PrintedApart(c, stored[i], stored[j]);
      }
    }
    ListsMultiset(stored, Observations(view));
    SortedOnce(printed);
  }

  lemma SortedOnce(printed: seq<SnapshotObservation>)
    requires NoDuplicates(printed)
    ensures TotalOrder(ObservationLe)
    ensures NoDuplicates(Sort(ObservationLe, printed)) && |Sort(ObservationLe, printed)| == |printed|
  {
    ObservationLeTotal();
    var all := set o | o in printed;
    ListsMultiset(printed, all);
    MultisetLists(Sort(ObservationLe, printed), all);
    SameMembers(Sort(ObservationLe, printed), printed);
  }

  /**
   * Of two printed observations the first is the IPv4 one, or has the smaller prefix text, byte by
   * byte, or the smaller peer id.
   */
  lemma ObservationsInOrder(c: Inet6, view: View<BinaryPrefix, uint32>, i: nat, j: nat)
    requires i < j < |PrintedObservations(c, view)|
    ensures var a, b := PrintedObservations(c, view)[i], PrintedObservations(c, view)[j];
      if a.family != b.family then a.family == FamilyV4 && b.family == FamilyV6
      else if a.prefixText != b.prefixText then TextBefore(a.prefixText, b.prefixText)
      else a.peerId < b.peerId
  {
    var r := PrintedObservations(c, view);
    var a, b := r[i], r[j];
    PrintedOnce(c, view);
    assert ObservationLe(a, b) && a != b;
    StrLeMeans(a.prefixText, b.prefixText);
    assert a in r && b in r;
    var x :| IsObserved(view, x) && Printed(c, x) == a;
    var y :| IsObserved(view, y) && Printed(c, y) == b;
    if a.prefixText == b.prefixText {
      PrintingInjective(c, x.prefix, y.prefix);
    }
  }

  /** Each line after the second mark tells one observation, and each observation has one. */
  lemma ObservationLinesTell(c: Inet6, view: View<BinaryPrefix, uint32>, k: nat) returns (o: StoredObservation)
    requires k < |PrintedObservations(c, view)|
    ensures IsObserved(view, o) && |PrintedObservations(c, view)| == |Observations(view)|
    ensures PrintedObservations(c, view)[k] ==
      SnapshotObservation(if o.prefix.V4? then FamilyV4 else FamilyV6, ToString(c, o.prefix), o.peerId, o.seen.asn, o.seen.timestamp)
    ensures ObservationLines(PrintedObservations(c, view))[k] ==
      (if o.prefix.V4? then "v4" else "v6") + "\t" + (ToString(c, o.prefix) + "\t" +
      (Decimal(o.peerId) + "\t" + (Decimal(o.seen.asn) + "\t" + Decimal(o.seen.timestamp))))
  {
    var r := PrintedObservations(c, view);
    assert r[k] in r;
    o :| IsObserved(view, o) && Printed(c, o) == r[k];
    ObservationLineAt(r, k);
    PrintedOnce(c, view);
  }

  // ----- Which lines are accepted, and what they say -----

  /** The mark in front of line `n`: the last of the two section marks, or none. */
  ghost function MarkBefore(lines: seq<string>, n: nat): string
    requires n <= |lines|
  {
    if n == 0 then ""
    else if Trim(lines[n - 1]) == "[peers]" then "[peers]"
    else if Trim(lines[n - 1]) == "[observations]" then "[observations]"
    else MarkBefore(lines, n - 1)
  }

  /** Some line before `n` is not blank; the first one must be the header. */
  ghost predicate HeaderBefore(lines: seq<string>, n: nat)
    requires n <= |lines|
  {
    exists i :: 0 <= i < n && Trim(lines[i]) != ""
  }

  /** A line that tells something: neither blank nor a mark. */
  ghost predicate Tells(line: string) {
    Trim(line) != "" && Trim(line) != "[peers]" && Trim(line) != "[observations]"
  }

  ghost predicate IsPeerLine(line: string) {
    var f := Split(line, '\t');
    |f| == 4 && StoulU32(f[0]).Some? && StoulU32(f[3]).Some?
  }

  ghost predicate IsObservationLine(line: string) {
    var f := Split(line, '\t');
    && |f| == 5 && (f[0] == "v4" || f[0] == "v6")
    && StoulU32(f[2]).Some? && StoulU32(f[3]).Some? && Stoull(f[4]).Some?
  }

  /** A line after the header is blank, a mark, or a record of the section it stands in. */
  ghost predicate Fits(lines: seq<string>, i: nat)
    requires i < |lines|
  {
    Tells(lines[i]) ==>
      && !(Trim(lines[i])[0] == '[' && Trim(lines[i])[|Trim(lines[i])| - 1] == ']')
      && ((MarkBefore(lines, i) == "[peers]" && IsPeerLine(lines[i]))
        || (MarkBefore(lines, i) == "[observations]" && IsObservationLine(lines[i])))
  }

  ghost predicate TellsPeer(lines: seq<string>, i: nat) {
    i < |lines| && Tells(lines[i]) && MarkBefore(lines, i) == "[peers]" && IsPeerLine(lines[i])
  }

  ghost predicate TellsObservation(lines: seq<string>, i: nat) {
    i < |lines| && Tells(lines[i]) && MarkBefore(lines, i) == "[observations]" && IsObservationLine(lines[i])
  }

  ghost function IdTold(line: string): uint32
    requires IsPeerLine(line)
  {
    StoulU32(Split(line, '\t')[0]).value
  }

  ghost function PeerTold(line: string): PeerInfo
    requires IsPeerLine(line)
  {
    var f := Split(line, '\t');
    PeerInfo(f[1], f[2], StoulU32(f[3]).value)
  }

  ghost function ObservationTold(line: string): SnapshotObservation
    requires IsObservationLine(line)
  {
    var f := Split(line, '\t');
    SnapshotObservation(if f[0] == "v4" then FamilyV4 else FamilyV6, f[1], StoulU32(f[2]).value, StoulU32(f[3]).value,
                        Stoull(f[4]).value)
  }

  /** The first line that is not blank is the header, and every line after it fits. */
  ghost predicate LineAccepted(lines: seq<string>, i: nat)
    requires i < |lines|
  {
    if HeaderBefore(lines, i) then Fits(lines, i)
    else Trim(lines[i]) == "" || Trim(lines[i]) == "# ASNPrefixMap snapshot v1"
  }

  /** The peers and the observations of the first `n` lines. */
  ghost function PeersTold(lines: seq<string>, n: nat): map<uint32, PeerInfo>
    requires n <= |lines|
  {
    if n == 0 then map[]
    else if TellsPeer(lines, n - 1) then PeersTold(lines, n - 1)[IdTold(lines[n - 1]) := PeerTold(lines[n - 1])]
    else PeersTold(lines, n - 1)
  }

  ghost function ObservationsTold(lines: seq<string>, n: nat): seq<SnapshotObservation>
    requires n <= |lines|
  {
    if n == 0 then []
    else ObservationsTold(lines, n - 1) + if TellsObservation(lines, n - 1) then [ObservationTold(lines[n - 1])] else []
  }

  ghost predicate NewPeer(lines: seq<string>, i: nat)
    requires i < |lines|
  {
    TellsPeer(lines, i) ==> IdTold(lines[i]) !in PeersTold(lines, i)
  }

  ghost function SectionOf(mark: string): Section {
    if mark == "[peers]" then Peers else if mark == "[observations]" then ObservationsSection else NoSection
  }

  /** What a reader holds after the first `n` lines. */
  ghost function Gathered(lines: seq<string>, n: nat): Reader
    requires n <= |lines|
  {
    Reader(SectionOf(MarkBefore(lines, n)), HeaderBefore(lines, n), PeersTold(lines, n), ObservationsTold(lines, n))
  }

  lemma PeerLineRead(r: Reader, line: string)
    ensures ReadPeer(r, Split(line, '\t')).Ok? <==> IsPeerLine(line) && IdTold(line) !in r.peers
    ensures ReadPeer(r, Split(line, '\t')).Ok? ==>
      ReadPeer(r, Split(line, '\t')).value == r.(peers := r.peers[IdTold(line) := PeerTold(line)])
  {}

  lemma ObservationLineRead(r: Reader, line: string)
    ensures ReadObservation(r, Split(line, '\t')).Ok? <==> IsObservationLine(line)
    ensures IsObservationLine(line) ==>
      ReadObservation(r, Split(line, '\t')).value == r.(observations := r.observations + [ObservationTold(line)])
  {}

  lemma HeaderStays(lines: seq<string>, n: nat)
    requires n < |lines|
    ensures HeaderBefore(lines, n + 1) <==> HeaderBefore(lines, n) || Trim(lines[n]) != ""
  {}

  /** One line more: it is refused exactly when it does not belong, and otherwise adds what it tells. */
  lemma OneLineMore(lines: seq<string>, n: nat)
    requires n < |lines|
    ensures var read := ReadLine(Gathered(lines, n), lines[n]);
      && (read.Ok? <==> LineAccepted(lines, n) && NewPeer(lines, n))
      && (read.Ok? ==> read.value == Gathered(lines, n + 1))
  {
    var line, r := lines[n], Gathered(lines, n);
    HeaderStays(lines, n);
    PeerLineRead(r, line);
    ObservationLineRead(r, line);
    if !HeaderBefore(lines, n) {
      NoMarkYet(lines, n);
    }
  }

  lemma {:induction false} NoMarkYet(lines: seq<string>, n: nat)
    requires n <= |lines| && !HeaderBefore(lines, n)
    ensures MarkBefore(lines, n) == ""
  {
    if n == 0 {
    } else {
      HeaderStays(lines, n - 1);
      NoMarkYet(lines, n - 1);
    }
  }

  ghost predicate Accepted(lines: seq<string>, n: nat)
    requires n <= |lines|
  {
    forall i :: 0 <= i < n ==> LineAccepted(lines, i) && NewPeer(lines, i)
  }

  lemma {:induction false} LinesGathered(lines: seq<string>, n: nat)
    requires n <= |lines|
    ensures ReadLines(START, lines[..n]).Ok? <==> Accepted(lines, n)
    ensures Accepted(lines, n) ==> ReadLines(START, lines[..n]) == Ok(Gathered(lines, n))
  {
    if n == 0 {
    } else {
      LinesGathered(lines, n - 1);
      LastLine(lines, n);
      OneLineMore(lines, n - 1);
      AcceptedOneMore(lines, n - 1);
    }
  }

  lemma AcceptedOneMore(lines: seq<string>, n: nat)
    requires n < |lines|
    ensures Accepted(lines, n + 1) <==> Accepted(lines, n) && LineAccepted(lines, n) && NewPeer(lines, n)
  {}

  lemma LastLine(lines: seq<string>, n: nat)
    requires 0 < n <= |lines|
    ensures ReadLines(START, lines[..n])
         == if ReadLines(START, lines[..n - 1]).Err? then ReadLines(START, lines[..n - 1])
            else ReadLine(ReadLines(START, lines[..n - 1]).value, lines[n - 1])
  {
    assert lines[..n] == lines[..n - 1] + [lines[n - 1]];
    ReadLinesConcat(START, lines[..n - 1], [lines[n - 1]]);
    assert [lines[n - 1]][1..] == [];
  }

  /** A peer is held when some line tells it. */
  lemma {:induction false} PeersAreTold(lines: seq<string>, n: nat)
    requires n <= |lines|
    ensures forall i :: 0 <= i < n && TellsPeer(lines, i) ==> IdTold(lines[i]) in PeersTold(lines, n)
    ensures forall id :: id in PeersTold(lines, n) ==> TellsOf(lines, n, id, PeersTold(lines, n)[id])
  {
    if n == 0 {
    } else {
      PeersAreTold(lines, n - 1);
      forall id | id in PeersTold(lines, n) ensures TellsOf(lines, n, id, PeersTold(lines, n)[id]) {
        if TellsPeer(lines, n - 1) && IdTold(lines[n - 1]) == id {
          assert TellsPeerAs(lines, n - 1, id, PeersTold(lines, n)[id]);
        } else {
          var peer := PeersTold(lines, n)[id];
          assert id in PeersTold(lines, n - 1) && PeersTold(lines, n - 1)[id] == peer;
          assert TellsOf(lines, n - 1, id, peer);
          var i :| 0 <= i < n - 1 && TellsPeerAs(lines, i, id, peer);
        }
      }
    }
  }

  /** Line `i` tells that this id is this peer's. */
  ghost predicate TellsPeerAs(lines: seq<string>, i: nat, id: uint32, peer: PeerInfo) {
    TellsPeer(lines, i) && IdTold(lines[i]) == id && PeerTold(lines[i]) == peer
  }

  ghost predicate TellsOf(lines: seq<string>, n: nat, id: uint32, peer: PeerInfo) {
    exists i :: 0 <= i < n && TellsPeerAs(lines, i, id, peer)
  }

  /**
   * The lines are read exactly when the first that is not blank is the header, every later one is
   * blank, a mark or a record of its section, and no peer id is told twice. What is read is then one
   * peer for each peer line and one observation for each observation line, in order.
   */
  lemma WhatIsRead(lines: seq<string>)
    ensures ReadLines(START, lines).Ok? <==>
      && (forall i :: 0 <= i < |lines| ==> LineAccepted(lines, i))
      && (forall i, j :: 0 <= i < j < |lines| && TellsPeer(lines, i) && TellsPeer(lines, j) ==>
        IdTold(lines[i]) != IdTold(lines[j]))
    ensures ReadLines(START, lines).Ok? ==>
      var r := ReadLines(START, lines).value;
      && (r.sawHeader <==> exists i :: 0 <= i < |lines| && Trim(lines[i]) != "")
      && r.peers == PeersTold(lines, |lines|) && r.observations == ObservationsTold(lines, |lines|)
  {
    LinesGathered(lines, |lines|);
    assert lines[..|lines|] == lines;
    forall j | 0 <= j < |lines|
      ensures NewPeer(lines, j) <==> forall i :: 0 <= i < j && TellsPeer(lines, i) && TellsPeer(lines, j) ==>
        IdTold(lines[i]) != IdTold(lines[j])
    {
      PeersAreTold(lines, j);
      if TellsPeer(lines, j) && IdTold(lines[j]) in PeersTold(lines, j) {
        var id := IdTold(lines[j]);
        var i :| 0 <= i < j && TellsPeerAs(lines, i, id, PeersTold(lines, j)[id]);
      }
    }
  }

  // ----- Which of several lines counts -----

  /** This observation is about the prefix and the peer. */
  ghost predicate IsAbout(c: Inet6, o: SnapshotObservation, p: BinaryPrefix, q: uint32) {
    ParseAs(c, o.family, o.prefixText) == Ok(p) && o.peerId == q
  }

  /** The last of the observations about a prefix and peer decides. */
  ghost function LastAbout(c: Inet6, observations: seq<SnapshotObservation>, p: BinaryPrefix, q: uint32): Option<Seen> {
    if observations == [] then None
    else
      var o := observations[|observations| - 1];
      if IsAbout(c, o, p, q) then Some(Seen(o.originAsn, o.timestamp))
      else LastAbout(c, observations[..|observations| - 1], p, q)
  }

  lemma {:induction false} LastAboutFromFront(c: Inet6, observations: seq<SnapshotObservation>, p: BinaryPrefix, q: uint32)
    requires observations != []
    ensures var o, rest := observations[0], LastAbout(c, observations[1..], p, q);
      LastAbout(c, observations, p, q)
        == if rest.Some? then rest else if IsAbout(c, o, p, q) then Some(Seen(o.originAsn, o.timestamp)) else None
    decreases |observations|
  {
    var n, rest := |observations|, observations[1..];
    var front := observations[..n - 1];
    if n == 1 {
      assert front == [] && rest == [];
    } else {
      LastAboutFromFront(c, front, p, q);
      assert front[1..] == rest[..n - 2] && front[0] == observations[0] && rest[n - 2] == observations[n - 1];
    }
  }

  ghost predicate CanRestore(c: Inet6, peers: map<uint32, PeerInfo>, o: SnapshotObservation) {
    o.peerId in peers && ParseAs(c, o.family, o.prefixText).Ok?
  }

  /** Replaying stops only at an unknown peer or a text that is no prefix, and leaves the last word of each. */
  lemma {:induction false} RestoreKeepsLast(c: Inet6, peers: map<uint32, PeerInfo>, view: View<BinaryPrefix, uint32>,
                                            observations: seq<SnapshotObservation>, p: BinaryPrefix, q: uint32)
    ensures Restore(c, peers, view, observations).Ok? <==> forall o <- observations :: CanRestore(c, peers, o)
    ensures Restore(c, peers, view, observations).Ok? ==>
      Lookup(Restore(c, peers, view, observations).value, p, q)
        == if LastAbout(c, observations, p, q).Some? then LastAbout(c, observations, p, q) else Lookup(view, p, q)
    decreases |observations|
  {
    if observations == [] {
    } else {
      var o, rest := observations[0], observations[1..];
      assert observations == [o] + rest;
      if CanRestore(c, peers, o) {
        var x, seen := ParseAs(c, o.family, o.prefixText).value, Seen(o.originAsn, o.timestamp);
        RestoreKeepsLast(c, peers, Announced(view, x, o.peerId, seen), rest, p, q);
        AnnouncedLookup(view, x, o.peerId, seen, p, q);
        LastAboutFromFront(c, observations, p, q);
      }
    }
  }

  /** The smaller text, or for the same text the smaller origin, or the earlier timestamp, or the same. */
  ghost predicate NotAfter(a: SnapshotObservation, b: SnapshotObservation) {
    || TextBefore(a.prefixText, b.prefixText)
    || (a.prefixText == b.prefixText
      && (a.originAsn < b.originAsn || (a.originAsn == b.originAsn && a.timestamp <= b.timestamp)))
  }

  /** Of several observations about one prefix and peer this one counts. */
  ghost predicate Counts(c: Inet6, observations: seq<SnapshotObservation>, o: SnapshotObservation, p: BinaryPrefix, q: uint32) {
    && o in observations && IsAbout(c, o, p, q)
    && forall other <- observations :: IsAbout(c, other, p, q) ==> NotAfter(other, o)
  }

  /** What is held for a prefix and peer: nothing when no observation is about them, else the one that counts. */
  ghost predicate Kept(c: Inet6, observations: seq<SnapshotObservation>, p: BinaryPrefix, q: uint32, held: Option<Seen>) {
    match held
    case None => forall o <- observations :: !IsAbout(c, o, p, q)
    case Some(seen) => exists o :: Counts(c, observations, o, p, q) && seen == Seen(o.originAsn, o.timestamp)
  }

  lemma KeptAlike(c: Inet6, a: seq<SnapshotObservation>, b: seq<SnapshotObservation>, p: BinaryPrefix, q: uint32,
                  held: Option<Seen>)
    requires Kept(c, a, p, q, held) && forall o :: o in a <==> o in b
    ensures Kept(c, b, p, q, held)
  {
    if held.Some? {
      var o :| Counts(c, a, o, p, q) && held.value == Seen(o.originAsn, o.timestamp);
      assert Counts(c, b, o, p, q);
    }
  }

  lemma SortedNotAfter(c: Inet6, a: SnapshotObservation, b: SnapshotObservation, p: BinaryPrefix, q: uint32)
    requires IsAbout(c, a, p, q) && IsAbout(c, b, p, q) && ObservationLe(a, b)
    ensures NotAfter(a, b)
  {
    ParsedIsCanonical(c, a.family, a.prefixText);
    ParsedIsCanonical(c, b.family, b.prefixText);
    StrLeMeans(a.prefixText, b.prefixText);
  }

  lemma {:induction false} LastOfSorted(c: Inet6, s: seq<SnapshotObservation>, p: BinaryPrefix, q: uint32)
    requires SortedBy(ObservationLe, s)
    ensures Kept(c, s, p, q, LastAbout(c, s, p, q))
    decreases |s|
  {
    if s == [] {
    } else {
      var front, o := s[..|s| - 1], s[|s| - 1];
      assert s == front + [o];
      if IsAbout(c, o, p, q) {
        forall other <- s | IsAbout(c, other, p, q) ensures NotAfter(other, o) {
          ObservationLeTotal();
          var i :| 0 <= i < |s| && s[i] == other;
          assert ObservationLe(other, o);
          SortedNotAfter(c, other, o, p, q);
        }
        assert Counts(c, s, o, p, q);
      } else {
        LastOfSorted(c, front, p, q);
        if LastAbout(c, front, p, q).Some? {
          var x :| Counts(c, front, x, p, q) && LastAbout(c, front, p, q).value == Seen(x.originAsn, x.timestamp);
          assert Counts(c, s, x, p, q);
        }
      }
    }
  }

  lemma {:induction false} NothingToldYet(lines: seq<string>, n: nat)
    requires n <= |lines| && !HeaderBefore(lines, n)
    ensures PeersTold(lines, n) == map[] && ObservationsTold(lines, n) == []
  {
    if n == 0 {
    } else {
      HeaderStays(lines, n - 1);
      NoMarkYet(lines, n - 1);
      NothingToldYet(lines, n - 1);
    }
  }

  /**
   * A text of accepted lines loads exactly when no identity is told under two ids, and every
   * observation is of a peer that is told and of a text that is a prefix. For each prefix and peer the
   * loaded state then holds the observation with the largest text, origin and timestamp, in this order.
   */
  lemma WhatIsLoaded(c: Inet6, lines: seq<string>, p: BinaryPrefix, q: uint32)
    ensures var peers, told := PeersTold(lines, |lines|), ObservationsTold(lines, |lines|);
      && (LoadLines(c, lines).Ok? <==>
        ReadLines(START, lines).Ok? && Injective(peers) && forall o <- told :: CanRestore(c, peers, o))
      && (LoadLines(c, lines).Ok? ==>
        LoadLines(c, lines).value.peers == peers && Kept(c, told, p, q, Lookup(LoadLines(c, lines).value.view, p, q)))
  {
    WhatIsRead(lines);
    if ReadLines(START, lines).Ok? {
      var r := ReadLines(START, lines).value;
      if !r.sawHeader {
        NothingToldYet(lines, |lines|);
      } else {
        BuildMeans(c, r, p, q);
      }
    }
  }

  lemma BuildMeans(c: Inet6, r: Reader, p: BinaryPrefix, q: uint32)
    requires r.sawHeader
    ensures Build(c, r).Ok? <==> Injective(r.peers) && forall o <- r.observations :: CanRestore(c, r.peers, o)
    ensures Build(c, r).Ok? ==>
      Build(c, r).value.peers == r.peers && Kept(c, r.observations, p, q, Lookup(Build(c, r).value.view, p, q))
  {
    ObservationLeTotal();
    var sorted := Sort(ObservationLe, r.observations);
    RestoreKeepsLast(c, r.peers, map[], sorted, p, q);
    LastOfSorted(c, sorted, p, q);
    SortedSame(r.observations);
    KeptAlike(c, sorted, r.observations, p, q, LastAbout(c, sorted, p, q));
    assert Build(c, r).Ok? ==> Lookup(Build(c, r).value.view, p, q) == LastAbout(c, sorted, p, q);
  }

  lemma SortedSame(observations: seq<SnapshotObservation>)
    ensures TotalOrder(ObservationLe)
    ensures forall o :: o in Sort(ObservationLe, observations) <==> o in observations
  {
    ObservationLeTotal();
    SameMembers(Sort(ObservationLe, observations), observations);
  }
}
