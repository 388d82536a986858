/** The saving and loading loops of src/snapshot/snapshot_io.cpp, against the snapshot format. */
module SnapshotIO {
  import opened Base
  import opened Text
  import opened Ordering
  import opened Prefix
  import opened Selection
  import opened PeerRegistry
  import opened RoutingState
  import opened System
  import opened SnapshotFormat
  import opened SnapshotCounter

  datatype SnapshotStats = SnapshotStats(peers: nat, observations: nat)

  // ----- Saving -----

  lemma PrintedSplit(c: Inet6, before: seq<StoredObservation>, x: StoredObservation, after: seq<StoredObservation>)
    ensures PrintedAll(c, before + [x] + after) == PrintedAll(c, before) + [Printed(c, x)] + PrintedAll(c, after)
  {
    PrintedConcat(c, before, [x]);
    PrintedConcat(c, before + [x], after);
    assert PrintedAll(c, [x]) == [Printed(c, x)];
  }

  lemma PrintedConcat(c: Inet6, a: seq<StoredObservation>, b: seq<StoredObservation>)
    ensures PrintedAll(c, a + b) == PrintedAll(c, a) + PrintedAll(c, b)
  {}

  lemma PrintedOneMore(c: Inet6, x: StoredObservation, rest: seq<StoredObservation>,
                       before: seq<StoredObservation>, after: seq<StoredObservation>)
    requires multiset(PrintedAll(c, rest)) == multiset(PrintedAll(c, before + after))
    ensures multiset(PrintedAll(c, [x] + rest)) == multiset(PrintedAll(c, before + [x] + after))
  {
    PrintedSplit(c, before, x, after);
    PrintedConcat(c, before, after);
    PrintedConcat(c, [x], rest);
    assert PrintedAll(c, [x]) == [Printed(c, x)];
    AddToBoth(Printed(c, x), PrintedAll(c, rest), PrintedAll(c, before), PrintedAll(c, after));
  }

  lemma AddToBoth<T>(x: T, rest: seq<T>, before: seq<T>, after: seq<T>)
    requires multiset(rest) == multiset(before + after)
    ensures multiset([x] + rest) == multiset(before + [x] + after)
  {
    assert multiset([x] + rest) == multiset{x} + multiset(rest);
    assert multiset(before + [x] + after) == multiset{x} + multiset(before + after);
  }

  lemma {:induction false} PrintedMultiset(c: Inet6, a: seq<StoredObservation>, b: seq<StoredObservation>)
    requires multiset(a) == multiset(b)
    ensures multiset(PrintedAll(c, a)) == multiset(PrintedAll(c, b))
    decreases |a|
  {
    SameMembers(a, b);
    if a == [] {
    } else {
      var x, rest := a[0], a[1..];
      assert x in a && x in b;
      var k :| 0 <= k < |b| && b[k] == x;
      var before, after := b[..k], b[k + 1..];
      assert a == [x] + rest && b == before + [x] + after;
      RemoveFromBoth(x, rest, before, after);
      PrintedMultiset(c, rest, before + after);
      PrintedOneMore(c, x, rest, before, after);
    }
  }

  /** Whatever order the hash maps deliver, the sorted lines are the same. */
  lemma SortedPrintIsCanonical(c: Inet6, view: View<BinaryPrefix, uint32>, stored: seq<StoredObservation>)
    requires Lists(stored, Observations(view))
    ensures TotalOrder(ObservationLe)
    ensures Sort(ObservationLe, PrintedAll(c, stored)) == PrintedObservations(c, view)
  {
    ObservationLeTotal();
    var listing := Listing(Observations(view));
    ListsMultiset(stored, Observations(view));
    ListsMultiset(listing, Observations(view));
    PrintedMultiset(c, stored, listing);
    SortedUnique(ObservationLe, Sort(ObservationLe, PrintedAll(c, stored)), PrintedObservations(c, view));
  }

  lemma SortedIdsAreCanonical(view: View<BinaryPrefix, uint32>, ids: seq<uint32>)
    requires SortedBy(IdLe, ids) && Lists(ids, UsedIds(view))
    ensures ids == PrintedIds(view)
  {
    IdLeTotal();
    ListsMultiset(ids, UsedIds(view));
    ListsMultiset(PrintedIds(view), UsedIds(view));
    SortedUnique(IdLe, ids, PrintedIds(view));
  }

  lemma UsedIdsFromListing(view: View<BinaryPrefix, uint32>, stored: seq<StoredObservation>, q: uint32)
    requires Lists(stored, Observations(view))
    ensures q in UsedIds(view) <==> exists i :: 0 <= i < |stored| && stored[i].peerId == q
  {
    assert forall o :: o in stored <==> o in (set x | x in stored);
    if q in UsedIds(view) {
      var o :| IsObserved(view, o) && o.peerId == q;
      assert o in Observations(view) && o in stored;
    }
    if i :| 0 <= i < |stored| && stored[i].peerId == q {
      assert stored[i] in stored && IsObserved(view, stored[i]);
    }
  }

  /** The ids in use, in ascending order as std::set keeps them. */
  method CollectUsedIds(stored: seq<StoredObservation>, ghost view: View<BinaryPrefix, uint32>)
    returns (ids: seq<uint32>)
    requires Lists(stored, Observations(view))
    ensures ids == PrintedIds(view)
  {
    IdLeTotal();
    ids := [];
    for i := 0 to |stored|
      invariant SortedBy(IdLe, ids) && NoDuplicates(ids)
      invariant forall q :: q in ids <==> exists j :: 0 <= j < i && stored[j].peerId == q
    {
      if stored[i].peerId !in ids {
        ghost var before := ids;
        ids := Insert(IdLe, stored[i].peerId, ids);
        InsertedOnce(before, stored[i].peerId, ids);
      }
    }
    forall q ensures q in ids <==> q in UsedIds(view) {
      UsedIdsFromListing(view, stored, q);
    }
    SortedIdsAreCanonical(view, ids);
  }

  lemma InsertedOnce<T>(before: seq<T>, x: T, after: seq<T>)
    requires NoDuplicates(before) && x !in before && multiset(after) == multiset{x} + multiset(before)
    ensures NoDuplicates(after)
    ensures forall y :: y in after <==> y == x || y in before
  {
    assert multiset(after) == multiset([x] + before);
    SameMembers(after, [x] + before);
    var elements := set y | y in [x] + before;
    assert Lists([x] + before, elements);
    ListsMultiset([x] + before, elements);
    MultisetLists(after, elements);
  }

  method PrintPeers(ids: seq<uint32>, peers: seq<PeerInfo>, ghost byId: map<uint32, PeerInfo>)
    returns (output: string)
    requires |ids| == |peers| && forall i :: 0 <= i < |ids| ==> ids[i] in byId && peers[i] == byId[ids[i]]
    ensures output == Unlines(PeerLines(ids, byId))
  {
    output := "";
    for i := 0 to |ids|
      invariant output + Unlines(PeerLines(ids[i..], byId)) == Unlines(PeerLines(ids, byId))
    {
      assert ids[i..][1..] == ids[i + 1..];
      OneMoreLine(output, PeerLine(ids[i], byId[ids[i]]), PeerLines(ids[i + 1..], byId));
      output := output + (PeerLine(ids[i], peers[i]) + "\n");
    }
    assert output + "" == output;
  }

  method PrintObservations(observations: seq<SnapshotObservation>) returns (output: string)
    ensures output == Unlines(ObservationLines(observations))
  {
    output := "";
    for i := 0 to |observations|
      invariant output + Unlines(ObservationLines(observations[i..])) == Unlines(ObservationLines(observations))
    {
      assert observations[i..][1..] == observations[i + 1..];
      OneMoreLine(output, ObservationLine(observations[i]), ObservationLines(observations[i + 1..]));
      output := output + (ObservationLine(observations[i]) + "\n");
    }
    assert output + "" == output;
  }

  lemma OneMoreLine(output: string, line: string, rest: seq<string>)
    ensures output + Unlines([line] + rest) == output + (line + "\n") + Unlines(rest)
  {
    assert ([line] + rest)[1..] == rest;
  }

  lemma WholeText(peerLines: seq<string>, observationLines: seq<string>)
    ensures HEADER + "\n\n" + PEERS_MARK + "\n" + Unlines(peerLines) + "\n" + OBSERVATIONS_MARK + "\n" + Unlines(observationLines)
         == Unlines([HEADER, "", PEERS_MARK] + peerLines + ["", OBSERVATIONS_MARK] + observationLines)
  {
    var opening, middle := [HEADER, "", PEERS_MARK], ["", OBSERVATIONS_MARK];
    UnlinesAppend(opening, peerLines);
    UnlinesAppend(opening + peerLines, middle);
    UnlinesAppend(opening + peerLines + middle, observationLines);
    assert opening == [HEADER] + ["", PEERS_MARK] && ["", PEERS_MARK] == [""] + [PEERS_MARK];
    assert Unlines(opening) == HEADER + "\n\n" + PEERS_MARK + "\n" by {
      assert opening[1..] == ["", PEERS_MARK] && opening[1..][1..] == [PEERS_MARK];
      assert Unlines([PEERS_MARK]) == PEERS_MARK + "\n";
      assert Unlines(["", PEERS_MARK]) == "\n" + PEERS_MARK + "\n";
    }
    assert Unlines(middle) == "\n" + OBSERVATIONS_MARK + "\n" by {
      assert middle[1..] == [OBSERVATIONS_MARK];
      assert Unlines([OBSERVATIONS_MARK]) == OBSERVATIONS_MARK + "\n";
    }
  }

  lemma TextInParts(c: Inet6, byId: map<uint32, PeerInfo>, view: View<BinaryPrefix, uint32>)
    requires UsedIds(view) <= byId.Keys
    ensures forall id <- PrintedIds(view) :: id in byId
    ensures SnapshotText(c, byId, view)
         == HEADER + "\n\n" + PEERS_MARK + "\n" + Unlines(PeerLines(PrintedIds(view), byId)) +
            "\n" + OBSERVATIONS_MARK + "\n" + Unlines(ObservationLines(PrintedObservations(c, view)))
  {
    PrintedIdsMembers(view);
    WholeText(PeerLines(PrintedIds(view), byId), ObservationLines(PrintedObservations(c, view)));
  }

  /** The first of these ids that is not registered. */
  ghost predicate FirstUnknown(byId: map<uint32, PeerInfo>, ids: seq<uint32>, unknown: uint32) {
    exists i :: 0 <= i < |ids| && ids[i] == unknown && unknown !in byId && forall j :: 0 <= j < i ==> ids[j] in byId
  }

  /** The smallest used id that is not registered. */
  ghost predicate LeastUnknown(byId: map<uint32, PeerInfo>, used: set<uint32>, unknown: uint32) {
    unknown in used && unknown !in byId && forall id :: id in used && id !in byId ==> unknown <= id
  }

  lemma FirstIsLeast(view: View<BinaryPrefix, uint32>, byId: map<uint32, PeerInfo>, unknown: uint32)
    requires FirstUnknown(byId, PrintedIds(view), unknown)
    ensures LeastUnknown(byId, UsedIds(view), unknown)
  {
    PrintedIdsMembers(view);
    var ids := PrintedIds(view);
    var i :| 0 <= i < |ids| && ids[i] == unknown && unknown !in byId && forall j :: 0 <= j < i ==> ids[j] in byId;
    forall id | id in UsedIds(view) && id !in byId ensures unknown <= id {
      assert id in ids;
      var j :| 0 <= j < |ids| && ids[j] == id;
      assert IdLe(ids[i], ids[j]) || i == j;
    }
  }

  /** The identities of the used ids, or the first id the registry does not know. */
  method LookUpPeers(registry: PeerRegistry, ids: seq<uint32>) returns (r: Result<seq<PeerInfo>, uint32>)
    ensures r.Ok? <==> forall id <- ids :: id in registry.byId
    ensures r.Ok? ==> |r.value| == |ids| && forall i :: 0 <= i < |ids| ==> r.value[i] == registry.byId[ids[i]]
    ensures r.Err? ==> FirstUnknown(registry.byId, ids, r.error)
  {
    var peers: seq<PeerInfo> := [];
    for i := 0 to |ids|
      invariant |peers| == i
      invariant forall j :: 0 <= j < i ==> ids[j] in registry.byId && peers[j] == registry.byId[ids[j]]
    {
      if !registry.Contains(ids[i]) {
        return Err(ids[i]);
      }
      peers := peers + [registry.Get(ids[i]).value];
    }
    return Ok(peers);
  }

  method PrintStored(c: Inet6, stored: seq<StoredObservation>, ghost view: View<BinaryPrefix, uint32>)
    returns (observations: seq<SnapshotObservation>)
    requires Lists(stored, Observations(view))
    ensures observations == PrintedObservations(c, view)
  {
    observations := [];
    for i := 0 to |stored|
      invariant |observations| == i
      invariant forall j :: 0 <= j < i ==> observations[j] == Printed(c, stored[j])
    {
      observations := observations + [Printed(c, stored[i])];
    }
    assert observations == PrintedAll(c, stored);
    SortedPrintIsCanonical(c, view, stored);
    observations := Sort(ObservationLe, observations);
  }

  lemma PrintedIdsMembers(view: View<BinaryPrefix, uint32>)
    ensures forall q :: q in PrintedIds(view) <==> q in UsedIds(view)
    ensures |PrintedIds(view)| == |UsedIds(view)|
  {
    ListsMultiset(PrintedIds(view), UsedIds(view));
    forall q ensures q in PrintedIds(view) <==> q in UsedIds(view) {
      assert q in PrintedIds(view) <==> q in (set x | x in PrintedIds(view));
    }
  }

  lemma PrintedIdsKnown(view: View<BinaryPrefix, uint32>, byId: map<uint32, PeerInfo>)
    ensures UsedIds(view) <= byId.Keys <==> forall id <- PrintedIds(view) :: id in byId
  {
    PrintedIdsMembers(view);
  }

  lemma WhatIsCounted(stored: seq<StoredObservation>, view: View<BinaryPrefix, uint32>)
    requires Lists(stored, Observations(view))
    ensures |stored| == |Observations(view)| && |PrintedIds(view)| == |UsedIds(view)|
  {
    ListsMultiset(stored, Observations(view));
    PrintedIdsMembers(view);
  }

  /**
   * The text of a listing of the observations, in whatever order they are listed; or the first
   * used id the registry does not know.
   */
  method WriteSnapshot(c: Inet6, registry: PeerRegistry, stored: seq<StoredObservation>,
                       ghost view: View<BinaryPrefix, uint32>)
    returns (r: Result<(string, SnapshotStats), uint32>)
    requires Lists(stored, Observations(view))
    ensures r.Ok? <==> UsedIds(view) <= registry.byId.Keys
    ensures r.Ok? ==> r.value.0 == SnapshotText(c, registry.byId, view)
    ensures r.Ok? ==> r.value.1 == SnapshotStats(|UsedIds(view)|, |Observations(view)|)
    ensures r.Err? ==> LeastUnknown(registry.byId, UsedIds(view), r.error)
  {
    var usedPeerIds := CollectUsedIds(stored, view);
    WhatIsCounted(stored, view);
    PrintedIdsKnown(view, registry.byId);

    var peers := LookUpPeers(registry, usedPeerIds);
    if peers.Err? {
      FirstIsLeast(view, registry.byId, peers.error);
      return Err(peers.error);
    }
    var observations := PrintStored(c, stored, view);
    var output := PrintText(c, usedPeerIds, peers.value, observations, registry.byId, view);
    return Ok((output, SnapshotStats(|peers.value|, |stored|)));
  }

  method PrintText(c: Inet6, ids: seq<uint32>, peers: seq<PeerInfo>, observations: seq<SnapshotObservation>,
                   ghost byId: map<uint32, PeerInfo>, ghost view: View<BinaryPrefix, uint32>)
    returns (output: string)
    requires UsedIds(view) <= byId.Keys && ids == PrintedIds(view) && observations == PrintedObservations(c, view)
    requires |ids| == |peers| && forall i :: 0 <= i < |ids| ==> ids[i] in byId && peers[i] == byId[ids[i]]
    ensures output == SnapshotText(c, byId, view)
  {
    var peerText := PrintPeers(ids, peers, byId);
    var observationText := PrintObservations(observations);
    output := HEADER + "\n\n" + PEERS_MARK + "\n" + peerText + "\n" + OBSERVATIONS_MARK + "\n" + observationText;
    TextInParts(c, byId, view);
  }

  /** Saving fails exactly when the state holds an id the registry does not know. */
  method SaveSnapshot(c: Inet6, registry: PeerRegistry, state: RoutingState)
    returns (r: Result<(string, SnapshotStats), uint32>)
    requires state.Sound()
    ensures r.Ok? <==> UsedIds(state.observed) <= registry.byId.Keys
    ensures r.Ok? ==> r.value.0 == SnapshotText(c, registry.byId, state.observed)
    ensures r.Ok? ==> r.value.1 == SnapshotStats(|UsedIds(state.observed)|, |Observations(state.observed)|)
    ensures r.Err? ==> LeastUnknown(registry.byId, UsedIds(state.observed), r.error)
  {
    var stored := state.StoredObservations();
    r := WriteSnapshot(c, registry, stored, state.observed);
  }

  // ----- Loading -----

  /** The next tab at or after `start`, or the end of the line. */
  ghost predicate NextTab(line: string, start: nat, pos: nat) {
    && start <= pos <= |line| && '\t' !in line[start..pos]
    && (pos < |line| ==> line[pos] == '\t')
  }

  method FindTab(line: string, start: nat) returns (pos: nat)
    requires start <= |line|
    ensures NextTab(line, start, pos)
  {
    var k := Find(line[start..], '\t');
    assert line[start..][..k] == line[start..start + k];
    pos := start + k;
  }

  lemma SplitFrom(line: string, start: nat, pos: nat)
    requires NextTab(line, start, pos)
    ensures Split(line[start..], '\t')
         == if pos == |line| then [line[start..]] else [line[start..pos]] + Split(line[pos + 1..], '\t')
  {
    if pos == |line| {
      assert line[start..pos] == line[start..];
      SplitLast(line[start..], '\t');
    } else {
      assert line[start..] == line[start..pos] + ['\t'] + line[pos + 1..];
      SplitCons(line[start..pos], '\t', line[pos + 1..]);
    }
  }

  /** The fields found so far and the ones still to come are all the fields; closed, see Base.Key. */
  ghost predicate FieldsSoFar(line: string, start: nat, fields: seq<string>) {
    forall k {:trigger Key(RunDoor, k)} :: Key(RunDoor, k) ==>
      start <= |line| && fields + Split(line[start..], '\t') == Split(line, '\t')
  }

  lemma NoFieldsYet(line: string)
    ensures FieldsSoFar(line, 0, [])
  {
    assert line[0..] == line;
  }

  lemma OneMoreField(line: string, start: nat, pos: nat, fields: seq<string>)
    requires FieldsSoFar(line, start, fields) && NextTab(line, start, pos)
    ensures pos == |line| ==> fields + [line[start..]] == Split(line, '\t')
    ensures pos < |line| ==> FieldsSoFar(line, pos + 1, fields + [line[start..pos]])
  {
    assert Key(RunDoor, 0);
    SplitFrom(line, start, pos);
  }

  method SplitTabFields(line: string) returns (fields: seq<string>)
    ensures fields == Split(line, '\t')
  {
    fields := [];
    var start := 0;
    NoFieldsYet(line);
    while true
      invariant 0 <= start <= |line| && FieldsSoFar(line, start, fields)
      decreases |line| - start
    {
      var pos := FindTab(line, start);
      OneMoreField(line, start, pos, fields);
      if pos == |line| {
        fields := fields + [line[start..]];
        return;
      }
      fields := fields + [line[start..pos]];
      start := pos + 1;
    }
  }

  /** What one line does to the section, the header flag and what was gathered. */
  method ReadSnapshotLine(reader: Reader, line: string) returns (r: Result<Reader, LoadError>)
    ensures r == ReadLine(reader, line)
  {
    var trimmed := Trim(line);
    if trimmed == [] {
      return Ok(reader);
    }
    if !reader.sawHeader {
      if trimmed != HEADER {
        return Err(BadHeader);
      }
      return Ok(reader.(sawHeader := true));
    }
    if trimmed == PEERS_MARK {
      return Ok(reader.(section := Peers));
    }
    if trimmed == OBSERVATIONS_MARK {
      return Ok(reader.(section := ObservationsSection));
    }
    if trimmed[0] == '[' && trimmed[|trimmed| - 1] == ']' {
      return Err(UnknownSection);
    }
    if reader.section == NoSection {
      return Err(DataBeforeSection);
    }

    var fields := SplitTabFields(line);
    if reader.section == Peers {
      if |fields| != 4 {
        return Err(PeerFieldCount);
      }
      var peerId := StoulU32(fields[0]);
      if peerId == None {
        return Err(BadNumber);
      }
      if peerId.value in reader.peers {
        return Err(DuplicatePeerId);
      }
      var peerAsn := StoulU32(fields[3]);
      if peerAsn == None {
        return Err(BadNumber);
      }
      return Ok(reader.(peers := reader.peers[peerId.value := PeerInfo(fields[1], fields[2], peerAsn.value)]));
    }
    var observation := ParseObservation(fields);
    if observation.Err? {
      return Err(observation.error);
    }
    return Ok(reader.(observations := reader.observations + [observation.value]));
  }

  lemma NextLine(text: string)
    requires text != []
    ensures var k := Find(text, '\n');
      Lines(text) == [text[..k]] + Lines(if k == |text| then [] else text[k + 1..])
  {
    var k := Find(text, '\n');
    if k == |text| {
      assert text[..k] == text;
    }
  }

  /** Reading a text is reading its first line and then the rest. */
  lemma ReadNextLine(reader: Reader, text: string, newline: nat, line: string, rest: string)
    requires text != [] && newline == Find(text, '\n')
    requires line == text[..newline] && rest == if newline == |text| then [] else text[newline + 1..]
    ensures ReadLines(reader, Lines(text))
         == if ReadLine(reader, line).Err? then ReadLine(reader, line) else ReadLines(ReadLine(reader, line).value, Lines(rest))
  {
    NextLine(text);
    assert ([line] + Lines(rest))[0] == line && ([line] + Lines(rest))[1..] == Lines(rest);
  }

  /** The line loop: every line of the text, one after the other, until one is refused. */
  method ReadSnapshotLines(text: string) returns (r: Result<Reader, LoadError>)
    ensures r == ReadLines(START, Lines(text))
  {
    ghost var want := ReadLines(START, Lines(text));
    var reader := START;
    var input := text;
    while input != []
      invariant ReadLines(reader, Lines(input)) == want
      decreases |input|
    {
      var newline := Find(input, '\n');
      var line := input[..newline];
      var rest := if newline == |input| then [] else input[newline + 1..];
      ReadNextLine(reader, input, newline, line, rest);
      input := rest;

      r := ReadSnapshotLine(reader, line);
      if r.Err? {
        return;
      }
      reader := r.value;
    }
    return Ok(reader);
  }

  lemma InsertedNext(order: seq<uint32>, all: set<uint32>, pending: set<uint32>, id: uint32)
    requires id in pending && pending <= all && Lists(order, all - pending)
    ensures Lists(order + [id], all - (pending - {id}))
    ensures CounterOf(order + [id]) == CounterAfter(CounterOf(order), id)
  {
    assert (order + [id])[..|order|] == order;
    assert (set x | x in order) == all - pending;
    forall x ensures x in order + [id] <==> x in all - (pending - {id}) {
      assert x in (set y | y in order) <==> x in all - pending;
    }
  }

  /**
   * Registers the peers of a snapshot in whatever order the hash map delivers them. The counter is
   * above all ids exactly when the last 32-bit id is not among them.
   */
  method FillRegistry(registry: PeerRegistry, peers: map<uint32, PeerInfo>) returns (ok: bool)
    requires registry.Valid() && registry.byId == map[] && registry.nextPeerId == 1
    modifies registry
    ensures ok <==> Injective(peers)
    ensures MutualInverses(registry.byInfo, registry.byId)
    ensures ok ==> registry.byId == peers && PossibleCounter(peers.Keys, registry.nextPeerId)
    ensures ok ==> (registry.Valid() <==> LAST_ID !in peers)
  {
    var pending := peers.Keys;
    ghost var order: seq<uint32> := [];
    while pending != {}
      invariant pending <= peers.Keys && MutualInverses(registry.byInfo, registry.byId)
      invariant registry.byId == peers - pending
      invariant Lists(order, peers.Keys - pending) && CounterOf(order) == registry.nextPeerId
      decreases pending
    {
      var id :| id in pending;
      var inserted := InsertPeer(registry, peers, pending, id);
      if !inserted {
        return false;
      }
      InsertedNext(order, peers.Keys, pending, id);
      order := order + [id];
      pending := pending - {id};
    }
    assert registry.byId == peers && peers.Keys - {} == peers.Keys;
    registry.IdsAreInjective();
    CounterAhead(peers.Keys, registry.nextPeerId);
    return true;
  }

  /** One peer more; it is refused only when its identity is there under another id. */
  method InsertPeer(registry: PeerRegistry, peers: map<uint32, PeerInfo>, ghost pending: set<uint32>, id: uint32)
    returns (ok: bool)
    requires MutualInverses(registry.byInfo, registry.byId) && registry.byId == peers - pending
    requires id in pending && pending <= peers.Keys
    modifies registry
    ensures MutualInverses(registry.byInfo, registry.byId)
    ensures ok ==> registry.byId == peers - (pending - {id}) && registry.nextPeerId == CounterAfter(old(registry.nextPeerId), id)
    ensures !ok ==> !Injective(peers)
  {
    var inserted := registry.InsertWithId(id, peers[id]);
    ok := inserted.Ok?;
    if ok {
      PutBack(peers, pending, id);
    } else {
      ghost var other :| other in peers - pending && (peers - pending)[other] == peers[id];
      assert peers[other] == peers[id] && other != id;
    }
  }

  lemma PutBack(peers: map<uint32, PeerInfo>, pending: set<uint32>, id: uint32)
    requires id in pending && pending <= peers.Keys
    ensures (peers - pending)[id := peers[id]] == peers - (pending - {id})
  {}

  lemma CounterAhead(ids: set<uint32>, next: uint32)
    requires PossibleCounter(ids, next)
    ensures (1 <= next && forall id :: id in ids ==> id < next) <==> LAST_ID !in ids
  {
    if LAST_ID !in ids {
      CounterIsNext(ids, next);
    }
  }

  lemma RestoreStep(c: Inet6, peers: map<uint32, PeerInfo>, view: View<BinaryPrefix, uint32>,
                    observations: seq<SnapshotObservation>, i: nat)
    requires i < |observations|
    ensures var o := observations[i];
      var p := ParseAs(c, o.family, o.prefixText);
      Restore(c, peers, view, observations[i..]) ==
        if o.peerId !in peers then Err(UnknownPeer)
        else if p.Err? then Err(BadPrefix(p.error))
        else Restore(c, peers, Announced(view, p.value, o.peerId, Seen(o.originAsn, o.timestamp)), observations[i + 1..])
  {
    assert observations[i..][0] == observations[i] && observations[i..][1..] == observations[i + 1..];
  }

  /** Replays the sorted observations onto the cleared state; every id they use is registered. */
  method RestoreObservations(c: Inet6, registry: PeerRegistry, state: RoutingState,
                             observations: seq<SnapshotObservation>)
    returns (r: Option<LoadError>)
    requires state.Sound() && Registered(state.observed, registry.byId)
    modifies state
    ensures state.Sound() && Registered(state.observed, registry.byId)
    ensures old(state.Valid()) && |registry.byId| < U32_LIMIT ==> state.Valid()
    ensures var want := Restore(c, registry.byId, old(state.observed), observations);
      if want.Err? then r == Some(want.error) else r == None && state.observed == want.value
  {
    ghost var byId, want := registry.byId, Restore(c, registry.byId, state.observed, observations);
    for i := 0 to |observations|
      invariant state.Sound() && registry.byId == byId && Registered(state.observed, byId)
      invariant old(state.Valid()) && |byId| < U32_LIMIT ==> state.Valid()
      invariant Restore(c, byId, state.observed, observations[i..]) == want
    {
      RestoreStep(c, byId, state.observed, observations, i);
      var failed := RestoreOne(c, registry, state, observations[i]);
      if failed.Some? {
        return failed;
      }
    }
    return None;
  }

  /** One observation: its peer is looked up, its prefix parsed, and both are announced. */
  method RestoreOne(c: Inet6, registry: PeerRegistry, state: RoutingState, o: SnapshotObservation)
    returns (r: Option<LoadError>)
    requires state.Sound() && Registered(state.observed, registry.byId)
    modifies state
    ensures state.Sound() && Registered(state.observed, registry.byId)
    ensures old(state.Valid()) && |registry.byId| < U32_LIMIT ==> state.Valid()
    ensures r == if o.peerId !in registry.byId then Some(UnknownPeer)
      else if ParseAs(c, o.family, o.prefixText).Err? then Some(BadPrefix(ParseAs(c, o.family, o.prefixText).error))
      else None
    ensures r == None ==> state.observed == Announced(old(state.observed), ParseAs(c, o.family, o.prefixText).value,
                                                      o.peerId, Seen(o.originAsn, o.timestamp))
  {
    if !registry.Contains(o.peerId) {
      return Some(UnknownPeer);
    }
    var prefix := ParseAs(c, o.family, o.prefixText);
    if prefix.Err? {
      return Some(BadPrefix(prefix.error));
    }
    if |registry.byId| < U32_LIMIT {
      RegisteredCounts(state.observed, registry.byId, prefix.value, o.peerId, o.originAsn);
    }
    state.RestoreObservation(o.peerId, prefix.value, o.originAsn, o.timestamp);
    return None;
  }

  /** The registry and the state as one system. */
  ghost function SystemOf(registry: PeerRegistry, state: RoutingState): System
    reads registry, state
  {
    System(registry.byInfo, registry.byId, registry.nextPeerId, state.observed)
  }

  lemma EmptyIsLoaded(s: System)
    requires MutualInverses(s.byInfo, s.byId) && s.byId == map[] && s.next == 1 && s.view == map[]
    ensures IsLoaded(s, Contents(map[], map[]))
  {
    var none: set<uint32>, order: seq<uint32> := {}, [];
    assert Lists(order, none) && CounterOf(order) == 1;
    assert s.byId.Keys == none;
  }

  /** Before the header there are blank lines only, which gather nothing. */
  lemma {:induction false} NothingBeforeHeader(r: Reader, lines: seq<string>)
    requires r == START || r.sawHeader
    ensures ReadLines(r, lines).Ok? ==> ReadLines(r, lines).value.sawHeader || ReadLines(r, lines).value == START
    decreases |lines|
  {
    if lines == [] {
    } else {
      if ReadLine(r, lines[0]).Ok? {
        NothingBeforeHeader(ReadLine(r, lines[0]).value, lines[1..]);
      }
    }
  }

  /**
   * Loading a text gives a system with the contents the text denotes, or fails as the format says.
   * The registry is valid, its counter above every id, exactly when the last 32-bit id was not read;
   * the state holds the observations in any case, and its caches are exact unless all ids were read.
   */
  method LoadSnapshot(c: Inet6, text: string, registry: PeerRegistry, state: RoutingState)
    returns (r: Result<SnapshotStats, LoadError>)
    modifies registry, state
    ensures r.Err? <==> LoadText(c, text).Err?
    ensures r.Err? ==> r.error == LoadText(c, text).error
    ensures r.Ok? ==> state.Sound() && IsLoaded(SystemOf(registry, state), LoadText(c, text).value)
    ensures r.Ok? && |registry.byId| < U32_LIMIT ==> state.Valid()
    ensures r.Ok? ==> (registry.Valid() <==> LAST_ID !in LoadText(c, text).value.peers)
    ensures r.Ok? ==> r.value.peers == |registry.byId|
    ensures r.Ok? ==> r.value.observations == |ReadLines(START, Lines(text)).value.observations|
    ensures ReadLines(START, Lines(text)).Err? ==> unchanged(registry) && unchanged(state)
  {
    var read := ReadSnapshotLines(text);
    if read.Err? {
      return Err(read.error);
    }
    NothingBeforeHeader(START, Lines(text));
    r := BuildSnapshot(c, read.value, registry, state);
  }

  /** Everything after the last line was read. */
  method BuildSnapshot(c: Inet6, reader: Reader, registry: PeerRegistry, state: RoutingState)
    returns (r: Result<SnapshotStats, LoadError>)
    modifies registry, state
    ensures r.Err? <==> Build(c, reader).Err?
    ensures r.Err? ==> r.error == Build(c, reader).error
    ensures r.Ok? ==> state.Sound() && IsLoaded(SystemOf(registry, state), Build(c, reader).value)
    ensures r.Ok? && |registry.byId| < U32_LIMIT ==> state.Valid()
    ensures r.Ok? ==> (registry.Valid() <==> LAST_ID !in Build(c, reader).value.peers)
    ensures r.Ok? && (reader.sawHeader || reader == START) ==>
      r.value.peers == |registry.byId| && r.value.observations == |reader.observations|
  {
    if !reader.sawHeader {
      registry.Clear();
      state.Clear();
      EmptyIsLoaded(SystemOf(registry, state));
      return Ok(SnapshotStats(0, 0));
    }

    ObservationLeTotal();
    var observations := Sort(ObservationLe, reader.observations);

    registry.Clear();
    state.Clear();
    var filled := FillRegistry(registry, reader.peers);
    if !filled {
      return Err(RepeatedIdentity);
    }
    var failed := RestoreObservations(c, registry, state, observations);
    if failed.Some? {
      return Err(failed.value);
    }
    ghost var view := state.observed;
    assert Build(c, reader) == Ok(Contents(reader.peers, view));
    state.RebuildAggregated();
    assert state.observed == view;
    return Ok(SnapshotStats(|reader.peers|, |observations|));
  }
}
