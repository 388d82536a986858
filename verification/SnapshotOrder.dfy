/** Loading does not depend on the order of the data lines inside a section. */
module SnapshotOrder {
  import opened Base
  import opened Text
  import opened Ordering
  import opened Prefix
  import opened PeerRegistry
  import opened System
  import opened SnapshotFormat
  import opened SnapshotCounter
  import opened SnapshotRoundTrip

  /** Neither blank nor a section line of any kind. */
  predicate IsData(line: string) {
    var trimmed := Trim(line);
    && trimmed != []
    && trimmed != PEERS_MARK && trimmed != OBSERVATIONS_MARK
    && !(trimmed[0] == '[' && trimmed[|trimmed| - 1] == ']')
  }

  /** Readers that differ only in the order in which observations were gathered. */
  ghost predicate Alike(a: Reader, b: Reader) {
    && a.section == b.section && a.sawHeader == b.sawHeader && a.peers == b.peers
    && multiset(a.observations) == multiset(b.observations)
  }

  /** Both refused, or readers that are alike. */
  ghost predicate SameOutcome(a: Result<Reader, LoadError>, b: Result<Reader, LoadError>) {
    (a.Err? && b.Err?) || (a.Ok? && b.Ok? && Alike(a.value, b.value))
  }

  lemma ReadLineAlike(a: Reader, b: Reader, line: string)
    requires Alike(a, b)
    ensures SameOutcome(ReadLine(a, line), ReadLine(b, line))
  {}

  lemma {:induction false} ReadLinesAlike(a: Reader, b: Reader, lines: seq<string>)
    requires Alike(a, b)
    ensures SameOutcome(ReadLines(a, lines), ReadLines(b, lines))
    decreases |lines|
  {
    if lines == [] {
    } else {
      ReadLineAlike(a, b, lines[0]);
      if ReadLine(a, lines[0]).Ok? {
        ReadLinesAlike(ReadLine(a, lines[0]).value, ReadLine(b, lines[0]).value, lines[1..]);
      }
    }
  }

  lemma DataReads(r: Reader, line: string)
    requires r.sawHeader && IsData(line)
    ensures ReadLine(r, line) == match r.section
      case NoSection => Err(DataBeforeSection)
      case Peers => ReadPeer(r, Split(line, '\t'))
      case ObservationsSection => ReadObservation(r, Split(line, '\t'))
  {}

  ghost function ReadTwo(r: Reader, x: string, y: string): Result<Reader, LoadError> {
    var next := ReadLine(r, x);
    if next.Err? then next else ReadLine(next.value, y)
  }

  lemma ExchangePeers(r: Reader, x: seq<string>, y: seq<string>)
    ensures
      var xy := (var n := ReadPeer(r, x); if n.Err? then n else ReadPeer(n.value, y));
      var yx := (var n := ReadPeer(r, y); if n.Err? then n else ReadPeer(n.value, x));
      (xy.Err? && yx.Err?) || xy == yx
  {
    if |x| == 4 && |y| == 4 && StoulU32(x[0]).Some? && StoulU32(y[0]).Some? && StoulU32(x[3]).Some? && StoulU32(y[3]).Some? {
      var i, j := StoulU32(x[0]).value, StoulU32(y[0]).value;
      if i != j {
        var p, q := PeerInfo(x[1], x[2], StoulU32(x[3]).value), PeerInfo(y[1], y[2], StoulU32(y[3]).value);
        assert r.peers[i := p][j := q] == r.peers[j := q][i := p];
      }
    }
  }

  lemma PeersReadTwo(r: Reader, x: string, y: string)
    requires r.sawHeader && r.section == Peers && IsData(x) && IsData(y)
    ensures ReadTwo(r, x, y)
         == (var n := ReadPeer(r, Split(x, '\t')); if n.Err? then n else ReadPeer(n.value, Split(y, '\t')))
  {
    DataReads(r, x);
    if ReadLine(r, x).Ok? {
      DataReads(ReadLine(r, x).value, y);
    }
  }

  lemma ObservationsReadTwo(r: Reader, x: string, y: string)
    requires r.sawHeader && r.section == ObservationsSection && IsData(x) && IsData(y)
    ensures ReadTwo(r, x, y)
         == (var n := ReadObservation(r, Split(x, '\t'));
             if n.Err? then n else ReadObservation(n.value, Split(y, '\t')))
  {
    DataReads(r, x);
    if ReadLine(r, x).Ok? {
      DataReads(ReadLine(r, x).value, y);
    }
  }

  lemma ExchangeObservations(r: Reader, x: seq<string>, y: seq<string>)
    ensures
      var xy := (var n := ReadObservation(r, x); if n.Err? then n else ReadObservation(n.value, y));
      var yx := (var n := ReadObservation(r, y); if n.Err? then n else ReadObservation(n.value, x));
      SameOutcome(xy, yx)
  {}

  lemma ExchangeData(r: Reader, x: string, y: string)
    requires r.sawHeader && IsData(x) && IsData(y)
    ensures SameOutcome(ReadTwo(r, x, y), ReadTwo(r, y, x))
  {
    match r.section
    case NoSection =>
      DataReads(r, x);
      DataReads(r, y);
    case Peers =>
      PeersReadTwo(r, x, y);
      PeersReadTwo(r, y, x);
      ExchangePeers(r, Split(x, '\t'), Split(y, '\t'));
    case ObservationsSection =>
      ObservationsReadTwo(r, x, y);
      ObservationsReadTwo(r, y, x);
      ExchangeObservations(r, Split(x, '\t'), Split(y, '\t'));
  }

  lemma SameOutcomeTransitive(a: Result<Reader, LoadError>, b: Result<Reader, LoadError>, c: Result<Reader, LoadError>)
    requires SameOutcome(a, b) && SameOutcome(b, c)
    ensures SameOutcome(a, c)
  {}

  lemma ReadsTwoThen(r: Reader, x: string, y: string, rest: seq<string>)
    ensures ReadLines(r, [x, y] + rest)
         == (var two := ReadTwo(r, x, y); if two.Err? then two else ReadLines(two.value, rest))
  {
    assert ([x, y] + rest)[1..] == [y] + rest;
    assert ([y] + rest)[1..] == rest;
  }

  lemma ExchangeFirstTwo(r: Reader, x: string, y: string, rest: seq<string>)
    requires r.sawHeader && IsData(x) && IsData(y)
    ensures SameOutcome(ReadLines(r, [x, y] + rest), ReadLines(r, [y, x] + rest))
  {
    ExchangeData(r, x, y);
    ReadsTwoThen(r, x, y, rest);
    ReadsTwoThen(r, y, x, rest);
    var xy, yx := ReadTwo(r, x, y), ReadTwo(r, y, x);
    if xy.Ok? {
      ReadLinesAlike(xy.value, yx.value, rest);
    }
  }

  lemma ReadKeepsHeader(r: Reader, line: string)
    requires r.sawHeader && ReadLine(r, line).Ok?
    ensures ReadLine(r, line).value.sawHeader
  {}

  /** A data line may be read before the data lines that precede it. */
  lemma {:induction false} MoveToFront(r: Reader, before: seq<string>, x: string, after: seq<string>)
    requires r.sawHeader && IsData(x) && forall line <- before :: IsData(line)
    ensures SameOutcome(ReadLines(r, before + [x] + after), ReadLines(r, [x] + before + after))
    decreases |before|
  {
    if before == [] {
      assert before + [x] + after == [x] + before + after;
      ReadLinesAlike(r, r, [x] + after);
    } else {
      var y, rest := before[0], before[1..];
      assert (before + [x] + after)[1..] == rest + [x] + after;
      if ReadLine(r, y).Ok? {
        ReadKeepsHeader(r, y);
        MoveToFront(ReadLine(r, y).value, rest, x, after);
      }
      assert ([y] + ([x] + rest + after))[1..] == [x] + rest + after;
      assert SameOutcome(ReadLines(r, before + [x] + after), ReadLines(r, [y] + ([x] + rest + after)));
      assert [y] + ([x] + rest + after) == [y, x] + (rest + after);
      assert [x] + before + after == [x, y] + (rest + after);
      ExchangeFirstTwo(r, y, x, rest + after);
      SameOutcomeTransitive(ReadLines(r, before + [x] + after), ReadLines(r, [y, x] + (rest + after)),
                            ReadLines(r, [x] + before + after));
    }
  }

  lemma PullOut(a: seq<string>, b: seq<string>) returns (before: seq<string>, after: seq<string>)
    requires a != [] && multiset(a) == multiset(b)
    ensures b == before + [a[0]] + after && multiset(a[1..]) == multiset(before + after)
    ensures forall line <- before :: line in a
  {
    SameMembers(a, b);
    assert a == [a[0]] + a[1..];
    assert a[0] in a && a[0] in b;
    var k :| 0 <= k < |b| && b[k] == a[0];
    before, after := b[..k], b[k + 1..];
    assert b == before + [a[0]] + after;
    RemoveFromBoth(a[0], a[1..], before, after);
  }

  /** Any permutation of a block of data lines is read to the same outcome. */
  lemma {:induction false} PermuteBlock(r: Reader, a: seq<string>, b: seq<string>)
    requires r.sawHeader && multiset(a) == multiset(b)
    requires forall line <- a :: IsData(line)
    ensures SameOutcome(ReadLines(r, a), ReadLines(r, b))
    decreases |a|, 0
  {
    if a == [] {
      SameMembers(a, b);
    } else {
      var x, rest := a[0], a[1..];
      var before, after := PullOut(a, b);
      MoveToFront(r, before, x, after);
      FrontLineRead(r, x, rest, before + after);
      assert [x] + rest == a && [x] + before + after == [x] + (before + after);
      SameOutcomeTransitive(ReadLines(r, b), ReadLines(r, [x] + (before + after)), ReadLines(r, a));
    }
  }

  lemma {:induction false} FrontLineRead(r: Reader, x: string, a: seq<string>, b: seq<string>)
    requires r.sawHeader && multiset(a) == multiset(b)
    requires forall line <- a :: IsData(line)
    ensures SameOutcome(ReadLines(r, [x] + a), ReadLines(r, [x] + b))
    decreases |a|, 1
  {
    assert ([x] + a)[1..] == a && ([x] + b)[1..] == b;
    if ReadLine(r, x).Ok? {
      ReadKeepsHeader(r, x);
      PermuteBlock(ReadLine(r, x).value, a, b);
    }
  }

  lemma BuildAlike(c: Inet6, a: Reader, b: Reader)
    requires Alike(a, b)
    ensures Build(c, a) == Build(c, b)
  {
    ObservationLeTotal();
    SortedUnique(ObservationLe, Sort(ObservationLe, a.observations), Sort(ObservationLe, b.observations));
  }

  /**
   * Permuting a block of data lines anywhere after the header leaves what the text denotes as it
   * was, or leaves the text refused; duplicates for one prefix and peer included.
   */
  lemma ContentsIgnoreLineOrder(c: Inet6, before: seq<string>, block: seq<string>, block': seq<string>, after: seq<string>)
    requires Permuted(before, block, block')
    ensures var x, y := LoadLines(c, before + block + after), LoadLines(c, before + block' + after);
      x == y || (x.Err? && y.Err?)
  {
    ReadLinesConcat(START, before, block);
    ReadLinesConcat(START, before, block');
    ReadLinesConcat(START, before + block, after);
    ReadLinesConcat(START, before + block', after);
    if ReadLines(START, before).Ok? {
      var r := ReadLines(START, before).value;
      PermuteBlock(r, block, block');
      if ReadLines(r, block).Ok? {
        var r1, r2 := ReadLines(r, block).value, ReadLines(r, block').value;
        ReadLinesAlike(r1, r2, after);
        if ReadLines(r1, after).Ok? {
          BuildAlike(c, ReadLines(r1, after).value, ReadLines(r2, after).value);
        }
      }
    }
  }

  /** Data lines of a block after the header, in two orders. */
  ghost predicate Permuted(before: seq<string>, block: seq<string>, block': seq<string>) {
    && multiset(block) == multiset(block')
    && (forall line <- block :: IsData(line))
    && (ReadLines(START, before).Ok? ==> ReadLines(START, before).value.sawHeader)
  }

  lemma LoadedPeersInjective(c: Inet6, lines: seq<string>)
    requires LoadLines(c, lines).Ok?
    ensures Injective(LoadLines(c, lines).value.peers)
  {}

  /**
   * The lines in either order load as the same registry and the same state, in whatever order the
   * hash maps deliver the peers, exactly when the last 32-bit id is not among the peers read or is
   * the only one; a text refused in one order is refused in the other.
   */
  lemma LoadIgnoresLineOrder(c: Inet6, before: seq<string>, block: seq<string>, block': seq<string>, after: seq<string>)
    requires Permuted(before, block, block')
    ensures var x, y := LoadLines(c, before + block + after), LoadLines(c, before + block' + after);
      && (x.Ok? <==> y.Ok?)
      && (x.Ok? ==>
        ((forall s, t :: IsLoaded(s, x.value) && IsLoaded(t, y.value) ==> s == t)
          <==> LAST_ID !in x.value.peers || x.value.peers.Keys == {LAST_ID}))
  {
    ContentsIgnoreLineOrder(c, before, block, block', after);
    var x := LoadLines(c, before + block + after);
    if x.Ok? {
      LoadedPeersInjective(c, before + block + after);
      OneSystemIff(x.value);
    }
  }

  // ----- A text that two orders of insertion load differently -----

  const TWO_PEERS := map[LAST_ID := PeerInfo("a", "", 0), 5 := PeerInfo("b", "", 0)]

  /** A snapshot of two peers and no observations, its peer lines in the order of these ids. */
  function TwoPeerLines(ids: seq<uint32>): seq<string>
    requires forall id <- ids :: id in TWO_PEERS
  {
    [HEADER, "", PEERS_MARK] + PeerLines(ids, TWO_PEERS)
  }

  /** A snapshot of peers alone loads as those peers. */
  lemma PeersAloneRead(c: Inet6, ids: seq<uint32>, byId: map<uint32, PeerInfo>)
    requires NoDuplicates(ids) && Injective(byId) && forall id <- ids :: id in byId && CleanPeer(byId[id])
    ensures LoadLines(c, [HEADER, "", PEERS_MARK] + PeerLines(ids, byId)) == Ok(Contents(PickedPeers(ids, byId), map[]))
  {
    var r, picked := Reader(Peers, true, map[], []), PickedPeers(ids, byId);
    OpeningReads();
    PeerLinesRead(r, ids, byId);
    ReadLinesConcat(START, [HEADER, "", PEERS_MARK], PeerLines(ids, byId));
    assert r.peers + picked == picked;
    assert ReadLines(START, [HEADER, "", PEERS_MARK] + PeerLines(ids, byId)) == Ok(r.(peers := picked));
    EmptySortsEmpty();
  }

  lemma EmptySortsEmpty()
    ensures TotalOrder(ObservationLe) && Sort(ObservationLe, []) == []
  {
    ObservationLeTotal();
  }

  lemma TwoPeersRead(c: Inet6)
    ensures LoadLines(c, TwoPeerLines([LAST_ID, 5])) == Ok(Contents(TWO_PEERS, map[]))
  {
    var ids: seq<uint32> := [LAST_ID, 5];
    PeersAloneRead(c, ids, TWO_PEERS);
    assert PickedPeers(ids, TWO_PEERS) == TWO_PEERS by {
      assert forall id :: id in TWO_PEERS ==> id in ids;
    }
  }

  lemma TwoCounters()
    ensures PossibleCounter({LAST_ID, 5}, 6) && PossibleCounter({LAST_ID, 5}, 0)
  {
    var a, b: seq<uint32> := [LAST_ID, 5], [5, LAST_ID];
    assert a[..1] == [LAST_ID] && [LAST_ID][..0] == [] && CounterOf([LAST_ID]) == 0 && CounterOf(a) == 6;
    assert b[..1] == [5] && [5][..0] == [] && CounterOf([5]) == 6 && CounterOf(b) == 0;
    assert (set x | x in a) == {LAST_ID, 5} && (set x | x in b) == {LAST_ID, 5};
    assert Lists(a, {LAST_ID, 5}) && Lists(b, {LAST_ID, 5});
  }

  /**
   * With the last 32-bit id among the peers the counter may stand at 6 or at 0 after loading; in
   * the second case the sixth new peer is handed an id that is taken.
   */
  lemma LastIdLoadsTwoWays(c: Inet6)
    ensures var contents, byInfo := Contents(TWO_PEERS, map[]), Inverse(TWO_PEERS);
      && LoadLines(c, TwoPeerLines([LAST_ID, 5])) == Ok(contents)
      && IsLoaded(System(byInfo, TWO_PEERS, 6, map[]), contents)
      && IsLoaded(System(byInfo, TWO_PEERS, 0, map[]), contents)
      && Ahead(0, 5) in TWO_PEERS
  {
    TwoPeersRead(c);
    TwoCounters();
    assert TWO_PEERS.Keys == {LAST_ID, 5};
    assert Injective(TWO_PEERS);
  }
}
