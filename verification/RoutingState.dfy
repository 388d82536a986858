/** The routing state: one table per address family (class RoutingState of src/routing_state.cpp). */
module RoutingState {
  import opened Base
  import opened Prefix
  import opened Selection
  import opened RoutingTable
  import opened Ordering
  import opened Export

  ghost predicate HasKey<T>(v4: map<PrefixV4, T>, v6: map<PrefixV6, T>, p: BinaryPrefix) {
    match p
    case V4(q) => q in v4
    case V6(q) => q in v6
  }

  ghost function At<T>(v4: map<PrefixV4, T>, v6: map<PrefixV6, T>, p: BinaryPrefix): T
    requires HasKey(v4, v6, p)
  {
    match p
    case V4(q) => v4[q]
    case V6(q) => v6[q]
  }

  ghost function Keys(v4: set<PrefixV4>, v6: set<PrefixV6>): (keys: set<BinaryPrefix>)
    ensures forall p :: p in keys <==> match p case V4(q) => q in v4 case V6(q) => q in v6
  {
    (set p | p in v4 :: V4(p)) + (set p | p in v6 :: V6(p))
  }

  /** The two key spaces as one. */
  ghost function Join<T>(v4: map<PrefixV4, T>, v6: map<PrefixV6, T>): map<BinaryPrefix, T> {
    map p | p in Keys(v4.Keys, v6.Keys) :: At(v4, v6, p)
  }

  lemma JoinAt<T>(v4: map<PrefixV4, T>, v6: map<PrefixV6, T>, p: BinaryPrefix)
    ensures p in Join(v4, v6) <==> HasKey(v4, v6, p)
    ensures HasKey(v4, v6, p) ==> Join(v4, v6)[p] == At(v4, v6, p)
  {}

  lemma JoinPut<T>(v4: map<PrefixV4, T>, v6: map<PrefixV6, T>, p: BinaryPrefix, t: T)
    ensures match p
      case V4(q) => Join(v4[q := t], v6) == Join(v4, v6)[p := t]
      case V6(q) => Join(v4, v6[q := t]) == Join(v4, v6)[p := t]
  {}

  lemma JoinDrop<T>(v4: map<PrefixV4, T>, v6: map<PrefixV6, T>, p: BinaryPrefix)
    ensures match p
      case V4(q) => Join(v4 - {q}, v6) == Join(v4, v6) - {p}
      case V6(q) => Join(v4, v6 - {q}) == Join(v4, v6) - {p}
  {}

  lemma JoinRow(v4: View<PrefixV4, uint32>, v6: View<PrefixV6, uint32>, p: BinaryPrefix)
    ensures Row(Join(v4, v6), p) == match p case V4(q) => Row(v4, q) case V6(q) => Row(v6, q)
  {
    JoinAt(v4, v6, p);
  }

  lemma JoinUpdates(v4: View<PrefixV4, uint32>, v6: View<PrefixV6, uint32>, p: BinaryPrefix, q: uint32, seen: Seen)
    ensures match p
      case V4(x) => Join(Announced(v4, x, q, seen), v6) == Announced(Join(v4, v6), p, q, seen)
      case V6(x) => Join(v4, Announced(v6, x, q, seen)) == Announced(Join(v4, v6), p, q, seen)
    ensures match p
      case V4(x) => Join(Withdrawn(v4, x, q), v6) == Withdrawn(Join(v4, v6), p, q)
      case V6(x) => Join(v4, Withdrawn(v6, x, q)) == Withdrawn(Join(v4, v6), p, q)
  {
    JoinAt(v4, v6, p);
    var row := Row(Join(v4, v6), p);
    JoinPut(v4, v6, p, row[q := seen]);
    JoinPut(v4, v6, p, row - {q});
    JoinDrop(v4, v6, p);
  }

  lemma JoinAnnounced(v4: View<PrefixV4, uint32>, v6: View<PrefixV6, uint32>, p: BinaryPrefix, q: uint32, seen: Seen,
                      w4: View<PrefixV4, uint32>, w6: View<PrefixV6, uint32>)
    requires match p
      case V4(x) => w4 == Announced(v4, x, q, seen) && w6 == v6
      case V6(x) => w4 == v4 && w6 == Announced(v6, x, q, seen)
    ensures Join(w4, w6) == Announced(Join(v4, v6), p, q, seen)
    ensures Row(Join(v4, v6), p) == match p case V4(x) => Row(v4, x) case V6(x) => Row(v6, x)
  {
    JoinUpdates(v4, v6, p, q, seen);
    JoinRow(v4, v6, p);
  }

  lemma JoinWinners(v4: View<PrefixV4, uint32>, v6: View<PrefixV6, uint32>)
    requires NoEmptyRows(v4) && NoEmptyRows(v6)
    ensures NoEmptyRows(Join(v4, v6))
    ensures Join(Winners(v4), Winners(v6)) == Winners(Join(v4, v6))
  {
    var view, table := Join(v4, v6), Join(Winners(v4), Winners(v6));
    forall p ensures p in view ==> view[p] != map[] {
      JoinAt(v4, v6, p);
    }
    forall p ensures p in table <==> p in view
      ensures p in view ==> table[p] == Winners(view)[p]
    {
      JoinAt(v4, v6, p);
      JoinAt(Winners(v4), Winners(v6), p);
      if p in view {
        WinnerUnique(view[p], table[p], Winners(view)[p]);
      }
    }
  }

  // ----- Listing every stored observation -----

  datatype StoredObservation = StoredObservation(prefix: BinaryPrefix, peerId: uint32, seen: Seen)

  ghost predicate IsObserved(view: View<BinaryPrefix, uint32>, o: StoredObservation) {
    Lookup(view, o.prefix, o.peerId) == Some(o.seen)
  }

  ghost function Observations(view: View<BinaryPrefix, uint32>): (all: set<StoredObservation>)
    ensures forall o :: o in all <==> IsObserved(view, o)
  {
    set p, q | p in view && q in view[p] :: StoredObservation(p, q, view[p][q])
  }

  /** One family's prefixes seen as binary prefixes, and back. */
  ghost predicate Tagging<P(!new)>(tag: P -> BinaryPrefix, untag: BinaryPrefix -> Option<P>) {
    forall p, b :: untag(b) == Some(p) <==> tag(p) == b
  }

  ghost predicate StoredIn<P>(byPrefix: map<P, PrefixRecord>, untag: BinaryPrefix -> Option<P>, o: StoredObservation) {
    var p := untag(o.prefix);
    p.Some? && Lookup(TableView(byPrefix), p.value, o.peerId) == Some(o.seen)
  }

  function RowItems(prefix: BinaryPrefix, r: PrefixRecord): (items: seq<StoredObservation>)
    requires |r.observations| == |r.timestamps|
  {
    seq(|r.observations|, i requires 0 <= i < |r.observations| =>
      StoredObservation(prefix, r.observations[i].peerId, Seen(r.observations[i].originAsn, r.timestamps[i])))
  }

  lemma RowItemsAreVotes(prefix: BinaryPrefix, r: PrefixRecord)
    requires Aligned(r)
    ensures NoDuplicates(RowItems(prefix, r))
    ensures forall o: StoredObservation :: o in RowItems(prefix, r) <==>
      o.prefix == prefix && o.peerId in Votes(r) && Votes(r)[o.peerId] == o.seen
  {
    var items := RowItems(prefix, r);
    forall o: StoredObservation | o in items ensures o.prefix == prefix && o.peerId in Votes(r) && Votes(r)[o.peerId] == o.seen {
      var i :| 0 <= i < |items| && items[i] == o;
      VoteAt(r, i);
    }
    forall o: StoredObservation | o.prefix == prefix && o.peerId in Votes(r) && Votes(r)[o.peerId] == o.seen ensures o in items {
      var i := VoterIsListed(r, o.peerId);
      VoteAt(r, i);
      assert items[i] == o;
    }
  }

  method AppendRow(prefix: BinaryPrefix, record: PrefixRecord, result: seq<StoredObservation>)
    returns (result': seq<StoredObservation>)
    requires Aligned(record)
    ensures result' == result + RowItems(prefix, record)
  {
    result' := result;
    ghost var items := RowItems(prefix, record);
    for index := 0 to |record.observations|
      invariant result' == result + items[..index]
    {
      result' := result' + [StoredObservation(prefix, record.observations[index].peerId,
        Seen(record.observations[index].originAsn, record.timestamps[index]))];
      assert items[..index + 1] == items[..index] + [items[index]];
    }
    assert items[..|items|] == items;
  }

  /** The listing so far: what was there before and the rows already visited. */
  ghost predicate ListedSoFar<P>(byPrefix: map<P, PrefixRecord>, untag: BinaryPrefix -> Option<P>, pending: set<P>,
                                 result: seq<StoredObservation>, result': seq<StoredObservation>) {
    && NoDuplicates(result')
    && forall o :: o in result' <==>
      o in result || (StoredIn(byPrefix, untag, o) && untag(o.prefix).value !in pending)
  }

  lemma ListOneRow<P(!new)>(byPrefix: map<P, PrefixRecord>, tag: P -> BinaryPrefix,
                            untag: BinaryPrefix -> Option<P>, pending: set<P>, p: P,
                            result: seq<StoredObservation>, before: seq<StoredObservation>)
    requires Tagging(tag, untag) && pending <= byPrefix.Keys && p in pending && Aligned(byPrefix[p])
    requires forall o :: o in result ==> untag(o.prefix) == None
    requires ListedSoFar(byPrefix, untag, pending, result, before)
    ensures ListedSoFar(byPrefix, untag, pending - {p}, result, before + RowItems(tag(p), byPrefix[p]))
  {
    var items := RowItems(tag(p), byPrefix[p]);
    assert untag(tag(p)) == Some(p);
    RowItemsAreVotes(tag(p), byPrefix[p]);
    AppendDistinct(before, items);
    forall o ensures o in before + items <==>
      o in result || (StoredIn(byPrefix, untag, o) && untag(o.prefix).value !in pending - {p})
    {
      assert untag(o.prefix) == Some(p) <==> tag(p) == o.prefix;
    }
  }

  method AppendStoredObservations<P(==, !new)>(byPrefix: map<P, PrefixRecord>,
                                               tag: P -> BinaryPrefix, ghost untag: BinaryPrefix -> Option<P>,
                                               result: seq<StoredObservation>)
    returns (result': seq<StoredObservation>)
    requires (forall p :: p in byPrefix ==> Aligned(byPrefix[p])) && Tagging(tag, untag)
    requires NoDuplicates(result) && forall o :: o in result ==> untag(o.prefix) == None
    ensures ListedSoFar(byPrefix, untag, {}, result, result')
  {
    result' := result;
    var pending := byPrefix.Keys;
    assert forall o :: StoredIn(byPrefix, untag, o) ==> untag(o.prefix).value in pending;
    while pending != {}
      invariant pending <= byPrefix.Keys
      invariant ListedSoFar(byPrefix, untag, pending, result, result')
      decreases pending
    {
      var prefix :| prefix in pending;
      ListOneRow(byPrefix, tag, untag, pending, prefix, result, result');
      result' := AppendRow(tag(prefix), byPrefix[prefix], result');
      pending := pending - {prefix};
    }
  }

  ghost function OfFamily(prefixes: set<BinaryPrefix>, family: Family): set<BinaryPrefix> {
    set p | p in prefixes && FamilyOf(p) == family
  }

  lemma FamilySizes(v4: set<PrefixV4>, v6: set<PrefixV6>)
    ensures |OfFamily(Keys(v4, v6), FamilyV4)| == |v4|
    ensures |OfFamily(Keys(v4, v6), FamilyV6)| == |v6|
    ensures |Keys(v4, v6)| == |v4| + |v6|
  {
    var s4, s6 := OfFamily(Keys(v4, v6), FamilyV4), OfFamily(Keys(v4, v6), FamilyV6);
    forall p | p in s4 ensures exists q :: q in v4 && V4(q) == p {
      assert p.v4 in v4;
    }
    forall p | p in s6 ensures exists q :: q in v6 && V6(q) == p {
      assert p.v6 in v6;
    }
    SizeThrough(v4, (p: PrefixV4) => V4(p), s4);
    SizeThrough(v6, (p: PrefixV6) => V6(p), s6);
    assert Keys(v4, v6) == s4 + s6;
  }

  ghost function UntagV4(p: BinaryPrefix): Option<PrefixV4> {
    if p.V4? then Some(p.v4) else None
  }

  ghost function UntagV6(p: BinaryPrefix): Option<PrefixV6> {
    if p.V6? then Some(p.v6) else None
  }

  lemma BothFamiliesListed(v4: map<PrefixV4, PrefixRecord>, v6: map<PrefixV6, PrefixRecord>,
                           first: seq<StoredObservation>, result: seq<StoredObservation>)
    requires ListedSoFar(v4, UntagV4, {}, [], first) && ListedSoFar(v6, UntagV6, {}, first, result)
    ensures Lists(result, Observations(Join(TableView(v4), TableView(v6))))
  {
    var view := Join(TableView(v4), TableView(v6));
    forall o ensures o in result <==> IsObserved(view, o) {
      JoinAt(TableView(v4), TableView(v6), o.prefix);
      assert o in first <==> StoredIn(v4, UntagV4, o);
      assert o in result <==> o in first || StoredIn(v6, UntagV6, o);
    }
  }

  lemma ViewSizes(v4: map<PrefixV4, PrefixRecord>, v6: map<PrefixV6, PrefixRecord>)
    ensures |OfFamily(Join(TableView(v4), TableView(v6)).Keys, FamilyV4)| == |v4|
    ensures |OfFamily(Join(TableView(v4), TableView(v6)).Keys, FamilyV6)| == |v6|
  {
    FamilySizes(v4.Keys, v6.Keys);
    assert Join(TableView(v4), TableView(v6)).Keys == Keys(v4.Keys, v6.Keys);
    assert |v4.Keys| == |v4| && |v6.Keys| == |v6|;
  }

  lemma TextsDiffer(c: Inet6)
    ensures forall p, q :: ToStringV4(p) == ToStringV4(q) ==> p == q
    ensures forall p, q :: ToStringV6(c, p) == ToStringV6(c, q) ==> p == q
    ensures forall p, q :: ToStringV4(p) != ToStringV6(c, q)
  {
    forall p, q | ToStringV4(p) == ToStringV4(q) ensures p == q {
      PrintingInjective(c, V4(p), V4(q));
    }
    forall p, q | ToStringV6(c, p) == ToStringV6(c, q) ensures p == q {
      PrintingInjective(c, V6(p), V6(q));
    }
    forall p, q ensures ToStringV4(p) != ToStringV6(c, q) {
      if ToStringV4(p) == ToStringV6(c, q) {
        PrintingInjective(c, V4(p), V6(q));
      }
    }
  }

  lemma JoinedRows(c: Inet6, v4: map<PrefixV4, uint32>, v6: map<PrefixV6, uint32>, rows: seq<(string, uint32)>)
    requires forall row :: row in rows <==>
      || (exists p :: p in v4 && row == (ToString(c, V4(p)), v4[p]))
      || (exists p :: p in v6 && row == (ToString(c, V6(p)), v6[p]))
    ensures forall row :: row in rows <==> RowOf(c, Join(v4, v6), row)
  {
    forall row | RowOf(c, Join(v4, v6), row) ensures row in rows {
      var p :| p in Join(v4, v6) && ToString(c, p) == row.0 && Join(v4, v6)[p] == row.1;
      JoinAt(v4, v6, p);
    }
    forall row | row in rows ensures RowOf(c, Join(v4, v6), row) {
      if p :| p in v4 && row == (ToString(c, V4(p)), v4[p]) {
        JoinAt(v4, v6, V4(p));
      } else {
        var p :| p in v6 && row == (ToString(c, V6(p)), v6[p]);
        JoinAt(v4, v6, V6(p));
      }
    }
  }

  method ExportImpl(c: Inet6, v4: map<PrefixV4, uint32>, v6: map<PrefixV6, uint32>)
    returns (rows: seq<(string, uint32)>, asnRows: seq<AsnRow>)
    ensures DistinctTexts(rows) && forall row :: row in rows <==> RowOf(c, Join(v4, v6), row)
    ensures WellFormedRows(asnRows) && multiset(Inverted(asnRows)) == multiset(rows)
    ensures TotalLength(asnRows) == |rows| == |Join(v4, v6)|
  {
    TextsDiffer(c);
    var none: map<uint32, seq<string>> := map[];
    var first, firstMap := AppendExports(c, v4, (p: PrefixV4) => V4(p), [], none);
    var asnMap;
    rows, asnMap := AppendExports(c, v6, (p: PrefixV6) => V6(p), first, firstMap);
    JoinedRows(c, v4, v6, rows);
    asnRows := AsnTable(asnMap, rows);
    TablesInverse(rows, asnRows);
    JoinSize(v4, v6);
  }

  lemma JoinSize<T>(v4: map<PrefixV4, T>, v6: map<PrefixV6, T>)
    ensures |Join(v4, v6)| == |v4| + |v6|
  {
    FamilySizes(v4.Keys, v6.Keys);
    assert Join(v4, v6).Keys == Keys(v4.Keys, v6.Keys);
    assert |Join(v4, v6).Keys| == |Join(v4, v6)| && |v4.Keys| == |v4| && |v6.Keys| == |v6|;
  }

  /** Counters, selections and caches of both families are exact; closed, see Base.Key. */
  ghost predicate Exact(byPrefixV4: map<PrefixV4, PrefixRecord>, aggregatedV4: map<PrefixV4, uint32>,
                        byPrefixV6: map<PrefixV6, PrefixRecord>, aggregatedV6: map<PrefixV6, uint32>) {
    forall k {:trigger Key(StateDoor, k)} :: Key(StateDoor, k) ==>
      ValidTable(byPrefixV4, aggregatedV4) && ValidTable(byPrefixV6, aggregatedV6)
  }

  lemma OpenExact(byPrefixV4: map<PrefixV4, PrefixRecord>, aggregatedV4: map<PrefixV4, uint32>,
                  byPrefixV6: map<PrefixV6, PrefixRecord>, aggregatedV6: map<PrefixV6, uint32>)
    ensures Exact(byPrefixV4, aggregatedV4, byPrefixV6, aggregatedV6)
       <==> ValidTable(byPrefixV4, aggregatedV4) && ValidTable(byPrefixV6, aggregatedV6)
  {
    assert Key(StateDoor, 0);
  }

  class RoutingState {
    var byPrefixV4: map<PrefixV4, PrefixRecord>
    var byPrefixV6: map<PrefixV6, PrefixRecord>
    var aggregatedV4: map<PrefixV4, uint32>
    var aggregatedV6: map<PrefixV6, uint32>

    /** The latest observation of every peer for every prefix of either family. */
    ghost var observed: View<BinaryPrefix, uint32>

    /** Both tables are sound and together say what is observed. */
    ghost predicate Layout()
      reads this
    {
      && SoundTable(byPrefixV4) && SoundTable(byPrefixV6)
      && observed == Join(TableView(byPrefixV4), TableView(byPrefixV6))
    }

    /** The layout, closed: clients rely on `observed` and need not look at the tables. */
    ghost predicate Sound()
      reads this
    {
      forall k {:trigger Key(StateDoor, k)} :: Key(StateDoor, k) ==> Layout()
    }

    /** Sound, and no counter has wrapped. */
    ghost predicate Valid()
      reads this
    {
      Sound() && Exact(byPrefixV4, aggregatedV4, byPrefixV6, aggregatedV6)
    }

    lemma OpenSound()
      requires Sound()
      ensures Layout()
    {
      assert Key(StateDoor, 0);
    }

    lemma Open()
      requires Valid()
      ensures Layout() && ValidTable(byPrefixV4, aggregatedV4) && ValidTable(byPrefixV6, aggregatedV6)
    {
      OpenSound();
      OpenExact(byPrefixV4, aggregatedV4, byPrefixV6, aggregatedV6);
    }

    /** The table main exports and counts. */
    ghost function Aggregated(): map<BinaryPrefix, uint32>
      reads this
    {
      Join(aggregatedV4, aggregatedV6)
    }

    /** In every valid state the cached table is the recount of the observations. */
    lemma AggregatedIsRecount()
      requires Valid()
      ensures NoEmptyRows(observed) && Aggregated() == Winners(observed)
    {
      Open();
      CacheIsRecount(byPrefixV4, aggregatedV4);
      CacheIsRecount(byPrefixV6, aggregatedV6);
      JoinWinners(TableView(byPrefixV4), TableView(byPrefixV6));
    }

    /**
     * What is cached, and exported, for an observed prefix: an origin some peer reports, such that no
     * other origin has more peers, and those with as many have larger numbers.
     */
    lemma CachedOrigin(p: BinaryPrefix, other: uint32)
      requires Valid() && p in observed
      ensures p in Aggregated()
      ensures var asn, votes := Aggregated()[p], observed[p];
        var mine, theirs := (set q | q in votes && votes[q].asn == asn), (set q | q in votes && votes[q].asn == other);
        mine != {} && (other != asn ==> |theirs| < |mine| || (|theirs| == |mine| && asn < other))
    {
      AggregatedIsRecount();
      var asn, votes := Aggregated()[p], observed[p];
      MostReported(votes, asn, other);
    }

    constructor ()
      ensures Valid() && observed == map[]
    {
      byPrefixV4, byPrefixV6 := map[], map[];
      aggregatedV4, aggregatedV6 := map[], map[];
      observed := map[];
    }

    /** Every announcement is observed; the caches stay exact exactly when the counter of its ASN has room. */
    method Announce(peerId: uint32, prefix: BinaryPrefix, originAsn: uint32, timestamp: uint64)
      requires Sound()
      modifies this
      ensures Sound()
      ensures observed == Announced(old(observed), prefix, peerId, Seen(originAsn, timestamp))
      ensures old(Valid()) ==> (Valid() <==> Countable(Row(old(observed), prefix), peerId, originAsn))
    {
      match prefix
      case V4(p) => AnnounceV4(peerId, p, originAsn, timestamp);
      case V6(p) => AnnounceV6(peerId, p, originAsn, timestamp);
    }

    method AnnounceV4(peerId: uint32, prefix: PrefixV4, originAsn: uint32, timestamp: uint64)
      requires Sound()
      modifies this
      ensures Sound()
      ensures observed == Announced(old(observed), V4(prefix), peerId, Seen(originAsn, timestamp))
      ensures old(Valid()) ==> (Valid() <==> Countable(Row(old(observed), V4(prefix)), peerId, originAsn))
    {
      OpenSound();
      ghost var v4, v6, seen := TableView(byPrefixV4), TableView(byPrefixV6), Seen(originAsn, timestamp);
      OpenExact(byPrefixV4, aggregatedV4, byPrefixV6, aggregatedV6);
      byPrefixV4, aggregatedV4 := AnnounceImpl(byPrefixV4, aggregatedV4, prefix, peerId, originAsn, timestamp);
      OpenExact(byPrefixV4, aggregatedV4, byPrefixV6, aggregatedV6);
      JoinAnnounced(v4, v6, V4(prefix), peerId, seen, TableView(byPrefixV4), v6);
      observed := Announced(observed, V4(prefix), peerId, seen);
    }

    method AnnounceV6(peerId: uint32, prefix: PrefixV6, originAsn: uint32, timestamp: uint64)
      requires Sound()
      modifies this
      ensures Sound()
      ensures observed == Announced(old(observed), V6(prefix), peerId, Seen(originAsn, timestamp))
      ensures old(Valid()) ==> (Valid() <==> Countable(Row(old(observed), V6(prefix)), peerId, originAsn))
    {
      OpenSound();
      ghost var v4, v6, seen := TableView(byPrefixV4), TableView(byPrefixV6), Seen(originAsn, timestamp);
      OpenExact(byPrefixV4, aggregatedV4, byPrefixV6, aggregatedV6);
      byPrefixV6, aggregatedV6 := AnnounceImpl(byPrefixV6, aggregatedV6, prefix, peerId, originAsn, timestamp);
      OpenExact(byPrefixV4, aggregatedV4, byPrefixV6, aggregatedV6);
      JoinAnnounced(v4, v6, V6(prefix), peerId, seen, v4, TableView(byPrefixV6));
      observed := Announced(observed, V6(prefix), peerId, seen);
    }

    /** A withdrawal never spoils the caches. */
    method Withdraw(peerId: uint32, prefix: BinaryPrefix)
      requires Sound()
      modifies this
      ensures Sound()
      ensures observed == Withdrawn(old(observed), prefix, peerId)
      ensures old(Valid()) ==> Valid()
    {
      OpenSound();
      OpenExact(byPrefixV4, aggregatedV4, byPrefixV6, aggregatedV6);
      JoinUpdates(TableView(byPrefixV4), TableView(byPrefixV6), prefix, peerId, Seen(0, 0));
      match prefix
      case V4(p) =>
        byPrefixV4, aggregatedV4 := WithdrawImpl(byPrefixV4, aggregatedV4, p, peerId);
        observed := Withdrawn(observed, prefix, peerId);
      case V6(p) =>
        byPrefixV6, aggregatedV6 := WithdrawImpl(byPrefixV6, aggregatedV6, p, peerId);
        observed := Withdrawn(observed, prefix, peerId);
    }

    method RestoreObservation(peerId: uint32, prefix: BinaryPrefix, originAsn: uint32, timestamp: uint64)
      requires Sound()
      modifies this
      ensures Sound()
      ensures observed == Announced(old(observed), prefix, peerId, Seen(originAsn, timestamp))
      ensures old(Valid()) ==> (Valid() <==> Countable(Row(old(observed), prefix), peerId, originAsn))
    {
      Announce(peerId, prefix, originAsn, timestamp);
    }

    method Clear()
      modifies this
      ensures Valid() && observed == map[]
    {
      byPrefixV4, byPrefixV6 := map[], map[];
      aggregatedV4, aggregatedV6 := map[], map[];
      observed := map[];
    }

    /** The rebuild leaves what is observed alone, and on every valid state changes nothing at all. */
    method RebuildAggregated()
      requires Sound()
      modifies this
      ensures Sound() && observed == old(observed)
      ensures old(Valid()) ==> unchanged(this)
    {
      OpenSound();
      OpenExact(byPrefixV4, aggregatedV4, byPrefixV6, aggregatedV6);
      byPrefixV4, aggregatedV4 := RebuildImpl(byPrefixV4, aggregatedV4);
      byPrefixV6, aggregatedV6 := RebuildImpl(byPrefixV6, aggregatedV6);
    }

    /** Every observation once, in whatever order the hash maps deliver. */
    method StoredObservations() returns (result: seq<StoredObservation>)
      requires Sound()
      ensures Lists(result, Observations(observed))
    {
      OpenSound();
      var first := AppendStoredObservations(byPrefixV4, (p: PrefixV4) => V4(p), UntagV4, []);
      result := AppendStoredObservations(byPrefixV6, (p: PrefixV6) => V6(p), UntagV6, first);
      BothFamiliesListed(byPrefixV4, byPrefixV6, first, result);
    }

    /**
     * The exported tables. Every observed prefix has one row with the recounted winner, and the
     * ASN table is the prefix table inverted.
     */
    method ExportTables(c: Inet6) returns (rows: seq<(string, uint32)>, asnRows: seq<AsnRow>)
      ensures DistinctTexts(rows) && forall row :: row in rows <==> RowOf(c, Aggregated(), row)
      ensures WellFormedRows(asnRows) && multiset(Inverted(asnRows)) == multiset(rows)
      ensures TotalLength(asnRows) == |rows| == |Aggregated()|
    {
      rows, asnRows := ExportImpl(c, aggregatedV4, aggregatedV6);
    }

    method ActivePrefixesV4Count() returns (n: nat)
      requires Valid()
      ensures n == |OfFamily(observed.Keys, FamilyV4)|
    {
      Open();
      n := |aggregatedV4|;
      ViewSizes(byPrefixV4, byPrefixV6);
      assert |aggregatedV4.Keys| == |byPrefixV4.Keys|;
    }

    method ActivePrefixesV6Count() returns (n: nat)
      requires Valid()
      ensures n == |OfFamily(observed.Keys, FamilyV6)|
    {
      Open();
      n := |aggregatedV6|;
      ViewSizes(byPrefixV4, byPrefixV6);
      assert |aggregatedV6.Keys| == |byPrefixV6.Keys|;
    }
  }
}
