/**
 * The per-family routing table (the function templates of src/routing_state.cpp).
 *
 * Each prefix keeps packed observations with a parallel array of timestamps, per-ASN counters and
 * a cached winner; a second map caches the winners. Announcements and withdrawals update all of
 * them in place. The tables are passed in and handed back, as the templates take them by reference.
 */
module RoutingTable {
  import opened Base
  import opened Selection

  datatype Observation = Observation(peerId: uint32, originAsn: uint32)

  datatype PrefixRecord = PrefixRecord(
    observations: seq<Observation>,
    timestamps: seq<uint64>,
    asnCounts: map<uint32, uint32>,
    selectedAsn: uint32,
    selectedCount: uint32)

  const EMPTY_RECORD := PrefixRecord([], [], map[], 0, 0)

  /** Timestamps run parallel to observations, and a peer has at most one. */
  ghost predicate Aligned(r: PrefixRecord) {
    && |r.observations| == |r.timestamps|
    && (forall i, j :: 0 <= i < j < |r.observations| ==> r.observations[i].peerId != r.observations[j].peerId)
  }

  /** What a record says: the latest observation of each peer. */
  ghost function Votes(r: PrefixRecord): map<uint32, Seen> {
    VotesOf(r.observations, r.timestamps)
  }

  ghost function VotesOf(observations: seq<Observation>, timestamps: seq<uint64>): map<uint32, Seen> {
    var n := |observations|;
    if n == 0 || n != |timestamps| then map[]
    else VotesOf(observations[..n - 1], timestamps[..n - 1])
      [observations[n - 1].peerId := Seen(observations[n - 1].originAsn, timestamps[n - 1])]
  }

  function CountIn(counts: map<uint32, uint32>, asn: uint32): uint32 {
    if asn in counts then counts[asn] else 0
  }

  /** The counters are the recount, and no counter is kept at zero. */
  ghost predicate CountsExact(counts: map<uint32, uint32>, votes: map<uint32, Seen>) {
    && (forall asn: uint32 :: CountIn(counts, asn) == Count(votes, asn))
    && (forall asn :: asn in counts ==> counts[asn] > 0)
  }

  ghost predicate SelectedExact(r: PrefixRecord, votes: map<uint32, Seen>) {
    IsWinner(votes, r.selectedAsn) && r.selectedCount == Count(votes, r.selectedAsn)
  }

  /** What holds of a stored record even after a counter has wrapped: its votes can be read off. */
  ghost predicate SoundRecord(r: PrefixRecord) {
    Aligned(r) && r.observations != []
  }

  ghost predicate SoundTable<P>(byPrefix: map<P, PrefixRecord>) {
    forall p :: p in byPrefix ==> SoundRecord(byPrefix[p])
  }

  /** Sound, with exact counters and the right selection. */
  ghost predicate ValidRecord(r: PrefixRecord) {
    && SoundRecord(r)
    && CountsExact(r.asnCounts, Votes(r))
    && SelectedExact(r, Votes(r))
  }

  ghost predicate ValidTable<P>(byPrefix: map<P, PrefixRecord>, aggregated: map<P, uint32>) {
    && (forall p :: p in byPrefix ==> ValidRecord(byPrefix[p]))
    && aggregated.Keys == byPrefix.Keys
    && (forall p :: p in byPrefix ==> aggregated[p] == byPrefix[p].selectedAsn)
  }

  ghost function TableView<P>(byPrefix: map<P, PrefixRecord>): View<P, uint32> {
    map p | p in byPrefix :: Votes(byPrefix[p])
  }

  // ----- Counters -----

  /** One more for an ASN, modulo 2^32 as the counters are 32 bits wide; the others unchanged. */
  ghost predicate Incremented(counts: map<uint32, uint32>, asn: uint32,
                              counts': map<uint32, uint32>, newCount: uint32) {
    && newCount == (CountIn(counts, asn) + 1) % U32_LIMIT
    && counts'.Keys == counts.Keys + {asn} && counts'[asn] == newCount
    && forall other :: other in counts && other != asn ==> counts'[other] == counts[other]
  }

  /** One less for an ASN, dropping its counter at zero; an ASN not counted stays so. */
  ghost predicate Decremented(counts: map<uint32, uint32>, asn: uint32,
                              counts': map<uint32, uint32>, newCount: uint32) {
    && newCount == (if CountIn(counts, asn) <= 1 then 0 else counts[asn] - 1)
    && counts'.Keys == (if newCount == 0 then counts.Keys - {asn} else counts.Keys)
    && (newCount > 0 ==> counts'[asn] == newCount)
    && forall other :: other in counts' && other != asn ==> counts'[other] == counts[other]
  }

  method IncrementAsnCount(counts: map<uint32, uint32>, asn: uint32)
    returns (counts': map<uint32, uint32>, newCount: uint32)
    ensures Incremented(counts, asn, counts', newCount)
  {
    newCount := (CountIn(counts, asn) + 1) % U32_LIMIT;
    counts' := counts[asn := newCount];
  }

  method DecrementAsnCount(counts: map<uint32, uint32>, asn: uint32)
    returns (counts': map<uint32, uint32>, newCount: uint32)
    ensures Decremented(counts, asn, counts', newCount)
  {
    if asn !in counts {
      return counts, 0;
    }
    if counts[asn] <= 1 {
      return counts - {asn}, 0;
    }
    newCount := counts[asn] - 1;
    counts' := counts[asn := newCount];
  }

  /** The counter of an ASN has room for one more peer: it does not already count 2^32 - 1 others. */
  ghost predicate Countable(votes: map<uint32, Seen>, q: uint32, asn: uint32) {
    Count(votes - {q}, asn) < LAST_ID
  }

  /** While not every 32-bit id is in use, no counter reaches the wrap. */
  lemma NoCounterWraps(votes: map<uint32, Seen>, q: uint32, asn: uint32, ids: set<uint32>)
    requires votes.Keys + {q} <= ids && |ids| < U32_LIMIT
    ensures Countable(votes, q, asn)
  {
    var others := votes - {q};
    CountBound(others, asn);
    assert others.Keys <= ids - {q} && |others| == |others.Keys|;
    CardinalityMonotone(others.Keys, ids - {q});
  }

  /** One id left over is enough for that. */
  lemma SpareId(ids: set<uint32>, spare: uint32)
    requires spare !in ids
    ensures |ids| < U32_LIMIT
  {
    var all: set<int> := set id | id in ids + {spare} :: id as int;
    assert all == ids + {spare} && |ids + {spare}| == |ids| + 1;
    Pigeonhole(all, U32_LIMIT);
  }

  /** A new vote keeps the counters exact exactly when its counter has room; otherwise it wraps to zero. */
  lemma CountsWith(counts: map<uint32, uint32>, counts': map<uint32, uint32>, newCount: uint32,
                   votes: map<uint32, Seen>, q: uint32, seen: Seen)
    requires CountsExact(counts, votes) && q !in votes
    requires Incremented(counts, seen.asn, counts', newCount)
    ensures CountsExact(counts', votes[q := seen]) <==> Countable(votes, q, seen.asn)
    ensures newCount == if Countable(votes, q, seen.asn) then Count(votes, seen.asn) + 1 else 0
  {
    assert votes - {q} == votes;
    assert CountIn(counts, seen.asn) == Count(votes, seen.asn);
    CountWith(votes, q, seen, seen.asn);
    if Countable(votes, q, seen.asn) {
      forall asn: uint32 ensures CountIn(counts', asn) == Count(votes[q := seen], asn) {
        CountWith(votes, q, seen, asn);
        assert CountIn(counts, asn) == Count(votes, asn);
      }
    } else {
      assert CountIn(counts', seen.asn) == 0;
    }
  }

  lemma CountsWithout(counts: map<uint32, uint32>, counts': map<uint32, uint32>, newCount: uint32,
                      votes: map<uint32, Seen>, q: uint32)
    requires CountsExact(counts, votes) && q in votes
    requires Decremented(counts, votes[q].asn, counts', newCount)
    ensures CountsExact(counts', votes - {q})
  {
    assert CountIn(counts, votes[q].asn) == Count(votes, votes[q].asn);
    assert q in Supporters(votes, votes[q].asn);
    forall asn: uint32 ensures CountIn(counts', asn) == Count(votes - {q}, asn) {
      CountWithout(votes, q, asn);
      assert CountIn(counts, asn) == Count(votes, asn);
    }
  }

  /**
   * r' is r with the best counter selected: none is larger, those as large belong to larger ASNs,
   * and (0, 0) stands for no counter.
   */
  ghost predicate SelectsMaximum(r: PrefixRecord, r': PrefixRecord) {
    && r' == r.(selectedAsn := r'.selectedAsn, selectedCount := r'.selectedCount)
    && (r'.selectedCount == 0 ==> r'.selectedAsn == 0)
    && (r'.selectedCount > 0 ==> CountIn(r.asnCounts, r'.selectedAsn) == r'.selectedCount)
    && (forall asn :: asn in r.asnCounts ==>
      r.asnCounts[asn] <= r'.selectedCount && (r.asnCounts[asn] == r'.selectedCount ==> r'.selectedAsn <= asn))
  }

  /** The scan finds the maximum of the counters whatever order they come in. */
  method RecomputeSelectedFromCounts(record: PrefixRecord) returns (record': PrefixRecord)
    ensures SelectsMaximum(record, record')
  {
    record' := record.(selectedAsn := 0, selectedCount := 0);
    var pending := record.asnCounts.Keys;
    while pending != {}
      invariant pending <= record.asnCounts.Keys
      invariant record' == record.(selectedAsn := record'.selectedAsn, selectedCount := record'.selectedCount)
      invariant record'.selectedCount == 0 ==> record'.selectedAsn == 0
      invariant record'.selectedCount > 0 ==> CountIn(record.asnCounts, record'.selectedAsn) == record'.selectedCount
      invariant forall asn :: asn in record.asnCounts && asn !in pending ==>
        record.asnCounts[asn] <= record'.selectedCount
        && (record.asnCounts[asn] == record'.selectedCount ==> record'.selectedAsn <= asn)
      decreases |pending|
    {
      var asn :| asn in pending;
      pending := pending - {asn};
      var count := record.asnCounts[asn];
      if Better(asn, count, record'.selectedAsn, record'.selectedCount) {
        record' := record'.(selectedAsn := asn, selectedCount := count);
      }
    }
  }

  /** With exact counters that maximum is the winner of the recount, ASN 0 included. */
  lemma MaximumIsWinner(r: PrefixRecord, r': PrefixRecord, votes: map<uint32, Seen>)
    requires CountsExact(r.asnCounts, votes) && votes != map[] && SelectsMaximum(r, r')
    ensures SelectedExact(r', votes)
  {
    var counts, asn, count := r.asnCounts, r'.selectedAsn, r'.selectedCount;
    HasWinner(votes);
    var w :| IsWinner(votes, w);
    assert CountIn(counts, w) == Count(votes, w);
    assert w in counts && counts[w] <= count;
    assert CountIn(counts, asn) == Count(votes, asn);
  }

  /** A refreshed timestamp leaves every count alone. */
  lemma SameAsnKeepsCounts(r: PrefixRecord, votes: map<uint32, Seen>, q: uint32, seen: Seen)
    requires q in votes && votes[q].asn == seen.asn
    requires CountsExact(r.asnCounts, votes) && SelectedExact(r, votes)
    ensures CountsExact(r.asnCounts, votes[q := seen]) && SelectedExact(r, votes[q := seen])
  {
    var votes' := votes[q := seen];
    forall asn: uint32 ensures Count(votes', asn) == Count(votes, asn) {
      assert Supporters(votes', asn) == Supporters(votes, asn);
    }
  }

  /** One comparison with the cached winner is enough after a new vote. */
  lemma SelectAfterVote(r: PrefixRecord, rest: map<uint32, Seen>, q: uint32, seen: Seen, newCount: uint32)
    requires q !in rest && newCount == Count(rest, seen.asn) + 1
    requires if rest == map[] then r.selectedCount == 0 else SelectedExact(r, rest)
    ensures SelectedExact(
      if r.selectedCount == 0 || Better(seen.asn, newCount, r.selectedAsn, r.selectedCount)
      then r.(selectedAsn := seen.asn, selectedCount := newCount) else r,
      rest[q := seen])
  {
    CountWith(rest, q, seen, seen.asn);
    CountWith(rest, q, seen, r.selectedAsn);
    if rest == map[] {
      assert rest[q := seen] == map[q := seen];
      FirstVoteWins(q, seen);
    } else {
      WinnerWith(rest, q, seen, r.selectedAsn);
    }
  }

  lemma NoVotes()
    ensures CountsExact(map[], map[])
  {
    var none: map<uint32, Seen> := map[];
    forall asn: uint32 ensures Count(none, asn) == 0 {
      assert Supporters(none, asn) == {};
    }
  }

  /** Moving a peer's vote to another ASN is one decrement and one increment, exact as long as the counter has room. */
  lemma CountsReplaced(r: PrefixRecord, fewer: map<uint32, uint32>, fewerCount: uint32,
                       counts: map<uint32, uint32>, newCount: uint32,
                       votes: map<uint32, Seen>, q: uint32, seen: Seen)
    requires CountsExact(r.asnCounts, votes) && q in votes
    requires Decremented(r.asnCounts, votes[q].asn, fewer, fewerCount)
    requires Incremented(fewer, seen.asn, counts, newCount)
    ensures CountsExact(counts, votes[q := seen]) <==> Countable(votes, q, seen.asn)
    ensures Countable(votes, q, seen.asn) ==> newCount == Count(votes - {q}, seen.asn) + 1
  {
    CountsWithout(r.asnCounts, fewer, fewerCount, votes, q);
    assert (votes - {q}) - {q} == votes - {q};
    CountsWith(fewer, counts, newCount, votes - {q}, q, seen);
    assert (votes - {q})[q := seen] == votes[q := seen];
  }

  lemma SelectAfterReplacement(r: PrefixRecord, votes: map<uint32, Seen>, q: uint32, seen: Seen, newCount: uint32)
    requires q in votes && votes[q].asn != r.selectedAsn && SelectedExact(r, votes)
    requires newCount == Count(votes - {q}, seen.asn) + 1
    ensures SelectedExact(
      if Better(seen.asn, newCount, r.selectedAsn, r.selectedCount)
      then r.(selectedAsn := seen.asn, selectedCount := newCount) else r,
      votes[q := seen])
  {
    WinnerWithout(votes, q, r.selectedAsn);
    SelectAfterVote(r, votes - {q}, q, seen, newCount);
    assert (votes - {q})[q := seen] == votes[q := seen];
  }

  /** A record with one vote replaced and its winner chosen again is valid exactly when the counter had room. */
  lemma ReplacedIffCountable(r: PrefixRecord, fewer: map<uint32, uint32>, fewerCount: uint32, newCount: uint32,
                             stale: PrefixRecord, r': PrefixRecord, q: uint32, seen: Seen)
    requires ValidRecord(r) && q in Votes(r)
    requires Decremented(r.asnCounts, Votes(r)[q].asn, fewer, fewerCount)
    requires Incremented(fewer, seen.asn, stale.asnCounts, newCount)
    requires SoundRecord(stale) && Votes(stale) == Votes(r)[q := seen]
    requires stale.selectedAsn == r.selectedAsn && stale.selectedCount == r.selectedCount
    requires if Votes(r)[q].asn == r.selectedAsn then SelectsMaximum(stale, r')
      else r' == if Better(seen.asn, newCount, stale.selectedAsn, stale.selectedCount)
        then stale.(selectedAsn := seen.asn, selectedCount := newCount) else stale
    ensures ValidRecord(r') <==> Countable(Votes(r), q, seen.asn)
  {
    var votes := Votes(r);
    CountsReplaced(r, fewer, fewerCount, stale.asnCounts, newCount, votes, q, seen);
    if Countable(votes, q, seen.asn) {
      if votes[q].asn == r.selectedAsn {
        MaximumIsWinner(stale, r', votes[q := seen]);
      } else {
        SelectAfterReplacement(stale, votes, q, seen, newCount);
      }
    }
  }

  /** The same for a record with one vote appended. */
  lemma AppendedIffCountable(r: PrefixRecord, newCount: uint32, stale: PrefixRecord, r': PrefixRecord, q: uint32,
                             seen: Seen)
    requires (r == EMPTY_RECORD || ValidRecord(r)) && q !in Votes(r)
    requires Incremented(r.asnCounts, seen.asn, stale.asnCounts, newCount)
    requires SoundRecord(stale) && Votes(stale) == Votes(r)[q := seen]
    requires stale.selectedAsn == r.selectedAsn && stale.selectedCount == r.selectedCount
    requires r' == if stale.selectedCount == 0 || Better(seen.asn, newCount, stale.selectedAsn, stale.selectedCount)
      then stale.(selectedAsn := seen.asn, selectedCount := newCount) else stale
    ensures ValidRecord(r') <==> Countable(Votes(r), q, seen.asn)
  {
    var votes := Votes(r);
    if r == EMPTY_RECORD {
      NoVotes();
    } else {
      VoteAt(r, 0);
    }
    CountsWith(r.asnCounts, stale.asnCounts, newCount, votes, q, seen);
    if Countable(votes, q, seen.asn) {
      SelectAfterVote(stale, votes, q, seen, newCount);
    }
  }

  /** A vote that keeps its origin is counted already. */
  lemma CountedAlready(counts: map<uint32, uint32>, votes: map<uint32, Seen>, q: uint32)
    requires CountsExact(counts, votes) && q in votes
    ensures Countable(votes, q, votes[q].asn)
  {
    CountWithout(votes, q, votes[q].asn);
    assert CountIn(counts, votes[q].asn) == Count(votes, votes[q].asn);
  }

  // ----- What the array updates do to the votes -----

  lemma {:induction false} VoteAt(r: PrefixRecord, index: nat)
    requires Aligned(r) && index < |r.observations|
    ensures r.observations[index].peerId in Votes(r)
    ensures Votes(r)[r.observations[index].peerId] == Seen(r.observations[index].originAsn, r.timestamps[index])
    decreases |r.observations|
  {
    var n := |r.observations|;
    if index == n - 1 {
    } else {
      var r0 := r.(observations := r.observations[..n - 1], timestamps := r.timestamps[..n - 1]);
      VoteAt(r0, index);
    }
  }

  lemma {:induction false} VoterIsListed(r: PrefixRecord, q: uint32) returns (index: nat)
    requires Aligned(r) && q in Votes(r)
    ensures index < |r.observations| && r.observations[index].peerId == q
    decreases |r.observations|
  {
    var n := |r.observations|;
    if r.observations[n - 1].peerId == q {
      index := n - 1;
    } else {
      var r0 := r.(observations := r.observations[..n - 1], timestamps := r.timestamps[..n - 1]);
      index := VoterIsListed(r0, q);
    }
  }

  /** A record's votes are the map that agrees with every slot and has no other peer. */
  lemma VotesAre(r: PrefixRecord, votes: map<uint32, Seen>)
    requires Aligned(r)
    requires forall i :: 0 <= i < |r.observations| ==>
      && r.observations[i].peerId in votes
      && votes[r.observations[i].peerId] == Seen(r.observations[i].originAsn, r.timestamps[i])
    requires forall q :: q in votes ==> exists i :: 0 <= i < |r.observations| && r.observations[i].peerId == q
    ensures Votes(r) == votes
  {
    forall q | q in votes ensures q in Votes(r) {
      var i :| 0 <= i < |r.observations| && r.observations[i].peerId == q;
      VoteAt(r, i);
    }
    forall q | q in Votes(r) ensures q in votes && Votes(r)[q] == votes[q] {
      var i := VoterIsListed(r, q);
      VoteAt(r, i);
    }
  }

  lemma OverwriteVote(r: PrefixRecord, r': PrefixRecord, index: nat, asn: uint32, timestamp: uint64)
    requires Aligned(r) && index < |r.observations|
    requires r'.observations == r.observations[index := r.observations[index].(originAsn := asn)]
    requires r'.timestamps == r.timestamps[index := timestamp]
    ensures Aligned(r')
    ensures Votes(r') == Votes(r)[r.observations[index].peerId := Seen(asn, timestamp)]
  {
    var votes := Votes(r)[r.observations[index].peerId := Seen(asn, timestamp)];
    forall i | 0 <= i < |r.observations|
      ensures r'.observations[i].peerId in votes
      ensures votes[r'.observations[i].peerId] == Seen(r'.observations[i].originAsn, r'.timestamps[i])
    {
      VoteAt(r, i);
    }
    forall q | q in votes ensures exists i :: 0 <= i < |r'.observations| && r'.observations[i].peerId == q {
      VoteAt(r, index);
      var i := VoterIsListed(r, q);
      assert r'.observations[i].peerId == q;
    }
    VotesAre(r', votes);
  }

  lemma AppendVote(r: PrefixRecord, r': PrefixRecord, q: uint32, asn: uint32, timestamp: uint64)
    requires Aligned(r)
    requires forall i :: 0 <= i < |r.observations| ==> r.observations[i].peerId != q
    requires r'.observations == r.observations + [Observation(q, asn)]
    requires r'.timestamps == r.timestamps + [timestamp]
    ensures Aligned(r') && q !in Votes(r)
    ensures Votes(r') == Votes(r)[q := Seen(asn, timestamp)]
  {
    var n := |r.observations|;
    assert r'.observations[..n] == r.observations && r'.timestamps[..n] == r.timestamps;
    if q in Votes(r) {
      var i := VoterIsListed(r, q);
    }
  }

  /** Moving the last observation into the hole removes just the one peer. */
  lemma SwapRemoveVote(r: PrefixRecord, r': PrefixRecord, index: nat)
    requires Aligned(r) && index < |r.observations|
    requires r'.observations == DropTail(MoveTail(r.observations, index))
    requires r'.timestamps == DropTail(MoveTail(r.timestamps, index))
    ensures Aligned(r')
    ensures Votes(r') == Votes(r) - {r.observations[index].peerId}
  {
    var gone := r.observations[index].peerId;
    var votes := Votes(r) - {gone};
    var last := |r.observations| - 1;
    forall i | 0 <= i < |r'.observations|
      ensures r'.observations[i].peerId in votes
      ensures votes[r'.observations[i].peerId] == Seen(r'.observations[i].originAsn, r'.timestamps[i])
    {
      VoteAt(r, if i == index then last else i);
    }
    forall q | q in votes ensures exists i :: 0 <= i < |r'.observations| && r'.observations[i].peerId == q {
      var i := VoterIsListed(r, q);
      assert r'.observations[if i == last then index else i].peerId == q;
    }
    VotesAre(r', votes);
  }

  function MoveTail<T>(s: seq<T>, index: nat): seq<T>
    requires index < |s|
  {
    s[index := s[|s| - 1]]
  }

  function DropTail<T>(s: seq<T>): seq<T>
    requires s != []
  {
    s[..|s| - 1]
  }

  // ----- The counters add up -----

  ghost function Total(counts: map<uint32, uint32>): nat {
    if counts == map[] then 0
    else
      var asn :| asn in counts;
      assert (counts - {asn}).Keys == counts.Keys - {asn};
      counts[asn] + Total(counts - {asn})
  }

  lemma WithoutSupporters(votes: map<uint32, Seen>, asn: uint32)
    ensures var rest := votes - Supporters(votes, asn);
      && |rest| == |votes| - Count(votes, asn)
      && Count(rest, asn) == 0
      && forall other: uint32 :: other != asn ==> Count(rest, other) == Count(votes, other)
  {
    var rest := votes - Supporters(votes, asn);
    assert rest.Keys == votes.Keys - Supporters(votes, asn) && |rest| == |rest.Keys| && |votes| == |votes.Keys|;
    assert Supporters(votes, asn) <= votes.Keys;
    assert Supporters(rest, asn) == {};
    forall other: uint32 | other != asn ensures Count(rest, other) == Count(votes, other) {
      assert Supporters(rest, other) == Supporters(votes, other);
    }
  }

  /** Exact counters add up to the number of votes, in whatever order they are added. */
  lemma {:induction false} CountsAddUp(counts: map<uint32, uint32>, votes: map<uint32, Seen>)
    requires CountsExact(counts, votes)
    ensures Total(counts) == |votes|
    decreases |counts|
  {
    if counts == map[] {
      assert forall q :: q in votes ==> q in Supporters(votes, votes[q].asn);
      forall asn: uint32 ensures Supporters(votes, asn) == {} {
        assert CountIn(counts, asn) == Count(votes, asn);
      }
      assert votes == map[];
    } else {
      var asn :| asn in counts && Total(counts) == counts[asn] + Total(counts - {asn});
      assert (counts - {asn}).Keys == counts.Keys - {asn};
      var rest := votes - Supporters(votes, asn);
      WithoutSupporters(votes, asn);
      assert CountIn(counts, asn) == Count(votes, asn);
      forall other: uint32 ensures CountIn(counts - {asn}, other) == Count(rest, other) {
        assert CountIn(counts, other) == Count(votes, other);
      }
      CountsAddUp(counts - {asn}, rest);
    }
  }

  lemma {:induction false} OneVoteEach(r: PrefixRecord)
    requires Aligned(r)
    ensures |Votes(r)| == |r.observations|
    decreases |r.observations|
  {
    var n := |r.observations|;
    if n == 0 {
    } else {
      var r0 := r.(observations := r.observations[..n - 1], timestamps := r.timestamps[..n - 1]);
      OneVoteEach(r0);
      if r.observations[n - 1].peerId in Votes(r0) {
        var i := VoterIsListed(r0, r.observations[n - 1].peerId);
      }
    }
  }

  /** In every valid record the counters sum to the number of observations. */
  lemma CountersSumToObservations(r: PrefixRecord)
    requires ValidRecord(r)
    ensures Total(r.asnCounts) == |r.observations| == |Votes(r)|
  {
    CountsAddUp(r.asnCounts, Votes(r));
    OneVoteEach(r);
  }

  // ----- Views of a table -----

  lemma TableHasNoEmptyRows<P>(byPrefix: map<P, PrefixRecord>)
    requires SoundTable(byPrefix)
    ensures NoEmptyRows(TableView(byPrefix))
  {
    forall p | p in byPrefix ensures Votes(byPrefix[p]) != map[] {
      VoteAt(byPrefix[p], 0);
    }
  }

  /** The cached table is the table of recounted winners. */
  lemma CacheIsRecount<P>(byPrefix: map<P, PrefixRecord>, aggregated: map<P, uint32>)
    requires ValidTable(byPrefix, aggregated)
    ensures NoEmptyRows(TableView(byPrefix)) && aggregated == Winners(TableView(byPrefix))
  {
    TableHasNoEmptyRows(byPrefix);
    forall p | p in byPrefix ensures IsWinner(TableView(byPrefix)[p], aggregated[p]) {
      assert ValidRecord(byPrefix[p]);
    }
    OnlyWinners(TableView(byPrefix), aggregated);
  }

  /** A table of winners is the table of winners. */
  lemma OnlyWinners<P>(view: View<P, uint32>, table: map<P, uint32>)
    requires NoEmptyRows(view) && table.Keys == view.Keys && forall p :: p in view ==> IsWinner(view[p], table[p])
    ensures table == Winners(view)
  {
    forall p | p in view ensures table[p] == Winners(view)[p] {
      WinnerUnique(view[p], table[p], Winners(view)[p]);
    }
  }

  // ----- The incremental operations -----

  /** The cached entry follows the record, and goes when nothing is selected. */
  ghost function Synced<P>(aggregated: map<P, uint32>, prefix: P, record: PrefixRecord): map<P, uint32> {
    if record.selectedCount == 0 then aggregated - {prefix} else aggregated[prefix := record.selectedAsn]
  }

  method SyncAggregated<P(==)>(aggregated: map<P, uint32>, prefix: P, record: PrefixRecord)
    returns (aggregated': map<P, uint32>)
    ensures aggregated' == Synced(aggregated, prefix, record)
  {
    if record.selectedCount == 0 {
      return aggregated - {prefix};
    }
    aggregated' := aggregated[prefix := record.selectedAsn];
  }

  lemma StoreKeepsTable<P>(byPrefix: map<P, PrefixRecord>, aggregated: map<P, uint32>, p: P, record: PrefixRecord)
    requires ValidTable(byPrefix, aggregated) && SoundRecord(record)
    ensures ValidTable(byPrefix[p := record], Synced(aggregated, p, record)) <==> ValidRecord(record)
  {
    var byPrefix' := byPrefix[p := record];
    if ValidRecord(record) {
      forall k | k in byPrefix' ensures ValidRecord(byPrefix'[k]) {
        assert k == p || byPrefix'[k] == byPrefix[k];
      }
    } else {
      assert p in byPrefix' && !ValidRecord(byPrefix'[p]);
    }
  }

  lemma StoreKeepsSound<P>(byPrefix: map<P, PrefixRecord>, p: P, record: PrefixRecord)
    requires SoundTable(byPrefix) && SoundRecord(record)
    ensures SoundTable(byPrefix[p := record])
    ensures TableView(byPrefix[p := record]) == TableView(byPrefix)[p := Votes(record)]
  {}

  /** Storing a record that carries one more vote announces just that; the table stays valid as the record is. */
  lemma StoreRecord<P>(byPrefix: map<P, PrefixRecord>, aggregated: map<P, uint32>, p: P,
                       record: PrefixRecord, q: uint32, seen: Seen)
    requires SoundTable(byPrefix)
    requires SoundRecord(record) && Votes(record) == Row(TableView(byPrefix), p)[q := seen]
    ensures SoundTable(byPrefix[p := record])
    ensures TableView(byPrefix[p := record]) == Announced(TableView(byPrefix), p, q, seen)
    ensures ValidTable(byPrefix, aggregated) ==>
      (ValidTable(byPrefix[p := record], Synced(aggregated, p, record)) <==> ValidRecord(record))
  {
    StoreKeepsSound(byPrefix, p, record);
    if ValidTable(byPrefix, aggregated) {
      StoreKeepsTable(byPrefix, aggregated, p, record);
    }
  }

  /** A peer already listed changes its origin, or only its timestamp. */
  method ReplaceObservation(record: PrefixRecord, index: nat, originAsn: uint32, timestamp: uint64)
    returns (record': PrefixRecord)
    requires Aligned(record) && index < |record.observations|
    ensures SoundRecord(record')
    ensures Votes(record') == Votes(record)[record.observations[index].peerId := Seen(originAsn, timestamp)]
    ensures ValidRecord(record) ==>
      (ValidRecord(record') <==> Countable(Votes(record), record.observations[index].peerId, originAsn))
    ensures record.observations[index].originAsn == originAsn ==>
      record'.selectedAsn == record.selectedAsn && record'.selectedCount == record.selectedCount
  {
    var observation := record.observations[index];
    ghost var q, seen := observation.peerId, Seen(originAsn, timestamp);
    VoteAt(record, index);

    if observation.originAsn == originAsn {
      record' := record.(timestamps := record.timestamps[index := timestamp]);
      assert record'.observations == record.observations[index := observation.(originAsn := originAsn)];
      OverwriteVote(record, record', index, originAsn, timestamp);
      if ValidRecord(record) {
        SameAsnKeepsCounts(record, Votes(record), q, seen);
        CountedAlready(record.asnCounts, Votes(record), q);
      }
      return;
    }

    var oldAsn := observation.originAsn;
    var selectedMayChange := oldAsn == record.selectedAsn;

    var fewer, fewerCount := DecrementAsnCount(record.asnCounts, oldAsn);
    var counts, newCount := IncrementAsnCount(fewer, originAsn);

    record' := record.(
      asnCounts := counts,
      observations := record.observations[index := observation.(originAsn := originAsn)],
      timestamps := record.timestamps[index := timestamp]);
    OverwriteVote(record, record', index, originAsn, timestamp);

    ghost var stale := record';
    if selectedMayChange {
      record' := RecomputeSelectedFromCounts(record');
    } else if Better(originAsn, newCount, record'.selectedAsn, record'.selectedCount) {
      record' := record'.(selectedAsn := originAsn, selectedCount := newCount);
    }
    if ValidRecord(record) {
      ReplacedIffCountable(record, fewer, fewerCount, newCount, stale, record', q, seen);
    }
  }

  /** A peer not yet listed, on a stored record or on the fresh one. */
  method AppendObservation(record: PrefixRecord, peerId: uint32, originAsn: uint32, timestamp: uint64)
    returns (record': PrefixRecord)
    requires Aligned(record)
    requires forall i :: 0 <= i < |record.observations| ==> record.observations[i].peerId != peerId
    ensures SoundRecord(record')
    ensures Votes(record') == Votes(record)[peerId := Seen(originAsn, timestamp)]
    ensures record == EMPTY_RECORD || ValidRecord(record) ==>
      (ValidRecord(record') <==> Countable(Votes(record), peerId, originAsn))
  {
    record' := record.(
      observations := record.observations + [Observation(peerId, originAsn)],
      timestamps := record.timestamps + [timestamp]);
    AppendVote(record, record', peerId, originAsn, timestamp);

    var counts, newCount := IncrementAsnCount(record'.asnCounts, originAsn);
    record' := record'.(asnCounts := counts);
    ghost var stale := record';
    if record'.selectedCount == 0 || Better(originAsn, newCount, record'.selectedAsn, record'.selectedCount) {
      record' := record'.(selectedAsn := originAsn, selectedCount := newCount);
    }
    if record == EMPTY_RECORD || ValidRecord(record) {
      AppendedIffCountable(record, newCount, stale, record', peerId, Seen(originAsn, timestamp));
    }
  }

  method AnnounceImpl<P(==)>(byPrefix: map<P, PrefixRecord>, aggregated: map<P, uint32>, prefix: P,
                             peerId: uint32, originAsn: uint32, timestamp: uint64)
    returns (byPrefix': map<P, PrefixRecord>, aggregated': map<P, uint32>)
    requires SoundTable(byPrefix)
    ensures SoundTable(byPrefix')
    ensures TableView(byPrefix') == Announced(TableView(byPrefix), prefix, peerId, Seen(originAsn, timestamp))
    ensures ValidTable(byPrefix, aggregated) ==>
      (ValidTable(byPrefix', aggregated') <==> Countable(Row(TableView(byPrefix), prefix), peerId, originAsn))
  {
    var record := if prefix in byPrefix then byPrefix[prefix] else EMPTY_RECORD;
    ghost var seen := Seen(originAsn, timestamp);
    for index := 0 to |record.observations|
      invariant forall j :: 0 <= j < index ==> record.observations[j].peerId != peerId
    {
      if record.observations[index].peerId != peerId {
        continue;
      }
      var sameAsn := record.observations[index].originAsn == originAsn;
      record := ReplaceObservation(record, index, originAsn, timestamp);
      StoreRecord(byPrefix, aggregated, prefix, record, peerId, seen);
      byPrefix' := byPrefix[prefix := record];
      if sameAsn {
        aggregated' := aggregated;
        StoringTheSame(byPrefix, aggregated, prefix, record);
        return;
      }
      aggregated' := SyncAggregated(aggregated, prefix, record);
      return;
    }

    record := AppendObservation(record, peerId, originAsn, timestamp);
    StoreRecord(byPrefix, aggregated, prefix, record, peerId, seen);
    byPrefix' := byPrefix[prefix := record];
    aggregated' := SyncAggregated(aggregated, prefix, record);
  }

  /** An entry that was in step with its record stays as it is when the selection does. */
  lemma StoringTheSame<P>(byPrefix: map<P, PrefixRecord>, aggregated: map<P, uint32>, p: P, record: PrefixRecord)
    requires p in byPrefix && record.selectedAsn == byPrefix[p].selectedAsn
    requires record.selectedCount == byPrefix[p].selectedCount
    ensures ValidTable(byPrefix, aggregated) ==> Synced(aggregated, p, record) == aggregated
  {
    if ValidTable(byPrefix, aggregated) {
      assert ValidRecord(byPrefix[p]) && p in aggregated;
    }
  }

  /** Storing a record that lost one vote withdraws just that. */
  lemma WithdrawRecord<P>(byPrefix: map<P, PrefixRecord>, aggregated: map<P, uint32>, p: P,
                          record: PrefixRecord, q: uint32)
    requires SoundTable(byPrefix) && p in byPrefix
    requires SoundRecord(record) && Votes(record) == Votes(byPrefix[p]) - {q}
    ensures SoundTable(byPrefix[p := record])
    ensures TableView(byPrefix[p := record]) == Withdrawn(TableView(byPrefix), p, q)
    ensures ValidTable(byPrefix, aggregated) ==>
      (ValidTable(byPrefix[p := record], Synced(aggregated, p, record)) <==> ValidRecord(record))
  {
    VoteAt(record, 0);
    assert Votes(record) != map[];
    StoreKeepsSound(byPrefix, p, record);
    if ValidTable(byPrefix, aggregated) {
      StoreKeepsTable(byPrefix, aggregated, p, record);
    }
  }

  lemma DropRecord<P>(byPrefix: map<P, PrefixRecord>, aggregated: map<P, uint32>, p: P, q: uint32)
    requires SoundTable(byPrefix) && p in byPrefix
    requires Votes(byPrefix[p]) - {q} == map[]
    ensures SoundTable(byPrefix - {p})
    ensures TableView(byPrefix - {p}) == Withdrawn(TableView(byPrefix), p, q)
    ensures ValidTable(byPrefix, aggregated) ==> ValidTable(byPrefix - {p}, aggregated - {p})
  {}

  lemma UnknownPeerWithdraws<P>(byPrefix: map<P, PrefixRecord>, p: P, q: uint32)
    requires SoundTable(byPrefix)
    requires p in byPrefix ==> q !in Votes(byPrefix[p])
    ensures TableView(byPrefix) == Withdrawn(TableView(byPrefix), p, q)
  {
    TableHasNoEmptyRows(byPrefix);
    AbsentWithdraws(TableView(byPrefix), p, q);
  }

  /** The winner chosen again after a vote was removed. */
  lemma RemovedIsValid(r: PrefixRecord, newCount: uint32, stale: PrefixRecord, r': PrefixRecord,
                       votes: map<uint32, Seen>, q: uint32)
    requires CountsExact(r.asnCounts, votes) && SelectedExact(r, votes) && q in votes && votes - {q} != map[]
    requires Decremented(r.asnCounts, votes[q].asn, stale.asnCounts, newCount)
    requires stale.selectedAsn == r.selectedAsn && stale.selectedCount == r.selectedCount
    requires if votes[q].asn == r.selectedAsn then SelectsMaximum(stale, r') else r' == stale
    ensures CountsExact(r'.asnCounts, votes - {q}) && SelectedExact(r', votes - {q})
  {
    CountsWithout(r.asnCounts, stale.asnCounts, newCount, votes, q);
    if votes[q].asn == r.selectedAsn {
      MaximumIsWinner(stale, r', votes - {q});
    } else {
      WinnerWithout(votes, q, r.selectedAsn);
    }
  }

  /** Packed removal: the last observation takes the place of the removed one. */
  method RemoveObservation(record: PrefixRecord, index: nat) returns (record': PrefixRecord)
    requires Aligned(record) && index < |record.observations|
    ensures Aligned(record') && Votes(record') == Votes(record) - {record.observations[index].peerId}
    ensures record'.observations == [] <==> |record.observations| == 1
    ensures ValidRecord(record) && record'.observations != [] ==> ValidRecord(record')
  {
    var removed := record.observations[index];
    VoteAt(record, index);

    var selectedMayChange := removed.originAsn == record.selectedAsn;
    var counts, newCount := DecrementAsnCount(record.asnCounts, removed.originAsn);

    var lastIndex := |record.observations| - 1;
    var observations, timestamps := record.observations, record.timestamps;
    if index != lastIndex {
      observations := observations[index := observations[lastIndex]];
      timestamps := timestamps[index := timestamps[lastIndex]];
    }
    record' := record.(
      asnCounts := counts,
      observations := observations[..lastIndex],
      timestamps := timestamps[..lastIndex]);
    assert record'.observations == DropTail(MoveTail(record.observations, index));
    assert record'.timestamps == DropTail(MoveTail(record.timestamps, index));
    SwapRemoveVote(record, record', index);

    if record'.observations == [] {
      return;
    }
    ghost var stale := record';
    if selectedMayChange {
      record' := RecomputeSelectedFromCounts(record');
    }
    if ValidRecord(record) {
      VoteAt(stale, 0);
      RemovedIsValid(record, newCount, stale, record', Votes(record), removed.peerId);
    }
  }

  method WithdrawImpl<P(==)>(byPrefix: map<P, PrefixRecord>, aggregated: map<P, uint32>, prefix: P, peerId: uint32)
    returns (byPrefix': map<P, PrefixRecord>, aggregated': map<P, uint32>)
    requires SoundTable(byPrefix)
    ensures SoundTable(byPrefix')
    ensures TableView(byPrefix') == Withdrawn(TableView(byPrefix), prefix, peerId)
    ensures ValidTable(byPrefix, aggregated) ==> ValidTable(byPrefix', aggregated')
  {
    byPrefix', aggregated' := byPrefix, aggregated;
    if prefix !in byPrefix {
      UnknownPeerWithdraws(byPrefix, prefix, peerId);
      return;
    }

    var record := byPrefix[prefix];
    for index := 0 to |record.observations|
      invariant forall j :: 0 <= j < index ==> record.observations[j].peerId != peerId
    {
      if record.observations[index].peerId != peerId {
        continue;
      }
      record := RemoveObservation(record, index);
      if record.observations == [] {
        DropRecord(byPrefix, aggregated, prefix, peerId);
        byPrefix' := byPrefix - {prefix};
        aggregated' := aggregated - {prefix};
        return;
      }
      WithdrawRecord(byPrefix, aggregated, prefix, record, peerId);
      byPrefix' := byPrefix[prefix := record];
      aggregated' := SyncAggregated(aggregated, prefix, record);
      return;
    }
    NotListedHasNoVote(record, peerId);
    UnknownPeerWithdraws(byPrefix, prefix, peerId);
  }

  lemma NotListedHasNoVote(r: PrefixRecord, q: uint32)
    requires Aligned(r) && forall i :: 0 <= i < |r.observations| ==> r.observations[i].peerId != q
    ensures q !in Votes(r)
  {
    if q in Votes(r) {
      var i := VoterIsListed(r, q);
    }
  }

  /** Rebuilding the cache leaves the votes alone, and on a valid table changes nothing at all. */
  method RebuildImpl<P(==)>(byPrefix: map<P, PrefixRecord>, ghost aggregated: map<P, uint32>)
    returns (byPrefix': map<P, PrefixRecord>, aggregated': map<P, uint32>)
    requires SoundTable(byPrefix)
    ensures SoundTable(byPrefix') && TableView(byPrefix') == TableView(byPrefix)
    ensures ValidTable(byPrefix, aggregated) ==> byPrefix' == byPrefix && aggregated' == aggregated
  {
    byPrefix', aggregated' := byPrefix, map[];
    var pending := byPrefix.Keys;
    RebuildStarts(byPrefix, aggregated);
    while pending != {}
      invariant pending <= byPrefix.Keys == byPrefix'.Keys
      invariant RebuiltSoFar(byPrefix, aggregated, pending, byPrefix', aggregated')
      decreases pending
    {
      var prefix :| prefix in pending;
      var record := RecomputeSelectedFromCounts(byPrefix'[prefix]);
      RebuildOneMore(byPrefix, aggregated, pending, byPrefix', aggregated', prefix, record);
      pending := pending - {prefix};
      byPrefix' := byPrefix'[prefix := record];
      aggregated' := SyncAggregated(aggregated', prefix, record);
    }
    RebuildDone(byPrefix, aggregated, byPrefix', aggregated');
  }

  lemma RebuildKeepsView<P>(byPrefix: map<P, PrefixRecord>, p: P, r': PrefixRecord)
    requires SoundTable(byPrefix) && p in byPrefix && SelectsMaximum(byPrefix[p], r')
    ensures SoundTable(byPrefix[p := r']) && TableView(byPrefix[p := r']) == TableView(byPrefix)
    ensures byPrefix[p := r'].Keys == byPrefix.Keys
  {}

  /** Rebuilding has changed no vote so far, and on a valid table only refilled the cache; closed, see Base.Key. */
  ghost predicate RebuiltSoFar<P>(byPrefix: map<P, PrefixRecord>, aggregated: map<P, uint32>, pending: set<P>,
                                  byPrefix': map<P, PrefixRecord>, aggregated': map<P, uint32>) {
    forall k {:trigger Key(TableDoor, k)} :: Key(TableDoor, k) ==>
      RebuiltExactly(byPrefix, aggregated, pending, byPrefix', aggregated')
  }

  ghost predicate RebuiltExactly<P>(byPrefix: map<P, PrefixRecord>, aggregated: map<P, uint32>, pending: set<P>,
                                    byPrefix': map<P, PrefixRecord>, aggregated': map<P, uint32>) {
    && pending <= byPrefix.Keys == byPrefix'.Keys && SoundTable(byPrefix')
    && TableView(byPrefix') == TableView(byPrefix)
    && (ValidTable(byPrefix, aggregated) ==> byPrefix' == byPrefix && aggregated' == aggregated - pending)
  }

  lemma OpenRebuilt<P>(byPrefix: map<P, PrefixRecord>, aggregated: map<P, uint32>, pending: set<P>,
                       byPrefix': map<P, PrefixRecord>, aggregated': map<P, uint32>)
    requires RebuiltSoFar(byPrefix, aggregated, pending, byPrefix', aggregated')
    ensures RebuiltExactly(byPrefix, aggregated, pending, byPrefix', aggregated')
  {
    assert Key(TableDoor, 0);
  }

  lemma RebuildStarts<P>(byPrefix: map<P, PrefixRecord>, aggregated: map<P, uint32>)
    requires SoundTable(byPrefix)
    ensures RebuiltSoFar(byPrefix, aggregated, byPrefix.Keys, byPrefix, map[])
  {
    assert ValidTable(byPrefix, aggregated) ==> aggregated - byPrefix.Keys == map[];
  }

  lemma RebuildDone<P>(byPrefix: map<P, PrefixRecord>, aggregated: map<P, uint32>, byPrefix': map<P, PrefixRecord>,
                       aggregated': map<P, uint32>)
    requires RebuiltSoFar(byPrefix, aggregated, {}, byPrefix', aggregated')
    ensures SoundTable(byPrefix') && TableView(byPrefix') == TableView(byPrefix)
    ensures ValidTable(byPrefix, aggregated) ==> byPrefix' == byPrefix && aggregated' == aggregated
  {
    OpenRebuilt(byPrefix, aggregated, {}, byPrefix', aggregated');
    assert aggregated - {} == aggregated;
  }

  lemma RebuildOneMore<P>(byPrefix: map<P, PrefixRecord>, aggregated: map<P, uint32>, pending: set<P>,
                          byPrefix': map<P, PrefixRecord>, aggregated': map<P, uint32>, p: P, r': PrefixRecord)
    requires RebuiltSoFar(byPrefix, aggregated, pending, byPrefix', aggregated')
    requires p in pending && p in byPrefix' && SelectsMaximum(byPrefix'[p], r')
    ensures RebuiltSoFar(byPrefix, aggregated, pending - {p}, byPrefix'[p := r'], Synced(aggregated', p, r'))
  {
    OpenRebuilt(byPrefix, aggregated, pending, byPrefix', aggregated');
    RebuildKeepsView(byPrefix', p, r');
    if ValidTable(byPrefix, aggregated) {
      RebuildsTheSame(byPrefix, aggregated, pending, p, r');
    }
  }

  lemma RebuildsTheSame<P>(byPrefix: map<P, PrefixRecord>, aggregated: map<P, uint32>, pending: set<P>, p: P,
                           r': PrefixRecord)
    requires ValidTable(byPrefix, aggregated) && p in byPrefix && p in pending && SelectsMaximum(byPrefix[p], r')
    ensures byPrefix[p := r'] == byPrefix
    ensures Synced(aggregated - pending, p, r') == aggregated - (pending - {p})
  {
    RecomputeIsIdentity(byPrefix, aggregated, p, r');
    PuttingTheSame(byPrefix, p);
    PuttingBack(aggregated, pending, p);
  }

  lemma PuttingTheSame<P, V>(m: map<P, V>, p: P)
    requires p in m
    ensures m[p := m[p]] == m
  {}

  lemma PuttingBack<P, V>(m: map<P, V>, missing: set<P>, p: P)
    requires p in m && p in missing
    ensures m - (missing - {p}) == (m - missing)[p := m[p]]
  {}

  lemma RecomputeIsIdentity<P>(byPrefix: map<P, PrefixRecord>, aggregated: map<P, uint32>, p: P, r': PrefixRecord)
    requires ValidTable(byPrefix, aggregated) && p in byPrefix && SelectsMaximum(byPrefix[p], r')
    ensures r' == byPrefix[p] && r'.selectedCount > 0 && aggregated[p] == r'.selectedAsn
  {
    var r := byPrefix[p];
    VoteAt(r, 0);
    MaximumIsWinner(r, r', Votes(r));
    WinnerUnique(Votes(r), r.selectedAsn, r'.selectedAsn);
  }
}
