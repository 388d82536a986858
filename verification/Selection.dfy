/**
 * What the routing table means: for every prefix, who observes it and with which origin.
 * A view maps each observed prefix to the latest observation of each of its peers; the table
 * exports for each prefix the origin ASN most peers observe, the smallest ASN winning a tie.
 */
module Selection {
  import opened Base

  datatype Seen = Seen(asn: uint32, timestamp: uint64)

  /** Peers are ids inside the routing state, and full identities once ids are resolved. */
  type View<P(==), Q(==)> = map<P, map<Q, Seen>>

  ghost function Supporters<Q>(votes: map<Q, Seen>, asn: uint32): set<Q> {
    set q | q in votes && votes[q].asn == asn
  }

  /** A from-scratch recount: how many peers currently report this origin. */
  ghost function Count<Q>(votes: map<Q, Seen>, asn: uint32): nat {
    |Supporters(votes, asn)|
  }

  /** More peers, or as many peers and a smaller ASN. */
  predicate Better(candidate: uint32, candidateCount: nat, current: uint32, currentCount: nat) {
    candidateCount > currentCount || (candidateCount == currentCount && candidate < current)
  }

  /** Somebody reports it, nobody is reported by more peers, and whoever is by as many has a larger number. */
  ghost predicate IsWinner<Q>(votes: map<Q, Seen>, asn: uint32) {
    && Count(votes, asn) > 0
    && forall other: uint32 :: other != asn ==>
      Count(votes, other) < Count(votes, asn) || (Count(votes, other) == Count(votes, asn) && asn < other)
  }

  lemma WinnerUnique<Q>(votes: map<Q, Seen>, a: uint32, b: uint32)
    requires IsWinner(votes, a) && IsWinner(votes, b)
    ensures a == b
  {}

  lemma MostReported<Q>(votes: map<Q, Seen>, asn: uint32, other: uint32)
    requires IsWinner(votes, asn)
    ensures var mine, theirs := (set q | q in votes && votes[q].asn == asn), (set q | q in votes && votes[q].asn == other);
      mine != {} && (other != asn ==> |theirs| < |mine| || (|theirs| == |mine| && asn < other))
  {
    assert Supporters(votes, asn) == set q | q in votes && votes[q].asn == asn;
    assert Supporters(votes, other) == set q | q in votes && votes[q].asn == other;
    assert Count(votes, asn) == |Supporters(votes, asn)| && Count(votes, other) == |Supporters(votes, other)|;
  }

  /** Removing one vote lowers only the count of its ASN, by one. */
  lemma CountWithout<Q>(votes: map<Q, Seen>, q: Q, asn: uint32)
    requires q in votes
    ensures Count(votes - {q}, asn) == Count(votes, asn) - (if votes[q].asn == asn then 1 else 0)
  {
    var rest := votes - {q};
    if votes[q].asn == asn {
      assert Supporters(votes, asn) == Supporters(rest, asn) + {q};
    } else {
      assert Supporters(votes, asn) == Supporters(rest, asn);
    }
  }

  /** Adding one vote raises only the count of its ASN, by one. */
  lemma CountWith<Q>(votes: map<Q, Seen>, q: Q, seen: Seen, asn: uint32)
    requires q !in votes
    ensures Count(votes[q := seen], asn) == Count(votes, asn) + (if seen.asn == asn then 1 else 0)
  {
    CountWithout(votes[q := seen], q, asn);
    assert votes[q := seen] - {q} == votes;
  }

  lemma CountBound<Q>(votes: map<Q, Seen>, asn: uint32)
    ensures Count(votes, asn) <= |votes|
  {
    assert Supporters(votes, asn) <= votes.Keys;
    CardinalityMonotone(Supporters(votes, asn), votes.Keys);
  }

  lemma {:induction false} CardinalityMonotone<T>(a: set<T>, b: set<T>)
    requires a <= b
    ensures |a| <= |b|
  {
    if a == {} {
    } else {
      var x :| x in a;
      CardinalityMonotone(a - {x}, b - {x});
    }
  }

  /** After a new vote the winner is the old one or the ASN voted for, whichever is better. */
  lemma WinnerWith<Q>(votes: map<Q, Seen>, q: Q, seen: Seen, winner: uint32)
    requires q !in votes && IsWinner(votes, winner)
    ensures IsWinner(votes[q := seen],
                     if seen.asn == winner || Count(votes, seen.asn) >= Count(votes, winner)
                       || (Count(votes, seen.asn) + 1 == Count(votes, winner) && seen.asn < winner)
                     then seen.asn else winner)
  {
    var more := votes[q := seen];
    forall asn: uint32
      ensures Count(more, asn) == Count(votes, asn) + (if seen.asn == asn then 1 else 0)
    {
      CountWith(votes, q, seen, asn);
    }
  }

  lemma FirstVoteWins<Q>(q: Q, seen: Seen)
    ensures IsWinner(map[q := seen], seen.asn) && Count(map[q := seen], seen.asn) == 1
  {
    var none: map<Q, Seen> := map[];
    var votes := map[q := seen];
    assert votes == none[q := seen];
    forall asn: uint32 ensures Count(votes, asn) == (if seen.asn == asn then 1 else 0) {
      CountWith(none, q, seen, asn);
      assert Supporters(none, asn) == {};
    }
  }

  /** Losing a vote for another ASN leaves the winner in place. */
  lemma WinnerWithout<Q>(votes: map<Q, Seen>, q: Q, winner: uint32)
    requires q in votes && votes[q].asn != winner && IsWinner(votes, winner)
    ensures IsWinner(votes - {q}, winner) && Count(votes - {q}, winner) == Count(votes, winner)
  {
    var rest := votes - {q};
    forall asn: uint32
      ensures Count(rest, asn) == Count(votes, asn) - (if votes[q].asn == asn then 1 else 0)
    {
      CountWithout(votes, q, asn);
    }
  }

  lemma {:induction false} HasWinner<Q>(votes: map<Q, Seen>)
    requires votes != map[]
    ensures exists asn :: IsWinner(votes, asn)
    decreases |votes|
  {
    var q :| q in votes;
    var rest := votes - {q};
    assert votes == rest[q := votes[q]];
    if rest == map[] {
      FirstVoteWins(q, votes[q]);
    } else {
      assert |rest| < |votes| by {
        assert rest.Keys == votes.Keys - {q};
      }
      HasWinner(rest);
      var w :| IsWinner(rest, w);
      WinnerWith(rest, q, votes[q], w);
    }
  }

  ghost function Winner<Q>(votes: map<Q, Seen>): (asn: uint32)
    requires votes != map[]
    ensures IsWinner(votes, asn)
  {
    HasWinner(votes);
    var w :| IsWinner(votes, w);
    w
  }

  // ----- Views -----

  ghost function Row<P, Q>(view: View<P, Q>, p: P): map<Q, Seen> {
    if p in view then view[p] else map[]
  }

  ghost function Lookup<P, Q>(view: View<P, Q>, p: P, q: Q): Option<Seen> {
    if p in view && q in view[p] then Some(view[p][q]) else None
  }

  /** A prefix is listed only while some peer observes it. */
  ghost predicate NoEmptyRows<P, Q>(view: View<P, Q>) {
    forall p :: p in view ==> view[p] != map[]
  }

  ghost function Announced<P, Q>(view: View<P, Q>, p: P, q: Q, seen: Seen): View<P, Q> {
    view[p := Row(view, p)[q := seen]]
  }

  ghost function Withdrawn<P, Q>(view: View<P, Q>, p: P, q: Q): View<P, Q> {
    if Row(view, p) - {q} == map[] then view - {p} else view[p := Row(view, p) - {q}]
  }

  /** Views are determined by what each peer observes. */
  lemma SameLookups<P(!new), Q(!new)>(a: View<P, Q>, b: View<P, Q>)
    requires NoEmptyRows(a) && NoEmptyRows(b)
    requires forall p, q :: Lookup(a, p, q) == Lookup(b, p, q)
    ensures a == b
  {
    forall p ensures Row(a, p) == Row(b, p) {
      forall q ensures q in Row(a, p) <==> q in Row(b, p)
        ensures q in Row(a, p) ==> Row(a, p)[q] == Row(b, p)[q]
      {
        assert Lookup(a, p, q) == Lookup(b, p, q);
      }
    }
    forall p ensures p in a <==> p in b {
      assert Row(a, p) == Row(b, p);
    }
    forall p | p in a ensures a[p] == b[p] {
      assert Row(a, p) == Row(b, p);
    }
  }

  lemma AnnouncedLookup<P, Q>(view: View<P, Q>, p: P, q: Q, seen: Seen, p': P, q': Q)
    ensures Lookup(Announced(view, p, q, seen), p', q')
         == if p == p' && q == q' then Some(seen) else Lookup(view, p', q')
  {}

  lemma WithdrawnLookup<P, Q>(view: View<P, Q>, p: P, q: Q, p': P, q': Q)
    ensures Lookup(Withdrawn(view, p, q), p', q')
         == if p == p' && q == q' then None else Lookup(view, p', q')
  {
    var rest := Row(view, p) - {q};
    if p == p' && q != q' && q' in Row(view, p) {
      assert q' in rest;
    }
  }

  /** Withdrawing what is not observed changes nothing. */
  lemma AbsentWithdraws<P, Q>(view: View<P, Q>, p: P, q: Q)
    requires NoEmptyRows(view) && q !in Row(view, p)
    ensures Withdrawn(view, p, q) == view
  {
    assert Row(view, p) - {q} == Row(view, p);
  }

  lemma UpdatesKeepRows<P, Q>(view: View<P, Q>, p: P, q: Q, seen: Seen)
    requires NoEmptyRows(view)
    ensures NoEmptyRows(Announced(view, p, q, seen)) && NoEmptyRows(Withdrawn(view, p, q))
  {
    assert q in Row(view, p)[q := seen];
  }

  /** The exported table: the winner of each observed prefix and nothing else. */
  ghost function Winners<P, Q>(view: View<P, Q>): (table: map<P, uint32>)
    requires NoEmptyRows(view)
    ensures table.Keys == view.Keys
    ensures forall p :: p in table ==> IsWinner(view[p], table[p])
  {
    map p | p in view :: Winner(view[p])
  }
}
