/**
 * Where the id counter stands after a load (src/snapshot/snapshot_io.cpp:238-240 with
 * src/peer/peer_registry.cpp:35-37). The peers are inserted in hash order and `peer_id + 1` is
 * taken modulo 2^32, so the last 32-bit id makes the counter depend on the order.
 */
module SnapshotCounter {
  import opened Base
  import opened Ordering
  import opened PeerRegistry
  import opened System
  import opened SnapshotFormat

  lemma {:induction false} CounterBelowWrap(order: seq<uint32>, ids: set<uint32>)
    requires Lists(order, ids) && LAST_ID !in ids
    ensures CounterOf(order) == NextAfter(ids) <= LAST_ID
  {
    if order == [] {
      assert ids == {};
    } else {
      var last, front := order[|order| - 1], order[..|order| - 1];
      ListsFront(order, ids);
      CounterBelowWrap(front, ids - {last});
      NextWithOneMore(CounterOf(front), ids - {last}, last);
      assert ids - {last} + {last} == ids;
      NextUnique(CounterOf(order), ids);
    }
  }

  lemma ListsFront<T>(order: seq<T>, ids: set<T>)
    requires Lists(order, ids) && order != []
    ensures order[|order| - 1] in ids && Lists(order[..|order| - 1], ids - {order[|order| - 1]})
  {
    var last, front := order[|order| - 1], order[..|order| - 1];
    assert order == front + [last];
    assert last in (set x | x in order);
    forall x ensures x in front <==> x in ids - {last} {
      assert x in order <==> x in front || x == last;
      assert x in order <==> x in (set y | y in order);
    }
  }

  ghost predicate IsNext(next: nat, ids: set<uint32>) {
    && next >= 1
    && (forall id :: id in ids ==> id < next)
    && (next == 1 || exists id :: id in ids && id + 1 == next)
  }

  lemma NextUnique(next: nat, ids: set<uint32>)
    requires IsNext(next, ids)
    ensures next == NextAfter(ids)
  {}

  lemma NextWithOneMore(next: uint32, ids: set<uint32>, id: uint32)
    requires IsNext(next, ids) && id < LAST_ID
    ensures IsNext(CounterAfter(next, id), ids + {id})
  {
    if id >= next {
      assert id in ids + {id};
    } else if next != 1 {
      var other :| other in ids && other + 1 == next;
      assert other in ids + {id};
    }
  }

  /** The counter ends at zero exactly when the last 32-bit id was inserted last. */
  lemma ZeroIffLast(order: seq<uint32>)
    ensures CounterOf(order) == 0 <==> order != [] && order[|order| - 1] == LAST_ID
  {}

  /** Some order exists, so some counter is possible. */
  lemma SomeCounter(ids: set<uint32>) returns (next: uint32)
    ensures PossibleCounter(ids, next)
  {
    var order := Listing(ids);
    next := CounterOf(order);
  }

  /** An id can be inserted last. */
  lemma InsertedLast(ids: set<uint32>, id: uint32) returns (order: seq<uint32>)
    requires id in ids
    ensures Lists(order, ids) && order != [] && order[|order| - 1] == id
  {
    var rest := ids - {id};
    var others := Listing(rest);
    order := others + [id];
    assert (set y | y in others) == rest;
    forall x ensures x in order <==> x in ids {
      assert x in (set y | y in others) <==> x in rest;
      assert x in order <==> x in others || x == id;
    }
    assert (set x | x in order) == ids;
  }

  ghost predicate OneCounter(ids: set<uint32>) {
    forall n, m :: PossibleCounter(ids, n) && PossibleCounter(ids, m) ==> n == m
  }

  /**
   * The counter does not depend on the order of insertion exactly when the last 32-bit id is not
   * among the ids or is the only one.
   */
  lemma OneCounterIff(ids: set<uint32>)
    ensures OneCounter(ids) <==> LAST_ID !in ids || ids == {LAST_ID}
  {
    if LAST_ID !in ids {
      forall n, m | PossibleCounter(ids, n) && PossibleCounter(ids, m) ensures n == m {
        CounterIsNext(ids, n);
        CounterIsNext(ids, m);
      }
    } else if ids == {LAST_ID} {
      forall n | PossibleCounter(ids, n) ensures n == 0 {
        OnlyLast(n);
      }
    } else {
      var other :| other in ids && other != LAST_ID;
      var a := InsertedLast(ids, LAST_ID);
      var b := InsertedLast(ids, other);
      ZeroIffLast(a);
      ZeroIffLast(b);
      assert PossibleCounter(ids, CounterOf(a)) && PossibleCounter(ids, CounterOf(b));
    }
  }

  lemma CounterIsNext(ids: set<uint32>, next: uint32)
    requires LAST_ID !in ids && PossibleCounter(ids, next)
    ensures next == NextAfter(ids)
  {
    var order :| Lists(order, ids) && CounterOf(order) == next;
    CounterBelowWrap(order, ids);
  }

  lemma OnlyLast(next: uint32)
    requires PossibleCounter({LAST_ID}, next)
    ensures next == 0
  {
    var order :| Lists(order, {LAST_ID}) && CounterOf(order) == next;
    ListsMultiset(order, {LAST_ID});
    ListsFront(order, {LAST_ID});
    ZeroIffLast(order);
  }

  /** Without the last 32-bit id the contents load as one system, its counter right above the ids. */
  lemma LoadedUnique(s: System, contents: Contents)
    requires Injective(contents.peers) && LAST_ID !in contents.peers
    ensures IsLoaded(s, contents) <==> s == Rebuilt(contents.peers, contents.view)
  {
    RebuiltIsLoaded(contents);
    if IsLoaded(s, contents) {
      var rebuilt := Rebuilt(contents.peers, contents.view);
      CounterIsNext(contents.peers.Keys, s.next);
      CounterIsNext(contents.peers.Keys, rebuilt.next);
      InverseUnique(s.byInfo, rebuilt.byInfo, contents.peers);
    }
  }

  lemma RebuiltIsLoaded(contents: Contents)
    requires Injective(contents.peers) && LAST_ID !in contents.peers
    ensures IsLoaded(Rebuilt(contents.peers, contents.view), contents)
  {
    var ids := contents.peers.Keys;
    var next := SomeCounter(ids);
    CounterIsNext(ids, next);
    assert NextAfter(ids) % 0x1_0000_0000 == NextAfter(ids) == next;
  }

  /** Which system is loaded does not depend on the order of insertion exactly under the same condition. */
  lemma OneSystemIff(contents: Contents)
    requires Injective(contents.peers)
    ensures (forall s, t :: IsLoaded(s, contents) && IsLoaded(t, contents) ==> s == t)
       <==> LAST_ID !in contents.peers || contents.peers.Keys == {LAST_ID}
  {
    var ids := contents.peers.Keys;
    OneCounterIff(ids);
    forall s, t | IsLoaded(s, contents) && IsLoaded(t, contents) && OneCounter(ids) ensures s == t {
      InverseUnique(s.byInfo, t.byInfo, contents.peers);
    }
    if !OneCounter(ids) {
      var n, m :| PossibleCounter(ids, n) && PossibleCounter(ids, m) && n != m;
      var s := System(Inverse(contents.peers), contents.peers, n, contents.view);
      assert IsLoaded(s, contents) && IsLoaded(s.(next := m), contents);
    }
  }
}
