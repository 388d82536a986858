/** Peer identities and their compact ids (src/peer/peer_registry.cpp). */
module PeerRegistry {
  import opened Base

  datatype PeerInfo = PeerInfo(host: string, peerIp: string, peerAsn: uint32)

  datatype RegistryError = DuplicateId | DuplicateIdentity | UnknownId

  /** No two ids share an identity. */
  ghost predicate Injective(ids: map<uint32, PeerInfo>) {
    forall a, b :: a in ids && b in ids && ids[a] == ids[b] ==> a == b
  }

  /** The two maps of the registry are inverse to each other. */
  ghost predicate MutualInverses(byInfo: map<PeerInfo, uint32>, byId: map<uint32, PeerInfo>) {
    && (forall info :: info in byInfo ==> byInfo[info] in byId && byId[byInfo[info]] == info)
    && (forall id :: id in byId ==> byId[id] in byInfo && byInfo[byId[id]] == id)
  }

  /** The id counter after an id was inserted explicitly. */
  function CounterAfter(next: uint32, id: uint32): uint32 {
    if id >= next then (id + 1) % U32_LIMIT else next
  }

  /** An explicit id stays below the counter exactly when it is not the last 32-bit id. */
  lemma CounterPassesId(next: uint32, id: uint32)
    ensures id < CounterAfter(next, id) <==> id != LAST_ID
  {}

  // ----- Ids still to be handed out -----

  /** The counter's value after `steps` more ids. */
  function Ahead(next: uint32, steps: nat): uint32 {
    (next + steps) % U32_LIMIT
  }

  /** The next `k` ids the counter yields are distinct and free, whether or not it wraps. */
  ghost predicate FreeAhead(byId: map<uint32, PeerInfo>, next: uint32, k: nat) {
    && k <= U32_LIMIT
    && forall j: nat :: j < k ==> Ahead(next, j) !in byId
  }

  /** They are free and do not exhaust the 32-bit ids. */
  ghost predicate Room(byId: map<uint32, PeerInfo>, next: uint32, k: nat) {
    |byId| + k < U32_LIMIT && FreeAhead(byId, next, k)
  }

  lemma AheadShifts(next: uint32, j: nat)
    ensures Ahead((next + 1) % U32_LIMIT, j) == Ahead(next, j + 1)
  {
    assert next + 1 < 0x1_0000_0000 ==> (next + 1) % 0x1_0000_0000 == next + 1;
    if next == LAST_ID {
      assert (next + 1) % 0x1_0000_0000 == 0;
      assert next + (j + 1) == 0x1_0000_0000 + j;
      assert (0x1_0000_0000 + j) % 0x1_0000_0000 == j % 0x1_0000_0000;
    }
  }

  lemma AheadMoves(next: uint32, j: nat)
    requires 0 < j < U32_LIMIT
    ensures Ahead(next, j) != next
  {
    if next + j < 0x1_0000_0000 {
      assert (next + j) % 0x1_0000_0000 == next + j;
    } else {
      assert (next + j) % 0x1_0000_0000 == next + j - 0x1_0000_0000;
    }
  }

  lemma AheadNow(next: uint32)
    ensures Ahead(next, 0) == next
  {
    assert next % 0x1_0000_0000 == next;
  }

  lemma AheadWraps(next: uint32)
    ensures Ahead((next + 1) % U32_LIMIT, U32_LIMIT - 1) == next
  {
    AheadShifts(next, U32_LIMIT - 1);
    assert (next + 0x1_0000_0000) % 0x1_0000_0000 == next;
  }

  /** No counter can go on to all ids once it has handed one out. */
  lemma NotAllAhead(byId: map<uint32, PeerInfo>, next: uint32)
    requires next in byId
    ensures !FreeAhead(byId, (next + 1) % U32_LIMIT, U32_LIMIT)
  {
    AheadWraps(next);
    assert Ahead((next + 1) % U32_LIMIT, U32_LIMIT - 1) in byId;
  }

  /** The ids ahead are free exactly when the first one is, and those after it once it is handed out. */
  lemma FreeOneByOne(byId: map<uint32, PeerInfo>, next: uint32, k: nat, peer: PeerInfo)
    ensures FreeAhead(byId, next, k + 1) <==>
      next !in byId && FreeAhead(byId[next := peer], (next + 1) % U32_LIMIT, k)
  {
    var next' := (next + 1) % U32_LIMIT;
    AheadNow(next);
    NotAllAhead(byId[next := peer], next);
    if FreeAhead(byId, next, k + 1) {
      forall j: nat | j < k ensures Ahead(next', j) !in byId[next := peer] {
        AheadShifts(next, j);
        AheadMoves(next, j + 1);
        assert Ahead(next, j + 1) !in byId;
      }
    }
    if next !in byId && FreeAhead(byId[next := peer], next', k) {
      forall j: nat | j < k + 1 ensures Ahead(next, j) !in byId {
        if j > 0 {
          AheadShifts(next, j - 1);
          assert Ahead(next', j - 1) !in byId[next := peer];
        }
      }
    }
  }

  /** Handing out one id leaves room for the others. */
  lemma RoomForRest(byId: map<uint32, PeerInfo>, next: uint32, k: nat, peer: PeerInfo)
    requires Room(byId, next, k) && k > 0
    ensures next !in byId && Room(byId[next := peer], (next + 1) % U32_LIMIT, k - 1)
  {
    FreeOneByOne(byId, next, k - 1, peer);
    assert byId[next := peer].Keys == byId.Keys + {next};
    assert |byId.Keys| == |byId| && |byId[next := peer].Keys| == |byId[next := peer]|;
  }

  /** With every id below a counter that does not wrap there is room. */
  lemma RoomBelowWrap(byId: map<uint32, PeerInfo>, next: uint32, k: nat)
    requires (forall id :: id in byId ==> id < next) && next + k <= LAST_ID
    ensures Room(byId, next, k)
  {
    var ids: set<int> := set id | id in byId :: id as int;
    assert ids == byId.Keys && |byId.Keys| == |byId|;
    Pigeonhole(ids, next);
    forall j: nat | j < k ensures Ahead(next, j) !in byId {
      assert (next + j) % 0x1_0000_0000 == next + j;
    }
  }

  class PeerRegistry {
    var byInfo: map<PeerInfo, uint32>
    var byId: map<uint32, PeerInfo>
    var nextPeerId: uint32

    /** A bijection, with every id handed out so far below the counter. */
    ghost predicate Valid()
      reads this
    {
      && MutualInverses(byInfo, byId)
      && 1 <= nextPeerId
      && forall id :: id in byId ==> id < nextPeerId
    }

    constructor ()
      ensures Valid() && byId == map[] && nextPeerId == 1
    {
      byInfo, byId, nextPeerId := map[], map[], 1;
    }

    /**
     * A known identity keeps its id; a new one takes the counter's value. The maps stay inverse
     * exactly when that value is free, which holds as long as the counter has not wrapped.
     */
    method GetOrAdd(peer: PeerInfo) returns (id: uint32)
      requires MutualInverses(byInfo, byId)
      modifies this
      ensures id in byId && byId[id] == peer
      ensures if peer in old(byInfo) then
          id == old(byInfo)[peer] && byId == old(byId) && byInfo == old(byInfo) && nextPeerId == old(nextPeerId)
        else
          id == old(nextPeerId) && byId == old(byId)[id := peer] && byInfo == old(byInfo)[peer := id]
          && nextPeerId == (old(nextPeerId) + 1) % U32_LIMIT
      ensures MutualInverses(byInfo, byId) <==> peer in old(byInfo) || old(nextPeerId) !in old(byId)
      ensures old(Valid()) && (peer in old(byInfo) || old(nextPeerId) != LAST_ID) ==> Valid()
    {
      if peer in byInfo {
        return byInfo[peer];
      }
      id := nextPeerId;
      nextPeerId := (nextPeerId + 1) % U32_LIMIT;
      byInfo := byInfo[peer := id];
      byId := byId[id := peer];
      if id in old(byId) {
        ghost var former := old(byId)[id];
        assert former in byInfo && byId[byInfo[former]] != former;
      }
    }

    /** Fails exactly when the id or the identity is taken, and then changes nothing. */
    method InsertWithId(id: uint32, peer: PeerInfo) returns (r: Result<(), RegistryError>)
      requires MutualInverses(byInfo, byId)
      modifies this
      ensures MutualInverses(byInfo, byId)
      ensures r.Ok? <==> id !in old(byId) && forall other :: other in old(byId) ==> old(byId)[other] != peer
      ensures r.Err? ==> byId == old(byId) && byInfo == old(byInfo) && nextPeerId == old(nextPeerId)
      ensures r == Err(DuplicateId) <==> id in old(byId)
      ensures r.Ok? ==> byId == old(byId)[id := peer] && nextPeerId == CounterAfter(old(nextPeerId), id)
      ensures old(Valid()) && id < LAST_ID ==> Valid()
    {
      if id in byId {
        return Err(DuplicateId);
      }
      if peer in byInfo {
        return Err(DuplicateIdentity);
      }
      byId := byId[id := peer];
      byInfo := byInfo[peer := id];
      if id >= nextPeerId {
        nextPeerId := (id + 1) % U32_LIMIT;
      }
      return Ok(());
    }

    predicate Contains(id: uint32)
      reads this
    {
      id in byId
    }

    function Get(id: uint32): (r: Result<PeerInfo, RegistryError>)
      reads this
      ensures r == if Contains(id) then Ok(byId[id]) else Err(UnknownId)
      ensures MutualInverses(byInfo, byId) && r.Ok? ==> r.value in byInfo && byInfo[r.value] == id
    {
      if id in byId then Ok(byId[id]) else Err(UnknownId)
    }

    method Clear()
      modifies this
      ensures Valid() && byId == map[] && nextPeerId == 1
    {
      byInfo, byId, nextPeerId := map[], map[], 1;
    }

    lemma IdsAreInjective()
      requires MutualInverses(byInfo, byId)
      ensures Injective(byId)
    {}
  }
}
