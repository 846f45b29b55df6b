/** Two requests for three blocks whose middle block is stored already: one whose result skips it, and one
    that shows why the exact condition for a contiguous result asks for room. */
module StrandedExamples {
  import opened Types
  import opened PrefixMap
  import opened BlockLifecycle
  import opened TierModel
  import opened CacheModel
  import opened CacheTheory
  import opened AdmitTheory
  import opened CacheOps
  import opened CacheRuns
  import opened Coordinator
  import opened Distributed
  import opened PipelineModel
  import opened PipelineTheory
  import opened StrandedTheory
  import opened Counterexample

  // ---------- policies ----------

  predicate Offered(offer: seq<Features>, id: BlockId) {
    exists i | 0 <= i < |offer| :: offer[i].id == id
  }

  /** Evicts the one block if it is offered, else the other, else none. */
  function Prefer(a: BlockId, b: BlockId): EvictionPolicy {
    (ctx: EvictionContext, offer: seq<Features>) =>
      if Offered(offer, a) then Some(a) else if Offered(offer, b) then Some(b) else None
  }

  function Evicting(a: BlockId, b: BlockId): Policies {
    Policies(AdmitAlways, PlaceOnGpu, Prefer(a, b))
  }

  lemma PreferPicks(a: BlockId, b: BlockId)
    ensures PicksFromOffer(Prefer(a, b))
  {
  }

  lemma OfferedIff(c: Cache, tier: Tier, now: nat, id: BlockId)
    requires BaseInv(c)
    ensures InBounds(c.mgr.recs, Offer(c.mgr.recs, tier))
    ensures Offered(OfferFeatures(c.mgr.recs, c.index, c.bs, now, Offer(c.mgr.recs, tier)), id)
      <==> id in EligibleSlots(c.mgr.recs, tier)
  {
    hide BaseInv;
    hide Offer;
    hide EligibleSlots;
    OfferOfBase(c, tier);
    var ids := Offer(c.mgr.recs, tier);
    var offer := OfferFeatures(c.mgr.recs, c.index, c.bs, now, ids);
    assert forall i | 0 <= i < |ids| :: offer[i].id == ids[i];
    if id in ids {
      var i :| 0 <= i < |ids| && ids[i] == id;
      assert offer[i].id == id;
    }
    if Offered(offer, id) {
      var i :| 0 <= i < |offer| && offer[i].id == id;
      assert ids[i] in ids;
    }
  }

  lemma PreferChooses(c: Cache, tier: Tier, now: nat, a: BlockId, b: BlockId, v: BlockId)
    requires BaseInv(c) && v in EligibleSlots(c.mgr.recs, tier)
    requires v == a || (a !in EligibleSlots(c.mgr.recs, tier) && v == b)
    ensures v < |c.mgr.recs| && Evictable(c.mgr.recs[v]) && Victim(c, tier, now, Prefer(a, b)) == Some(v)
  {
    hide BaseInv;
    hide Offer;
    hide OfferFeatures;
    hide Offered;
    OfferedIff(c, tier, now, a);
    OfferedIff(c, tier, now, b);
    OfferOfBase(c, tier);
  }

  function FirstRef(hash: ContentHash, refs: seq<Ref>): Option<Ref> {
    if refs == [] then None else Some(refs[0])
  }

  function AtTen(step: nat): nat {
    10
  }

  // ---------- a worker that stores the first blocks of a request ----------

  /** Block i of the request, computed locally; blocks are one token long. */
  function LocalBlock(h: Hasher, req: Request, i: nat): Candidate {
    Candidate(req.ctx, i, Prefix(req.tokens, i + 1), BlockHash(h, 1, req, i), [], LocallyComputed)
  }

  /** A block in the GPU tier with this many handles. */
  ghost predicate OnGpu(c: Cache, id: BlockId, handles: nat) {
    && id < |c.mgr.recs|
    && c.mgr.recs[id].state == BlockState.Ready && c.mgr.recs[id].tier == GpuSim && c.mgr.recs[id].refcount == handles
  }

  /** The blocks of the chain have that many handles each, and none of the request's later blocks is stored. */
  ghost predicate Holds(c: Cache, h: Hasher, req: Request, ids: seq<BlockId>, handles: nat) {
    && CacheInv(c, h) && c.bs == 1
    && IsChain(c.index, 1, req.ctx, req.tokens, ids)
    && (forall i | 0 <= i < |ids| :: OnGpu(c, ids[i], handles))
    && (forall i: nat | i >= |ids| :: !Stored(c.index, 1, req, i))
    && (forall k | k in c.index :: k.ctx == req.ctx)
  }

  lemma NothingHeld(capacity: nat, h: Hasher, req: Request)
    ensures Holds(InitCache(capacity, 1, capacity, capacity, 0, 0, false), h, req, [], 1)
    ensures Room(InitCache(capacity, 1, capacity, capacity, 0, 0, false), capacity)
  {
    InitCacheInv(capacity, 1, capacity, capacity, 0, 0, false, h);
  }

  lemma LocalBlockIs(h: Hasher, req: Request, i: nat)
    requires i < |req.tokens|
    ensures IsRequestBlock(h, 1, req, i, LocalBlock(h, req, i))
  {
  }

  /** One more block, admitted with room. */
  lemma StoreNext(c: Cache, h: Hasher, req: Request, ids: seq<BlockId>, k: nat) returns (id: BlockId)
    requires Holds(c, h, req, ids, 1) && Room(c, k + 1) && |ids| < |req.tokens|
    ensures
      var op := AdmitOp(LocalBlock(h, req, |ids|), 0, LRU_POLICIES);
      && Callable(c, h, op)
      && var c' := After(c, h, op);
        && Holds(c', h, req, ids + [id], 1) && Room(c', k)
        && |c'.mgr.pool.freeList| + 1 == |c.mgr.pool.freeList|
  {
    hide CacheInv;
    hide IsChain;
    hide Stored;
    hide Admit;
    hide Refusal;
    hide Honest;
    hide IsRequestBlock;
    hide PicksFromOffer;
    hide LostBlocks;
    hide BaseInv;
    var cand := LocalBlock(h, req, |ids|);
    LruPicksFromOffer();
    InvBase(c, h);
    LocalBlockIs(h, req, |ids|);
    RequestBlockHonest(c, h, req, |ids|, cand);
    NextChecks(c, h, req, ids, cand, 0, LRU_POLICIES);
    AdmitNext(c, h, req, ids, cand, 0, LRU_POLICIES, k);
    AdmittedShape(c, cand, 0, LRU_POLICIES);
    var r := Admit(c, cand, 0, LRU_POLICIES);
    id := r.handle.value;
    NewId(c, cand, id, r);
    forall i | 0 <= i < |ids| ensures OnGpu(r.cache, ids[i], 1) {
      assert OnGpu(c, ids[i], 1);
    }
  }

  lemma NewId(c: Cache, cand: Candidate, id: BlockId, r: AdmitResult)
    requires BaseInv(c) && Room(c, 1)
    ensures Prepared(c, cand, 0, LRU_POLICIES).cache == c
    ensures CanCreate(c.mgr) && CanAllocate(c.mgr.pool) && RefInBounds(c.payloads)
    ensures c.mgr.recs[NextId(c.mgr.pool)].state == BlockState.Free
    ensures forall index ::
      var c' := WithBlock(c, cand, GpuSim, 0, index);
      && OnGpu(c', NextId(c.mgr.pool), 1)
      && (forall i: nat | i < |c.mgr.recs| && i != NextId(c.mgr.pool) :: c'.mgr.recs[i] == c.mgr.recs[i])
      && |c'.mgr.pool.freeList| + 1 == |c.mgr.pool.freeList|
  {
    hide BaseInv;
    RoomInPool(c);
    NextSlotFacts(c);
  }

  /** The first n blocks of the request, admitted one after the other into a fresh cache. */
  lemma {:induction false} StoreBlocks(capacity: nat, h: Hasher, req: Request, n: nat)
      returns (ops: seq<CacheOp>, c: Cache, ids: seq<BlockId>)
    requires n <= capacity && n <= |req.tokens|
    ensures
      var c0 := InitCache(capacity, 1, capacity, capacity, 0, 0, false);
      IsCacheRun(c0, h, ops) && c == CacheRunEnd(c0, h, ops)
    ensures Holds(c, h, req, ids, 1) && |ids| == n && Room(c, capacity - n)
    ensures |c.mgr.pool.freeList| == capacity - n
    decreases n
  {
    hide Holds;
    hide Room;
    hide Callable;
    hide After;
    hide IsCacheRun;
    hide CacheRunEnd;
    if n == 0 {
      ops, ids, c := [], [], InitCache(capacity, 1, capacity, capacity, 0, 0, false);
      NothingHeld(capacity, h, req);
      NoRun(c, h);
    } else {
      ops, c, ids := StoreBlocks(capacity, h, req, n - 1);
      var id := StoreNext(c, h, req, ids, capacity - n);
      var op := AdmitOp(LocalBlock(h, req, |ids|), 0, LRU_POLICIES);
      OneStepRun(c, h, op);
      RunConcat(InitCache(capacity, 1, capacity, capacity, 0, 0, false), h, ops, [op]);
      ops, c, ids := ops + [op], After(c, h, op), ids + [id];
    }
  }

  lemma NoRun(c: Cache, h: Hasher)
    ensures IsCacheRun(c, h, []) && CacheRunEnd(c, h, []) == c
  {
  }

  /** The handles of the first n blocks of the chain end. */
  lemma {:induction false} ReleaseFirst(c: Cache, h: Hasher, ids: seq<BlockId>, n: nat)
      returns (ops: seq<CacheOp>, c': Cache)
    requires CacheInv(c, h) && NoDup(ids) && n <= |ids| && forall i | 0 <= i < |ids| :: OnGpu(c, ids[i], 1)
    ensures IsCacheRun(c, h, ops) && c' == CacheRunEnd(c, h, ops) && CacheInv(c', h)
    ensures c' == c.(mgr := c.mgr.(recs := c'.mgr.recs))
    ensures forall i | 0 <= i < |ids| :: OnGpu(c', ids[i], if i < n then 0 else 1)
    decreases n
  {
    hide CacheInv;
    hide Callable;
    hide After;
    hide IsCacheRun;
    hide CacheRunEnd;
    if n == 0 {
      ops, c' := [], c;
      NoRun(c, h);
    } else {
      var before;
      ops, before := ReleaseFirst(c, h, ids, n - 1);
      var id := ids[n - 1];
      assert OnGpu(before, id, 1);
      ReleaseOk(before, h, id);
      ReleaseIs(before, h, id);
      OneStepRun(before, h, ReleaseOp(id));
      RunConcat(c, h, ops, [ReleaseOp(id)]);
      ops, c' := ops + [ReleaseOp(id)], ReleaseHandle(before, id);
      forall i | 0 <= i < |ids| ensures OnGpu(c', ids[i], if i < n then 0 else 1) {
        assert OnGpu(before, ids[i], if i < n - 1 then 0 else 1);
      }
    }
  }

  lemma ReleaseIs(c: Cache, h: Hasher, id: BlockId)
    requires OnGpu(c, id, 1)
    ensures Callable(c, h, ReleaseOp(id)) && After(c, h, ReleaseOp(id)) == ReleaseHandle(c, id)
  {
  }

  lemma ReleaseKeeps(c: Cache, c': Cache, h: Hasher, req: Request, ids: seq<BlockId>)
    requires Holds(c, h, req, ids, 1) && CacheInv(c', h) && c' == c.(mgr := c.mgr.(recs := c'.mgr.recs))
    requires forall i | 0 <= i < |ids| :: OnGpu(c', ids[i], 0)
    ensures Holds(c', h, req, ids, 0)
    ensures forall k: nat :: Room(c, k) ==> Room(c', k)
  {
    hide CacheInv;
    hide IsChain;
    hide Stored;
  }

  /** The first n blocks of the request, stored with no handle left. */
  lemma Stocked(capacity: nat, h: Hasher, req: Request, n: nat) returns (ops: seq<CacheOp>, c: Cache, ids: seq<BlockId>)
    requires n <= capacity && n <= |req.tokens|
    ensures
      var c0 := InitCache(capacity, 1, capacity, capacity, 0, 0, false);
      IsCacheRun(c0, h, ops) && c == CacheRunEnd(c0, h, ops)
    ensures Holds(c, h, req, ids, 0) && |ids| == n && Room(c, capacity - n) && NoDup(ids)
    ensures |c.mgr.pool.freeList| == capacity - n
  {
    hide CacheInv;
    hide Room;
    hide IsChain;
    hide Stored;
    hide OnGpu;
    hide IsCacheRun;
    hide CacheRunEnd;
    hide CanAcquire;
    hide IsBlockOf;
    var full, more;
    ops, full, ids := StoreBlocks(capacity, h, req, n);
    ChainAvailable(full, h, req.ctx, req.tokens, ids);
    more, c := ReleaseFirst(full, h, ids, n);
    ReleaseKeeps(full, c, h, req, ids);
    RunConcat(InitCache(capacity, 1, capacity, capacity, 0, 0, false), h, ops, more);
    ops := ops + more;
  }

  // ---------- a peer that can serve everything ----------

  ghost predicate Serves(workers: map<NodeId, Cache>, hash: ContentHash, ref: Ref) {
    && ref.node in workers
    && var recs := workers[ref.node].mgr.recs;
       && ref.block < |recs|
       && FetchLocalStatus(recs, ref.block, ref.generation) == Hit
       && recs[ref.block].hash == hash
  }

  /** The directory has refs for the hash, and all of them can be served. */
  ghost predicate AllServed(workers: map<NodeId, Cache>, dir: Directory, hash: ContentHash) {
    Query(dir, hash) != [] && forall i | 0 <= i < |Query(dir, hash)| :: Serves(workers, hash, Query(dir, hash)[i])
  }

  lemma FetchServed(workers: map<NodeId, Cache>, dir: Directory, hash: ContentHash, hash': ContentHash, ref: Ref,
                    now: nat)
    requires Serves(workers, hash, ref)
    ensures Fetch(workers, ref, hash, now).status == FetchOk
    ensures AllServed(workers, dir, hash') ==> AllServed(AfterFetch(workers, ref, now), dir, hash')
  {
    hide SlotBytes;
    hide Query;
    if AllServed(workers, dir, hash') {
      forall i | 0 <= i < |Query(dir, hash')|
        ensures Serves(AfterFetch(workers, ref, now), hash', Query(dir, hash')[i])
      {
        assert Serves(workers, hash', Query(dir, hash')[i]);
      }
    }
  }

  /** When every planned hash can be served, every planned block is fetched. */
  lemma {:induction false} AllFetched(workers: map<NodeId, Cache>, dir: Directory, req: Request, missing: seq<Missing>,
                                      now: nat)
    requires forall i | 0 <= i < |missing| :: AllServed(workers, dir, missing[i].hash)
    ensures |Resolve(workers, dir, 1, req, missing, FirstRef, now).fetched| == |missing|
    decreases |missing|
  {
    hide AllServed;
    hide Fetch;
    hide AfterFetch;
    hide Query;
    if missing != [] {
      var hash := missing[0].hash;
      assert AllServed(workers, dir, hash);
      ServedFirst(workers, dir, hash);
      var ref, rest := Query(dir, hash)[0], missing[1..];
      FetchServed(workers, dir, hash, hash, ref, now);
      forall i | 0 <= i < |rest| ensures AllServed(AfterFetch(workers, ref, now), dir, rest[i].hash) {
        assert AllServed(workers, dir, missing[i + 1].hash);
        FetchServed(workers, dir, hash, missing[i + 1].hash, ref, now);
      }
      AllFetched(AfterFetch(workers, ref, now), dir, req, rest, now);
    }
  }

  lemma ServedFirst(workers: map<NodeId, Cache>, dir: Directory, hash: ContentHash)
    requires AllServed(workers, dir, hash)
    ensures Query(dir, hash) != [] && Serves(workers, hash, Query(dir, hash)[0])
  {
  }

  /** The directory after the peer, node 7, has announced the blocks of the request that it holds. */
  ghost function Announcements(peer: Cache, h: Hasher, req: Request, ids: seq<BlockId>): Directory
    requires InBounds(peer.mgr.recs, ids)
    decreases |ids|
  {
    if ids == [] then map[]
    else
      var n := |ids| - 1;
      Announced(Announcements(peer, h, req, ids[..n]), BlockHash(h, 1, req, n),
                Ref(7, ids[n], peer.mgr.recs[ids[n]].generation))
  }

  lemma {:induction false} AnnouncedServed(peer: Cache, h: Hasher, req: Request, ids: seq<BlockId>)
    requires InBounds(peer.mgr.recs, ids)
    requires forall i | 0 <= i < |ids| ::
      Serves(map[7 := peer], BlockHash(h, 1, req, i), Ref(7, ids[i], peer.mgr.recs[ids[i]].generation))
    ensures
      var dir := Announcements(peer, h, req, ids);
      && (forall hash, j | 0 <= j < |Query(dir, hash)| :: Serves(map[7 := peer], hash, Query(dir, hash)[j]))
      && (forall i | 0 <= i < |ids| :: Query(dir, BlockHash(h, 1, req, i)) != [])
    decreases |ids|
  {
    hide Serves;
    hide BlockHash;
    if ids != [] {
      var n := |ids| - 1;
      AnnouncedServed(peer, h, req, ids[..n]);
      var before, dir := Announcements(peer, h, req, ids[..n]), Announcements(peer, h, req, ids);
      var ref := Ref(7, ids[n], peer.mgr.recs[ids[n]].generation);
      assert Serves(map[7 := peer], BlockHash(h, 1, req, n), ref);
      forall hash, j | 0 <= j < |Query(dir, hash)| ensures Serves(map[7 := peer], hash, Query(dir, hash)[j]) {
        if j < |Query(before, hash)| {
          assert Query(dir, hash)[j] == Query(before, hash)[j];
        }
      }
      forall i | 0 <= i < |ids| ensures Query(dir, BlockHash(h, 1, req, i)) != [] {
        if i < n {
          assert Query(before, BlockHash(h, 1, req, i)) != [];
        }
      }
    }
  }

  lemma PeerServes(peer: Cache, h: Hasher, req: Request, ids: seq<BlockId>)
    requires Holds(peer, h, req, ids, 1)
    ensures InBounds(peer.mgr.recs, ids)
    ensures forall i | 0 <= i < |ids| ::
      Serves(map[7 := peer], BlockHash(h, 1, req, i), Ref(7, ids[i], peer.mgr.recs[ids[i]].generation))
  {
    hide CacheInv;
    ChainAvailable(peer, h, req.ctx, req.tokens, ids);
    forall i | 0 <= i < |ids|
      ensures Serves(map[7 := peer], BlockHash(h, 1, req, i), Ref(7, ids[i], peer.mgr.recs[ids[i]].generation))
    {
      assert CanAcquire(peer.mgr.recs, ids[i]) && IsBlockOf(peer.mgr.recs, 1, h, req.ctx, req.tokens, ids[i], i);
    }
  }

  /** A peer reached from a fresh cache, and a directory of its announcements, from which every block of the
      request can be fetched. */
  lemma Peer(h: Hasher, req: Request) returns (ops: seq<CacheOp>, peer: Cache, dir: Directory)
    ensures
      var n := |req.tokens|;
      && IsCacheRun(InitCache(n, 1, n, n, 0, 0, false), h, ops)
      && peer == CacheRunEnd(InitCache(n, 1, n, n, 0, 0, false), h, ops)
    ensures CacheInv(peer, h)
    ensures |Resolve(map[7 := peer], dir, 1, req, Plan(h, 1, req, 0), FirstRef, 0).fetched| == |req.tokens|
  {
    hide IsCacheRun;
    hide CacheRunEnd;
    hide Resolve;
    hide AllServed;
    hide BlockHash;
    hide Announcements;
    hide CacheInv;
    hide Serves;
    hide Query;
    var ids;
    ops, peer, ids := StoreBlocks(|req.tokens|, h, req, |req.tokens|);
    PeerServes(peer, h, req, ids);
    dir := Announcements(peer, h, req, ids);
    AnnouncedServed(peer, h, req, ids);
    PlanIs(h, 1, req, 0);
    var missing := Plan(h, 1, req, 0);
    forall i | 0 <= i < |missing| ensures AllServed(map[7 := peer], dir, missing[i].hash) {
      assert IsPlanned(h, 1, req, 0 + i, missing[i]);
      NowServed(map[7 := peer], dir, missing[i].hash);
    }
    AllFetched(map[7 := peer], dir, req, missing, 0);
  }

  lemma NowServed(workers: map<NodeId, Cache>, dir: Directory, hash: ContentHash)
    requires Query(dir, hash) != []
    requires forall j | 0 <= j < |Query(dir, hash)| :: Serves(workers, hash, Query(dir, hash)[j])
    ensures AllServed(workers, dir, hash)
  {
  }

  // ---------- a result that skips a block ----------

  /** The first of two stored blocks is evicted. */
  lemma EvictFirst(c: Cache, h: Hasher, req: Request, ids: seq<BlockId>, k: nat)
    requires Holds(c, h, req, ids, 0) && NoDup(ids) && |ids| == 2 && Room(c, k)
    ensures
      var op := MakeSpaceOp(1, GpuSim, 0, Prefer(ids[0], ids[0]));
      && Callable(c, h, op)
      && var c' := After(c, h, op);
        && CacheInv(c', h) && c'.bs == 1 && Room(c', k)
        && forall i: nat :: Stored(c'.index, 1, req, i) <==> i == 1
  {
    hide BaseInv;
    hide IndexInv;
    hide Prefer;
    hide Victim;
    hide Evicted;
    hide Fits;
    hide BlockKey;
    InvBase(c, h);
    var a := ids[0];
    assert OnGpu(c, a, 0);
    PreferPicks(a, a);
    PreferChooses(c, GpuSim, 0, a, a, a);
    EvictedBase(c, a);
    EvictedOk(c, h, a);
    var c' := MakeSpace(c, 1, GpuSim, 0, Prefer(a, a)).cache;
    assert c' == Evicted(c, a);
    forall i: nat ensures Stored(c'.index, 1, req, i) <==> i == 1 {
      ChainStored(c, req, ids, i);
    }
  }

  lemma ChainStored(c: Cache, req: Request, ids: seq<BlockId>, i: nat)
    requires IsChain(c.index, 1, req.ctx, req.tokens, ids) && forall j: nat | j >= |ids| :: !Stored(c.index, 1, req, j)
    ensures Stored(c.index, 1, req, i) <==> i < |ids|
    ensures i < |ids| ==> c.index[BlockKey(1, req.ctx, req.tokens, i + 1)] == ids[i]
  {
    if i < |ids| {
      FitsMono(1, req.tokens, i + 1, |ids|);
    }
  }

  /** Nothing of the request is found locally when its first block is missing. */
  lemma NothingFound(c: Cache, h: Hasher, req: Request, now: nat)
    requires CacheInv(c, h) && c.bs == 1 && !Stored(c.index, 1, req, 0)
    ensures LookupPrefix(c, req.ctx, req.tokens, now) == LookupResult(c, [])
  {
    hide CacheInv;
    hide Chain;
    ChainOnPrefix(c.index, 1, req.ctx, req.tokens, |req.tokens|, []);
    assert req.tokens[..|req.tokens|] == req.tokens;
  }

  /** A worker that stores only the middle one of three blocks, reached from a fresh cache: the first two are
      admitted, their handles end, and the first is evicted. */
  lemma MiddleStored(h: Hasher, req: Request) returns (ops: seq<CacheOp>, c: Cache)
    requires |req.tokens| == 3
    ensures IsCacheRun(InitCache(5, 1, 5, 5, 0, 0, false), h, ops)
    ensures c == CacheRunEnd(InitCache(5, 1, 5, 5, 0, 0, false), h, ops)
    ensures CacheInv(c, h) && c.bs == 1 && Room(c, 3)
    ensures forall i: nat :: Stored(c.index, 1, req, i) <==> i == 1
  {
    hide IsCacheRun;
    hide CacheRunEnd;
    hide CacheInv;
    hide Callable;
    hide After;
    hide Holds;
    hide Stored;
    hide Room;
    var ids, before;
    ops, before, ids := Stocked(5, h, req, 2);
    EvictFirst(before, h, req, ids, 3);
    var op := MakeSpaceOp(1, GpuSim, 0, Prefer(ids[0], ids[0]));
    c := After(before, h, op);
    OneStepRun(before, h, op);
    RunConcat(InitCache(5, 1, 5, 5, 0, 0, false), h, ops, [op]);
    ops := ops + [op];
  }

  lemma MiddleIsStranded(m: Entries, req: Request)
    requires forall i: nat :: Stored(m, 1, req, i) <==> i == 1
    ensures NotStored(m, 1, req, 0, 3) == [0, 2] && !StoredLast(m, 1, req, 0, 3)
  {
    hide Stored;
    assert NotStored(m, 1, req, 3, 0) == [];
    assert NotStored(m, 1, req, 2, 1) == [2];
    assert NotStored(m, 1, req, 1, 2) == [2];
    assert Stored(m, 1, req, 1) && !Stored(m, 1, req, 2);
  }

  /** The result of a request need not be contiguous.  The worker stores only the second of the request's three
      blocks, and all three are fetched from a peer: the first and the third are admitted, the second is found
      present and gets no handle.  So the second reusable handle is on the third block; the result reports two
      matched tokens, of which only the first is covered in order, and three hits for two handles. */
  lemma ResultSkipsABlock(h: Hasher, ctx: ContextHash, t: Token, u: Token, v: Token)
      returns (ops: seq<CacheOp>, c: Cache, peerOps: seq<CacheOp>, peer: Cache, dir: Directory)
    ensures IsCacheRun(InitCache(5, 1, 5, 5, 0, 0, false), h, ops)
    ensures c == CacheRunEnd(InitCache(5, 1, 5, 5, 0, 0, false), h, ops)
    ensures IsCacheRun(InitCache(3, 1, 3, 3, 0, 0, false), h, peerOps)
    ensures peer == CacheRunEnd(InitCache(3, 1, 3, 3, 0, 0, false), h, peerOps)
    ensures CacheInv(c, h) && CacheInv(peer, h) && c.bs == 1 && PicksFromOffer(LRU_POLICIES.evict)
    ensures
      var req := Request(ctx, [t, u, v]);
      var r := RunRequest(c, map[7 := peer], dir, h, req, LRU_POLICIES, FirstRef, 0, AtTen);
      && r.statuses == [Admitted, AlreadyPresent, Admitted]
      && |r.route.reusable| == 2
      && IsBlockOf(r.cache.mgr.recs, 1, h, ctx, req.tokens, r.route.reusable[1], 2)
      && r.route.matchedTokens == 2 && r.route.localHits + r.route.remoteHits == 3
      && !OnOwnBlocks(r.cache, h, req, r.route.reusable)
  {
    hide IsCacheRun;
    hide CacheRunEnd;
    hide CacheInv;
    hide Stored;
    hide NotStored;
    hide StoredLast;
    hide Room;
    hide Resolve;
    hide Plan;
    hide LookupPrefix;
    hide AdmitAll;
    hide OnOwnBlocks;
    hide IsBlockOf;
    hide PicksFromOffer;
    hide LruVictim;
    hide AdmitsEverything;
    var req := Request(ctx, [t, u, v]);
    ops, c := MiddleStored(h, req);
    peerOps, peer, dir := Peer(h, req);
    LruPicksFromOffer();
    AlwaysAdmits(LRU_POLICIES);
    NothingFound(c, h, req, 0);
    MiddleIsStranded(c.index, req);
    RequestWithRoom(c, map[7 := peer], dir, h, req, LRU_POLICIES, FirstRef, 0, AtTen);
    ContiguousIff(c, map[7 := peer], dir, h, req, LRU_POLICIES, FirstRef, 0, AtTen);
    var r := RunRequest(c, map[7 := peer], dir, h, req, LRU_POLICIES, FirstRef, 0, AtTen);
    assert r.local == [] && |r.fetched| == 3;
    ReachAll(c.index, 1, req, 0, r.fetched, LRU_POLICIES, AtTen, 0);
    StatusesAre(c.index, req, r.statuses);
    HitsCounted(c.index, 1, req, 0, r.statuses, 3);
    assert r.route.reusable[0 + 1] == r.route.reusable[1];
  }

  lemma StatusesAre(m: Entries, req: Request, statuses: seq<AdmitStatus>)
    requires forall i: nat :: Stored(m, 1, req, i) <==> i == 1
    requires HitsUntil(m, 1, req, 0, statuses, 3) && |statuses| == 3
    ensures statuses == [Admitted, AlreadyPresent, Admitted]
  {
    hide Stored;
    assert statuses[0] == StatusFor(m, 1, req, 0 + 0);
    assert statuses[1] == StatusFor(m, 1, req, 0 + 1);
    assert statuses[2] == StatusFor(m, 1, req, 0 + 2);
  }

  lemma AlwaysAdmits(pol: Policies)
    requires pol.admit == AdmitAlways
    ensures AdmitsEverything(pol)
  {
  }

  // ---------- why room is asked for ----------

  /** The next block of the request, admitted into a full cache in place of the victim. */
  lemma AdmitByEvicting(c: Cache, h: Hasher, req: Request, ids: seq<BlockId>, cand: Candidate, now: nat, a: BlockId,
                        b: BlockId, v: BlockId)
    requires BaseInv(c) && c.bs == 1 && c.mgr.pool.freeList == []
    requires IsChain(c.index, 1, req.ctx, req.tokens, ids) && !Stored(c.index, 1, req, |ids|)
    requires IsRequestBlock(h, 1, req, |ids|, cand)
    requires v in EligibleSlots(c.mgr.recs, GpuSim)
    requires v == a || (a !in EligibleSlots(c.mgr.recs, GpuSim) && v == b)
    ensures
      var r := Admit(c, cand, now, Evicting(a, b));
      && r.status == Admitted && r.handle == Some(v) && r.cache.bs == 1 && v < |c.mgr.recs| == |r.cache.mgr.recs|
      && r.cache.mgr.pool.freeList == [] && BaseInv(r.cache)
      && OnGpu(r.cache, v, 1) && r.cache.mgr.recs[v].blockIndex == |ids|
      && (forall s: nat | s < |c.mgr.recs| && s != v :: r.cache.mgr.recs[s] == c.mgr.recs[s])
      && (v !in ids ==> r.cache.index == RemoveId(c.index, v)[BlockKey(1, req.ctx, req.tokens, |ids| + 1) := v])
      && (v !in ids && CacheInv(c, h) ==> CacheInv(r.cache, h))
  {
    hide BaseInv;
    hide IndexInv;
    hide Stored;
    hide IsChain;
    hide Admit;
    hide Refusal;
    hide Ancestors;
    hide PicksFromOffer;
    hide EligibleSlots;
    hide Prefer;
    hide Prepared;
    hide Honest;
    hide RemoveId;
    hide OnGpu;
    NextChecks(c, h, req, ids, cand, now, Evicting(a, b));
    VictimOnly(c, cand, now, a, b, v);
    EvictingRecords(c, cand, now, a, b, v);
    if v !in ids {
      RequestBlockHonest(c, h, req, |ids|, cand);
      RequestBlockKey(h, 1, req, |ids|, cand);
      EvictingIndex(c, h, cand, now, a, b, v);
    }
  }

  lemma EvictingRecords(c: Cache, cand: Candidate, now: nat, a: BlockId, b: BlockId, v: BlockId)
    requires BaseInv(c) && c.mgr.pool.freeList == [] && c.bs > 0 && Refusal(c, cand, now, Evicting(a, b)) == None
    requires AdmitVictims(c, cand, now, Evicting(a, b)) == [v] && v < |c.mgr.recs|
    requires Prepared(c, cand, now, Evicting(a, b)).status == SpaceMade
    ensures
      var r := Admit(c, cand, now, Evicting(a, b));
      && r.status == Admitted && r.handle == Some(v) && r.cache.bs == c.bs && |r.cache.mgr.recs| == |c.mgr.recs|
      && r.cache.mgr.pool.freeList == [] && BaseInv(r.cache)
      && OnGpu(r.cache, v, 1) && r.cache.mgr.recs[v].blockIndex == cand.blockIndex
      && (forall s: nat | s < |c.mgr.recs| && s != v :: r.cache.mgr.recs[s] == c.mgr.recs[s])
  {
    hide BaseInv;
    hide Admit;
    hide Refusal;
    hide Ancestors;
    hide PicksFromOffer;
    hide Prefer;
    hide Prepared;
    hide AdmitVictims;
    hide InsertChain;
    hide Admits;
    hide EligibleSlots;
    hide LostEntries;
    hide LostPlaces;
    var pol := Evicting(a, b);
    PreferPicks(a, b);
    AdmitIsAtomic(c, cand, now, pol);
    AdmittedShape(c, cand, now, pol);
    AdmitIsAdmits(c, cand, now, pol);
    AdmitKeepsBase(c, cand, now, pol, Admit(c, cand, now, pol));
    assert NextId(Prepared(c, cand, now, pol).cache.mgr.pool) == v;
  }

  lemma EvictingIndex(c: Cache, h: Hasher, cand: Candidate, now: nat, a: BlockId, b: BlockId, v: BlockId)
    requires BaseInv(c) && c.mgr.pool.freeList == [] && Admit(c, cand, now, Evicting(a, b)).status == Admitted
    requires Admit(c, cand, now, Evicting(a, b)).handle == Some(v)
    requires c.bs > 0 && |cand.tokens| == (cand.blockIndex + 1) * c.bs
    requires AdmitVictims(c, cand, now, Evicting(a, b)) == [v] && v !in Ancestors(c, cand) && Honest(c, cand, h)
    ensures
      var r := Admit(c, cand, now, Evicting(a, b));
      && r.cache.index == RemoveId(c.index, v)[Key(cand.ctx, cand.tokens) := v]
      && (CacheInv(c, h) ==> CacheInv(r.cache, h))
  {
    hide BaseInv;
    hide IndexInv;
    hide Admit;
    hide Refusal;
    hide Ancestors;
    hide PicksFromOffer;
    hide Prefer;
    hide Prepared;
    hide AdmitVictims;
    hide InsertChain;
    hide EligibleSlots;
    hide Honest;
    hide RemoveId;
    hide LostEntries;
    hide LostPlaces;
    hide LostRecords;
    hide AncestorsSurvive;
    var pol := Evicting(a, b);
    PreferPicks(a, b);
    AdmittedShape(c, cand, now, pol);
    AncestorsStay(c, cand, now, a, b, v);
    SurvivingIndex(c, cand, now, pol, v);
    LostOne(c.index, v, Prepared(c, cand, now, pol).cache.index);
    if CacheInv(c, h) {
      AdmitKeepsInvIff(c, h, cand, now, pol);
    }
  }

  lemma VictimOnly(c: Cache, cand: Candidate, now: nat, a: BlockId, b: BlockId, v: BlockId)
    requires BaseInv(c) && c.mgr.pool.freeList == [] && v in EligibleSlots(c.mgr.recs, GpuSim)
    requires v == a || (a !in EligibleSlots(c.mgr.recs, GpuSim) && v == b)
    ensures AdmitVictims(c, cand, now, Evicting(a, b)) == [v] && v < |c.mgr.recs|
    ensures Prepared(c, cand, now, Evicting(a, b)).status == SpaceMade
    ensures TierFor(c, cand, now, Evicting(a, b)) == GpuSim
  {
    hide BaseInv;
    hide Prefer;
    hide Victim;
    hide Evicted;
    PreferChooses(c, GpuSim, now, a, b, v);
    var c1 := Evicted(c, v);
    assert Victims(c1, 0, GpuSim, now, Prefer(a, b)) == [];
  }

  lemma AncestorsStay(c: Cache, cand: Candidate, now: nat, a: BlockId, b: BlockId, v: BlockId)
    requires c.bs > 0 && |cand.tokens| == (cand.blockIndex + 1) * c.bs
    requires AdmitVictims(c, cand, now, Evicting(a, b)) == [v] && v !in Ancestors(c, cand)
    ensures AncestorsSurvive(c, cand, now, Evicting(a, b))
  {
    hide AdmitVictims;
    hide Ancestors;
  }

  lemma LostOne(m: Entries, v: BlockId, m': Entries)
    requires LostEntries(m, [v], m')
    ensures m' == RemoveId(m, v)
  {
  }

  /** A full cache: the second and third block of the request can be evicted, the rest is pinned and of
      another context. */
  ghost predicate Crowded(c: Cache, h: Hasher, req: Request, b: BlockId, d: BlockId) {
    && CacheInv(c, h) && c.bs == 1 && c.mgr.pool.freeList == [] && b != d
    && OnGpu(c, b, 0) && OnGpu(c, d, 0)
    && EntryFor(c.index, 1, req, 1, b) && EntryFor(c.index, 1, req, 2, d)
    && forall i: nat :: Stored(c.index, 1, req, i) <==> i == 1 || i == 2
  }

  /** All three blocks are stored and full up the cache; a block of another context takes the place of the
      first. */
  lemma CrowdedCache(h: Hasher, req: Request)
      returns (ops: seq<CacheOp>, c: Cache, b: BlockId, d: BlockId)
    requires |req.tokens| == 3
    ensures IsCacheRun(InitCache(3, 1, 3, 3, 0, 0, false), h, ops)
    ensures c == CacheRunEnd(InitCache(3, 1, 3, 3, 0, 0, false), h, ops)
    ensures Crowded(c, h, req, b, d)
  {
    hide IsCacheRun;
    hide CacheRunEnd;
    hide CacheInv;
    hide Callable;
    hide After;
    hide Holds;
    hide Stored;
    hide Room;
    hide Crowded;
    var ids, before;
    ops, before, ids := Stocked(3, h, req, 3);
    b, d := ids[1], ids[2];
    var other := Request(req.ctx + 1, [0]);
    var op := AdmitOp(LocalBlock(h, other, 0), 0, Evicting(ids[0], ids[0]));
    CrowdOut(before, h, req, ids);
    c := After(before, h, op);
    OneStepRun(before, h, op);
    RunConcat(InitCache(3, 1, 3, 3, 0, 0, false), h, ops, [op]);
    ops := ops + [op];
  }

  lemma CrowdOut(c: Cache, h: Hasher, req: Request, ids: seq<BlockId>)
    requires Holds(c, h, req, ids, 0) && NoDup(ids) && |ids| == 3 && c.mgr.pool.freeList == []
    ensures
      var op := AdmitOp(LocalBlock(h, Request(req.ctx + 1, [0]), 0), 0, Evicting(ids[0], ids[0]));
      Callable(c, h, op) && Crowded(After(c, h, op), h, req, ids[1], ids[2])
  {
    hide CacheInv;
    hide Admit;
    hide IsRequestBlock;
    hide PicksFromOffer;
    hide Prefer;
    hide Stored;
    hide EntryFor;
    hide IsChain;
    hide Fits;
    hide BlockKey;
    hide Honest;
    hide RemoveId;
    hide LocalBlock;
    hide BaseInv;
    hide Crowded;
    hide OnGpu;
    hide EligibleSlots;
    var other, a := Request(req.ctx + 1, [0]), ids[0];
    InvBase(c, h);
    LocalBlockIs(h, other, 0);
    RequestBlockHonest(c, h, other, 0, LocalBlock(h, other, 0));
    PreferPicks(a, a);
    CanLeave(c, a);
    OtherContext(c, req, other);
    AdmitByEvicting(c, h, other, [], LocalBlock(h, other, 0), 0, a, a, a);
    CrowdedIndex(c, req, other, ids);
    TwoLeft(c, Admit(c, LocalBlock(h, other, 0), 0, Evicting(a, a)).cache, h, req, ids);
  }

  lemma CanLeave(c: Cache, id: BlockId)
    ensures OnGpu(c, id, 0) ==> id in EligibleSlots(c.mgr.recs, GpuSim)
  {
  }

  lemma TwoLeft(c: Cache, c': Cache, h: Hasher, req: Request, ids: seq<BlockId>)
    requires |ids| == 3 && NoDup(ids) && OnGpu(c, ids[1], 0) && OnGpu(c, ids[2], 0)
    requires CacheInv(c', h) && c'.bs == 1 && c'.mgr.pool.freeList == [] && |c'.mgr.recs| == |c.mgr.recs|
    requires forall s: nat | s < |c.mgr.recs| && s != ids[0] :: c'.mgr.recs[s] == c.mgr.recs[s]
    requires EntryFor(c'.index, 1, req, 1, ids[1]) && EntryFor(c'.index, 1, req, 2, ids[2])
    requires forall i: nat :: Stored(c'.index, 1, req, i) <==> i == 1 || i == 2
    ensures Crowded(c', h, req, ids[1], ids[2])
  {
    hide CacheInv;
    hide Stored;
    hide EntryFor;
  }

  /** Of the three blocks the first has left the index. */
  lemma CrowdedIndex(c: Cache, req: Request, other: Request, ids: seq<BlockId>)
    requires IsChain(c.index, 1, req.ctx, req.tokens, ids) && NoDup(ids) && |ids| == 3 && other.ctx != req.ctx
    requires forall i: nat | i >= 3 :: !Stored(c.index, 1, req, i)
    ensures
      var m := RemoveId(c.index, ids[0])[BlockKey(1, other.ctx, other.tokens, 1) := ids[0]];
      && EntryFor(m, 1, req, 1, ids[1]) && EntryFor(m, 1, req, 2, ids[2])
      && forall i: nat :: Stored(m, 1, req, i) <==> i == 1 || i == 2
  {
    hide Fits;
    hide BlockKey;
    hide IsChain;
    var m := RemoveId(c.index, ids[0])[BlockKey(1, other.ctx, other.tokens, 1) := ids[0]];
    forall i: nat
      ensures Stored(m, 1, req, i) <==> i == 1 || i == 2
      ensures i == 1 || i == 2 ==> EntryFor(m, 1, req, i, ids[i])
    {
      ChainStored(c, req, ids, i);
      DifferentContext(req, other, i + 1);
    }
  }

  lemma OtherContext(c: Cache, req: Request, other: Request)
    requires other.ctx != req.ctx && forall k | k in c.index :: k.ctx == req.ctx
    ensures IsChain(c.index, 1, other.ctx, other.tokens, []) && !Stored(c.index, 1, other, 0)
  {
  }

  lemma DifferentContext(req: Request, other: Request, i: nat)
    requires other.ctx != req.ctx
    ensures BlockKey(1, req.ctx, req.tokens, i) != BlockKey(1, other.ctx, other.tokens, 1)
  {
  }

  /** The first block evicts the third, and the third, when its turn comes, evicts the second. */
  lemma CrowdedChain(c: Cache, h: Hasher, req: Request, b: BlockId, d: BlockId, cands: seq<Candidate>)
    requires Crowded(c, h, req, b, d) && |cands| == 3 && RequestBlocksFrom(h, 1, req, 0, cands)
    ensures
      var r := AdmitAll(c, cands, Evicting(d, b), AtTen, 0);
      && r.statuses == [Admitted, AlreadyPresent, Admitted] && r.handles == [d, b]
      && r.cache.bs == 1 && b < |r.cache.mgr.recs| && r.cache.mgr.recs[b].blockIndex == 2
  {
    hide Crowded;
    hide AdmitAll;
    hide Admit;
    hide RequestBlocksFrom;
    hide IsRequestBlock;
    hide FirstIn;
    hide Evicting;
    ThreeBlocks(h, req, cands);
    CrowdedFirst(c, h, req, b, d, cands[0]);
    CrowdedSize(c, h, req, b, d);
    CrowdedRest(Admit(c, cands[0], 10, Evicting(d, b)).cache, h, req, b, d, cands[1], cands[2]);
    TwoOfThree(c, cands, Evicting(d, b));
  }

  /** The second candidate of three is found present. */
  lemma TwoOfThree(c: Cache, cands: seq<Candidate>, pol: Policies)
    requires |cands| == 3 && c.bs > 0 && Admit(c, cands[0], 10, pol).cache.bs > 0
    requires
      var c1 := Admit(c, cands[0], 10, pol).cache;
      Admit(c1, cands[1], 10, pol) == AdmitResult(c1, AlreadyPresent, None)
    requires Admit(c, cands[0], 10, pol).handle.Some?
    requires Admit(Admit(c, cands[0], 10, pol).cache, cands[2], 10, pol).handle.Some?
    ensures
      var first := Admit(c, cands[0], 10, pol);
      var third := Admit(first.cache, cands[2], 10, pol);
      AdmitAll(c, cands, pol, AtTen, 0)
        == ChainResult(third.cache, [first.handle.value, third.handle.value],
                       [first.status, AlreadyPresent, third.status])
  {
    hide Admit;
    hide AdmitAll;
    var c1 := Admit(c, cands[0], 10, pol).cache;
    AdmitAllCons(c, cands, pol, AtTen, 0);
    AdmitAllCons(c1, cands[1..], pol, AtTen, 1);
    AdmitAllCons(c1, cands[1..][1..], pol, AtTen, 2);
    AdmitAllCons(Admit(c1, cands[2], 10, pol).cache, cands[1..][1..][1..], pol, AtTen, 3);
  }

  lemma ThreeBlocks(h: Hasher, req: Request, cands: seq<Candidate>)
    requires |cands| == 3 && RequestBlocksFrom(h, 1, req, 0, cands)
    ensures IsRequestBlock(h, 1, req, 0, cands[0]) && IsRequestBlock(h, 1, req, 1, cands[1])
    ensures IsRequestBlock(h, 1, req, 2, cands[2])
  {
    hide IsRequestBlock;
    assert IsRequestBlock(h, 1, req, 0 + 1, cands[1]) && IsRequestBlock(h, 1, req, 0 + 2, cands[2]);
  }

  lemma CrowdedSize(c: Cache, h: Hasher, req: Request, b: BlockId, d: BlockId)
    requires Crowded(c, h, req, b, d)
    ensures c.bs == 1 && CacheInv(c, h)
  {
  }

  /** After the first block: it is in the place of the third, and the second is where it was. */
  ghost predicate FirstIn(c: Cache, req: Request, b: BlockId, d: BlockId) {
    && BaseInv(c) && c.bs == 1 && c.mgr.pool.freeList == []
    && OnGpu(c, b, 0) && OnGpu(c, d, 1)
    && IsChain(c.index, 1, req.ctx, req.tokens, [d]) && EntryFor(c.index, 1, req, 1, b) && !Stored(c.index, 1, req, 2)
  }

  /** It evicts the third. */
  lemma CrowdedFirst(c: Cache, h: Hasher, req: Request, b: BlockId, d: BlockId, cand: Candidate)
    requires Crowded(c, h, req, b, d) && IsRequestBlock(h, 1, req, 0, cand)
    ensures c.bs > 0
    ensures
      var r := Admit(c, cand, 10, Evicting(d, b));
      r.status == Admitted && r.handle == Some(d) && r.cache.bs == 1 && FirstIn(r.cache, req, b, d)
  {
    hide CacheInv;
    hide BaseInv;
    hide Admit;
    hide IsRequestBlock;
    hide Prefer;
    InvBase(c, h);
    EmptyChain(c.index, req);
    AdmitByEvicting(c, h, req, [], cand, 10, d, b, d);
    KeysDiffer(req);
  }

  lemma EmptyChain(m: Entries, req: Request)
    ensures IsChain(m, 1, req.ctx, req.tokens, [])
  {
  }

  lemma KeysDiffer(req: Request)
    ensures Fits(1, req.tokens, 3) ==>
      && BlockKey(1, req.ctx, req.tokens, 1) != BlockKey(1, req.ctx, req.tokens, 2)
      && BlockKey(1, req.ctx, req.tokens, 1) != BlockKey(1, req.ctx, req.tokens, 3)
  {
    if Fits(1, req.tokens, 3) {
      BlockKeyLength(1, req.ctx, req.tokens, 1, 2);
      BlockKeyLength(1, req.ctx, req.tokens, 1, 3);
    }
  }

  lemma CrowdedRest(c: Cache, h: Hasher, req: Request, b: BlockId, d: BlockId, second: Candidate, third: Candidate)
    requires FirstIn(c, req, b, d) && IsRequestBlock(h, 1, req, 1, second) && IsRequestBlock(h, 1, req, 2, third)
    ensures c.bs == 1 && Admit(c, second, 10, Evicting(d, b)) == AdmitResult(c, AlreadyPresent, None)
    ensures
      var r := Admit(c, third, 10, Evicting(d, b));
      && r.status == Admitted && r.handle == Some(b) && r.cache.bs == 1
      && b < |r.cache.mgr.recs| && r.cache.mgr.recs[b].blockIndex == 2
  {
    hide BaseInv;
    hide Admit;
    hide IsRequestBlock;
    hide Prefer;
    hide Fits;
    hide BlockKey;
    var id := NextPresent(c, h, req, [d], second, 10, Evicting(d, b));
    assert [d] + [id] == [d, id];
    assert c.index[BlockKey(1, req.ctx, req.tokens, 2)] == [d, id][2 - 1];
    AdmitByEvicting(c, h, req, [d, b], third, 10, d, b, b);
  }

  /** Without room it is not enough that no stored block is followed by one that is not.  Of the request's
      blocks the second and third are stored, in a full cache; admitting the first evicts the third, and
      admitting the third again evicts the second.  So again the second handle is on the third block. */
  lemma RoomIsNeeded(h: Hasher, ctx: ContextHash, t: Token, u: Token, v: Token)
      returns (ops: seq<CacheOp>, c: Cache, peerOps: seq<CacheOp>, peer: Cache, dir: Directory, pol: Policies)
    ensures IsCacheRun(InitCache(3, 1, 3, 3, 0, 0, false), h, ops)
    ensures c == CacheRunEnd(InitCache(3, 1, 3, 3, 0, 0, false), h, ops)
    ensures IsCacheRun(InitCache(3, 1, 3, 3, 0, 0, false), h, peerOps)
    ensures peer == CacheRunEnd(InitCache(3, 1, 3, 3, 0, 0, false), h, peerOps)
    ensures CacheInv(c, h) && CacheInv(peer, h) && c.bs == 1 && PicksFromOffer(pol.evict) && AdmitsEverything(pol)
    ensures
      var req := Request(ctx, [t, u, v]);
      var r := RunRequest(c, map[7 := peer], dir, h, req, pol, FirstRef, 0, AtTen);
      && StoredLast(c.index, 1, req, |r.local|, |r.fetched|)
      && r.statuses == [Admitted, AlreadyPresent, Admitted]
      && !OnOwnBlocks(r.cache, h, req, r.route.reusable)
  {
    hide IsCacheRun;
    hide CacheRunEnd;
    hide CacheInv;
    hide Crowded;
    hide Stored;
    hide StoredLast;
    hide Resolve;
    hide Plan;
    hide LookupPrefix;
    hide AdmitAll;
    hide OnOwnBlocks;
    hide PicksFromOffer;
    hide AdmitsEverything;
    hide RequestBlocksFrom;
    hide Prefer;
    var req := Request(ctx, [t, u, v]);
    var b, d;
    ops, c, b, d := CrowdedCache(h, req);
    peerOps, peer, dir := Peer(h, req);
    pol := Evicting(d, b);
    PreferPicks(d, b);
    AlwaysAdmits(pol);
    CrowdedSize(c, h, req, b, d);
    CrowdedLast(c, h, req, b, d);
    NothingFound(c, h, req, 0);
    var fetched := ResolveFor(c, map[7 := peer], dir, h, req, FirstRef, 0).fetched;
    FetchedBlocks(map[7 := peer], dir, h, 1, req, 0, FirstRef, 0);
    assert |fetched| == 3;
    CrowdedChain(c, h, req, b, d, fetched);
    var r := RunRequest(c, map[7 := peer], dir, h, req, pol, FirstRef, 0, AtTen);
    assert r.route.reusable == [] + [d, b] == [d, b];
    NotOwn(r.cache, h, req, d, b);
  }

  lemma CrowdedLast(c: Cache, h: Hasher, req: Request, b: BlockId, d: BlockId)
    requires Crowded(c, h, req, b, d)
    ensures !Stored(c.index, 1, req, 0) && StoredLast(c.index, 1, req, 0, 3)
  {
    hide Stored;
  }

  lemma NotOwn(c: Cache, h: Hasher, req: Request, d: BlockId, b: BlockId)
    requires c.bs == 1 && b < |c.mgr.recs| && c.mgr.recs[b].blockIndex == 2
    ensures !OnOwnBlocks(c, h, req, [d, b])
  {
    assert !IsBlockOf(c.mgr.recs, 1, h, req.ctx, req.tokens, [d, b][1], 1);
  }
}
