/** The smallest cache in which admission breaks the index: one slot, and a candidate whose unpinned parent
    has to make room for it.  A payload that does not come back.  A node that registers again and is not the one
    that the directory lists. */
module Counterexample {
  import opened Types
  import opened PrefixMap
  import opened BlockLifecycle
  import opened CacheModel
  import opened CacheTheory
  import opened AdmitTheory
  import opened CacheOps
  import opened CacheRuns
  import opened Coordinator
  import opened Distributed
  import opened PipelineTheory
  import opened StrandedTheory

  function AdmitAlways(ctx: AdmissionContext, f: CandidateFeatures): bool {
    true
  }

  function PlaceOnGpu(ctx: PlacementContext, f: CandidateFeatures): Tier {
    GpuSim
  }

  const LRU_POLICIES: Policies := Policies(AdmitAlways, PlaceOnGpu, LruVictim)

  function BlockZero(h: Hasher, ctx: ContextHash, t: Token): Candidate {
    Candidate(ctx, 0, [t], h(ctx, 0, 1, [t]), [], LocallyComputed)
  }

  function BlockOne(h: Hasher, ctx: ContextHash, t: Token, u: Token): Candidate {
    Candidate(ctx, 1, [t, u], h(ctx, 1, 1, [u]), [], LocallyComputed)
  }

  lemma NothingStored(c: Cache, cand: Candidate)
    requires c.bs == 1 && c.index == map[] && |cand.tokens| == 1 && cand.blockIndex == 0
    ensures Refusal(c, cand, 0, LRU_POLICIES) == None
  {
    hide Chain;
    assert cand.tokens[..1] == cand.tokens;
    ChainOnPrefix(c.index, 1, cand.ctx, cand.tokens, 0, []);
    ChainOnPrefix(c.index, 1, cand.ctx, cand.tokens, 1, []);
  }

  lemma NoSpaceNeeded(c: Cache, cand: Candidate)
    requires c == InitCache(1, 1, 1, 1, 0, 0, false)
    ensures Prepared(c, cand, 0, LRU_POLICIES).cache == c
  {
  }

  lemma ParentAdmitted(h: Hasher, ctx: ContextHash, t: Token) returns (r: AdmitResult)
    ensures r == Admit(InitCache(1, 1, 1, 1, 0, 0, false), BlockZero(h, ctx, t), 0, LRU_POLICIES)
    ensures Callable(InitCache(1, 1, 1, 1, 0, 0, false), h, AdmitOp(BlockZero(h, ctx, t), 0, LRU_POLICIES))
    ensures CacheInv(r.cache, h) && r.cache.bs == 1 && r.cache.index == map[Key(ctx, [t]) := 0]
    ensures |r.cache.mgr.recs| == 1 && r.cache.mgr.pool.freeList == []
    ensures r.cache.mgr.recs[0].refcount == 1 && r.cache.mgr.recs[0].state == Ready
    ensures r.cache.mgr.recs[0].tier == GpuSim
  {
    hide CacheInv;
    hide BaseInv;
    hide Admit;
    hide Prepared;
    hide LostBlocks;
    hide Later;
    var c0, cand := InitCache(1, 1, 1, 1, 0, 0, false), BlockZero(h, ctx, t);
    InitCacheInv(1, 1, 1, 1, 0, 0, false, h);
    InvBase(c0, h);
    LruPicksFromOffer();
    assert [t][0..] == [t];
    NothingStored(c0, cand);
    AdmitWithRoom(c0, h, cand, 0, LRU_POLICIES, 0);
    AdmitIsAdmits(c0, cand, 0, LRU_POLICIES);
    r := Admit(c0, cand, 0, LRU_POLICIES);
    AdmitLater(c0, cand, 0, LRU_POLICIES, r);
    AdmittedShape(c0, cand, 0, LRU_POLICIES);
    NoSpaceNeeded(c0, cand);
    LaterSize(c0, r.cache);
  }

  /** One token in the only slot of a fresh worker's cache, its handle gone. */
  lemma ParentStored(h: Hasher, ctx: ContextHash, t: Token) returns (ops: seq<CacheOp>, c: Cache, id: BlockId)
    ensures IsCacheRun(InitCache(1, 1, 1, 1, 0, 0, false), h, ops)
    ensures c == CacheRunEnd(InitCache(1, 1, 1, 1, 0, 0, false), h, ops)
    ensures CacheInv(c, h) && c.bs == 1 && c.index == map[Key(ctx, [t]) := id]
    ensures |c.mgr.recs| == 1 && c.mgr.pool.freeList == []
    ensures id == 0 && Evictable(c.mgr.recs[id]) && c.mgr.recs[id].tier == GpuSim
  {
    hide CacheInv;
    hide Admit;
    hide IsCacheRun;
    hide CacheRunEnd;
    var r := ParentAdmitted(h, ctx, t);
    id := 0;
    c := ReleaseHandle(r.cache, id);
    ReleaseOk(r.cache, h, id);
    var first := AdmitOp(BlockZero(h, ctx, t), 0, LRU_POLICIES);
    ops := [first, ReleaseOp(id)];
    TwoSteps(InitCache(1, 1, 1, 1, 0, 0, false), h, first, ReleaseOp(id));
  }

  lemma TwoSteps(c: Cache, h: Hasher, first: CacheOp, second: CacheOp)
    requires Callable(c, h, first) && Callable(After(c, h, first), h, second)
    ensures IsCacheRun(c, h, [first, second])
    ensures CacheRunEnd(c, h, [first, second]) == After(After(c, h, first), h, second)
  {
    hide Callable;
    hide After;
    OneStepRun(c, h, first);
    OneStepRun(After(c, h, first), h, second);
    RunConcat(c, h, [first], [second]);
    assert [first] + [second] == [first, second];
  }

  /** A lookup of the two tokens hands out two handles on one block, which is the second one. */
  ghost predicate LedAstray(c: Cache, h: Hasher, ctx: ContextHash, t: Token, u: Token) {
    && c.bs == 1
    && var p := LookupPrefix(c, ctx, [t, u], 1);
       && |p.handles| == 2 && p.handles[0] == p.handles[1]
       && p.handles[0] < |p.cache.mgr.recs| && p.cache.mgr.recs[p.handles[0]].blockIndex == 1
       && !IsBlockOf(p.cache.mgr.recs, 1, h, ctx, [t, u], p.handles[0], 0)
  }

  /** With one slot, an unpinned parent and an honest child, admission succeeds, reuses the parent's slot, and
      leaves its id under two keys.  A lookup of both tokens then hands out two handles on the one block that
      is left, the first of them in the parent's place. */
  lemma AncestorCanBeLost(h: Hasher, ctx: ContextHash, t: Token, u: Token)
      returns (ops: seq<CacheOp>, c: Cache, cand: Candidate)
    ensures IsCacheRun(InitCache(1, 1, 1, 1, 0, 0, false), h, ops)
    ensures c == CacheRunEnd(InitCache(1, 1, 1, 1, 0, 0, false), h, ops)
    ensures CacheInv(c, h) && PicksFromOffer(LRU_POLICIES.evict) && Honest(c, cand, h)
    ensures
      var r := Admit(c, cand, 0, LRU_POLICIES);
      r.status == Admitted && !Injective(r.cache.index) && !CacheInv(r.cache, h) && LedAstray(r.cache, h, ctx, t, u)
  {
    hide CacheInv;
    hide BaseInv;
    hide Admit;
    hide Prepared;
    hide LostBlocks;
    hide MakeSpaceFrom;
    hide Injective;
    hide Victims;
    hide OldestFirst;
    hide IsCacheRun;
    hide CacheRunEnd;
    hide LedAstray;
    hide InsertChain;
    var id;
    ops, c, id := ParentStored(h, ctx, t);
    cand := BlockOne(h, ctx, t, u);
    InvBase(c, h);
    LruPicksFromOffer();
    ParentIsAncestor(c, cand, id, ctx, t, u);
    assert [t, u][1..] == [u];
    ParentIsVictim(c, id);
    AdmitIsAtomic(c, cand, 0, LRU_POLICIES);
    PreparedIsSpace(c, cand);
    assert id in AdmitVictims(c, cand, 0, LRU_POLICIES);
    LostAncestorIndex(c, cand, 0, LRU_POLICIES);
    AdmitKeepsInvIff(c, h, cand, 0, LRU_POLICIES);
    AdmittedShape(c, cand, 0, LRU_POLICIES);
    var mid := Prepared(c, cand, 0, LRU_POLICIES).cache;
    SlotComesBack(c, GpuSim, mid, id);
    BothKeys(mid.index, ctx, t, u, id);
    WrongBlock(Admit(c, cand, 0, LRU_POLICIES).cache, h, ctx, t, u, id);
  }

  lemma SlotComesBack(c: Cache, tier: Tier, mid: Cache, id: BlockId)
    requires LostBlocks(c, tier, [id], mid) && c.mgr.pool.freeList == []
    ensures mid.mgr.pool.freeList == [id] && mid.bs == c.bs
    ensures forall k | k in mid.index :: k in c.index && c.index[k] != id
  {
  }

  /** Where neither key is stored, the chain of the one id goes under both. */
  lemma BothKeys(m: Entries, ctx: ContextHash, t: Token, u: Token, id: BlockId)
    requires m == map[]
    ensures IsChain(InsertChain(m, 1, ctx, [t, u], [id] + [id]), 1, ctx, [t, u], [id, id])
  {
    assert [id] + [id] == [id, id];
    InsertUpToIs(m, 1, ctx, [t, u], [id, id], 2);
  }

  lemma WrongBlock(c: Cache, h: Hasher, ctx: ContextHash, t: Token, u: Token, id: BlockId)
    requires c.bs == 1 && IsChain(c.index, 1, ctx, [t, u], [id, id]) && CanPin(c.mgr.recs, id, 1)
    requires c.mgr.recs[id].blockIndex == 1
    ensures LedAstray(c, h, ctx, t, u)
  {
    hide Chain;
    assert [t, u][..2] == [t, u];
    ChainOnPrefix(c.index, 1, ctx, [t, u], 2, [id, id]);
    var c1 := c.(mgr := c.mgr.(recs := Acquired(c.mgr.recs, id, 1)));
    var c2 := c1.(mgr := c1.mgr.(recs := Acquired(c1.mgr.recs, id, 1)));
    assert PinAll(c2, [], 1, 1) == LookupResult(c2, []);
    assert [id, id][1..] == [id] && [id][1..] == [];
    assert PinAll(c1, [id], 1, 1) == LookupResult(c2, [id]);
    assert PinAll(c, [id, id], 1, 1) == LookupResult(c2, [id] + [id]);
  }

  lemma PreparedIsSpace(c: Cache, cand: Candidate)
    requires c.mgr.pool.freeList == []
    ensures Prepared(c, cand, 0, LRU_POLICIES) == MakeSpaceFrom(c, 0, 1, GpuSim, 0, LruVictim)
    ensures AdmitVictims(c, cand, 0, LRU_POLICIES) == Victims(c, 1, GpuSim, 0, LruVictim)
  {
  }

  lemma ParentIsAncestor(c: Cache, cand: Candidate, id: BlockId, ctx: ContextHash, t: Token, u: Token)
    requires c.bs == 1 && c.index == map[Key(ctx, [t]) := id]
    requires cand.ctx == ctx && cand.blockIndex == 1 && cand.tokens == [t, u]
    ensures Refusal(c, cand, 0, LRU_POLICIES) == None && Ancestors(c, cand) == [id]
  {
    hide Chain;
    var tokens := [t, u];
    assert tokens[..1] == [t] && tokens[..2] == tokens;
    assert BlockKey(1, ctx, tokens, 1) == Key(ctx, [t]) && BlockKey(1, ctx, tokens, 2) == Key(ctx, tokens);
    assert IsChain(c.index, 1, ctx, tokens, [id]);
    ChainOnPrefix(c.index, 1, ctx, tokens, 1, [id]);
    ChainOnPrefix(c.index, 1, ctx, tokens, 2, [id]);
  }

  lemma ParentIsVictim(c: Cache, id: BlockId)
    requires BaseInv(c) && |c.mgr.recs| == 1 && id == 0 && Evictable(c.mgr.recs[id]) && c.mgr.recs[id].tier == GpuSim
    ensures Victims(c, 1, GpuSim, 0, LruVictim) == [id]
    ensures MakeSpaceFrom(c, 0, 1, GpuSim, 0, LruVictim).status == SpaceMade
  {
    hide BaseInv;
    hide Victims;
    hide MakeSpaceFrom;
    hide Older;
    assert EligibleSlots(c.mgr.recs, GpuSim) == {id};
    LruMakeSpace(c, 0, 1, GpuSim, 0);
  }

  // ---------- a payload that does not come back ----------

  /** One slot, one byte a block: the block is admitted with its byte and served at once.  With the block
      manager's records shared by the tier manager the byte comes back; a worker as its constructor builds it
      serves the block without it. */
  lemma NoBytesServed(h: Hasher, ctx: ContextHash, t: Token, b: Byte, shared: bool) returns (r: AdmitResult)
    ensures
      var cand := BlockZero(h, ctx, t).(payload := [b]);
      r == Admit(InitCache(1, 1, 1, 1, 1, 1, shared), cand, 0, LRU_POLICIES)
    ensures r.status == Admitted && r.handle.Some? && r.handle.value < |r.cache.mgr.recs|
    ensures
      var s := Serve(r.cache, r.handle.value, r.cache.mgr.recs[r.handle.value].generation, 1);
      s.status == ServeOk && s.hash == h(ctx, 0, 1, [t]) && s.payload == if shared then [b] else []
  {
    hide CacheInv;
    hide BaseInv;
    hide Admit;
    hide Later;
    hide Admits;
    hide SlotBytes;
    var c := InitCache(1, 1, 1, 1, 1, 1, shared);
    var cand := BlockZero(h, ctx, t).(payload := [b]);
    InitCacheInv(1, 1, 1, 1, 1, 1, shared, h);
    InvBase(c, h);
    LruPicksFromOffer();
    assert [t][0..] == [t];
    NothingStored(c, cand);
    AdmitWithRoom(c, h, cand, 0, LRU_POLICIES, 0);
    r := Admit(c, cand, 0, LRU_POLICIES);
    AdmitIsAdmits(c, cand, 0, LRU_POLICIES);
    AdmitLater(c, cand, 0, LRU_POLICIES, r);
    InvBase(r.cache, h);
    PinnedIsServed([r.cache], [], r.handle.value, 1);
    ServedAsAdmitted(c, cand, 0, LRU_POLICIES, r, [r.cache], [], 1);
    assert [b][..1] == [b];
  }

  // ---------- a node that registers again ----------

  function BlockWith(hash: ContentHash): Candidate {
    Candidate(0, 0, [0], hash, [], LocallyComputed)
  }

  lemma FirstAdmission(hash: ContentHash) returns (r: AdmitResult)
    ensures r == Admit(InitCache(1, 1, 1, 1, 0, 0, false), BlockWith(hash), 0, LRU_POLICIES)
    ensures Admits(InitCache(1, 1, 1, 1, 0, 0, false), BlockWith(hash), 0, LRU_POLICIES, r)
    ensures r.status == Admitted && r.handle == Some(0) && |r.cache.mgr.recs| == 1
    ensures r.cache.mgr.recs[0].generation == 1 && r.cache.mgr.recs[0].hash == hash
    ensures FetchLocalStatus(r.cache.mgr.recs, 0, 1) == Hit
  {
    hide CacheInv;
    hide BaseInv;
    hide Admit;
    hide Prepared;
    hide Admits;
    var c := InitCache(1, 1, 1, 1, 0, 0, false);
    var h: Hasher := (_, _, _, _) => hash;
    InitCacheInv(1, 1, 1, 1, 0, 0, false, h);
    InvBase(c, h);
    LruPicksFromOffer();
    NothingStored(c, BlockWith(hash));
    AdmitWithRoom(c, h, BlockWith(hash), 0, LRU_POLICIES, 0);
    r := Admit(c, BlockWith(hash), 0, LRU_POLICIES);
    AdmitIsAdmits(c, BlockWith(hash), 0, LRU_POLICIES);
    AdmittedShape(c, BlockWith(hash), 0, LRU_POLICIES);
    NoSpaceNeeded(c, BlockWith(hash));
  }

  /** A node admits a block, announces it, registers again with a fresh cache without being cleaned out of the
      directory, and admits another block: the ref in the directory then leads to the wrong one, and the fetch
      ends in a hash mismatch. */
  lemma MismatchAfterReturn() returns (s: System, events: seq<Event>, ref: Ref)
    ensures SystemInit(s) && IsSystemRun(s, events) && !CleanRun(s, events)
    ensures
      var end, hash := SystemEnd(s, events), ContentHash(1, 0);
      ref in Query(end.dir, hash) && Fetch(end.workers, ref, hash, 0).status == FetchHashMismatch
  {
    hide CacheInv;
    hide BaseInv;
    hide Admits;
    hide Admit;
    var c := InitCache(1, 1, 1, 1, 0, 0, false);
    InitCacheInv(1, 1, 1, 1, 0, 0, false, (_, _, _, _) => ContentHash(0, 0));
    InvBase(c, (_, _, _, _) => ContentHash(0, 0));
    var r1 := FirstAdmission(ContentHash(1, 0));
    var r2 := FirstAdmission(ContentHash(2, 0));
    s := System(map[0 := c], map[], {});
    ref := Ref(0, 0, 1);
    var issue := Issue(ContentHash(1, 0), ref, []);
    var e1 := EvAdmit(0, BlockWith(ContentHash(1, 0)), 0, LRU_POLICIES, r1);
    var e4 := EvAdmit(0, BlockWith(ContentHash(2, 0)), 0, LRU_POLICIES, r2);
    events := [e1, EvAnnounce(issue), EvRegister(0, c), e4];
    var s1 := Next(s, e1);
    assert issue in s1.issued;
    var s2 := Next(s1, EvAnnounce(issue));
    assert Listed(s2.dir, ContentHash(1, 0), ref);
    var s3 := Next(s2, EvRegister(0, c));
    var s4 := Next(s3, e4);
    FourSteps(s, e1, EvAnnounce(issue), EvRegister(0, c), e4);
  }

  lemma FourSteps(s: System, e1: Event, e2: Event, e3: Event, e4: Event)
    requires Enabled(s, e1) && Enabled(Next(s, e1), e2) && Enabled(Next(Next(s, e1), e2), e3)
    requires Enabled(Next(Next(Next(s, e1), e2), e3), e4)
    ensures IsSystemRun(s, [e1, e2, e3, e4])
    ensures SystemEnd(s, [e1, e2, e3, e4]) == Next(Next(Next(Next(s, e1), e2), e3), e4)
    ensures CleanRun(s, [e1, e2, e3, e4]) ==> Cleanly(Next(Next(s, e1), e2), e3)
  {
    hide Enabled;
    hide Next;
    hide Cleanly;
    var s1, s2, s3 := Next(s, e1), Next(Next(s, e1), e2), Next(Next(Next(s, e1), e2), e3);
    assert [e1, e2, e3, e4][1..] == [e2, e3, e4] && [e2, e3, e4][1..] == [e3, e4];
    assert [e3, e4][1..] == [e4] && [e4][1..] == [];
    assert IsSystemRun(Next(s3, e4), []);
    assert IsSystemRun(s3, [e4]);
    assert IsSystemRun(s2, [e3, e4]);
    assert IsSystemRun(s1, [e2, e3, e4]);
    assert SystemEnd(s3, [e4]) == Next(s3, e4);
    assert SystemEnd(s2, [e3, e4]) == Next(s3, e4);
    assert SystemEnd(s1, [e2, e3, e4]) == Next(s3, e4);
    assert CleanRun(s2, [e3, e4]) ==> Cleanly(s2, e3);
    assert CleanRun(s1, [e2, e3, e4]) ==> CleanRun(s2, [e3, e4]);
  }
}
