/** Whole runs of one worker's cache: any sequence of admissions, lookups, serves, handle ends, tier moves
    and evictions, and exactly when all of its states satisfy the whole-cache invariant. */
module CacheRuns {
  import opened Types
  import opened PrefixMap
  import opened BlockLifecycle
  import opened CacheModel
  import opened CacheTheory
  import opened AdmitTheory
  import opened CacheOps

  datatype CacheOp =
    | AdmitOp(cand: Candidate, now: nat, pol: Policies)
    | LookupOp(ctx: ContextHash, tokens: seq<Token>, now: nat)
    | ServeOp(id: BlockId, generation: nat, now: nat)
    | ReleaseOp(id: BlockId)
    | MoveOp(id: BlockId, target: Tier)
    | MakeSpaceOp(needed: nat, tier: Tier, now: nat, policy: EvictionPolicy)

  /** What callers owe: candidates with their honest hash, policies that pick from their offer, and a handle
      ends only if there is one.  Tier moves are those of parts that share their records. */
  ghost predicate Callable(c: Cache, h: Hasher, op: CacheOp) {
    match op
    case AdmitOp(cand, _, pol) => c.bs > 0 && PicksFromOffer(pol.evict) && Honest(c, cand, h)
    case LookupOp(_, _, _) => c.bs > 0
    case ReleaseOp(id) => id < |c.mgr.recs| && c.mgr.recs[id].refcount > 0
    case MoveOp(_, _) => c.shared
    case MakeSpaceOp(_, _, _, policy) => PicksFromOffer(policy)
    case _ => true
  }

  ghost function After(c: Cache, h: Hasher, op: CacheOp): Cache
    requires Callable(c, h, op)
  {
    match op
    case AdmitOp(cand, now, pol) => Admit(c, cand, now, pol).cache
    case LookupOp(ctx, tokens, now) => LookupPrefix(c, ctx, tokens, now).cache
    case ServeOp(id, generation, now) => Serve(c, id, generation, now).cache
    case ReleaseOp(id) => ReleaseHandle(c, id)
    case MoveOp(id, target) => MoveBlock(c, id, target)
    case MakeSpaceOp(needed, tier, now, policy) => MakeSpace(c, needed, tier, now, policy).cache
  }

  /** If this is an admission that succeeds, no ancestor of the candidate makes room for it. */
  ghost predicate Careful(c: Cache, h: Hasher, op: CacheOp)
    requires Callable(c, h, op)
  {
    match op
    case AdmitOp(cand, now, pol) =>
      Admit(c, cand, now, pol).status == Admitted && |cand.tokens| == (cand.blockIndex + 1) * c.bs ==>
        AncestorsSurvive(c, cand, now, pol)
    case _ => true
  }

  lemma AdmitStepIff(c: Cache, h: Hasher, cand: Candidate, now: nat, pol: Policies)
    requires CacheInv(c, h) && Callable(c, h, AdmitOp(cand, now, pol))
    ensures CacheInv(After(c, h, AdmitOp(cand, now, pol)), h) <==> Careful(c, h, AdmitOp(cand, now, pol))
  {
    hide CacheInv;
    hide Admit;
    hide AncestorsSurvive;
    hide Honest;
    hide PicksFromOffer;
    hide Refusal;
    hide Prepared;
    InvBase(c, h);
    AdmitIsAtomic(c, cand, now, pol);
    if Admit(c, cand, now, pol).status == Admitted {
      AdmitKeepsInvIff(c, h, cand, now, pol);
    }
  }

  /** One operation keeps the invariant exactly when it is careful; only an admission can fail to be. */
  lemma StepKeepsInvIff(c: Cache, h: Hasher, op: CacheOp)
    requires CacheInv(c, h) && Callable(c, h, op)
    ensures CacheInv(After(c, h, op), h) <==> Careful(c, h, op)
  {
    hide CacheInv;
    hide Admit;
    hide AncestorsSurvive;
    hide Honest;
    hide PicksFromOffer;
    hide LookupPrefix;
    hide Serve;
    hide MoveBlock;
    hide MakeSpaceFrom;
    hide PinnedOnce;
    hide IsLongestChain;
    hide IsBlockOf;
    InvBase(c, h);
    match op
    case AdmitOp(cand, now, pol) => AdmitStepIff(c, h, cand, now, pol);
    case LookupOp(ctx, tokens, now) => LookupOk(c, h, ctx, tokens, now);
    case ServeOp(id, generation, now) => ServeKeeps(c, h, id, generation, now);
    case ReleaseOp(id) => ReleaseOk(c, h, id);
    case MoveOp(id, target) => MoveKeepsInv(c, h, id, target);
    case MakeSpaceOp(needed, tier, now, policy) => MakeSpaceOk(c, h, 0, needed, tier, now, policy);
  }

  ghost predicate IsCacheRun(c: Cache, h: Hasher, ops: seq<CacheOp>)
    decreases |ops|
  {
    ops == [] || (Callable(c, h, ops[0]) && IsCacheRun(After(c, h, ops[0]), h, ops[1..]))
  }

  ghost function CacheRunEnd(c: Cache, h: Hasher, ops: seq<CacheOp>): Cache
    requires IsCacheRun(c, h, ops)
    decreases |ops|
  {
    if ops == [] then c else CacheRunEnd(After(c, h, ops[0]), h, ops[1..])
  }

  lemma {:induction false} RunConcat(c: Cache, h: Hasher, ops: seq<CacheOp>, more: seq<CacheOp>)
    requires IsCacheRun(c, h, ops) && IsCacheRun(CacheRunEnd(c, h, ops), h, more)
    ensures IsCacheRun(c, h, ops + more)
    ensures CacheRunEnd(c, h, ops + more) == CacheRunEnd(CacheRunEnd(c, h, ops), h, more)
    decreases |ops|
  {
    hide Callable;
    hide After;
    if ops == [] {
      assert ops + more == more;
    } else {
      assert (ops + more)[0] == ops[0] && (ops + more)[1..] == ops[1..] + more;
      RunConcat(After(c, h, ops[0]), h, ops[1..], more);
    }
  }

  lemma OneStepRun(c: Cache, h: Hasher, op: CacheOp)
    requires Callable(c, h, op)
    ensures IsCacheRun(c, h, [op]) && CacheRunEnd(c, h, [op]) == After(c, h, op)
  {
    hide Callable;
    hide After;
    var rest := [op][1..];
    assert rest == [] && IsCacheRun(After(c, h, op), h, rest);
  }

  /** Every state of the run satisfies the whole-cache invariant. */
  ghost predicate InvThroughout(c: Cache, h: Hasher, ops: seq<CacheOp>)
    requires IsCacheRun(c, h, ops)
    decreases |ops|
  {
    CacheInv(c, h) && (ops != [] ==> InvThroughout(After(c, h, ops[0]), h, ops[1..]))
  }

  ghost predicate CarefulThroughout(c: Cache, h: Hasher, ops: seq<CacheOp>)
    requires IsCacheRun(c, h, ops)
    decreases |ops|
  {
    ops != [] ==> Careful(c, h, ops[0]) && CarefulThroughout(After(c, h, ops[0]), h, ops[1..])
  }

  /** A run keeps the whole-cache invariant in all its states if and only if no successful admission of it
      evicts an ancestor of its own candidate. */
  lemma {:induction false} RunKeepsInvIff(c: Cache, h: Hasher, ops: seq<CacheOp>)
    requires CacheInv(c, h) && IsCacheRun(c, h, ops)
    ensures InvThroughout(c, h, ops) <==> CarefulThroughout(c, h, ops)
    decreases |ops|
  {
    hide CacheInv;
    hide Callable;
    hide After;
    hide Careful;
    if ops != [] {
      StepKeepsInvIff(c, h, ops[0]);
      if Careful(c, h, ops[0]) {
        RunKeepsInvIff(After(c, h, ops[0]), h, ops[1..]);
      } else {
        NotThroughout(After(c, h, ops[0]), h, ops[1..]);
      }
    }
  }

  lemma NotThroughout(c: Cache, h: Hasher, ops: seq<CacheOp>)
    requires IsCacheRun(c, h, ops) && !CacheInv(c, h)
    ensures !InvThroughout(c, h, ops)
  {
  }

  lemma {:induction false} InvAtEnd(c: Cache, h: Hasher, ops: seq<CacheOp>)
    requires IsCacheRun(c, h, ops) && InvThroughout(c, h, ops)
    ensures CacheInv(CacheRunEnd(c, h, ops), h)
    decreases |ops|
  {
    hide CacheInv;
    hide Callable;
    hide After;
    if ops != [] {
      InvAtEnd(After(c, h, ops[0]), h, ops[1..]);
    }
  }

  /** A worker that starts fresh and is careful ends in a state in which the index holds exactly the Ready
      blocks, which are those in use; with the free slots that is the capacity. */
  lemma CarefulRunEnds(capacity: nat, bs: nat, gpu: nat, host: nat, maxBlocks: nat, bytesPerBlock: nat, shared: bool,
                       h: Hasher, ops: seq<CacheOp>)
    requires bs > 0 && (bytesPerBlock > 0 ==> capacity <= maxBlocks)
    requires IsCacheRun(InitCache(capacity, bs, gpu, host, maxBlocks, bytesPerBlock, shared), h, ops)
    requires CarefulThroughout(InitCache(capacity, bs, gpu, host, maxBlocks, bytesPerBlock, shared), h, ops)
    ensures
      var c := CacheRunEnd(InitCache(capacity, bs, gpu, host, maxBlocks, bytesPerBlock, shared), h, ops);
      && CacheInv(c, h)
      && |c.index| == |SlotsWhere(c.mgr.recs, IsReady)| == |SlotsWhere(c.mgr.recs, IsUsed)|
      && |c.index| + |c.mgr.pool.freeList| == capacity
  {
    hide CacheInv;
    hide IsCacheRun;
    hide CacheRunEnd;
    hide Later;
    hide SlotsWhere;
    var c0 := InitCache(capacity, bs, gpu, host, maxBlocks, bytesPerBlock, shared);
    InitCacheInv(capacity, bs, gpu, host, maxBlocks, bytesPerBlock, shared, h);
    RunKeepsInvIff(c0, h, ops);
    InvAtEnd(c0, h, ops);
    var c := CacheRunEnd(c0, h, ops);
    SnapshotAgrees(c, h);
    RunKeepsSlots(c0, h, ops);
  }

  lemma {:induction false} RunKeepsSlots(c: Cache, h: Hasher, ops: seq<CacheOp>)
    requires CacheInv(c, h) && IsCacheRun(c, h, ops) && CarefulThroughout(c, h, ops)
    ensures |CacheRunEnd(c, h, ops).mgr.recs| == |c.mgr.recs|
    decreases |ops|
  {
    hide CacheInv;
    hide Callable;
    hide After;
    hide Careful;
    hide Later;
    if ops != [] {
      InvBase(c, h);
      AfterFollows(c, h, ops[0]);
      FollowsKeeps(c, ops[0], After(c, h, ops[0]));
      LaterSize(c, After(c, h, ops[0]));
      StepKeepsInvIff(c, h, ops[0]);
      RunKeepsSlots(After(c, h, ops[0]), h, ops[1..]);
    }
  }

  // ---------- runs that go on after a careless admission ----------

  /** c' may follow c by this operation.  Which eligible blocks an eviction takes and what it leaves of the index
      is open, so this covers the source also when an id is stored twice: then an eviction deletes only one of
      its keys, and what policies see of the index is off. */
  ghost predicate Follows(c: Cache, op: CacheOp, c': Cache) {
    match op
    case AdmitOp(cand, now, pol) => exists r :: Admits(c, cand, now, pol, r) && c' == r.cache
    case LookupOp(ctx, tokens, now) => c.bs > 0 && c' == LookupPrefix(c, ctx, tokens, now).cache
    case ServeOp(id, generation, now) => c' == Serve(c, id, generation, now).cache
    case ReleaseOp(id) => id < |c.mgr.recs| && c.mgr.recs[id].refcount > 0 && c' == ReleaseHandle(c, id)
    case MoveOp(id, target) => c.shared && c' == MoveBlock(c, id, target)
    case MakeSpaceOp(needed, tier, _, _) => exists vs :: |vs| <= needed && Evicts(c, tier, vs, c')
  }

  /** What the operations compute is one of the states that may follow. */
  lemma AfterFollows(c: Cache, h: Hasher, op: CacheOp)
    requires BaseInv(c) && Callable(c, h, op)
    ensures Follows(c, op, After(c, h, op))
  {
    hide BaseInv;
    hide Admit;
    hide Admits;
    hide Honest;
    hide PicksFromOffer;
    hide LookupPrefix;
    hide Serve;
    hide MoveBlock;
    hide MakeSpaceFrom;
    hide LostBlocks;
    hide Evicts;
    match op
    case AdmitOp(cand, now, pol) => AdmitIsAdmits(c, cand, now, pol);
    case MakeSpaceOp(needed, tier, now, policy) =>
      MakeSpaceEvicts(c, needed, tier, now, policy);
      MakeSpaceBase(c, 0, needed, tier, now, policy);
      VictimsBounded(c, needed, tier, now, policy);
    case _ =>
  }

  lemma {:induction false} VictimsBounded(c: Cache, needed: nat, tier: Tier, now: nat, policy: EvictionPolicy)
    ensures |Victims(c, needed, tier, now, policy)| <= needed
    decreases needed
  {
    hide Victim;
    hide Evicted;
    if needed > 0 {
      var v := Victim(c, tier, now, policy);
      if v.Some? && v.value < |c.mgr.recs| {
        VictimsBounded(Evicted(c, v.value), needed - 1, tier, now, policy);
      }
    }
  }

  lemma FollowsKeeps(c: Cache, op: CacheOp, c': Cache)
    requires BaseInv(c) && Follows(c, op, c')
    ensures BaseInv(c') && Later(c, c')
  {
    hide BaseInv;
    hide Later;
    hide Admits;
    hide LookupPrefix;
    hide Serve;
    hide MoveBlock;
    hide LostBlocks;
    hide Evicts;
    hide AdmittedAs;
    match op
    case AdmitOp(cand, now, pol) =>
      var r :| Admits(c, cand, now, pol, r) && c' == r.cache;
      AdmitKeepsBase(c, cand, now, pol, r);
      AdmitLater(c, cand, now, pol, r);
    case LookupOp(ctx, tokens, now) => LookupLater(c, ctx, tokens, now);
    case ServeOp(id, generation, now) => ServeLater(c, id, generation, now);
    case ReleaseOp(id) => ReleaseLater(c, id);
    case MoveOp(id, target) => MoveKeepsBase(c, id, target);
    case MakeSpaceOp(needed, tier, _, _) =>
      var vs :| |vs| <= needed && Evicts(c, tier, vs, c');
      EvictsBase(c, tier, vs, c');
      LaterEvicts(c, tier, vs, c');
  }

  /** A run as the states it goes through. */
  ghost predicate IsTrace(cs: seq<Cache>, ops: seq<CacheOp>) {
    && |cs| == |ops| + 1
    && forall i | 0 <= i < |ops| :: Follows(cs[i], ops[i], cs[i + 1])
  }

  /** Through every run, careful or not, pool, records, tiers and payloads agree, and an old generation keeps
      its identity and its bytes or has been replaced by a newer one. */
  lemma {:induction false} RunIsLater(cs: seq<Cache>, ops: seq<CacheOp>)
    requires IsTrace(cs, ops) && BaseInv(cs[0])
    ensures BaseInv(cs[|ops|]) && Later(cs[0], cs[|ops|])
    decreases |ops|
  {
    hide BaseInv;
    hide Later;
    hide Follows;
    LaterRefl(cs[0]);
    if ops != [] {
      var n := |ops| - 1;
      assert IsTrace(cs[..n + 1], ops[..n]) by {
        forall i | 0 <= i < n ensures Follows(cs[..n + 1][i], ops[..n][i], cs[..n + 1][i + 1]) {
          assert Follows(cs[i], ops[i], cs[i + 1]);
        }
      }
      RunIsLater(cs[..n + 1], ops[..n]);
      assert Follows(cs[n], ops[n], cs[n + 1]);
      FollowsKeeps(cs[n], ops[n], cs[n + 1]);
      LaterTrans(cs[0], cs[n], cs[n + 1]);
    }
  }

  /** Round trip through any run: a block admitted now and served at the end under its id and generation comes
      back with its hash, whatever was admitted, moved, evicted or reused in between; or the serve fails.  The
      payload comes back with it if and only if the tier manager shares the worker's records or there is
      nothing to copy: otherwise no bytes are served. */
  lemma ServedAsAdmitted(c: Cache, cand: Candidate, now: nat, pol: Policies, r: AdmitResult, cs: seq<Cache>,
                         ops: seq<CacheOp>, later: nat)
    requires BaseInv(c) && Admits(c, cand, now, pol, r) && r.status == Admitted
    requires IsTrace(cs, ops) && cs[0] == r.cache
    ensures r.handle.Some? && r.handle.value < |r.cache.mgr.recs|
    ensures
      var s := Serve(cs[|ops|], r.handle.value, r.cache.mgr.recs[r.handle.value].generation, later);
      s.status == ServeOk ==>
        && s.hash == cand.hash
        && ServedAs(c, cand.payload, s.payload)
  {
    hide BaseInv;
    hide Admits;
    hide IsTrace;
    hide SlotBytes;
    AdmitKeepsBase(c, cand, now, pol, r);
    AdmitLater(c, cand, now, pol, r);
    TraceSize(cs, ops);
    RunIsLater(cs, ops);
    assert SlotLater(r.cache, cs[|ops|], r.handle.value);
  }

  lemma TraceSize(cs: seq<Cache>, ops: seq<CacheOp>)
    requires IsTrace(cs, ops)
    ensures |cs| == |ops| + 1
  {
  }

  // ---------- blocks that stay pinned ----------

  ghost predicate IsPinned(c: Cache, id: BlockId) {
    id < |c.mgr.recs| && c.mgr.recs[id].refcount > 0
  }

  /** The slot still is that block, available, with those bytes. */
  ghost predicate SameBlock(c: Cache, c': Cache, id: BlockId) {
    && id < |c.mgr.recs| && id < |c'.mgr.recs| && c'.shared == c.shared
    && var r, r' := c.mgr.recs[id], c'.mgr.recs[id];
       && r'.id == r.id && r'.generation == r.generation && r'.hash == r.hash && r'.blockIndex == r.blockIndex
       && r'.state == Ready && SlotBytes(c', id) == SlotBytes(c, id)
  }

  lemma SameBlockTrans(c1: Cache, c2: Cache, c3: Cache, id: BlockId)
    requires SameBlock(c1, c2, id) && SameBlock(c2, c3, id)
    ensures SameBlock(c1, c3, id)
  {
  }

  lemma FollowsPinned(c: Cache, op: CacheOp, c': Cache, id: BlockId)
    requires BaseInv(c) && Follows(c, op, c') && IsPinned(c, id)
    ensures SameBlock(c, c', id)
  {
    hide BaseInv;
    hide Admits;
    hide LostBlocks;
    hide Evicts;
    hide SlotBytes;
    hide Refusal;
    PinnedIsReady(c, id);
    FollowsKeeps(c, op, c');
    assert SlotLater(c, c', id);
    match op
    case AdmitOp(cand, now, pol) =>
      var r :| Admits(c, cand, now, pol, r) && c' == r.cache;
      PinnedNotTouched(c, cand, now, pol, r, id);
    case LookupOp(ctx, tokens, now) => PinAllCounts(c, Chain(c.index, c.bs, ctx, tokens), c.bs, now);
    case ServeOp(served, generation, now) =>
    case ReleaseOp(released) =>
    case MoveOp(moved, target) =>
    case MakeSpaceOp(needed, tier, _, _) =>
      var vs :| |vs| <= needed && Evicts(c, tier, vs, c');
      PinnedNotEvicted(c, tier, vs, c', id);
  }

  lemma {:induction false} PinAllCounts(c: Cache, ids: seq<BlockId>, bs: nat, now: nat)
    ensures
      var c' := PinAll(c, ids, bs, now).cache;
      && |c'.mgr.recs| == |c.mgr.recs|
      && forall s: nat | s < |c.mgr.recs| ::
           var r, r' := c.mgr.recs[s], c'.mgr.recs[s];
           r'.id == r.id && r'.generation == r.generation && r'.hash == r.hash && r'.blockIndex == r.blockIndex
           && r'.state == r.state
    decreases |ids|
  {
    if ids != [] && CanAcquire(c.mgr.recs, ids[0]) {
      PinAllCounts(c.(mgr := c.mgr.(recs := Acquired(c.mgr.recs, ids[0], now))), ids[1..], bs, now);
    }
  }

  /** Along every run, careful or not, a slot that is pinned throughout keeps its block, and serving it under
      that generation succeeds in the end, with the hash and the bytes that it had in the beginning. */
  lemma {:induction false} PinnedIsServed(cs: seq<Cache>, ops: seq<CacheOp>, id: BlockId, now: nat)
    requires IsTrace(cs, ops) && BaseInv(cs[0])
    requires forall i | 0 <= i < |cs| :: IsPinned(cs[i], id)
    ensures SameBlock(cs[0], cs[|ops|], id)
    ensures
      var first := cs[0].mgr.recs[id];
      var s := Serve(cs[|ops|], id, first.generation, now);
      && s.status == ServeOk && s.hash == first.hash
      && s.payload == if cs[0].shared then SlotBytes(cs[0], id) else []
    decreases |ops|
  {
    hide BaseInv;
    hide Follows;
    hide SlotBytes;
    assert IsPinned(cs[0], id);
    PinnedIsReady(cs[0], id);
    if ops != [] {
      var n := |ops| - 1;
      assert IsTrace(cs[..n + 1], ops[..n]) by {
        forall i | 0 <= i < n ensures Follows(cs[..n + 1][i], ops[..n][i], cs[..n + 1][i + 1]) {
          assert Follows(cs[i], ops[i], cs[i + 1]);
        }
      }
      PinnedIsServed(cs[..n + 1], ops[..n], id, now);
      RunIsLater(cs[..n + 1], ops[..n]);
      assert Follows(cs[n], ops[n], cs[n + 1]) && IsPinned(cs[n], id);
      FollowsPinned(cs[n], ops[n], cs[n + 1], id);
      SameBlockTrans(cs[0], cs[n], cs[n + 1], id);
    }
  }
}
