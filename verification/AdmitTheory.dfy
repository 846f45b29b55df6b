/** What AdmissionController::admit guarantees, and exactly when it keeps the whole-cache invariant. */
module AdmitTheory {
  import opened Types
  import opened PrefixMap
  import opened BlockLifecycle
  import opened TierModel
  import opened CacheModel
  import opened CacheTheory

  // ---------- the chain before the candidate ----------

  /** A chain of a prefix is a chain. */
  lemma ChainOfPrefix(m: Entries, bs: nat, ctx: ContextHash, tokens: seq<Token>, n: nat, ids: seq<BlockId>)
    requires Fits(bs, tokens, n) && IsChain(m, bs, ctx, tokens[..n * bs], ids) && |ids| <= n
    ensures IsChain(m, bs, ctx, tokens, ids)
  {
    forall j | 1 <= j <= |ids| ensures BlockKey(bs, ctx, tokens, j) == BlockKey(bs, ctx, tokens[..n * bs], j) {
      FitsMono(bs, tokens[..n * bs], j, |ids|);
    }
  }

  /** If all but the last block are stored and the longest chain is not everything, the last is not. */
  lemma LastMissing(m: Entries, bs: nat, ctx: ContextHash, tokens: seq<Token>, n: nat, anc: seq<BlockId>,
                    full: seq<BlockId>)
    requires bs > 0 && |tokens| == (n + 1) * bs && |anc| == n
    requires IsChain(m, bs, ctx, tokens, anc) && IsLongestChain(m, bs, ctx, tokens, full) && |full| != n + 1
    ensures BlockKey(bs, ctx, tokens, n + 1) !in m
  {
    assert (n + 2) * bs == (n + 1) * bs + bs;
    if |full| > n + 1 {
      FitsMono(bs, tokens, n + 2, |full|);
      assert false;
    }
    if |full| < n {
      FitsMono(bs, tokens, |full| + 1, n);
      assert false;
    }
  }

  /** Past the checks, the ancestors are a complete chain and the candidate's own key is not stored. */
  lemma AcceptedChain(c: Cache, cand: Candidate, now: nat, pol: Policies)
    requires c.bs > 0 && Refusal(c, cand, now, pol) == None
    ensures |cand.tokens| == (cand.blockIndex + 1) * c.bs
    ensures |Ancestors(c, cand)| == cand.blockIndex
    ensures IsChain(c.index, c.bs, cand.ctx, cand.tokens, Ancestors(c, cand))
    ensures BlockKey(c.bs, cand.ctx, cand.tokens, cand.blockIndex + 1) == Key(cand.ctx, cand.tokens)
    ensures Key(cand.ctx, cand.tokens) !in c.index
  {
    var bs, n := c.bs, cand.blockIndex;
    var full, anc := Chain(c.index, bs, cand.ctx, cand.tokens), Ancestors(c, cand);
    hide IsChain;
    assert cand.tokens[..(n + 1) * bs] == cand.tokens;
    FitsMono(bs, cand.tokens, n, n + 1);
    ChainOfPrefix(c.index, bs, cand.ctx, cand.tokens, n, anc);
    LastMissing(c.index, bs, cand.ctx, cand.tokens, n, anc, full);
  }

  /** With every ancestor still stored, the insertion adds one entry. */
  lemma {:induction false} InsertOverChain(m: Entries, bs: nat, ctx: ContextHash, tokens: seq<Token>,
                                           ids: seq<BlockId>, n: nat)
    requires n <= |ids| && forall j | 1 <= j <= n :: BlockKey(bs, ctx, tokens, j) in m
    ensures InsertUpTo(m, bs, ctx, tokens, ids, n) == m
  {
    if n > 0 {
      InsertOverChain(m, bs, ctx, tokens, ids, n - 1);
    }
  }

  /** With an ancestor gone, the insertion stores its old id again, next to the new entry. */
  lemma InsertOverGap(m: Entries, bs: nat, ctx: ContextHash, tokens: seq<Token>, anc: seq<BlockId>, id: BlockId, j: nat)
    requires bs > 0 && Fits(bs, tokens, |anc| + 1) && 1 <= j <= |anc|
    requires BlockKey(bs, ctx, tokens, j) !in m && BlockKey(bs, ctx, tokens, |anc| + 1) !in m
    requires anc[j - 1] == id
    ensures !Injective(InsertChain(m, bs, ctx, tokens, anc + [id]))
  {
    var ids := anc + [id];
    var m' := InsertChain(m, bs, ctx, tokens, ids);
    InsertUpToIs(m, bs, ctx, tokens, ids, |ids|);
    var k, k' := BlockKey(bs, ctx, tokens, j), BlockKey(bs, ctx, tokens, |ids|);
    assert m'[k] == ids[j - 1] == id && m'[k'] == ids[|ids| - 1] == id;
    BlockKeyLength(bs, ctx, tokens, j, |ids|);
  }

  // ---------- making space ----------

  /** The victims that this admission takes: none, or one. */
  ghost function AdmitVictims(c: Cache, cand: Candidate, now: nat, pol: Policies): seq<BlockId> {
    var tier := TierFor(c, cand, now, pol);
    if NeedsSpace(c, tier) then Victims(c, 1, tier, now, pol.evict) else []
  }

  /** The cache in which the block is created. */
  ghost function Prepared(c: Cache, cand: Candidate, now: nat, pol: Policies): SpaceResult {
    var tier := TierFor(c, cand, now, pol);
    if NeedsSpace(c, tier) then MakeSpace(c, 1, tier, now, pol.evict) else SpaceResult(c, SpaceMade, 0)
  }

  lemma PreparedOk(c: Cache, cand: Candidate, now: nat, pol: Policies)
    requires BaseInv(c) && PicksFromOffer(pol.evict)
    ensures
      var tier := TierFor(c, cand, now, pol);
      var r := Prepared(c, cand, now, pol);
      var vs := AdmitVictims(c, cand, now, pol);
      && BaseInv(r.cache)
      && LostBlocks(c, tier, vs, r.cache)
      && |vs| <= 1
      && (r.status == InsufficientCandidates ==> r.cache == c && NeedsSpace(c, tier))
      && (r.status == SpaceMade && NeedsSpace(c, tier) ==> |vs| == 1)
      && (r.status == SpaceMade && !NeedsSpace(c, tier) ==> vs == [])
  {
    hide BaseInv;
    hide LostBlocks;
    hide Evicted;
    hide Victim;
    hide TierFor;
    hide PicksFromOffer;
    var tier := TierFor(c, cand, now, pol);
    LostNone(c, tier);
    if NeedsSpace(c, tier) {
      MakeSpaceBase(c, 0, 1, tier, now, pol.evict);
    }
  }

  /** Success of makeSpace means that createBlock and place will both succeed. */
  lemma PreparedHasRoom(c: Cache, cand: Candidate, now: nat, pol: Policies)
    requires BaseInv(c) && PicksFromOffer(pol.evict) && Prepared(c, cand, now, pol).status == SpaceMade
    ensures
      var tier := TierFor(c, cand, now, pol);
      var c1 := Prepared(c, cand, now, pol).cache;
      && CanCreate(c1.mgr) && CanAllocate(c1.mgr.pool)
      && c1.tiers.At(tier).HasCapacity()
  {
    var tier := TierFor(c, cand, now, pol);
    var c1 := Prepared(c, cand, now, pol).cache;
    var vs := AdmitVictims(c, cand, now, pol);
    hide BaseInv;
    hide Prepared;
    hide AdmitVictims;
    hide TierFor;
    hide LostBlocks;
    PreparedOk(c, cand, now, pol);
    VictimsWerePlaced(c, tier, vs, c1);
    RoomInTier(c.tiers, tier, vs, c1.tiers);
    RoomInPool(c1);
  }

  lemma RoomInPool(c: Cache)
    requires BaseInv(c) && c.mgr.pool.freeList != []
    ensures CanCreate(c.mgr) && CanAllocate(c.mgr.pool)
  {
    AllocatedInv(c.mgr.pool);
  }

  lemma VictimsWerePlaced(c: Cache, tier: Tier, vs: seq<BlockId>, c1: Cache)
    requires BaseInv(c) && LostBlocks(c, tier, vs, c1)
    ensures LostPlaces(c.tiers, vs, c1.tiers) && c1.mgr.pool.freeList == c.mgr.pool.freeList + vs
    ensures |c.tiers.At(tier).ids| <= c.tiers.At(tier).capacity
    ensures forall v | v in vs :: v in c.tiers.At(tier).ids
  {
    assert SetsInv(c.tiers, c.mgr.recs);
    forall v | v in vs ensures v in c.tiers.At(tier).ids {
      EligibleFacts(c, tier, v);
    }
  }

  lemma RoomInTier(tiers: Tiers, tier: Tier, vs: seq<BlockId>, tiers': Tiers)
    requires LostPlaces(tiers, vs, tiers') && |vs| <= 1
    requires |tiers.At(tier).ids| <= tiers.At(tier).capacity && forall v | v in vs :: v in tiers.At(tier).ids
    requires tiers.At(tier).HasCapacity() || vs != []
    ensures tiers'.At(tier).HasCapacity()
  {
    var ids, ids' := tiers.At(tier).ids, tiers'.At(tier).ids;
    if vs == [] {
      assert ids' == ids;
    } else {
      assert vs[0] in vs && ids' == ids - {vs[0]};
    }
  }

  // ---------- installing the block ----------

  /** The record of a block that has just been admitted. */
  function AdmittedRecord(c: Cache, cand: Candidate, tier: Tier, now: nat): BlockRecord
    requires CanAllocate(c.mgr.pool)
  {
    BlockRecord(NextId(c.mgr.pool), NextGeneration(c.mgr.pool), cand.hash, cand.blockIndex, Truncated16(c.bs), tier,
                1, now, 1, PutRef(c.payloads), Ready)
  }

  /** The cache with one block more, field by field. */
  ghost function WithBlock(c: Cache, cand: Candidate, tier: Tier, now: nat, index: Entries): Cache
    requires CanCreate(c.mgr) && CanAllocate(c.mgr.pool) && RefInBounds(c.payloads)
  {
    Cache(
      c.bs,
      Manager(Allocated(c.mgr.pool), c.mgr.recs[NextId(c.mgr.pool) := AdmittedRecord(c, cand, tier, now)]),
      index,
      c.tiers.Add(tier, NextId(c.mgr.pool)),
      AfterPut(c.payloads, cand.payload),
      c.shared)
  }

  /** A slot at the back of the free list is not placed, and the payload store has a slot for it. */
  lemma NextSlotFacts(c: Cache)
    requires BaseInv(c) && CanCreate(c.mgr)
    ensures CanAllocate(c.mgr.pool)
    ensures c.mgr.recs[NextId(c.mgr.pool)].state == Free
    ensures NextId(c.mgr.pool) !in c.tiers.Placed()
    ensures !PutThrows(c.payloads) && RefInBounds(c.payloads)
    ensures NextGeneration(c.mgr.pool) > c.mgr.recs[NextId(c.mgr.pool)].generation
  {
    var id := NextId(c.mgr.pool);
    AllocatedInv(c.mgr.pool);
    assert SlotInv(c.mgr, id);
    PutNeverThrows(c.TS(), id);
    PutSlots(c.tiers.Placed(), c.payloads, c.mgr.recs, id, [], c.mgr.recs[id].(payload := PutRef(c.payloads)));
  }

  /** The steps of admit after space has been made, none of which fails or throws, come to exactly that. */
  lemma InstallShape(c: Cache, cand: Candidate, anc: seq<BlockId>, tier: Tier, now: nat)
    requires BaseInv(c) && CanCreate(c.mgr) && c.tiers.At(tier).HasCapacity()
    ensures CanAllocate(c.mgr.pool) && RefInBounds(c.payloads)
    ensures
      var index := InsertChain(c.index, c.bs, cand.ctx, cand.tokens, anc + [NextId(c.mgr.pool)]);
      Install(c, cand, anc, tier, now)
        == AdmitResult(WithBlock(c, cand, tier, now, index), Admitted, Some(NextId(c.mgr.pool)))
  {
    hide BaseInv;
    hide Allocated;
    hide AfterPut;
    hide InsertChain;
    NextSlotFacts(c);
    var id := NextId(c.mgr.pool);
    var m := Created(c.mgr, cand.hash, cand.blockIndex, Truncated16(c.bs), tier);
    var t := TierState(c.tiers, c.payloads, m.recs);
    assert CanPlace(t, tier);
    var placed := m.recs[id := m.recs[id].(tier := tier, payload := PutRef(c.payloads))];
    assert PlacedState(t, id, tier, cand.payload).recs == placed;
    var ready := placed[id := placed[id].(state := Ready)];
    assert Transitioned(Manager(m.pool, placed), id, Admitting, Ready) == Manager(m.pool, ready);
    assert CanAcquire(ready, id);
    assert Acquired(ready, id, now) == c.mgr.recs[id := AdmittedRecord(c, cand, tier, now)];
  }

  lemma WithBlockManager(c: Cache, cand: Candidate, tier: Tier, now: nat, index: Entries)
    requires ManagerInv(c.mgr) && CanCreate(c.mgr) && CanAllocate(c.mgr.pool) && RefInBounds(c.payloads)
    ensures ManagerInv(WithBlock(c, cand, tier, now, index).mgr)
  {
    AllocatedInv(c.mgr.pool);
    assert SlotInv(c.mgr, NextId(c.mgr.pool));
    var m' := WithBlock(c, cand, tier, now, index).mgr;
    forall s | 0 <= s < |m'.recs| ensures SlotInv(m', s) {
      assert SlotInv(c.mgr, s);
    }
  }

  lemma WithBlockTiers(c: Cache, cand: Candidate, tier: Tier, now: nat, index: Entries)
    requires BaseInv(c) && CanCreate(c.mgr) && c.tiers.At(tier).HasCapacity()
    requires CanAllocate(c.mgr.pool) && RefInBounds(c.payloads)
    ensures
      var c' := WithBlock(c, cand, tier, now, index);
      var id := NextId(c.mgr.pool);
      var n := Min(|cand.payload|, c.payloads.bytesPerBlock);
      && TierInv(c'.TS())
      && c'.tiers.Placed() == c.tiers.Placed() + {id}
      && |ContentOf(c'.TS(), id)| == c.payloads.bytesPerBlock
      && ContentOf(c'.TS(), id)[..n] == cand.payload[..n]
      && forall other | other in c.tiers.Placed() :: ContentOf(c'.TS(), other) == ContentOf(c.TS(), other)
  {
    hide BaseInv;
    hide TierInv;
    hide AfterPut;
    hide Allocated;
    hide ContentOf;
    NextSlotFacts(c);
    BaseTiers(c);
    var id := NextId(c.mgr.pool);
    PlaceOk(c.TS(), id, tier, cand.payload);
    var t := PlacedState(c.TS(), id, tier, cand.payload);
    TierIgnoresRest(t, WithBlock(c, cand, tier, now, index).mgr.recs);
    assert WithBlock(c, cand, tier, now, index).TS() == t.(recs := WithBlock(c, cand, tier, now, index).mgr.recs);
  }

  lemma WithBlockPlacement(c: Cache, cand: Candidate, tier: Tier, now: nat, index: Entries)
    requires PlacementInv(c) && CanCreate(c.mgr) && CanAllocate(c.mgr.pool) && RefInBounds(c.payloads)
    requires WithBlock(c, cand, tier, now, index).tiers.Placed() == c.tiers.Placed() + {NextId(c.mgr.pool)}
    ensures PlacementInv(WithBlock(c, cand, tier, now, index))
  {
    assert |AfterPut(c.payloads, cand.payload).buffers| == |c.payloads.buffers|;
  }

  lemma NewEntryOk(c: Cache, h: Hasher, cand: Candidate, tier: Tier, now: nat, index: Entries)
    requires c.bs > 0 && CanCreate(c.mgr) && CanAllocate(c.mgr.pool) && RefInBounds(c.payloads)
    requires |cand.tokens| == (cand.blockIndex + 1) * c.bs && Honest(c, cand, h)
    requires Key(cand.ctx, cand.tokens) in index && index[Key(cand.ctx, cand.tokens)] == NextId(c.mgr.pool)
    ensures EntryOk(WithBlock(c, cand, tier, now, index), h, Key(cand.ctx, cand.tokens))
  {
    FitsMono(c.bs, cand.tokens, 1, cand.blockIndex + 1);
  }

  lemma OldEntryOk(c: Cache, h: Hasher, cand: Candidate, tier: Tier, now: nat, index: Entries, k: Key)
    requires CanCreate(c.mgr) && CanAllocate(c.mgr.pool) && RefInBounds(c.payloads)
    requires k in c.index && EntryOk(c, h, k) && c.index[k] != NextId(c.mgr.pool)
    requires k in index && index[k] == c.index[k]
    ensures EntryOk(WithBlock(c, cand, tier, now, index), h, k)
  {
  }

  lemma WithBlockIndex(c: Cache, h: Hasher, cand: Candidate, tier: Tier, now: nat)
    requires c.bs > 0 && IndexInv(c, h) && CanCreate(c.mgr) && CanAllocate(c.mgr.pool) && RefInBounds(c.payloads)
    requires |cand.tokens| == (cand.blockIndex + 1) * c.bs && Honest(c, cand, h)
    requires Key(cand.ctx, cand.tokens) !in c.index && NextId(c.mgr.pool) !in c.index.Values
    ensures
      var index := c.index[Key(cand.ctx, cand.tokens) := NextId(c.mgr.pool)];
      IndexInv(WithBlock(c, cand, tier, now, index), h)
  {
    hide EntryOk;
    hide Honest;
    var k0, id := Key(cand.ctx, cand.tokens), NextId(c.mgr.pool);
    var index := c.index[k0 := id];
    var c' := WithBlock(c, cand, tier, now, index);
    NewEntryOk(c, h, cand, tier, now, index);
    forall k | k in c.index ensures c.index[k] != id && EntryOk(c', h, k) {
      OldEntryOk(c, h, cand, tier, now, index, k);
    }
    forall s: nat | s < |c'.mgr.recs| && c'.mgr.recs[s].state == Ready ensures s in c'.index.Values {
      if s != id {
        var k := KeyOf(c.index, s);
        assert k in c'.index && c'.index[k] == s;
      } else {
        assert k0 in c'.index && c'.index[k0] == s;
      }
    }
  }

  lemma NextSlotNotIndexed(c: Cache, h: Hasher)
    requires CacheInv(c, h) && CanCreate(c.mgr)
    ensures NextId(c.mgr.pool) !in c.index.Values
  {
    NextSlotFacts(c);
    forall k | k in c.index ensures c.index[k] != NextId(c.mgr.pool) {
      assert EntryOk(c, h, k);
    }
  }

  /** Installing a block keeps pool, records, tiers and payloads in agreement, whatever the index gets. */
  lemma WithBlockBase(c: Cache, cand: Candidate, tier: Tier, now: nat, index: Entries)
    requires BaseInv(c) && CanCreate(c.mgr) && c.tiers.At(tier).HasCapacity()
    requires CanAllocate(c.mgr.pool) && RefInBounds(c.payloads)
    ensures BaseInv(WithBlock(c, cand, tier, now, index))
  {
    hide WithBlock;
    NextSlotFacts(c);
    WithBlockManager(c, cand, tier, now, index);
    WithBlockTiers(c, cand, tier, now, index);
    WithBlockPlacement(c, cand, tier, now, index);
    WithBlockSize(c, cand, tier, now, index);
  }

  lemma WithBlockSize(c: Cache, cand: Candidate, tier: Tier, now: nat, index: Entries)
    requires CanCreate(c.mgr) && CanAllocate(c.mgr.pool) && RefInBounds(c.payloads)
    ensures WithBlock(c, cand, tier, now, index).bs == c.bs
  {
  }

  /** Installing a block whose key is the one new entry keeps the whole-cache invariant. */
  lemma WithBlockOk(c: Cache, h: Hasher, cand: Candidate, tier: Tier, now: nat)
    requires CacheInv(c, h) && CanCreate(c.mgr) && c.tiers.At(tier).HasCapacity()
    requires |cand.tokens| == (cand.blockIndex + 1) * c.bs && Honest(c, cand, h)
    requires Key(cand.ctx, cand.tokens) !in c.index
    ensures CanAllocate(c.mgr.pool) && RefInBounds(c.payloads)
    ensures CacheInv(WithBlock(c, cand, tier, now, c.index[Key(cand.ctx, cand.tokens) := NextId(c.mgr.pool)]), h)
  {
    hide WithBlock;
    hide BaseInv;
    hide IndexInv;
    NextSlotFacts(c);
    NextSlotNotIndexed(c, h);
    BlockSizePositive(c);
    WithBlockBase(c, cand, tier, now, c.index[Key(cand.ctx, cand.tokens) := NextId(c.mgr.pool)]);
    WithBlockIndex(c, h, cand, tier, now);
  }

  // ---------- admit ----------

  lemma AdmitUnfold(c: Cache, cand: Candidate, now: nat, pol: Policies)
    requires BaseInv(c) && PicksFromOffer(pol.evict)
    ensures
      var r := Admit(c, cand, now, pol);
      var p := Prepared(c, cand, now, pol);
      r == if Refusal(c, cand, now, pol).Some? then AdmitResult(c, Refusal(c, cand, now, pol).value, None)
           else if p.status == InsufficientCandidates then AdmitResult(p.cache, Full, None)
           else Install(p.cache, cand, Ancestors(c, cand), TierFor(c, cand, now, pol), now)
  {
  }

  /** Admission is all or nothing: no exception leaves it, and every outcome other than Admitted leaves
      pool, records, index, tiers and payloads as they were and hands out no handle.  In particular the
      clean-up after a failed placement, which would throw, is never reached. */
  lemma AdmitIsAtomic(c: Cache, cand: Candidate, now: nat, pol: Policies)
    requires BaseInv(c) && PicksFromOffer(pol.evict)
    ensures
      var r := Admit(c, cand, now, pol);
      && r.status != Faulted
      && (r.status != Admitted ==> r.cache == c && r.handle == None)
      && (r.status == Admitted <==>
            Refusal(c, cand, now, pol) == None && Prepared(c, cand, now, pol).status == SpaceMade)
  {
    assert c.bs > 0;
    hide Admit;
    hide Prepared;
    hide Install;
    hide Refusal;
    hide BaseInv;
    AdmitUnfold(c, cand, now, pol);
    PreparedOk(c, cand, now, pol);
    var p := Prepared(c, cand, now, pol);
    if Refusal(c, cand, now, pol) == None {
      if p.status == SpaceMade {
        PreparedHasRoom(c, cand, now, pol);
        AcceptedChain(c, cand, now, pol);
        InstallShape(p.cache, cand, Ancestors(c, cand), TierFor(c, cand, now, pol), now);
      }
    }
    RefusalIsOther(c, cand, now, pol);
  }

  lemma RefusalIsOther(c: Cache, cand: Candidate, now: nat, pol: Policies)
    requires c.bs > 0
    ensures Refusal(c, cand, now, pol) != Some(Admitted) && Refusal(c, cand, now, pol) != Some(Faulted)
  {
  }

  /** The block that makes room, if one must, is not an ancestor of the candidate. */
  ghost predicate AncestorsSurvive(c: Cache, cand: Candidate, now: nat, pol: Policies)
    requires c.bs > 0 && |cand.tokens| == (cand.blockIndex + 1) * c.bs
  {
    forall v | v in AdmitVictims(c, cand, now, pol) :: v !in Ancestors(c, cand)
  }

  /** What an admission does when its ancestors survive: the victims leave, the block arrives, and the
      index gains the one entry for the candidate's tokens. */
  lemma AdmittedShape(c: Cache, cand: Candidate, now: nat, pol: Policies)
    requires BaseInv(c) && PicksFromOffer(pol.evict) && Admit(c, cand, now, pol).status == Admitted
    ensures Refusal(c, cand, now, pol) == None && |cand.tokens| == (cand.blockIndex + 1) * c.bs
    ensures
      var p := Prepared(c, cand, now, pol);
      var tier := TierFor(c, cand, now, pol);
      var anc := Ancestors(c, cand);
      && p.status == SpaceMade && BaseInv(p.cache)
      && LostBlocks(c, tier, AdmitVictims(c, cand, now, pol), p.cache)
      && p.cache.tiers.At(tier).HasCapacity()
      && CanCreate(p.cache.mgr) && CanAllocate(p.cache.mgr.pool) && RefInBounds(p.cache.payloads)
      && var id := NextId(p.cache.mgr.pool);
         var index := InsertChain(p.cache.index, c.bs, cand.ctx, cand.tokens, anc + [id]);
         Admit(c, cand, now, pol) == AdmitResult(WithBlock(p.cache, cand, tier, now, index), Admitted, Some(id))
  {
    AdmitIsAtomic(c, cand, now, pol);
    AcceptedChain(c, cand, now, pol);
    hide Admit;
    hide Prepared;
    hide Install;
    hide Refusal;
    hide BaseInv;
    AdmitUnfold(c, cand, now, pol);
    PreparedOk(c, cand, now, pol);
    PreparedHasRoom(c, cand, now, pol);
    var p := Prepared(c, cand, now, pol);
    InstallShape(p.cache, cand, Ancestors(c, cand), TierFor(c, cand, now, pol), now);
  }

  lemma InsertAfterLoss(m: Entries, m1: Entries, vs: seq<BlockId>, bs: nat, ctx: ContextHash, tokens: seq<Token>,
                        anc: seq<BlockId>, id: BlockId)
    requires LostEntries(m, vs, m1) && IsChain(m, bs, ctx, tokens, anc) && forall v | v in vs :: v !in anc
    requires BlockKey(bs, ctx, tokens, |anc| + 1) !in m
    ensures
      var k0 := BlockKey(bs, ctx, tokens, |anc| + 1);
      k0 !in m1 && InsertChain(m1, bs, ctx, tokens, anc + [id]) == m1[k0 := id]
  {
    forall j | 1 <= j <= |anc| ensures BlockKey(bs, ctx, tokens, j) in m1 {
      assert anc[j - 1] in anc;
    }
    InsertOverChain(m1, bs, ctx, tokens, anc + [id], |anc|);
  }

  lemma InsertAfterGap(m: Entries, m1: Entries, bs: nat, ctx: ContextHash, tokens: seq<Token>, anc: seq<BlockId>,
                       v: BlockId)
    requires bs > 0 && LostEntries(m, [v], m1) && IsChain(m, bs, ctx, tokens, anc) && v in anc
    requires Fits(bs, tokens, |anc| + 1) && BlockKey(bs, ctx, tokens, |anc| + 1) !in m
    ensures !Injective(InsertChain(m1, bs, ctx, tokens, anc + [v]))
  {
    var j :| 0 <= j < |anc| && anc[j] == v;
    assert BlockKey(bs, ctx, tokens, j + 1) in m && m[BlockKey(bs, ctx, tokens, j + 1)] == anc[j];
    assert v in [v];
    InsertOverGap(m1, bs, ctx, tokens, anc, v, j + 1);
  }

  /** If the ancestors survive, the insertion adds exactly the candidate's key. */
  lemma SurvivingIndex(c: Cache, cand: Candidate, now: nat, pol: Policies, id: BlockId)
    requires BaseInv(c) && PicksFromOffer(pol.evict) && Refusal(c, cand, now, pol) == None
    requires |cand.tokens| == (cand.blockIndex + 1) * c.bs && AncestorsSurvive(c, cand, now, pol)
    ensures
      var c1 := Prepared(c, cand, now, pol).cache;
      var k0 := Key(cand.ctx, cand.tokens);
      && k0 !in c1.index
      && InsertChain(c1.index, c.bs, cand.ctx, cand.tokens, Ancestors(c, cand) + [id]) == c1.index[k0 := id]
  {
    hide Prepared;
    hide AdmitVictims;
    hide BaseInv;
    hide Refusal;
    hide Ancestors;
    hide InsertUpTo;
    hide TierFor;
    BlockSizePositive(c);
    AcceptedChain(c, cand, now, pol);
    PreparedOk(c, cand, now, pol);
    InsertAfterLoss(c.index, Prepared(c, cand, now, pol).cache.index, AdmitVictims(c, cand, now, pol),
                    c.bs, cand.ctx, cand.tokens, Ancestors(c, cand), id);
  }

  /** If the victim is an ancestor, its slot is reused at once and one id ends up under two keys. */
  lemma LostAncestorIndex(c: Cache, cand: Candidate, now: nat, pol: Policies)
    requires BaseInv(c) && PicksFromOffer(pol.evict) && Admit(c, cand, now, pol).status == Admitted
    requires |cand.tokens| == (cand.blockIndex + 1) * c.bs && !AncestorsSurvive(c, cand, now, pol)
    ensures !Injective(Admit(c, cand, now, pol).cache.index)
  {
    hide Admit;
    hide Prepared;
    hide AdmitVictims;
    hide BaseInv;
    hide Refusal;
    hide Injective;
    hide IsChain;
    hide InsertChain;
    hide LostBlocks;
    hide Ancestors;
    hide TierFor;
    hide PicksFromOffer;
    hide Fits;
    hide BlockKey;
    hide NextId;
    hide AncestorsSurvive;
    hide LostEntries;
    BlockSizePositive(c);
    AdmitIndex(c, cand, now, pol);
    var c1 := Prepared(c, cand, now, pol).cache;
    var v := LostAncestor(c, cand, now, pol);
    assert LostEntries(c.index, [v], c1.index) && NextId(c1.mgr.pool) == v by {
      PreparedOk(c, cand, now, pol);
      OneVictim(c, TierFor(c, cand, now, pol), AdmitVictims(c, cand, now, pol), c1, v);
    }
    AcceptedChain(c, cand, now, pol);
    FitsAll(c.bs, cand.tokens, cand.blockIndex + 1);
    InsertAfterGap(c.index, c1.index, c.bs, cand.ctx, cand.tokens, Ancestors(c, cand), v);
  }

  lemma BlockSizePositive(c: Cache)
    requires BaseInv(c)
    ensures c.bs > 0
  {
  }

  lemma LostAncestor(c: Cache, cand: Candidate, now: nat, pol: Policies) returns (v: BlockId)
    requires c.bs > 0 && |cand.tokens| == (cand.blockIndex + 1) * c.bs && !AncestorsSurvive(c, cand, now, pol)
    ensures v in AdmitVictims(c, cand, now, pol) && v in Ancestors(c, cand)
  {
    v :| v in AdmitVictims(c, cand, now, pol) && v in Ancestors(c, cand);
  }

  lemma FitsAll(bs: nat, tokens: seq<Token>, n: nat)
    requires |tokens| == n * bs
    ensures Fits(bs, tokens, n)
  {
  }

  lemma AdmitIndex(c: Cache, cand: Candidate, now: nat, pol: Policies)
    requires BaseInv(c) && PicksFromOffer(pol.evict) && Admit(c, cand, now, pol).status == Admitted
    ensures Refusal(c, cand, now, pol) == None && |cand.tokens| == (cand.blockIndex + 1) * c.bs
    ensures
      var c1 := Prepared(c, cand, now, pol).cache;
      && c1.mgr.pool.freeList != []
      && Admit(c, cand, now, pol).cache.index ==
        InsertChain(c1.index, c.bs, cand.ctx, cand.tokens, Ancestors(c, cand) + [NextId(c1.mgr.pool)])
  {
    hide Admit;
    hide Prepared;
    hide BaseInv;
    hide LostBlocks;
    hide InsertChain;
    AdmittedShape(c, cand, now, pol);
  }

  /** The pool is last in, first out: the next block gets the slot of the victim. */
  lemma OneVictim(c: Cache, tier: Tier, vs: seq<BlockId>, c1: Cache, v: BlockId)
    requires LostBlocks(c, tier, vs, c1) && |vs| <= 1 && v in vs
    ensures LostEntries(c.index, [v], c1.index)
    ensures c1.mgr.pool.freeList != [] && NextId(c1.mgr.pool) == v
  {
    assert vs == [v];
  }

  /** The one hole of admission, exactly: a successful admission of an honest candidate keeps the
      whole-cache invariant if and only if the block evicted for it, if any, is not one of the ancestors
      looked up before the eviction. */
  lemma AdmitKeepsInvIff(c: Cache, h: Hasher, cand: Candidate, now: nat, pol: Policies)
    requires CacheInv(c, h) && PicksFromOffer(pol.evict) && Honest(c, cand, h)
    requires Admit(c, cand, now, pol).status == Admitted
    ensures |cand.tokens| == (cand.blockIndex + 1) * c.bs
    ensures CacheInv(Admit(c, cand, now, pol).cache, h) <==> AncestorsSurvive(c, cand, now, pol)
  {
    hide Admit;
    hide Prepared;
    hide AncestorsSurvive;
    hide Refusal;
    hide BaseInv;
    hide LostBlocks;
    BlockSizePositive(c);
    AdmittedShape(c, cand, now, pol);
    if AncestorsSurvive(c, cand, now, pol) {
      var p, tier := Prepared(c, cand, now, pol), TierFor(c, cand, now, pol);
      PreparedInv(c, h, cand, now, pol);
      SurvivingIndex(c, cand, now, pol, NextId(p.cache.mgr.pool));
      WithBlockOk(p.cache, h, cand, tier, now);
    } else {
      LostAncestorIndex(c, cand, now, pol);
    }
  }

  lemma PreparedInv(c: Cache, h: Hasher, cand: Candidate, now: nat, pol: Policies)
    requires CacheInv(c, h) && PicksFromOffer(pol.evict)
    ensures CacheInv(Prepared(c, cand, now, pol).cache, h)
    ensures Prepared(c, cand, now, pol).cache.bs == c.bs
  {
    hide BaseInv;
    hide IndexInv;
    hide MakeSpaceFrom;
    hide PicksFromOffer;
    hide TierFor;
    var tier := TierFor(c, cand, now, pol);
    if NeedsSpace(c, tier) {
      MakeSpaceOk(c, h, 0, 1, tier, now, pol.evict);
    }
    PreparedOk(c, cand, now, pol);
  }

  /** Whatever is evicted and whatever that leaves of the index, there is room then. */
  lemma EvictionMakesRoom(c: Cache, tier: Tier, vs: seq<BlockId>, mid: Cache)
    requires BaseInv(c) && Evicts(c, tier, vs, mid) && |vs| <= 1 && (NeedsSpace(c, tier) ==> vs != [])
    ensures BaseInv(mid) && mid.bs == c.bs
    ensures CanCreate(mid.mgr) && CanAllocate(mid.mgr.pool) && mid.tiers.At(tier).HasCapacity()
  {
    hide BaseInv;
    hide LostBlocks;
    hide EvictAll;
    hide Evicts;
    EvictsBase(c, tier, vs, mid);
    var c1 := EvictAll(c, vs);
    VictimsWerePlaced(c, tier, vs, c1);
    RoomInTier(c.tiers, tier, vs, c1.tiers);
    RoomInPool(mid);
  }

  /** Admission is one of the outcomes that the relation allows. */
  lemma AdmitIsAdmits(c: Cache, cand: Candidate, now: nat, pol: Policies)
    requires BaseInv(c) && PicksFromOffer(pol.evict)
    ensures Admits(c, cand, now, pol, Admit(c, cand, now, pol))
  {
    hide Admit;
    hide Install;
    hide Refusal;
    hide BaseInv;
    hide Evicts;
    hide LostBlocks;
    hide TierFor;
    hide MakeSpaceFrom;
    hide Victims;
    hide Ancestors;
    hide PicksFromOffer;
    BlockSizePositive(c);
    AdmitUnfold(c, cand, now, pol);
    PreparedOk(c, cand, now, pol);
    var tier, vs, mid := TierFor(c, cand, now, pol), AdmitVictims(c, cand, now, pol), Prepared(c, cand, now, pol).cache;
    NoneEvicted(c, tier);
    MakeSpaceEvicts(c, 1, tier, now, pol.evict);
    NothingLost(c, tier, vs, mid);
    if Refusal(c, cand, now, pol) == None {
      AcceptedChain(c, cand, now, pol);
    }
    assert AdmitsVia(c, cand, now, pol, vs, mid, Admit(c, cand, now, pol));
  }

  lemma NothingLost(c: Cache, tier: Tier, vs: seq<BlockId>, c': Cache)
    requires LostBlocks(c, tier, vs, c')
    ensures c' == c ==> vs == []
  {
    assert |c'.mgr.pool.freeList| == |c.mgr.pool.freeList| + |vs|;
  }

  /** The installed block of an outcome: the cache it was installed in, and the index it came with. */
  lemma AdmitsShape(c: Cache, cand: Candidate, now: nat, pol: Policies, r: AdmitResult)
      returns (tier: Tier, vs: seq<BlockId>, mid: Cache, index: Entries)
    requires BaseInv(c) && Admits(c, cand, now, pol, r) && r.status == Admitted
    ensures Refusal(c, cand, now, pol) == None && |cand.tokens| == (cand.blockIndex + 1) * c.bs
    ensures tier == TierFor(c, cand, now, pol) && if NeedsSpace(c, tier) then |vs| == 1 else vs == [] && mid == c
    ensures Evicts(c, tier, vs, mid) && |vs| <= 1 && BaseInv(mid) && mid.bs == c.bs
    ensures CanCreate(mid.mgr) && CanAllocate(mid.mgr.pool) && RefInBounds(mid.payloads)
    ensures mid.tiers.At(tier).HasCapacity()
    ensures r == AdmitResult(WithBlock(mid, cand, tier, now, index), Admitted, Some(NextId(mid.mgr.pool)))
    ensures
      index == InsertChain(mid.index, c.bs, cand.ctx, cand.tokens, Ancestors(c, cand) + [NextId(mid.mgr.pool)])
  {
    hide BaseInv;
    hide Install;
    hide Refusal;
    hide Evicts;
    hide WithBlock;
    RefusalIsOther(c, cand, now, pol);
    vs, mid :| AdmitsVia(c, cand, now, pol, vs, mid, r);
    tier := TierFor(c, cand, now, pol);
    AcceptedChain(c, cand, now, pol);
    EvictionMakesRoom(c, tier, vs, mid);
    InstallShape(mid, cand, Ancestors(c, cand), tier, now);
    index := InsertChain(mid.index, mid.bs, cand.ctx, cand.tokens, Ancestors(c, cand) + [NextId(mid.mgr.pool)]);
  }

  /** Whatever is evicted and whatever becomes of the index, admission keeps pool, records, tiers and payloads
      in agreement, no exception leaves it, and an outcome other than Admitted changes nothing. */
  lemma AdmitKeepsBase(c: Cache, cand: Candidate, now: nat, pol: Policies, r: AdmitResult)
    requires BaseInv(c) && Admits(c, cand, now, pol, r)
    ensures BaseInv(r.cache) && r.cache.bs == c.bs && r.status != Faulted
    ensures r.status == Admitted <==> r.handle.Some?
    ensures r.status != Admitted ==> r.cache == c
  {
    hide BaseInv;
    hide Install;
    hide Refusal;
    hide Evicts;
    hide WithBlock;
    RefusalIsOther(c, cand, now, pol);
    NotFaulted(c, cand, now, pol, r);
    if r.status == Admitted {
      var tier, vs, mid, index := AdmitsShape(c, cand, now, pol, r);
      WithBlockBase(mid, cand, tier, now, index);
      WithBlockSize(mid, cand, tier, now, index);
    }
  }

  lemma NotFaulted(c: Cache, cand: Candidate, now: nat, pol: Policies, r: AdmitResult)
    requires BaseInv(c) && Admits(c, cand, now, pol, r)
    ensures r.status == Admitted || (r.status != Faulted && r.cache == c && r.handle == None)
  {
    hide BaseInv;
    hide Install;
    hide Refusal;
    hide Evicts;
    hide WithBlock;
    RefusalIsOther(c, cand, now, pol);
    var vs, mid :| AdmitsVia(c, cand, now, pol, vs, mid, r);
    if Refusal(c, cand, now, pol) == None {
      var tier := TierFor(c, cand, now, pol);
      AcceptedChain(c, cand, now, pol);
      if !NeedsSpace(c, tier) || vs != [] {
        EvictionMakesRoom(c, tier, vs, mid);
        InstallShape(mid, cand, Ancestors(c, cand), tier, now);
      }
    }
  }

  /** Every block of the chain before the candidate has a handle. */
  ghost predicate AncestorsPinned(c: Cache, cand: Candidate)
    requires c.bs > 0 && |cand.tokens| == (cand.blockIndex + 1) * c.bs
  {
    forall v | v in Ancestors(c, cand) :: v < |c.mgr.recs| && c.mgr.recs[v].refcount > 0
  }

  /** Pinned ancestors are never the victim. */
  lemma PinnedSurvive(c: Cache, cand: Candidate, now: nat, pol: Policies)
    requires BaseInv(c) && PicksFromOffer(pol.evict)
    requires |cand.tokens| == (cand.blockIndex + 1) * c.bs && AncestorsPinned(c, cand)
    ensures AncestorsSurvive(c, cand, now, pol)
  {
    PreparedOk(c, cand, now, pol);
    var tier, vs := TierFor(c, cand, now, pol), AdmitVictims(c, cand, now, pol);
    assert AllIn(vs, EligibleSlots(c.mgr.recs, tier));
    hide AdmitVictims;
    hide BaseInv;
    hide LostBlocks;
    hide Prepared;
    forall v | v in vs ensures v !in Ancestors(c, cand) {
      assert v in EligibleSlots(c.mgr.recs, tier);
    }
  }

  /** Admission below a pinned chain keeps the whole-cache invariant, whatever its outcome. */
  lemma PinnedAdmit(c: Cache, h: Hasher, cand: Candidate, now: nat, pol: Policies)
    requires CacheInv(c, h) && PicksFromOffer(pol.evict) && Honest(c, cand, h)
    requires |cand.tokens| == (cand.blockIndex + 1) * c.bs ==> AncestorsPinned(c, cand)
    ensures CacheInv(Admit(c, cand, now, pol).cache, h)
  {
    hide CacheInv;
    hide Admit;
    hide Honest;
    hide AncestorsPinned;
    hide AncestorsSurvive;
    hide PicksFromOffer;
    hide Refusal;
    hide Prepared;
    InvBase(c, h);
    AdmitIsAtomic(c, cand, now, pol);
    if Admit(c, cand, now, pol).status == Admitted {
      AdmitKeepsInvIff(c, h, cand, now, pol);
      PinnedSurvive(c, cand, now, pol);
    }
  }

  lemma InvBase(c: Cache, h: Hasher)
    requires CacheInv(c, h)
    ensures BaseInv(c) && c.bs > 0
  {
  }

  lemma InvInjective(c: Cache, h: Hasher)
    requires CacheInv(c, h)
    ensures Injective(c.index)
  {
  }
}
