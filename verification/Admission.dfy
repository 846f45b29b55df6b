/** src/controller/admission_controller.cc as an object, proved against Admit of CacheModel. */
module Admission {
  import opened Types
  import opened PrefixTree
  import opened PrefixMap
  import opened BlockLifecycle
  import opened Blocks
  import opened TierModel
  import opened Tiering
  import opened CacheModel
  import opened CacheTheory
  import opened AdmitTheory
  import opened Controllers
  import opened TwoStores

  // ---------- the steps of an installation keep what the next step needs ----------

  /** The tier invariant does not look at a block that no tier holds. */
  lemma UnplacedRecord(t: TierState, id: BlockId, r: BlockRecord)
    requires TierInv(t) && id < |t.recs| && id !in t.tiers.Placed()
    ensures TierInv(t.(recs := t.recs[id := r]))
  {
    forall x | x in t.tiers.Placed() ensures t.recs[id := r][x] == t.recs[x] {
    }
  }

  /** Tier and payload of a record are no business of the manager. */
  lemma PlacedManager(m: Manager, id: BlockId, tier: Tier, payload: Option<nat>)
    requires ManagerInv(m) && id < |m.recs|
    ensures ManagerInv(m.(recs := m.recs[id := m.recs[id].(tier := tier, payload := payload)]))
  {
    var m' := m.(recs := m.recs[id := m.recs[id].(tier := tier, payload := payload)]);
    forall s | 0 <= s < |m'.recs| ensures SlotInv(m', s) {
      assert SlotInv(m, s);
    }
  }

  /** What createBlock leaves for place. */
  lemma CreatedFacts(c: Cache, cand: Candidate, tier: Tier)
    requires BaseInv(c) && CanCreate(c.mgr) && c.tiers.At(tier).HasCapacity()
    ensures
      var id := NextId(c.mgr.pool);
      var m := Created(c.mgr, cand.hash, cand.blockIndex, Truncated16(c.bs), tier);
      var t := TierState(c.tiers, c.payloads, m.recs);
      && id < |m.recs| == |c.mgr.recs|
      && m.recs[id].state == Admitting && m.recs[id].generation != 0
      && ManagerInv(m) && TierInv(t) && id !in t.tiers.Placed()
      && CanPlace(t, tier) && RefInBounds(t.payloads)
  {
    NextSlotFacts(c);
    BaseTiers(c);
    CreatedInv(c.mgr, cand.hash, cand.blockIndex, Truncated16(c.bs), tier);
    var id, m := NextId(c.mgr.pool), Created(c.mgr, cand.hash, cand.blockIndex, Truncated16(c.bs), tier);
    UnplacedRecord(c.TS(), id, m.recs[id]);
    assert c.TS().(recs := c.TS().recs[id := m.recs[id]]) == TierState(c.tiers, c.payloads, m.recs);
  }

  ghost predicate CanPlaceNew(c: Cache, cand: Candidate, tier: Tier) {
    CanCreate(c.mgr) && RefInBounds(c.payloads)
  }

  /** The cache once the new block is placed: not in the index yet, and still Admitting. */
  ghost function PlacedCache(c: Cache, cand: Candidate, tier: Tier): Cache
    requires CanPlaceNew(c, cand, tier)
  {
    var m := Created(c.mgr, cand.hash, cand.blockIndex, Truncated16(c.bs), tier);
    var t := PlacedState(TierState(c.tiers, c.payloads, m.recs), NextId(c.mgr.pool), tier, cand.payload);
    Cache(c.bs, Manager(m.pool, t.recs), c.index, t.tiers, t.payloads, c.shared)
  }

  lemma PlacedCounts(c: Cache, cand: Candidate, tier: Tier)
    requires BaseInv(c) && CanPlaceNew(c, cand, tier)
    ensures |PlacedCache(c, cand, tier).mgr.recs| == |c.mgr.recs|
    ensures forall s | 0 <= s < |c.mgr.recs| ::
      PlacedCache(c, cand, tier).mgr.recs[s].refcount == c.mgr.recs[s].refcount
    ensures
      var r := PlacedCache(c, cand, tier).mgr.recs[NextId(c.mgr.pool)];
      r.state == Admitting && r.generation != 0
  {
    assert SlotInv(c.mgr, NextId(c.mgr.pool));
    NextSlotFacts(c);
  }

  /** The steps of the second half of admit, none of which fails, are an installation. */
  lemma InstallIs(c: Cache, cand: Candidate, anc: seq<BlockId>, tier: Tier, now: nat)
    requires BaseInv(c) && CanCreate(c.mgr) && c.tiers.At(tier).HasCapacity()
    ensures
      var id := NextId(c.mgr.pool);
      && CanPlaceNew(c, cand, tier)
      && id < |PlacedCache(c, cand, tier).mgr.recs|
      && var c1 := PlacedCache(c, cand, tier);
         var index := InsertChain(c.index, c.bs, cand.ctx, cand.tokens, anc + [id]);
         Install(c, cand, anc, tier, now)
           == AdmitResult(Cache(c.bs, PinnedReady(c1.mgr, id, now), index, c1.tiers, c1.payloads, c.shared), Admitted,
                          Some(id))
  {
    hide BaseInv;
    hide ManagerInv;
    hide TierInv;
    hide PlacedState;
    hide Created;
    hide Transitioned;
    hide InsertChain;
    CreatedFacts(c, cand, tier);
    PlacedCounts(c, cand, tier);
    var m := Created(c.mgr, cand.hash, cand.blockIndex, Truncated16(c.bs), tier);
    PlacedKeepsManager(m, TierState(c.tiers, c.payloads, m.recs), NextId(c.mgr.pool), tier, cand.payload);
    PinnedReadyIs(PlacedCache(c, cand, tier).mgr, NextId(c.mgr.pool), now);
  }

  /** place leaves pool and records in agreement. */
  lemma PlacedKeepsManager(m: Manager, t: TierState, id: BlockId, tier: Tier, bytes: seq<Byte>)
    requires ManagerInv(m) && t.recs == m.recs && id < |m.recs| && RefInBounds(t.payloads)
    ensures ManagerInv(Manager(m.pool, PlacedState(t, id, tier, bytes).recs))
  {
    PlacedManager(m, id, tier, PutRef(t.payloads));
  }

  /** The block is marked Ready and gets its first handle. */
  ghost function PinnedReady(m: Manager, id: BlockId, now: nat): Manager
    requires id < |m.recs|
  {
    var m' := Transitioned(m, id, Admitting, Ready);
    Manager(m'.pool, Acquired(m'.recs, id, now))
  }

  lemma PinnedReadyIs(m: Manager, id: BlockId, now: nat)
    requires ManagerInv(m) && id < |m.recs| && m.recs[id].state == Admitting && m.recs[id].generation != 0
    ensures !TransitionThrows(m, id, Admitting, Ready)
    ensures CanAcquire(Transitioned(m, id, Admitting, Ready).recs, id)
    ensures forall s | 0 <= s < |m.recs| :: Transitioned(m, id, Admitting, Ready).recs[s].refcount == m.recs[s].refcount
    ensures |Transitioned(m, id, Admitting, Ready).recs| == |m.recs|
  {
  }

  // ---------- with one record store or two ----------

  /** What the tier manager sees after createBlock: the new record, if it has the same store. */
  function CreatedState(own: Manager, far: TierState, one: bool, cand: Candidate, bs: nat, tier: Tier): TierState
    requires CanCreate(own)
  {
    if one then far.(recs := Created(own, cand.hash, cand.blockIndex, Truncated16(bs), tier).recs) else far
  }

  /** c is what a manager and its tier manager hold together. */
  ghost predicate HeldBy(c: Cache, own: Manager, far: TierState, one: bool) {
    && BaseInv(c) && ManagerInv(own) && TierInv(far)
    && c.mgr == Seen(own, Refs(far.recs)) && c.tiers == far.tiers && c.payloads == far.payloads
    && |own.recs| <= |far.recs| && (one ==> far.recs == own.recs)
  }

  lemma CreateSeen(c: Cache, own: Manager, far: TierState, one: bool, cand: Candidate, tier: Tier)
    requires HeldBy(c, own, far, one) && CanCreate(c.mgr) && c.tiers.At(tier).HasCapacity()
    ensures CanCreate(own)
    ensures
      var id, t := NextId(own.pool), CreatedState(own, far, one, cand, c.bs, tier);
      && id < |own.recs| && ManagerInv(Created(own, cand.hash, cand.blockIndex, Truncated16(c.bs), tier))
      && TierInv(t) && CanPlace(t, tier) && RefInBounds(t.payloads)
      && PlaceResult(t, id, tier) == Returned(Success) && PlaceAllowed(t, id, tier)
  {
    hide BaseInv;
    hide TierInv;
    NextSlotFacts(c);
    CreatedInv(own, cand.hash, cand.blockIndex, Truncated16(c.bs), tier);
    if one {
      var m := Created(own, cand.hash, cand.blockIndex, Truncated16(c.bs), tier);
      UnplacedRecord(far, NextId(own.pool), m.recs[NextId(own.pool)]);
    }
  }

  lemma PlaceSeen(c: Cache, own: Manager, far: TierState, one: bool, cand: Candidate, tier: Tier)
    requires HeldBy(c, own, far, one) && CanCreate(c.mgr) && CanCreate(own) && c.tiers.At(tier).HasCapacity()
    requires RefInBounds(far.payloads)
    ensures CanPlaceNew(c, cand, tier) && NextId(own.pool) < |far.recs|
    ensures
      var id, own1 := NextId(own.pool), Created(own, cand.hash, cand.blockIndex, Truncated16(c.bs), tier);
      var far2 := PlacedState(CreatedState(own, far, one, cand, c.bs, tier), id, tier, cand.payload);
      var own2 := if one then own1.(recs := far2.recs) else own1;
      var placed := PlacedCache(c, cand, tier);
      && placed.mgr == Seen(own2, Refs(far2.recs)) && placed.tiers == far2.tiers && placed.payloads == far2.payloads
      && ManagerInv(own2) && (RefsApart(own.recs, far.recs) ==> RefsApart(own1.recs, far2.recs))
      && |own1.recs| == |own.recs|
      && forall s | 0 <= s < |own.recs| :: own2.recs[s].refcount == own.recs[s].refcount
  {
    hide BaseInv;
    hide TierInv;
    hide SlotInv;
    var id, own1 := NextId(own.pool), Created(own, cand.hash, cand.blockIndex, Truncated16(c.bs), tier);
    CreatedInv(own, cand.hash, cand.blockIndex, Truncated16(c.bs), tier);
    NextSlotFacts(c);
    PlacedManager(own1, id, tier, PutRef(far.payloads));
    FreeHasNoHandles(own, id);
    var far2 := PlacedState(CreatedState(own, far, one, cand, c.bs, tier), id, tier, cand.payload);
    var own2 := if one then own1.(recs := far2.recs) else own1;
    var a, b := Seen(own2, Refs(far2.recs)).recs, PlacedCache(c, cand, tier).mgr.recs;
    assert |a| == |b|;
    assert forall s | 0 <= s < |a| :: a[s] == b[s];
  }

  lemma FreeHasNoHandles(m: Manager, id: BlockId)
    requires ManagerInv(m) && m.pool.freeList != [] && id == NextId(m.pool) && id < |m.recs|
    ensures m.recs[id].refcount == 0
  {
    assert SlotInv(m, id);
  }

  lemma PinnedSeen(m: Manager, refs: seq<Option<nat>>, id: BlockId, now: nat)
    requires id < |m.recs|
    ensures PinnedReady(Seen(m, refs), id, now) == Seen(PinnedReady(m, id, now), refs)
    ensures SamePlaces(m.recs, PinnedReady(m, id, now).recs)
    ensures Seen(m, refs).recs[id].state == m.recs[id].state
    ensures Seen(m, refs).recs[id].generation == m.recs[id].generation
  {
    hide Transitioned;
    SeenTransition(m, refs, id, Admitting, Ready);
    TransitionPlaces(m, id, Admitting, Ready);
    SeenAcquired(Transitioned(m, id, Admitting, Ready).recs, refs, id, now);
  }

  class AdmissionController {
    const policies: Policies
    const eviction: EvictionController
    const manager: BlockManager
    const engine: PrefixLookupEngine
    const tiers: TierManager
    const blockSize: nat

    ghost predicate Wired()
      reads this, eviction
    {
      && eviction.Wired()
      && eviction.policy == policies.evict
      && eviction.manager == manager
      && eviction.engine == engine
      && eviction.tiers == tiers
      && engine.index.blockSize == blockSize
    }

    ghost function View(): Cache
      reads this, manager, manager.pool, manager.store, manager.store.records, engine, engine.index
      reads tiers, tiers.gpu, tiers.host, tiers.payloadStore, tiers.blockStore.records
    {
      ViewOf(manager, engine.index, tiers)
    }

    ghost predicate Ready()
      reads this, eviction, manager, manager.pool, manager.store, manager.store.records, engine, engine.index
      reads tiers, tiers.gpu, tiers.host, tiers.payloadStore, tiers.blockStore, tiers.blockStore.records
    {
      Wired() && PartsOk(manager, engine.index, tiers)
    }

    constructor (policies: Policies, eviction: EvictionController, manager: BlockManager, engine: PrefixLookupEngine,
                 tiers: TierManager, blockSize: nat)
      requires eviction.Wired() && eviction.policy == policies.evict && eviction.manager == manager
      requires eviction.engine == engine && eviction.tiers == tiers && engine.index.blockSize == blockSize
      ensures Wired() && this.policies == policies && this.manager == manager && this.engine == engine
      ensures this.tiers == tiers && this.eviction == eviction
    {
      this.policies, this.eviction, this.manager, this.engine := policies, eviction, manager, engine;
      this.tiers, this.blockSize := tiers, blockSize;
    }

    /** createBlock and place.  With room made neither failure branch is taken; in the second of them the
        clean-up would throw. */
    method CreateAndPlace(cand: Candidate, tier: Tier, ghost hs: set<BlockHandle>) returns (id: BlockId)
      requires Ready() && CanCreate(View().mgr) && View().tiers.At(tier).HasCapacity()
      modifies manager.pool, manager.store.records, tiers.gpu, tiers.host, tiers.payloadStore, tiers.blockStore.records
      ensures manager.Valid() && tiers.Valid() && StoresOk(manager, tiers)
      ensures CanPlaceNew(old(View()), cand, tier)
      ensures
        var c := PlacedCache(old(View()), cand, tier);
        && c.mgr == Seen(manager.View(), Refs(tiers.blockStore.Recs()))
        && c.tiers == tiers.TS().tiers && c.payloads == tiers.TS().payloads
      ensures id == NextId(old(manager.pool.P()))
      ensures old(Counted(hs, manager.store.records)) ==> Counted(hs, manager.store.records)
    {
      hide Wf;
      hide Exact;
      hide Contents;
      hide BaseInv;
      hide ManagerInv;
      hide TierInv;
      hide Created;
      hide PlacedState;
      hide PlacedCache;
      hide PlaceResult;
      hide PlaceAllowed;
      hide Refs;
      hide Seen;
      hide RefsApart;
      hide PartsOk;
      hide ViewOf;
      PartsAre(manager, engine.index, tiers);
      ghost var c, own, far, one := View(), manager.View(), tiers.TS(), tiers.blockStore == manager.store;
      CreateSeen(c, own, far, one, cand, tier);
      PlaceSeen(c, own, far, one, cand, tier);
      var slot := manager.CreateBlock(cand.hash, cand.blockIndex, Truncated16(blockSize), tier);
      if slot == None {
        assert false;
      }
      id := slot.value.0;
      assert tiers.TS() == CreatedState(own, far, one, cand, c.bs, tier);
      var placed := tiers.Place(id, tier, cand.payload);
      if placed == Returned(CapacityExceeded) {
        assert false;
      }
    }

    /** Stores the chain in the index, marks the block Ready and acquires it. */
    method IndexAndPin(cand: Candidate, chain: seq<BlockId>, id: BlockId, now: nat, ghost hs: set<BlockHandle>)
      returns (handle: Option<BlockHandle>)
      requires Wired() && manager.Valid() && engine.index.Valid() && Fits(blockSize, cand.tokens, |chain|)
      requires id < |manager.store.Recs()|
      requires manager.store.Recs()[id].state == Admitting && manager.store.Recs()[id].generation != 0
      modifies manager.pool, manager.store.records, engine.index
      ensures manager.Valid() && engine.index.Valid()
      ensures old(Covered(engine.index.T())) ==> Covered(engine.index.T())
      ensures engine.index.M() == InsertChain(old(engine.index.M()), blockSize, cand.ctx, cand.tokens, chain)
      ensures manager.View() == PinnedReady(old(manager.View()), id, now)
      ensures handle.Some? && fresh(handle.value)
      ensures handle.value.records == manager.store.records && handle.value.record == Some(id)
      ensures old(Counted(hs, manager.store.records)) ==> Counted(hs + {handle.value}, manager.store.records)
    {
      hide Wf;
      hide Contents;
      hide Covered;
      hide ManagerInv;
      hide Transitioned;
      hide TransitionThrows;
      hide InsertChain;
      PinnedReadyIs(manager.View(), id, now);
      engine.InsertFullBlocks(cand.ctx, cand.tokens, chain);
      var done := manager.TransitionState(id, Admitting, BlockState.Ready);
      assert old(Counted(hs, manager.store.records)) ==> Counted(hs, manager.store.records);
      handle := manager.Acquire(id, now, hs);
    }

    method InstallBlock(cand: Candidate, existing: seq<BlockId>, tier: Tier, now: nat, ghost hs: set<BlockHandle>)
      returns (handle: Option<BlockHandle>)
      requires Ready() && CanCreate(View().mgr) && View().tiers.At(tier).HasCapacity()
      requires Fits(blockSize, cand.tokens, |existing| + 1)
      modifies manager.pool, manager.store.records, engine.index
      modifies tiers.gpu, tiers.host, tiers.payloadStore, tiers.blockStore.records
      ensures manager.Valid() && tiers.Valid() && engine.index.Valid() && StoresOk(manager, tiers)
      ensures old(Covered(engine.index.T())) ==> Covered(engine.index.T())
      ensures handle.Some? && fresh(handle.value)
      ensures handle.value.records == manager.store.records && handle.value.record.Some?
      ensures AdmitResult(View(), Admitted, handle.value.record) == Install(old(View()), cand, existing, tier, now)
      ensures old(Counted(hs, manager.store.records)) ==> Counted(hs + {handle.value}, manager.store.records)
    {
      hide Wf;
      hide Covered;
      hide Contents;
      hide BaseInv;
      hide ManagerInv;
      hide TierInv;
      hide PlacedCache;
      hide PinnedReady;
      hide InsertChain;
      hide Install;
      hide Refs;
      hide Seen;
      hide SamePlaces;
      hide RefsApart;
      PartsAre(manager, engine.index, tiers);
      ghost var c := View();
      InstallIs(c, cand, existing, tier, now);
      PlacedCounts(c, cand, tier);
      var id := CreateAndPlace(cand, tier, hs);
      ghost var own, far := manager.View(), tiers.TS();
      SeenFields(own, Refs(far.recs));
      PinnedSeen(own, Refs(far.recs), id, now);
      handle := IndexAndPin(cand, existing + [id], id, now, hs);
      TiersStay(far, tiers.blockStore.Recs());
      RefsStayApart(own.recs, manager.store.Recs(), far.recs);
    }

    /** The checks before anything changes; past them, the chain before the candidate. */
    method Check(cand: Candidate, now: nat) returns (refusal: Option<AdmitStatus>, existing: seq<BlockId>)
      requires engine.index.Valid() && engine.index.blockSize == blockSize > 0
      ensures refusal == Refusal(View(), cand, now, policies)
      ensures refusal == None ==>
        |cand.tokens| == (cand.blockIndex + 1) * blockSize && existing == Ancestors(View(), cand)
    {
      hide Wf;
      hide Contents;
      hide Chain;
      existing := [];
      if |cand.tokens| != (cand.blockIndex + 1) * blockSize {
        return Some(InvalidBlock), existing;
      }
      var full := engine.RawLookupBlocks(cand.ctx, cand.tokens);
      if |full| == cand.blockIndex + 1 {
        return Some(AlreadyPresent), existing;
      }
      existing := engine.RawLookupBlocks(cand.ctx, cand.tokens[..cand.blockIndex * blockSize]);
      if |existing| != cand.blockIndex {
        return Some(InvalidBlock), existing;
      }
      if !policies.admit(AdmissionContext(cand.ctx, now), FeaturesOf(cand, blockSize)) {
        return Some(Rejected), existing;
      }
      refusal := None;
    }

    /** Chooses the tier and evicts one block of it if the pool is empty or the tier is full. */
    method MakeRoom(cand: Candidate, now: nat, ghost hs: set<BlockHandle>)
      returns (target: Tier, space: SpaceStatus, ghost vs: seq<BlockId>)
      requires Ready()
      modifies manager.pool, manager.store.records, engine.index, tiers.gpu, tiers.host, tiers.payloadStore
      ensures Ready()
      ensures target == TierFor(old(View()), cand, now, policies)
      ensures Evicts(old(View()), target, vs, View()) && |vs| <= 1
      ensures !NeedsSpace(old(View()), target) ==> space == SpaceMade && vs == [] && View() == old(View())
      ensures NeedsSpace(old(View()), target) ==> (space == SpaceMade <==> |vs| == 1)
      ensures old(Exact(engine.index.T())) ==>
        var p := Prepared(old(View()), cand, now, policies);
        Exact(engine.index.T()) && View() == p.cache && space == p.status
      ensures old(Counted(hs, manager.store.records)) ==> Counted(hs, manager.store.records)
    {
      hide Wf;
      hide Exact;
      hide Contents;
      hide BaseInv;
      hide PicksFromOffer;
      hide MakeSpaceFrom;
      hide LostBlocks;
      hide Evicts;
      hide EvictAll;
      hide PartsOk;
      hide ViewOf;
      hide Seen;
      hide Refs;
      hide RefsApart;
      hide StoresOk;
      hide TierInv;
      hide ManagerInv;
      PartsAre(manager, engine.index, tiers);
      ghost var c, own, refs := View(), manager.View(), Refs(tiers.blockStore.Recs());
      target := policies.place(
        PlacementContext(|tiers.gpu.ids|, tiers.gpu.capacity, |tiers.host.ids|, tiers.host.capacity, now),
        FeaturesOf(cand, blockSize));
      space, vs := SpaceMade, [];
      NoneEvicted(c, target);
      if manager.Available() == 0 || !tiers.HasCapacity(target) {
        var evicted;
        space, evicted, vs := eviction.MakeSpace(1, target, now);
      }
      EvictsBase(c, target, vs, View());
      LostCounts(c, target, vs, EvictAll(c, vs));
      PartsAre(manager, engine.index, tiers);
      SeenFields(own, refs);
      SeenFields(manager.View(), Refs(tiers.blockStore.Recs()));
    }

    /** The installation after room has been made; c is the cache before. */
    method InstallFor(cand: Candidate, existing: seq<BlockId>, tier: Tier, now: nat, ghost c: Cache,
                      ghost vs: seq<BlockId>, ghost hs: set<BlockHandle>) returns (handle: Option<BlockHandle>)
      requires Ready() && BaseInv(c) && c.bs == blockSize && Refusal(c, cand, now, policies) == None
      requires |cand.tokens| == (cand.blockIndex + 1) * blockSize && existing == Ancestors(c, cand)
      requires tier == TierFor(c, cand, now, policies) && Evicts(c, tier, vs, View())
      requires if NeedsSpace(c, tier) then |vs| == 1 else vs == [] && View() == c
      requires Fits(blockSize, cand.tokens, |existing| + 1)
      modifies manager.pool, manager.store.records, engine.index
      modifies tiers.gpu, tiers.host, tiers.payloadStore, tiers.blockStore.records
      ensures Ready()
      ensures old(Covered(engine.index.T())) ==> Covered(engine.index.T())
      ensures handle.Some? && fresh(handle.value)
      ensures handle.value.records == manager.store.records && handle.value.record.Some?
      ensures AdmitResult(View(), Admitted, handle.value.record) == Install(old(View()), cand, existing, tier, now)
      ensures Admits(c, cand, now, policies, AdmitResult(View(), Admitted, handle.value.record))
      ensures old(Counted(hs, manager.store.records)) ==> Counted(hs + {handle.value}, manager.store.records)
    {
      hide Wf;
      hide Covered;
      hide Contents;
      hide BaseInv;
      hide Install;
      hide Chain;
      hide Ancestors;
      hide Refusal;
      hide Evicts;
      hide TierFor;
      hide Admits;
      hide PartsOk;
      hide ViewOf;
      hide Seen;
      hide Refs;
      hide RefsApart;
      hide StoresOk;
      hide TierInv;
      hide ManagerInv;
      PartsAre(manager, engine.index, tiers);
      ghost var mid := View();
      EvictionMakesRoom(c, tier, vs, mid);
      handle := InstallBlock(cand, existing, tier, now, hs);
      AdmitsInstalled(c, cand, now, policies, vs, mid, AdmitResult(View(), Admitted, handle.value.record));
      AdmitKeepsBase(c, cand, now, policies, AdmitResult(View(), Admitted, handle.value.record));
      PartsFrom(manager, engine.index, tiers);
    }

    /** Past the checks: room is made, and the block is installed. */
    method AdmitAccepted(cand: Candidate, existing: seq<BlockId>, now: nat, ghost hs: set<BlockHandle>)
      returns (status: AdmitStatus, handle: Option<BlockHandle>)
      requires Ready() && Refusal(View(), cand, now, policies) == None
      requires |cand.tokens| == (cand.blockIndex + 1) * blockSize && existing == Ancestors(View(), cand)
      modifies manager.pool, manager.store.records, engine.index
      modifies tiers.gpu, tiers.host, tiers.payloadStore, tiers.blockStore.records
      ensures Ready()
      ensures handle.Some? ==>
        fresh(handle.value) && handle.value.records == manager.store.records && handle.value.record.Some?
      ensures status == Admitted <==> handle.Some?
      ensures Admits(old(View()), cand, now, policies,
                     AdmitResult(View(), status, if handle.Some? then handle.value.record else None))
      ensures old(Exact(engine.index.T())) ==>
        && old(View()).bs > 0
        && AdmitResult(View(), status, if handle.Some? then handle.value.record else None)
          == CacheModel.Admit(old(View()), cand, now, policies)
        && (Exact(engine.index.T()) <==> Injective(engine.index.M()))
      ensures old(Counted(hs, manager.store.records)) ==>
        Counted(if handle.Some? then hs + {handle.value} else hs, manager.store.records)
    {
      hide Wf;
      hide Exact;
      hide Covered;
      hide Contents;
      hide Injective;
      hide BaseInv;
      hide Install;
      hide CacheModel.Admit;
      hide PicksFromOffer;
      hide Chain;
      hide Ancestors;
      hide Refusal;
      hide Prepared;
      hide Evicts;
      hide TierFor;
      hide Admits;
      hide PartsOk;
      hide ViewOf;
      hide Seen;
      hide Refs;
      hide RefsApart;
      hide StoresOk;
      hide TierInv;
      hide ManagerInv;
      PartsAre(manager, engine.index, tiers);
      ghost var c, exact := View(), Exact(engine.index.T());
      AdmitUnfold(c, cand, now, policies);
      ExactNow();
      AcceptedChain(c, cand, now, policies);
      ghost var vs;
      var target, space;
      target, space, vs := MakeRoom(cand, now, hs);
      PartsAre(manager, engine.index, tiers);
      ExactNow();
      if space == InsufficientCandidates {
        NoVictim(c, target, View());
        AdmitsFull(c, cand, now, policies, vs, View());
        return Full, None;
      }
      handle := InstallFor(cand, existing, target, now, c, vs, hs);
      status := Admitted;
      PartsAre(manager, engine.index, tiers);
      if exact {
        ExactIffNow();
      }
    }

    /** Admission.  Whatever the state of the reverse index, it is one of the outcomes that admission may have;
        with an exact reverse index it is the one that Admit computes, and the index stays exact exactly when
        it still names no block twice. */
    method Admit(cand: Candidate, now: nat, ghost hs: set<BlockHandle>)
      returns (status: AdmitStatus, handle: Option<BlockHandle>)
      requires Ready()
      modifies manager.pool, manager.store.records, engine.index
      modifies tiers.gpu, tiers.host, tiers.payloadStore, tiers.blockStore.records
      ensures Ready()
      ensures handle.Some? ==>
        fresh(handle.value) && handle.value.records == manager.store.records && handle.value.record.Some?
      ensures status == Admitted <==> handle.Some?
      ensures Admits(old(View()), cand, now, policies,
                     AdmitResult(View(), status, if handle.Some? then handle.value.record else None))
      ensures old(Exact(engine.index.T())) ==>
        && old(View()).bs > 0
        && AdmitResult(View(), status, if handle.Some? then handle.value.record else None)
          == CacheModel.Admit(old(View()), cand, now, policies)
        && (Exact(engine.index.T()) <==> Injective(engine.index.M()))
      ensures old(Counted(hs, manager.store.records)) ==>
        Counted(if handle.Some? then hs + {handle.value} else hs, manager.store.records)
    {
      hide Wf;
      hide Exact;
      hide Covered;
      hide Contents;
      hide Injective;
      hide BaseInv;
      hide Install;
      hide CacheModel.Admit;
      hide PicksFromOffer;
      hide Chain;
      hide Ancestors;
      hide Refusal;
      hide Prepared;
      hide Evicts;
      hide TierFor;
      hide Admits;
      hide PartsOk;
      hide ViewOf;
      hide Seen;
      hide Refs;
      hide RefsApart;
      hide StoresOk;
      hide TierInv;
      hide ManagerInv;
      PartsAre(manager, engine.index, tiers);
      ghost var c := View();
      AdmitUnfold(c, cand, now, policies);
      RefusalIsOther(c, cand, now, policies);
      ExactNow();
      var refusal, existing := Check(cand, now);
      if refusal.Some? {
        AdmitsRefused(c, cand, now, policies);
        return refusal.value, None;
      }
      status, handle := AdmitAccepted(cand, existing, now, hs);
    }

    /** With an exact reverse index every stored id is in it, and none is stored twice. */
    lemma ExactNow()
      requires engine.index.Valid()
      ensures Exact(engine.index.T()) ==> Covered(engine.index.T())
      ensures Exact(engine.index.T()) ==> Injective(engine.index.M())
    {
      ExactIff(engine.index.blockSize, engine.index.T());
    }

    lemma ExactIffNow()
      requires engine.index.Valid() && Covered(engine.index.T())
      ensures Exact(engine.index.T()) <==> Injective(engine.index.M())
    {
      ExactIff(engine.index.blockSize, engine.index.T());
    }
  }

  // ---------- the outcomes of admission, one by one ----------

  lemma AdmitsRefused(c: Cache, cand: Candidate, now: nat, pol: Policies)
    requires c.bs > 0 && Refusal(c, cand, now, pol).Some?
    ensures Admits(c, cand, now, pol, AdmitResult(c, Refusal(c, cand, now, pol).value, None))
  {
    hide Refusal;
    assert AdmitsVia(c, cand, now, pol, [], c, AdmitResult(c, Refusal(c, cand, now, pol).value, None));
  }

  lemma NoVictim(c: Cache, tier: Tier, mid: Cache)
    requires Evicts(c, tier, [], mid)
    ensures mid == c
  {
    assert forall k :: k in c.index <==> k in mid.index;
    assert mid.index == c.index;
  }

  lemma AdmitsFull(c: Cache, cand: Candidate, now: nat, pol: Policies, vs: seq<BlockId>, mid: Cache)
    requires c.bs > 0 && Refusal(c, cand, now, pol) == None && Evicts(c, TierFor(c, cand, now, pol), vs, mid)
    requires NeedsSpace(c, TierFor(c, cand, now, pol)) && vs == []
    ensures Admits(c, cand, now, pol, AdmitResult(c, Full, None))
  {
    hide Refusal;
    hide Evicts;
    hide TierFor;
    AcceptedChain(c, cand, now, pol);
    assert AdmitsVia(c, cand, now, pol, vs, mid, AdmitResult(c, Full, None));
  }

  lemma AdmitsInstalled(c: Cache, cand: Candidate, now: nat, pol: Policies, vs: seq<BlockId>, mid: Cache,
                        r: AdmitResult)
    requires c.bs > 0 && Refusal(c, cand, now, pol) == None && |cand.tokens| == (cand.blockIndex + 1) * c.bs
    requires Evicts(c, TierFor(c, cand, now, pol), vs, mid)
    requires if NeedsSpace(c, TierFor(c, cand, now, pol)) then |vs| == 1 else vs == [] && mid == c
    requires r == Install(mid, cand, Ancestors(c, cand), TierFor(c, cand, now, pol), now)
    ensures Admits(c, cand, now, pol, r)
  {
    hide Refusal;
    hide Evicts;
    hide TierFor;
    hide Install;
    hide Ancestors;
    assert AdmitsVia(c, cand, now, pol, vs, mid, r);
  }

  lemma LostCounts(c: Cache, tier: Tier, vs: seq<BlockId>, c': Cache)
    requires LostBlocks(c, tier, vs, c')
    ensures |c'.mgr.recs| == |c.mgr.recs|
    ensures forall s | 0 <= s < |c.mgr.recs| :: c'.mgr.recs[s].refcount == c.mgr.recs[s].refcount
  {
  }
}
