/** src/core/local_cache.cc as an object: one worker's cache, assembled from its parts, with the operations
    that the pipeline and the peers call. */
module LocalCaches {
  import opened Types
  import opened PrefixTree
  import opened PrefixMap
  import opened PrefixIndices
  import opened BlockLifecycle
  import opened Blocks
  import opened TierModel
  import opened Tiering
  import opened CacheModel
  import opened AdmitTheory
  import opened CacheOps
  import opened Controllers
  import opened Admission
  import opened TwoStores

  // ---------- results ----------

  datatype LookupOutcome = LookupOutcome(
    matchedBlocks: seq<BlockHandle>,
    matchedTokens: nat,
    missTokenOffset: nat,
    contextHash: ContextHash,
    totalFullBlocks: nat)

  datatype ServeOutcome = ServeOutcome(status: ServeStatus, payload: seq<Byte>, hash: ContentHash, generation: nat)

  datatype CacheSnapshot = CacheSnapshot(capacityBlocks: nat, usedBlocks: nat, readyBlocks: nat)

  class LocalCache {
    const blockSize: nat
    const tiers: TierManager
    const manager: BlockManager
    const index: PrefixIndex
    const engine: PrefixLookupEngine
    const admission: AdmissionController

    /** The objects that operations change. */
    ghost function Parts(): set<object> {
      {manager.pool, manager.store.records, index, tiers.gpu, tiers.host, tiers.payloadStore, tiers.blockStore.records}
    }

    ghost function Footprint(): set<object> {
      Own() + tiers.Footprint()
    }

    ghost function Own(): set<object> {
      {this, manager, manager.pool, manager.store, manager.store.records, index, engine, admission, admission.eviction}
    }

    ghost function View(): Cache
      reads Footprint()
    {
      ViewOf(manager, index, tiers)
    }

    /** The tier manager was there before, so it works on records of its own. */
    ghost predicate Ready()
      reads Footprint()
    {
      && engine.index == index && engine.manager == manager && index.blockSize == blockSize
      && admission.Wired() && admission.manager == manager && admission.engine == engine && admission.tiers == tiers
      && tiers.blockStore != manager.store
      && PartsOk(manager, index, tiers)
    }

    /** An empty cache over a tier manager that was built before.  Everything else is new, the block manager's
        record store too, so the two stores are never the same.  The cache is in order exactly when the tier
        manager is, holds no block yet, and has a record and, where bytes are stored, a payload slot for every
        pool slot. */
    constructor (capacity: nat, blockSize: nat, tiers: TierManager, policies: Policies)
      requires blockSize > 0 && PicksFromOffer(policies.evict)
      ensures this.tiers == tiers && this.blockSize == blockSize && admission.policies == policies
      ensures fresh(Own()) && tiers.blockStore != manager.store
      ensures View() == StartCache(capacity, blockSize, tiers.TS())
      ensures Ready() <==> tiers.Valid() && CanStart(capacity, tiers.TS())
      ensures index.Valid() && Exact(index.T()) && Counted({}, manager.store.records)
    {
      hide BaseInv;
      hide Exact;
      hide Covered;
      hide Wf;
      hide Injective;
      hide InitManager;
      hide PicksFromOffer;
      hide StartCache;
      hide CanStart;
      hide TierInv;
      hide ManagerInv;
      hide RefsApart;
      hide Refs;
      hide Seen;
      hide Counted;
      hide ViewOf;
      hide PartsOk;
      hide TierManager.TS;
      hide TierManager.Valid;
      var m := new BlockManager(capacity);
      var idx := new PrefixIndex(blockSize);
      var e := new PrefixLookupEngine(idx, m);
      var finder := new SafeCandidateFinder(m.store);
      var ev := new EvictionController(policies.evict, m, e, finder, tiers);
      var adm := new AdmissionController(policies, ev, m, e, tiers, blockSize);
      this.blockSize, this.manager, this.index, this.engine, this.tiers, this.admission :=
        blockSize, m, idx, e, tiers, adm;
      new;
      StartParts(manager, index, tiers, capacity);
      ExactAtStart(index);
      NoHandlesAtStart(manager, capacity);
    }

    /** Pins what is cached of the request's prefix. */
    method LookupPrefix(ctx: ContextHash, tokens: seq<Token>, now: nat, ghost hs: set<BlockHandle>)
      returns (r: LookupOutcome)
      requires Ready() && Counted(hs, manager.store.records)
      modifies manager.store.records
      ensures Ready()
      ensures old(View()).bs > 0
      ensures
        var p := CacheOps.LookupPrefix(old(View()), ctx, tokens, now);
        View() == p.cache && HandlesOn(r.matchedBlocks, manager.store.records, p.handles)
      ensures r.matchedTokens == r.missTokenOffset == |r.matchedBlocks| * blockSize
      ensures blockSize > 0 && r.contextHash == ctx && r.totalFullBlocks == |tokens| / blockSize
      ensures Different(r.matchedBlocks) && forall h | h in r.matchedBlocks :: fresh(h)
      ensures Counted(hs + HandleSet(r.matchedBlocks), manager.store.records)
    {
      hide Wf;
      hide Exact;
      hide Contents;
      hide Counted;
      hide BaseInv;
      hide ManagerInv;
      hide Chain;
      hide PinAll;
      hide HandlesOn;
      hide Seen;
      hide Refs;
      hide RefsApart;
      hide PartsOk;
      hide ViewOf;
      hide SamePlaces;
      hide TierInv;
      hide Later;
      hide Different;
      hide IsLongestChain;
      hide HandleSet;
      PartsAre(manager, index, tiers);
      ghost var c, own, far := View(), manager.View(), tiers.blockStore.Recs();
      BlockSizePositive(c);
      LookupLater(c, ctx, tokens, now);
      SeenPins(c, own, Refs(far), Chain(c.index, c.bs, ctx, tokens), c.bs, now);
      var totalFull := |tokens| / blockSize;
      var raw := engine.Lookup(ctx, tokens, blockSize, now, c.(mgr := own), hs);
      RefsStayApart(own.recs, manager.store.Recs(), far);
      PartsMake(manager, index, tiers, CacheOps.LookupPrefix(c, ctx, tokens, now).cache);
      r := LookupOutcome(raw.handles, raw.matched, raw.matched, ctx, totalFull);
    }

    /** Admission.  When the candidate is honest and the chain before it is pinned, the whole-cache invariant
        is kept (for the content hash h), and the reverse index stays exact. */
    method AdmitBlock(cand: Candidate, now: nat, ghost h: Hasher, ghost hs: set<BlockHandle>)
      returns (status: AdmitStatus, handle: Option<BlockHandle>)
      requires Ready()
      modifies Parts()
      ensures Ready()
      ensures Admits(old(View()), cand, now, admission.policies,
                     AdmitResult(View(), status, if handle.Some? then handle.value.record else None))
      ensures old(Exact(index.T())) ==>
        && old(View()).bs > 0
        && AdmitResult(View(), status, if handle.Some? then handle.value.record else None)
          == CacheModel.Admit(old(View()), cand, now, admission.policies)
        && (Exact(index.T()) <==> Injective(View().index))
      ensures status == Admitted <==> handle.Some?
      ensures handle.Some? ==>
        fresh(handle.value) && handle.value.records == manager.store.records && handle.value.record.Some?
      ensures
        && old(CacheInv(View(), h)) && old(Exact(index.T())) && Honest(old(View()), cand, h)
        && (|cand.tokens| == (cand.blockIndex + 1) * blockSize ==> AncestorsPinned(old(View()), cand))
        ==> CacheInv(View(), h) && Exact(index.T())
      ensures old(Counted(hs, manager.store.records)) ==>
        Counted(if handle.Some? then hs + {handle.value} else hs, manager.store.records)
    {
      hide Wf;
      hide Exact;
      hide Covered;
      hide Contents;
      hide Counted;
      hide BaseInv;
      hide IndexInv;
      hide CacheModel.Admit;
      hide Admits;
      hide Honest;
      hide AncestorsPinned;
      hide PicksFromOffer;
      ghost var c, exact := View(), Exact(index.T());
      status, handle := admission.Admit(cand, now, hs);
      if exact && CacheInv(c, h) && Honest(c, cand, h)
        && (|cand.tokens| == (cand.blockIndex + 1) * blockSize ==> AncestorsPinned(c, cand))
      {
        PinnedAdmit(c, h, cand, now, admission.policies);
        InvInjective(View(), h);
      }
    }

    method GetBlock(id: BlockId, generation: nat, now: nat, ghost hs: set<BlockHandle>) returns (r: Blocks.FetchResult)
      requires Ready() && Counted(hs, manager.store.records)
      modifies manager.store.records
      ensures Ready()
      ensures r.status == FetchLocalStatus(old(View()).mgr.recs, id, generation)
      ensures r.status == Hit <==> r.handle.Some?
      ensures r.status != Hit ==> View() == old(View())
      ensures r.status == Hit ==>
        manager.View() == old(manager.View()).(recs := Acquired(old(manager.store.Recs()), id, now))
      ensures r.status == Hit ==>
        && id < |old(View()).mgr.recs|
        && fresh(r.handle.value) && r.handle.value.records == manager.store.records && r.handle.value.record == Some(id)
        && View() == old(View()).(mgr := old(View()).mgr.(recs := Acquired(old(View()).mgr.recs, id, now)))
      ensures Counted(if r.handle.Some? then hs + {r.handle.value} else hs, manager.store.records)
    {
      hide Wf;
      hide Exact;
      hide Contents;
      hide BaseInv;
      hide ManagerInv;
      hide TierInv;
      hide Refs;
      hide RefsApart;
      hide PartsOk;
      hide ViewOf;
      hide SamePlaces;
      hide Acquired;
      PartsAre(manager, index, tiers);
      ghost var c, own, far := View(), manager.View(), tiers.blockStore.Recs();
      SeenFetch(own.recs, Refs(far), id, generation);
      r := manager.FetchLocal(id, generation, now, hs);
      if r.status == Hit {
        SeenAcquired(own.recs, Refs(far), id, now);
        AcquiredCounts(c.mgr.recs, id, generation, now);
        CountsKeepBase(c, Acquired(c.mgr.recs, id, now));
        RefsStayApart(own.recs, manager.store.Recs(), far);
        PartsMake(manager, index, tiers, c.(mgr := c.mgr.(recs := Acquired(c.mgr.recs, id, now))));
      } else {
        assert manager.store.Recs() == own.recs;
        PartsMake(manager, index, tiers, c);
      }
    }

    /** The bytes that a valid reference leads to. */
    method CopyPayload(ref: Option<nat>) returns (bytes: seq<Byte>)
      ensures ref == None ==> bytes == []
      ensures ref.Some? ==>
        bytes == if RefThrows(tiers.payloadStore.P(), ref) then [] else GetBytes(tiers.payloadStore.P(), ref)
    {
      bytes := [];
      if ref.Some? {
        var payload := tiers.GetPayload(ref);
        match payload {
          case Returned(span) => bytes := span;
          case Threw =>
        }
      }
    }

    /** The handle ends. */
    method Drop(handle: BlockHandle, id: BlockId, ghost hs: set<BlockHandle>)
      requires manager.Valid() && tiers.Valid() && index.Valid() && StoresOk(manager, tiers)
      requires id < |manager.store.Recs()|
      requires tiers.blockStore != manager.store
      requires handle.records == manager.store.records && handle.record == Some(id) && handle !in hs
      requires Counted(hs + {handle}, manager.store.records)
      modifies manager.store.records
      ensures manager.Valid() && tiers.Valid() && index.Valid() && StoresOk(manager, tiers)
      ensures Counted(hs, manager.store.records)
      ensures old(manager.store.Recs()[id]).refcount > 0
      ensures manager.store.Recs() == Released(old(manager.store.Recs()), id)
    {
      hide Wf;
      hide Counted;
      hide SamePlaces;
      hide RefsApart;
      hide TierInv;
      ghost var m, refs := manager.View(), Refs(tiers.blockStore.Recs());
      handle.Destroy(hs + {handle});
      assert hs + {handle} - {handle} == hs;
      SeenReleased(m.recs, refs, id);
      ReleasedInv(m, id);
      RefsStayApart(m.recs, manager.store.Recs(), tiers.blockStore.Recs());
    }

    /** A handle on this cache ends, and the cache stays in order. */
    method EndHandle(handle: BlockHandle, id: BlockId, ghost hs: set<BlockHandle>)
      requires Ready() && handle.records == manager.store.records && handle.record == Some(id)
      requires handle !in hs && Counted(hs + {handle}, manager.store.records)
      modifies manager.store.records
      ensures Ready() && Counted(hs, manager.store.records)
      ensures id < |old(View()).mgr.recs| && old(View()).mgr.recs[id].refcount > 0
      ensures View() == ReleaseHandle(old(View()), id)
    {
      hide Counted;
      hide BaseInv;
      hide Refs;
      hide SamePlaces;
      hide PartsOk;
      hide ViewOf;
      hide Released;
      hide ManagerInv;
      hide TierInv;
      PartsAre(manager, index, tiers);
      ghost var c, own, refs := View(), manager.View(), Refs(tiers.blockStore.Recs());
      CountedInRange(hs + {handle}, handle, manager.store.records);
      Drop(handle, id, hs);
      SeenReleased(own.recs, refs, id);
      ReleaseLater(c, id);
      PartsMake(manager, index, tiers, ReleaseHandle(c, id));
    }

    /** Reads a block for a peer: the handle that pins it meanwhile ends with the call.  No bytes come with it: the
        reference is in the tier manager's record, and the one read is the block manager's. */
    method ServeBlockFetch(id: BlockId, generation: nat, now: nat, ghost hs: set<BlockHandle>) returns (r: ServeOutcome)
      requires Ready() && Counted(hs, manager.store.records)
      modifies manager.store.records
      ensures Ready() && Counted(hs, manager.store.records)
      ensures ServeResult(View(), r.status, r.payload, r.hash, r.generation) == Serve(old(View()), id, generation, now)
      ensures r.payload == []
    {
      hide Wf;
      hide Exact;
      hide Contents;
      hide Counted;
      hide BaseInv;
      hide Refs;
      hide SamePlaces;
      hide PartsOk;
      hide ViewOf;
      hide Acquired;
      hide Released;
      hide SlotBytes;
      hide ManagerInv;
      hide TierInv;
      PartsAre(manager, index, tiers);
      ghost var c, own, far := View(), manager.View(), tiers.blockStore.Recs();
      ServeLater(c, id, generation, now);
      SeenFetch(own.recs, Refs(far), id, generation);
      var got := GetBlock(id, generation, now, hs);
      if got.status == NotFound {
        return ServeOutcome(ServeNotFound, [], ContentHash(0, 0), 0);
      }
      if got.status == FetchStatus.StaleGeneration {
        return ServeOutcome(ServeStale, [], ContentHash(0, 0), 0);
      }
      PartsAre(manager, index, tiers);
      ghost var pinned := manager.View();
      NoReference(pinned.recs, far, id);
      ServedRecords(own.recs, Refs(far), id, now);
      var rec := manager.store.records[id];
      var bytes := CopyPayload(rec.payload);
      r := ServeOutcome(ServeOk, bytes, rec.hash, rec.generation);
      Drop(got.handle.value, id, hs);
      PartsMake(manager, index, tiers, Serve(c, id, generation, now).cache);
    }

    method Snapshot() returns (r: CacheSnapshot)
      requires manager.store.Valid()
      ensures
        var recs := View().mgr.recs;
        r == CacheSnapshot(|recs|, |SlotsWhere(recs, IsUsed)|, |SlotsWhere(recs, IsReady)|)
    {
      hide Refs;
      hide WithRefs;
      hide SlotsWhere;
      var used, ready := Count();
      SeenCounts(manager.store.Recs(), Refs(tiers.blockStore.Recs()));
      r := CacheSnapshot(manager.store.records.Length, used, ready);
    }

    method Count() returns (used: nat, ready: nat)
      requires manager.store.Valid()
      ensures used == |SlotsWhere(manager.store.Recs(), IsUsed)|
      ensures ready == |SlotsWhere(manager.store.Recs(), IsReady)|
    {
      used, ready := 0, 0;
      var i := 0;
      ghost var recs := manager.store.Recs();
      while i < manager.store.records.Length
        invariant 0 <= i <= |recs|
        invariant used == |SlotsWhereUpTo(recs, IsUsed, i)| && ready == |SlotsWhereUpTo(recs, IsReady, i)|
      {
        OneSlotMore(recs, IsUsed, i);
        OneSlotMore(recs, IsReady, i);
        if manager.store.records[i].generation > 0 && manager.store.records[i].state != Free {
          used := used + 1;
        }
        if manager.store.records[i].state == BlockState.Ready {
          ready := ready + 1;
        }
        i := i + 1;
      }
      assert SlotsWhereUpTo(recs, IsUsed, i) == SlotsWhere(recs, IsUsed);
      assert SlotsWhereUpTo(recs, IsReady, i) == SlotsWhere(recs, IsReady);
    }
  }

  lemma NoHandlesAtStart(manager: BlockManager, capacity: nat)
    requires manager.store.Valid() && manager.View() == InitManager(capacity)
    ensures Counted({}, manager.store.records)
  {
    forall s: nat | s < manager.store.records.Length ensures manager.store.records[s].refcount == 0 {
      assert manager.store.records[s] == manager.View().recs[s];
    }
  }

  lemma ExactAtStart(index: PrefixIndex)
    requires index.Valid() && Covered(index.T()) && Injective(index.M())
    ensures Exact(index.T())
  {
    PrefixTree.ExactIff(index.blockSize, index.T());
  }

  /** A worker's cache at the start: an empty pool and index, and whatever its tier manager is. */
  ghost function StartCache(capacity: nat, bs: nat, t: TierState): Cache {
    Cache(bs, Seen(InitManager(capacity), Refs(t.recs)), map[], t.tiers, t.payloads, false)
  }

  ghost predicate CanStart(capacity: nat, t: TierState) {
    && t.tiers.Placed() == {} && capacity <= |t.recs|
    && (t.payloads.bytesPerBlock > 0 ==> capacity <= |t.payloads.buffers|)
  }

  lemma StartIs(capacity: nat, bs: nat, t: TierState)
    requires bs > 0
    ensures Injective(StartCache(capacity, bs, t).index)
    ensures TierInv(t) && capacity <= |t.recs| ==>
      (BaseInv(StartCache(capacity, bs, t)) <==> CanStart(capacity, t))
    ensures RefsApart(InitManager(capacity).recs, t.recs) <==> capacity <= |t.recs|
    ensures CanStart(capacity, t) ==> capacity <= |t.recs|
  {
    var c, refs := StartCache(capacity, bs, t), Refs(t.recs);
    InitManagerInv(capacity);
    SeenManager(InitManager(capacity), refs);
    if TierInv(t) && t.tiers.Placed() == {} {
      assert TierInv(c.TS());
    }
    if t.tiers.Placed() != {} {
      SomeElement(t.tiers.Placed());
    }
  }

  lemma StartParts(manager: BlockManager, index: PrefixIndex, tiers: TierManager, capacity: nat)
    requires manager.Valid() && manager.View() == InitManager(capacity)
    requires index.Valid() && index.M() == map[] && index.blockSize > 0
    requires tiers.blockStore != manager.store && tiers.blockStore.records != manager.store.records
    ensures ViewOf(manager, index, tiers) == StartCache(capacity, index.blockSize, tiers.TS()) && Injective(index.M())
    ensures PartsOk(manager, index, tiers) <==> tiers.Valid() && CanStart(capacity, tiers.TS())
  {
    hide BaseInv;
    hide ManagerInv;
    hide TierInv;
    hide Wf;
    hide Contents;
    hide CanStart;
    hide InitManager;
    hide RefsApart;
    StartIs(capacity, index.blockSize, tiers.TS());
  }

  /** Over a tier manager that is new it is the initial cache. */
  lemma StartIsInit(capacity: nat, bs: nat, gpu: nat, host: nat, maxBlocks: nat, bytesPerBlock: nat, records: nat)
    ensures
      var t := TierState(Tiers(TierSet(gpu, {}), TierSet(host, {})), InitPayloads(maxBlocks, bytesPerBlock),
                         seq(records, _ => EMPTY_RECORD));
      StartCache(capacity, bs, t) == InitCache(capacity, bs, gpu, host, maxBlocks, bytesPerBlock, false)
  {
  }

  lemma AcquiredCounts(recs: seq<BlockRecord>, id: BlockId, generation: nat, now: nat)
    requires FetchLocalStatus(recs, id, generation) == Hit
    ensures OnlyCountsDiffer(recs, Acquired(recs, id, now))
  {
  }

  lemma NoReference(own: seq<BlockRecord>, far: seq<BlockRecord>, id: BlockId)
    requires RefsApart(own, far) && id < |own|
    ensures own[id].payload == None
  {
  }

  /** A handle taken and dropped again, in the manager's records and in what the cache is seen as. */
  lemma ServedRecords(own: seq<BlockRecord>, refs: seq<Option<nat>>, id: BlockId, now: nat)
    requires id < |own|
    ensures
      var pinned := Acquired(own, id, now);
      var dropped := Released(pinned, id);
      && |pinned| == |own| && pinned[id].hash == own[id].hash && pinned[id].generation == own[id].generation
      && dropped == pinned[id := WithRefcount(pinned[id], pinned[id].refcount - 1)]
      && WithRefs(dropped, refs) == Released(Acquired(WithRefs(own, refs), id, now), id)
      && SamePlaces(pinned, dropped)
  {
    SeenAcquired(own, refs, id, now);
    SeenReleased(Acquired(own, id, now), refs, id);
  }
}
