/** The objects that tie one worker's structures together (src/prefix/prefix_lookup_engine.cc,
    src/policy/feature_builders.cc, the controllers under src/controller, src/core/local_cache.cc), each method proved
    against the functions of CacheModel and CacheOps. */
module Controllers {
  import opened Types
  import opened PrefixTree
  import opened PrefixMap
  import opened PrefixIndices
  import opened BlockLifecycle
  import opened Blocks
  import opened TierModel
  import opened Tiering
  import opened CacheModel
  import opened CacheTheory
  import opened CacheOps
  import opened PrefixAware
  import opened TwoStores

  /** The cache that the objects hold together; the payload references are the tier manager's. */
  ghost function ViewOf(manager: BlockManager, index: PrefixIndex, tiers: TierManager): Cache
    reads manager, manager.pool, manager.store, manager.store.records, index
    reads tiers, tiers.gpu, tiers.host, tiers.payloadStore, tiers.blockStore.records
  {
    Cache(index.blockSize, Seen(manager.View(), Refs(tiers.blockStore.Recs())), index.M(),
          Tiers(tiers.gpu.S(), tiers.host.S()), tiers.payloadStore.P(), tiers.blockStore == manager.store)
  }

  /** The tier manager works on the block manager's own records, or on others of which there are enough; then the
      block manager's own have no payload references. */
  ghost predicate StoresOk(manager: BlockManager, tiers: TierManager)
    reads manager, manager.store, manager.store.records, tiers, tiers.blockStore, tiers.blockStore.records
  {
    || tiers.blockStore == manager.store
    || (&& tiers.blockStore.records != manager.store.records
        && RefsApart(manager.store.Recs(), tiers.blockStore.Recs()))
  }

  /** The objects are wired to each other and in agreement.  The reverse index need not be exact: after an
      admission has evicted an ancestor of its own candidate it is not, and the objects go on working. */
  ghost predicate PartsOk(manager: BlockManager, index: PrefixIndex, tiers: TierManager)
    reads manager, manager.pool, manager.store, manager.store.records, index
    reads tiers, tiers.gpu, tiers.host, tiers.payloadStore, tiers.blockStore, tiers.blockStore.records
  {
    && manager.Valid() && tiers.Valid() && index.Valid() && StoresOk(manager, tiers)
    && BaseInv(ViewOf(manager, index, tiers))
  }

  lemma PartsAre(manager: BlockManager, index: PrefixIndex, tiers: TierManager)
    requires PartsOk(manager, index, tiers)
    ensures manager.Valid() && tiers.Valid() && index.Valid() && StoresOk(manager, tiers)
    ensures |manager.store.Recs()| <= |tiers.blockStore.Recs()|
    ensures
      var c := ViewOf(manager, index, tiers);
      && BaseInv(c) && c.bs == index.blockSize && c.mgr == Seen(manager.View(), Refs(tiers.blockStore.Recs()))
      && c.index == index.M() && c.tiers == tiers.TS().tiers && c.payloads == tiers.TS().payloads
      && c.shared == (tiers.blockStore == manager.store)
      && c.mgr.pool == manager.pool.P() && |c.mgr.recs| == |manager.store.Recs()|
  {
    EnoughRecords(manager.store.Recs(), tiers.blockStore.Recs());
  }

  lemma PartsFrom(manager: BlockManager, index: PrefixIndex, tiers: TierManager)
    requires manager.Valid() && tiers.Valid() && index.Valid() && StoresOk(manager, tiers)
    requires BaseInv(ViewOf(manager, index, tiers))
    ensures PartsOk(manager, index, tiers)
  {
  }

  lemma PartsMake(manager: BlockManager, index: PrefixIndex, tiers: TierManager, c: Cache)
    requires manager.Valid() && tiers.Valid() && index.Valid() && StoresOk(manager, tiers)
    requires BaseInv(c) && c.bs == index.blockSize && c.mgr == Seen(manager.View(), Refs(tiers.blockStore.Recs()))
    requires c.index == index.M() && c.tiers == tiers.TS().tiers && c.payloads == tiers.TS().payloads
    requires c.shared == (tiers.blockStore == manager.store)
    ensures PartsOk(manager, index, tiers) && ViewOf(manager, index, tiers) == c
  {
  }

  class SafeCandidateFinder {
    const store: BlockStore

    constructor (store: BlockStore)
      ensures this.store == store
    {
      this.store := store;
    }

    method Find() returns (candidates: seq<BlockId>)
      ensures candidates == SafeCandidates(store.Recs())
    {
      candidates := [];
      var i := 0;
      while i < store.records.Length
        invariant 0 <= i <= store.records.Length && candidates == SafeUpTo(store.Recs(), i)
      {
        if store.records[i].state == Ready && store.records[i].refcount == 0 {
          candidates := candidates + [store.records[i].id];
        }
        i := i + 1;
      }
    }
  }

  class BlockFeatureBuilder {
    const store: BlockStore
    const index: PrefixIndex

    constructor (store: BlockStore, index: PrefixIndex)
      ensures this.store == store && this.index == index
    {
      this.store, this.index := store, index;
    }

    /** Record fields, age, and the counts of stored keys below the key that the reverse index has for the
        block. */
    method Build(id: BlockId, now: nat) returns (r: Outcome<Features>)
      requires store.Valid() && index.Valid()
      ensures r.Threw? <==> id >= |store.Recs()|
      ensures r.Returned? ==>
        r.value == FeaturesWith(store.Recs()[id], id, now, index.ChildrenOf(id), index.DescendantsOf(id))
      ensures r.Returned? ==>
        && ShownTrue(store.Recs()[id], id, now, r.value)
        && r.value.childCount == index.ChildrenOf(id) && r.value.descendantCount == index.DescendantsOf(id)
        && (r.value.isSharedPrefix <==> index.ChildrenOf(id) > 0)
      ensures r.Returned? && Exact(index.T()) ==>
        r.value == BuildFeatures(store.Recs(), index.M(), index.blockSize, id, now)
    {
      hide Wf;
      hide Exact;
      hide Contents;
      hide ChildCount;
      hide DescendantCount;
      var rec := store.Get(id);
      if rec.Threw? {
        return Threw;
      }
      var r0 := rec.value;
      var childCount := index.BlockChildCount(id);
      var descendants := index.BlockDescendantCount(id);
      var age := if now >= r0.lastAccess then now - r0.lastAccess else 0;
      r := Returned(Features(id, r0.hash, r0.tier, age, r0.lastAccess, r0.accessCount, r0.blockIndex, childCount,
                             descendants, childCount > 0));
    }
  }

  datatype PinnedLookup = PinnedLookup(handles: seq<BlockHandle>, matched: nat)

  ghost function HandleSet(handles: seq<BlockHandle>): set<BlockHandle> {
    set h | h in handles
  }

  /** The handles are on these records of the array, in this order. */
  ghost predicate HandlesOn(handles: seq<BlockHandle>, records: array<BlockRecord>, ids: seq<BlockId>)
    reads HandleSet(handles)
  {
    && |handles| == |ids|
    && forall i | 0 <= i < |handles| ::
      handles[i] in HandleSet(handles) && handles[i].records == records && handles[i].record == Some(ids[i])
  }

  /** No handle twice. */
  ghost predicate Different(handles: seq<BlockHandle>) {
    forall i, j | 0 <= i < j < |handles| :: handles[i] != handles[j]
  }

  /** The records after one attempt to pin: a handle on a block of another size is dropped again. */
  function AfterPin(recs: seq<BlockRecord>, id: BlockId, bs: nat, now: nat): seq<BlockRecord> {
    if !CanAcquire(recs, id) then recs
    else if CanPin(recs, id, bs) then Acquired(recs, id, now)
    else Released(Acquired(recs, id, now), id)
  }

  lemma AfterPinInv(m: Manager, id: BlockId, bs: nat, now: nat)
    requires ManagerInv(m)
    ensures ManagerInv(m.(recs := AfterPin(m.recs, id, bs, now)))
  {
    if CanAcquire(m.recs, id) {
      AcquiredInv(m, id, now);
      ReleasedInv(m.(recs := Acquired(m.recs, id, now)), id);
    }
  }

  /** One round of the pinning loop. */
  lemma PinAllUnfold(c: Cache, blocks: seq<BlockId>, i: nat, bs: nat, now: nat)
    requires i < |blocks|
    ensures
      var c' := c.(mgr := c.mgr.(recs := AfterPin(c.mgr.recs, blocks[i], bs, now)));
      PinAll(c, blocks[i..], bs, now) ==
        if CanPin(c.mgr.recs, blocks[i], bs) then
          LookupResult(PinAll(c', blocks[i + 1..], bs, now).cache,
                       [blocks[i]] + PinAll(c', blocks[i + 1..], bs, now).handles)
        else LookupResult(c', [])
  {
    assert blocks[i..][1..] == blocks[i + 1..];
    assert c.(mgr := c.mgr.(recs := c.mgr.recs)) == c;
  }

  lemma NoHandles(records: array<BlockRecord>, hs: set<BlockHandle>)
    ensures HandlesOn([], records, []) && Different([]) && hs + HandleSet([]) == hs
  {
  }

  lemma PinAllNone(c: Cache, bs: nat, now: nat)
    ensures PinAll(c, [], bs, now) == LookupResult(c, [])
  {
  }

  lemma HandlesPush(handles: seq<BlockHandle>, h: BlockHandle, records: array<BlockRecord>, ids: seq<BlockId>,
                    id: BlockId, hs: set<BlockHandle>)
    requires HandlesOn(handles, records, ids) && h.records == records && h.record == Some(id)
    requires Different(handles) && h !in handles
    ensures HandlesOn(handles + [h], records, ids + [id]) && Different(handles + [h])
    ensures hs + HandleSet(handles + [h]) == hs + HandleSet(handles) + {h}
  {
    assert HandleSet(handles + [h]) == HandleSet(handles) + {h};
  }

  class PrefixLookupEngine {
    const index: PrefixIndex
    const manager: BlockManager

    constructor (index: PrefixIndex, manager: BlockManager)
      ensures this.index == index && this.manager == manager
    {
      this.index, this.manager := index, manager;
    }

    method RawLookupBlocks(ctx: ContextHash, tokens: seq<Token>) returns (blocks: seq<BlockId>)
      requires index.Valid() && index.blockSize > 0
      ensures blocks == Chain(index.M(), index.blockSize, ctx, tokens)
    {
      var matched;
      blocks, matched := index.Lookup(ctx, tokens);
      LongestChainUnique(index.M(), index.blockSize, ctx, tokens, blocks,
                         Chain(index.M(), index.blockSize, ctx, tokens));
    }

    method Pin(id: BlockId, bs: nat, now: nat, ghost hs: set<BlockHandle>) returns (r: Option<BlockHandle>)
      requires manager.Valid() && Counted(hs, manager.store.records)
      modifies manager.store.records
      ensures manager.Valid() && manager.pool.P() == old(manager.pool.P())
      ensures manager.store.Recs() == AfterPin(old(manager.store.Recs()), id, bs, now)
      ensures r.Some? <==> CanPin(old(manager.store.Recs()), id, bs)
      ensures r.Some? ==> fresh(r.value) && r.value.records == manager.store.records && r.value.record == Some(id)
      ensures Counted(if r.Some? then hs + {r.value} else hs, manager.store.records)
    {
      hide ManagerInv;
      ghost var m := manager.View();
      AfterPinInv(m, id, bs, now);
      r := manager.Acquire(id, now, hs);
      if r.Some? && manager.store.records[id].tokenCount != Truncated16(bs) {
        r.value.Destroy(hs + {r.value});
        assert hs + {r.value} - {r.value} == hs;
        assert manager.store.Recs() == AfterPin(m.recs, id, bs, now);
        assert manager.View() == m.(recs := AfterPin(m.recs, id, bs, now));
        r := None;
      }
    }

    /** Turns the hits of the index into pinned handles, in order, and stops at the first block that cannot
        be acquired or has another token count. */
    method Lookup(ctx: ContextHash, tokens: seq<Token>, bs: nat, now: nat, ghost c: Cache, ghost hs: set<BlockHandle>)
      returns (r: PinnedLookup)
      requires index.Valid() && index.blockSize > 0 && manager.Valid() && c.mgr == manager.View()
      requires Counted(hs, manager.store.records)
      modifies manager.store.records
      ensures manager.Valid()
      ensures
        var p := PinAll(c, Chain(index.M(), index.blockSize, ctx, tokens), bs, now);
        p.cache == c.(mgr := manager.View()) && HandlesOn(r.handles, manager.store.records, p.handles)
      ensures r.matched == |r.handles| * bs
      ensures Different(r.handles) && forall h | h in r.handles :: fresh(h)
      ensures Counted(hs + HandleSet(r.handles), manager.store.records)
    {
      hide Wf;
      hide Contents;
      hide ManagerInv;
      hide Chain;
      hide Counted;
      hide PinAll;
      hide CanPin;
      hide AfterPin;
      hide Different;
      var blocks := RawLookupBlocks(ctx, tokens);
      var handles: seq<BlockHandle> := [];
      var matched := 0;
      var i := 0;
      assert blocks[0..] == blocks;
      NoHandles(manager.store.records, hs);
      while i < |blocks|
        invariant 0 <= i == |handles| <= |blocks| && matched == i * bs
        invariant manager.Valid() && manager.pool.P() == old(manager.pool.P())
        invariant HandlesOn(handles, manager.store.records, blocks[..i])
        invariant Different(handles) && forall h | h in handles :: fresh(h)
        invariant Counted(hs + HandleSet(handles), manager.store.records)
        invariant
          var rest := PinAll(c.(mgr := manager.View()), blocks[i..], bs, now);
          PinAll(c, blocks, bs, now) == LookupResult(rest.cache, blocks[..i] + rest.handles)
      {
        PinAllUnfold(c.(mgr := manager.View()), blocks, i, bs, now);
        var handle := Pin(blocks[i], bs, now, hs + HandleSet(handles));
        if handle == None {
          assert PinAll(c, blocks, bs, now) == LookupResult(c.(mgr := manager.View()), blocks[..i]);
          break;
        }
        HandlesPush(handles, handle.value, manager.store.records, blocks[..i], blocks[i], hs);
        matched := matched + bs;
        handles := handles + [handle.value];
        i := i + 1;
        assert blocks[..i] == blocks[..i - 1] + [blocks[i - 1]];
      }
      PinAllNone(c.(mgr := manager.View()), bs, now);
      assert i == |blocks| ==> blocks[i..] == [];
      r := PinnedLookup(handles, matched);
    }

    method InsertFullBlocks(ctx: ContextHash, tokens: seq<Token>, blocks: seq<BlockId>)
      requires index.Valid() && Fits(index.blockSize, tokens, |blocks|)
      modifies index
      ensures index.Valid() && index.M() == InsertChain(old(index.M()), index.blockSize, ctx, tokens, blocks)
      ensures old(Covered(index.T())) ==> Covered(index.T())
    {
      index.Insert(ctx, tokens, blocks);
    }

    /** Of a block that is stored once the key goes; of one that is stored twice only the key that the reverse
        index has for it. */
    method RemoveBlock(id: BlockId)
      requires index.Valid()
      modifies index
      ensures index.Valid()
      ensures id !in old(index.blockNode) ==> index.M() == old(index.M())
      ensures id in old(index.blockNode) ==>
        var k := old(index.keys[index.blockNode[id]]);
        k in old(index.M()) && old(index.M())[k] == id && index.M() == old(index.M()) - {k}
      ensures old(Exact(index.T())) ==> Exact(index.T()) && index.M() == RemoveId(old(index.M()), id)
    {
      index.Remove(id);
    }
  }

  /** What a policy is shown: the records of the candidates, with the counts of the index as it is. */
  ghost predicate FeaturesAre(recs: seq<BlockRecord>, index: PrefixIndex, candidates: seq<BlockId>, now: nat,
                              features: seq<Features>)
    requires index.Valid()
    reads index
  {
    && |features| == |candidates|
    && forall j | 0 <= j < |features| :: SeenAs(recs, index, candidates[j], now, features[j])
  }

  ghost predicate SeenAs(recs: seq<BlockRecord>, index: PrefixIndex, id: BlockId, now: nat, f: Features)
    requires index.Valid()
    reads index
  {
    id < |recs| && f == FeaturesWith(recs[id], id, now, index.ChildrenOf(id), index.DescendantsOf(id))
  }

  class EvictionController {
    const policy: EvictionPolicy
    const manager: BlockManager
    const engine: PrefixLookupEngine
    const finder: SafeCandidateFinder
    const tiers: TierManager
    const builder: BlockFeatureBuilder

    ghost predicate Wired()
      reads this
    {
      && engine.manager == manager
      && finder.store == manager.store
      && builder.store == manager.store
      && builder.index == engine.index
      && PicksFromOffer(policy)
    }

    constructor (policy: EvictionPolicy, manager: BlockManager, engine: PrefixLookupEngine, finder: SafeCandidateFinder,
                 tiers: TierManager)
      requires engine.manager == manager && finder.store == manager.store && PicksFromOffer(policy)
      ensures Wired() && this.manager == manager && this.engine == engine && this.tiers == tiers
      ensures this.policy == policy
    {
      this.policy, this.manager, this.engine, this.finder, this.tiers := policy, manager, engine, finder, tiers;
      builder := new BlockFeatureBuilder(manager.store, engine.index);
    }

    /** Those of the candidates that one tier holds, in the order given. */
    method FilterIn(tier: Tier, all: seq<BlockId>) returns (candidates: seq<BlockId>)
      requires Wired() && manager.store.Valid() && InBounds(manager.store.Recs(), all)
      ensures candidates == FilterTier(manager.store.Recs(), tier, all)
    {
      candidates := [];
      var i := 0;
      while i < |all|
        invariant 0 <= i <= |all| && candidates == FilterTier(manager.store.Recs(), tier, all[..i])
      {
        var rec := manager.store.Get(all[i]);
        assert all[..i + 1][..i] == all[..i];
        if rec.value.tier == tier {
          candidates := candidates + [all[i]];
        }
        i := i + 1;
      }
      assert all[..i] == all;
    }

    method FeaturesFor(candidates: seq<BlockId>, now: nat) returns (features: seq<Features>)
      requires Wired() && manager.store.Valid() && engine.index.Valid()
      requires InBounds(manager.store.Recs(), candidates)
      ensures FeaturesAre(manager.store.Recs(), engine.index, candidates, now, features)
      ensures Exact(engine.index.T()) ==>
        features == OfferFeatures(manager.store.Recs(), engine.index.M(), engine.index.blockSize, now, candidates)
    {
      hide Wf;
      hide Exact;
      hide Contents;
      hide BuildFeatures;
      hide FeaturesWith;
      hide PrefixIndex.ChildrenOf;
      hide PrefixIndex.DescendantsOf;
      features := [];
      ghost var recs, m, bs := manager.store.Recs(), engine.index.M(), engine.index.blockSize;
      var i := 0;
      while i < |candidates|
        invariant 0 <= i <= |candidates|
        invariant FeaturesAre(recs, engine.index, candidates[..i], now, features)
        invariant Exact(engine.index.T()) ==>
          forall j | 0 <= j < i :: features[j] == BuildFeatures(recs, m, bs, candidates[j], now)
      {
        var f := builder.Build(candidates[i], now);
        features := features + [f.value];
        i := i + 1;
      }
      assert candidates[..i] == candidates;
    }

    /** Out of its tier, and back to the pool. */
    method GiveBack(victim: BlockId)
      requires manager.Valid() && tiers.Valid() && StoresOk(manager, tiers)
      requires victim < |manager.store.Recs()| && victim < |tiers.blockStore.Recs()|
      modifies manager.pool, manager.store.records, tiers.gpu, tiers.host, tiers.payloadStore
      ensures manager.Valid() && tiers.Valid() && StoresOk(manager, tiers)
      ensures manager.View() == Transitioned(old(manager.View()), victim, Evicting, Free)
      ensures tiers.TS().tiers == RemovedState(old(tiers.TS()), victim).tiers
      ensures tiers.TS().payloads == RemovedState(old(tiers.TS()), victim).payloads
      ensures Refs(tiers.blockStore.Recs()) == old(Refs(tiers.blockStore.Recs()))
    {
      hide TierInv;
      hide ManagerInv;
      hide Transitioned;
      hide TransitionThrows;
      hide Refs;
      hide SamePlaces;
      hide RefsApart;
      ghost var own, far := manager.View(), tiers.blockStore.Recs();
      TransitionPlaces(own, victim, Evicting, Free);
      var removed := tiers.Remove(victim);
      ghost var t := tiers.TS();
      var done := manager.FreeBlock(victim);
      TiersStay(t, tiers.blockStore.Recs());
      RefsStayApart(own.recs, manager.store.Recs(), far);
    }

    /** Takes one victim out of everything. */
    method EvictBlock(victim: BlockId)
      requires Wired() && PartsOk(manager, engine.index, tiers)
      requires victim < |manager.store.Recs()| && Evictable(manager.store.Recs()[victim])
      modifies manager.pool, manager.store.records, engine.index, tiers.gpu, tiers.host, tiers.payloadStore
      ensures PartsOk(manager, engine.index, tiers)
      ensures ViewOf(manager, engine.index, tiers)
        == Evicted(old(ViewOf(manager, engine.index, tiers)), victim).(index := engine.index.M())
      ensures ShrunkEntries(old(engine.index.M()), [victim], engine.index.M())
      ensures old(Exact(engine.index.T())) ==>
        && Exact(engine.index.T())
        && ViewOf(manager, engine.index, tiers) == Evicted(old(ViewOf(manager, engine.index, tiers)), victim)
    {
      hide Wf;
      hide Exact;
      hide Contents;
      hide BaseInv;
      hide TierInv;
      hide ManagerInv;
      hide Transitioned;
      hide TransitionThrows;
      hide RemovedState;
      hide RemoveId;
      hide Evicted;
      hide Seen;
      hide Refs;
      hide SamePlaces;
      hide ShrunkEntries;
      hide RefsApart;
      hide PartsOk;
      hide ViewOf;
      PartsAre(manager, engine.index, tiers);
      ghost var c, own, far := ViewOf(manager, engine.index, tiers), manager.View(), tiers.TS();
      EvictedSeen(c, own, far, victim);
      EvictedBase(c, victim);
      var done := manager.TransitionState(victim, Ready, Evicting);
      TiersStay(far, tiers.blockStore.Recs());
      RefsStayApart(own.recs, manager.store.Recs(), far.recs);
      RemovedByRef(far, tiers.blockStore.Recs(), victim);
      engine.RemoveBlock(victim);
      ghost var m := engine.index.M();
      ShrunkByOne(c.index, victim, m);
      BaseIgnoresIndex(Evicted(c, victim), m);
      GiveBack(victim);
      PartsMake(manager, engine.index, tiers, Evicted(c, victim).(index := m));
    }

    /** Evicts one eligible block of the tier, the policy's choice, if it makes one. */
    method EvictOne(tier: Tier, now: nat) returns (victim: Option<BlockId>)
      requires Wired() && PartsOk(manager, engine.index, tiers)
      modifies manager.pool, manager.store.records, engine.index, tiers.gpu, tiers.host, tiers.payloadStore
      ensures PartsOk(manager, engine.index, tiers)
      ensures victim == None ==>
        ViewOf(manager, engine.index, tiers) == old(ViewOf(manager, engine.index, tiers))
      ensures victim.Some? ==>
        var c, c' := old(ViewOf(manager, engine.index, tiers)), ViewOf(manager, engine.index, tiers);
        && victim.value in EligibleSlots(c.mgr.recs, tier) && victim.value < |c.mgr.recs|
        && c' == Evicted(c, victim.value).(index := c'.index) && ShrunkEntries(c.index, [victim.value], c'.index)
      ensures old(Exact(engine.index.T())) ==>
        var c := old(ViewOf(manager, engine.index, tiers));
        && Exact(engine.index.T()) && victim == Victim(c, tier, now, policy)
        && (victim.Some? ==>
            victim.value < |c.mgr.recs| && ViewOf(manager, engine.index, tiers) == Evicted(c, victim.value))
    {
      hide Wf;
      hide Exact;
      hide Contents;
      hide BaseInv;
      hide OfferFeatures;
      hide SafeCandidates;
      hide FilterTier;
      hide PicksFromOffer;
      hide Evicted;
      hide Victim;
      hide FeaturesAre;
      hide EligibleSlots;
      hide ShrunkEntries;
      hide Refs;
      hide FeaturesWith;
      hide PartsOk;
      hide ViewOf;
      hide StoresOk;
      hide TierInv;
      hide ManagerInv;
      PartsAre(manager, engine.index, tiers);
      ghost var c, refs := ViewOf(manager, engine.index, tiers), Refs(tiers.blockStore.Recs());
      victim := None;
      SeenOffer(manager.store.Recs(), refs, tier);
      SafeInBounds(c);
      NothingOffered(c, tier, now, policy);
      var all := finder.Find();
      if all == [] {
        return;
      }
      var candidates := FilterIn(tier, all);
      if candidates == [] {
        return;
      }
      VictimUnfold(c, tier, now, policy);
      SeenOfferFeatures(manager.store.Recs(), refs, engine.index.M(), engine.index.blockSize, now, candidates);
      var features := FeaturesFor(candidates, now);
      victim := policy(EvictionContext(tier, now), features);
      if victim == None {
        return;
      }
      FeaturesSeen(manager.store.Recs(), refs, engine.index, candidates, now, features);
      ChoiceEligible(c, engine.index, tier, now, features, policy, victim.value);
      EvictBlock(victim.value);
    }

    /** Evicts one victim of the policy after the other until enough are gone or there is none.  Whatever the
        state of the reverse index, the victims are eligible blocks of the tier; when it is exact, they are
        the ones that makeSpace chooses. */
    method MakeSpace(needed: nat, tier: Tier, now: nat)
      returns (status: SpaceStatus, evicted: nat, ghost vs: seq<BlockId>)
      requires Wired() && PartsOk(manager, engine.index, tiers)
      modifies manager.pool, manager.store.records, engine.index, tiers.gpu, tiers.host, tiers.payloadStore
      ensures PartsOk(manager, engine.index, tiers)
      ensures Evicts(old(ViewOf(manager, engine.index, tiers)), tier, vs, ViewOf(manager, engine.index, tiers))
      ensures |vs| == evicted <= needed && (status == SpaceMade <==> evicted == needed)
      ensures old(Exact(engine.index.T())) ==>
        && Exact(engine.index.T())
        && SpaceResult(ViewOf(manager, engine.index, tiers), status, evicted) ==
          CacheModel.MakeSpace(old(ViewOf(manager, engine.index, tiers)), needed, tier, now, policy)
    {
      hide Wf;
      hide Exact;
      hide Contents;
      hide BaseInv;
      hide PicksFromOffer;
      hide MakeSpaceFrom;
      hide Evicted;
      hide Evicts;
      hide Victim;
      hide EligibleSlots;
      hide ShrunkEntries;
      ghost var c0, exact := ViewOf(manager, engine.index, tiers), Exact(engine.index.T());
      evicted, vs := 0, [];
      NoneEvicted(c0, tier);
      while evicted < needed
        invariant evicted <= needed && |vs| == evicted && PartsOk(manager, engine.index, tiers)
        invariant Evicts(c0, tier, vs, ViewOf(manager, engine.index, tiers))
        invariant exact ==>
          && Exact(engine.index.T())
          && MakeSpaceFrom(ViewOf(manager, engine.index, tiers), evicted, needed, tier, now, policy)
            == MakeSpaceFrom(c0, 0, needed, tier, now, policy)
      {
        ghost var c := ViewOf(manager, engine.index, tiers);
        MakeSpaceUnfold(c, evicted, needed, tier, now, policy);
        var victim := EvictOne(tier, now);
        if victim == None {
          return InsufficientCandidates, evicted, vs;
        }
        EvictsThen(c0, tier, vs, c, victim.value, ViewOf(manager, engine.index, tiers));
        evicted, vs := evicted + 1, vs + [victim.value];
      }
      MakeSpaceDone(ViewOf(manager, engine.index, tiers), evicted, needed, tier, now, policy);
      status := SpaceMade;
    }
  }

  /** The steps of an eviction on a manager and on records that the tier manager has. */
  lemma EvictedSeen(c: Cache, own: Manager, far: TierState, victim: BlockId)
    requires BaseInv(c) && c.mgr == Seen(own, Refs(far.recs)) && c.tiers == far.tiers && c.payloads == far.payloads
    requires ManagerInv(own) && |own.recs| <= |far.recs| && victim < |own.recs| && Evictable(own.recs[victim])
    ensures victim < |c.mgr.recs| && Evictable(c.mgr.recs[victim])
    ensures
      var m1 := Transitioned(own, victim, Ready, Evicting);
      var m2 := Transitioned(m1, victim, Evicting, Free);
      var t := RemovedState(far, victim);
      && Evicted(c, victim)
        == Cache(c.bs, Seen(m2, Refs(far.recs)), RemoveId(c.index, victim), t.tiers, t.payloads, c.shared)
      && SamePlaces(own.recs, m1.recs) && SamePlaces(m1.recs, m2.recs) && SamePlaces(own.recs, m2.recs)
      && m1.recs[victim].payload == own.recs[victim].payload
  {
    hide ManagerInv;
    hide TierInv;
    hide Transitioned;
    hide TransitionThrows;
    hide RemovedState;
    var m1 := Transitioned(own, victim, Ready, Evicting);
    SeenTransition(own, Refs(far.recs), victim, Ready, Evicting);
    SeenTransition(m1, Refs(far.recs), victim, Evicting, Free);
    TransitionPlaces(own, victim, Ready, Evicting);
    TransitionPlaces(m1, victim, Evicting, Free);
    RemovedByRef(far, Seen(m1, Refs(far.recs)).recs, victim);
  }

  lemma NothingOffered(c: Cache, tier: Tier, now: nat, policy: EvictionPolicy)
    ensures FilterTier(c.mgr.recs, tier, []) == []
    ensures Offer(c.mgr.recs, tier) == [] ==> Victim(c, tier, now, policy) == None
  {
  }

  lemma ShrunkByOne(m: Entries, id: BlockId, m': Entries)
    requires m' == m || exists k :: k in m && m[k] == id && m' == m - {k}
    ensures ShrunkEntries(m, [id], m')
  {
    assert id in [id];
  }

  lemma FeaturesSeen(recs: seq<BlockRecord>, refs: seq<Option<nat>>, index: PrefixIndex, candidates: seq<BlockId>,
                     now: nat, features: seq<Features>)
    requires index.Valid() && FeaturesAre(recs, index, candidates, now, features)
    ensures FeaturesAre(WithRefs(recs, refs), index, candidates, now, features)
  {
    hide Wf;
    hide PrefixIndex.ChildrenOf;
    hide PrefixIndex.DescendantsOf;
    forall j | 0 <= j < |features| ensures SeenAs(WithRefs(recs, refs), index, candidates[j], now, features[j]) {
      assert SeenAs(recs, index, candidates[j], now, features[j]);
    }
  }

  /** What a policy chooses from its offer is eligible, whatever the features say. */
  lemma ChoiceEligible(c: Cache, index: PrefixIndex, tier: Tier, now: nat, features: seq<Features>,
                       policy: EvictionPolicy, v: BlockId)
    requires BaseInv(c) && PicksFromOffer(policy) && index.Valid()
    requires FeaturesAre(c.mgr.recs, index, Offer(c.mgr.recs, tier), now, features)
    requires policy(EvictionContext(tier, now), features) == Some(v)
    ensures v in EligibleSlots(c.mgr.recs, tier) && v < |c.mgr.recs| && Evictable(c.mgr.recs[v])
  {
    hide PrefixIndex.ChildrenOf;
    hide PrefixIndex.DescendantsOf;
    hide Wf;
    hide Offer;
    hide BaseInv;
    var ids := Offer(c.mgr.recs, tier);
    OfferOfBase(c, tier);
    var i :| 0 <= i < |features| && features[i].id == v;
    assert SeenAs(c.mgr.recs, index, ids[i], now, features[i]) && ids[i] in ids;
  }

  lemma SafeInBounds(c: Cache)
    requires BaseInv(c)
    ensures InBounds(c.mgr.recs, SafeCandidates(c.mgr.recs))
  {
    ReadyIds(c);
    SafeUpToIs(c.mgr.recs, |c.mgr.recs|);
    forall i | 0 <= i < |SafeCandidates(c.mgr.recs)| ensures SafeCandidates(c.mgr.recs)[i] < |c.mgr.recs| {
      assert SafeCandidates(c.mgr.recs)[i] in SafeCandidates(c.mgr.recs);
    }
  }

  lemma VictimUnfold(c: Cache, tier: Tier, now: nat, policy: EvictionPolicy)
    requires BaseInv(c) && Offer(c.mgr.recs, tier) != []
    ensures InBounds(c.mgr.recs, Offer(c.mgr.recs, tier))
    ensures Victim(c, tier, now, policy) ==
      policy(EvictionContext(tier, now), OfferFeatures(c.mgr.recs, c.index, c.bs, now, Offer(c.mgr.recs, tier)))
  {
    ReadyIds(c);
    OfferIs(c.mgr.recs, tier);
  }

  /** One round of the loop. */
  lemma MakeSpaceUnfold(c: Cache, evicted: nat, needed: nat, tier: Tier, now: nat, policy: EvictionPolicy)
    requires BaseInv(c) && PicksFromOffer(policy) && evicted < needed
    ensures InBounds(c.mgr.recs, Offer(c.mgr.recs, tier))
    ensures
      var v := Victim(c, tier, now, policy);
      && (Offer(c.mgr.recs, tier) == [] ==> v == None)
      && (v == None ==>
          MakeSpaceFrom(c, evicted, needed, tier, now, policy) == SpaceResult(c, InsufficientCandidates, evicted))
      && (v.Some? ==>
            && v.value < |c.mgr.recs| && Evictable(c.mgr.recs[v.value])
            && MakeSpaceFrom(c, evicted, needed, tier, now, policy)
              == MakeSpaceFrom(Evicted(c, v.value), evicted + 1, needed, tier, now, policy))
  {
    hide BaseInv;
    hide Evicted;
    hide PicksFromOffer;
    hide OfferFeatures;
    hide IdsAreSlots;
    VictimOk(c, tier, now, policy);
    BaseManager(c);
    ReadyIds(c);
    OfferIs(c.mgr.recs, tier);
  }

  lemma MakeSpaceDone(c: Cache, evicted: nat, needed: nat, tier: Tier, now: nat, policy: EvictionPolicy)
    requires evicted >= needed
    ensures MakeSpaceFrom(c, evicted, needed, tier, now, policy) == SpaceResult(c, SpaceMade, evicted)
  {
  }

  lemma BaseManager(c: Cache)
    requires BaseInv(c)
    ensures ManagerInv(c.mgr)
  {
  }
}
