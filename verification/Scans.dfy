/** src/controller/promotion_controller.cc and demotion_controller.cc as objects: a scan over one tier that
    moves blocks to the other until that is full. */
module Scans {
  import opened Types
  import opened PrefixTree
  import opened PrefixIndices
  import opened BlockLifecycle
  import opened Blocks
  import opened TierModel
  import opened Tiering
  import opened CacheModel
  import opened CacheOps
  import opened Controllers
  import opened TwoStores

  datatype ScanContext = ScanContext(gpuUsed: nat, gpuCapacity: nat, timestamp: nat)

  type MovePolicy = (ScanContext, Features) -> bool

  ghost predicate MovedTiers(tiers: Tiers, source: Tier, target: Tier, moved: set<BlockId>, tiers': Tiers) {
    && source != target
    && moved <= tiers.At(source).ids
    && tiers'.At(source) == TierSet(tiers.At(source).capacity, tiers.At(source).ids - moved)
    && tiers'.At(target) == TierSet(tiers.At(target).capacity, tiers.At(target).ids + moved)
  }

  ghost predicate MovedRecords(recs: seq<BlockRecord>, target: Tier, moved: set<BlockId>, recs': seq<BlockRecord>) {
    && |recs'| == |recs|
    && forall s: nat | s < |recs| :: recs'[s] == if s in moved then recs[s].(tier := target) else recs[s]
  }

  /** c' is c with exactly these blocks moved to the target tier. */
  ghost predicate MovedTo(c: Cache, source: Tier, target: Tier, moved: set<BlockId>, c': Cache) {
    && MovedTiers(c.tiers, source, target, moved, c'.tiers)
    && MovedRecords(c.mgr.recs, target, moved, c'.mgr.recs)
    && c'.bs == c.bs && c'.mgr.pool == c.mgr.pool && c'.index == c.index && c'.payloads == c.payloads
  }

  /** Whether the policy would move this block, given its record and the counts of the index as it is. */
  ghost predicate Wanted(c: Cache, index: PrefixIndex, policy: MovePolicy, ctx: ScanContext, id: BlockId)
    requires index.Valid()
    reads index
  {
    && id < |c.mgr.recs|
    && policy(ctx, FeaturesWith(c.mgr.recs[id], id, ctx.timestamp, index.ChildrenOf(id), index.DescendantsOf(id)))
  }

  ghost function ContextOf(c: Cache, now: nat): ScanContext {
    ScanContext(|c.tiers.gpu.ids|, c.tiers.gpu.capacity, now)
  }

  /** The blocks of a tier that the policy would move, as the cache is before the scan. */
  ghost function AcceptedIn(c: Cache, index: PrefixIndex, source: Tier, policy: MovePolicy, now: nat)
    : (r: set<BlockId>)
    requires index.Valid()
    reads index
    ensures r <= c.tiers.At(source).ids
  {
    set id | id in c.tiers.At(source).ids && Wanted(c, index, policy, ContextOf(c, now), id)
  }

  /** The same, when every block is stored once: the counts are then those of the map. */
  ghost function AcceptedBlocks(c: Cache, source: Tier, policy: MovePolicy, now: nat): set<BlockId> {
    set id |
      && id in c.tiers.At(source).ids
      && id < |c.mgr.recs|
      && policy(ContextOf(c, now), BuildFeatures(c.mgr.recs, c.index, c.bs, id, now))
  }

  lemma AcceptedWhenExact(c: Cache, index: PrefixIndex, source: Tier, policy: MovePolicy, now: nat)
    requires index.Valid() && Exact(index.T()) && c.index == index.M() && c.bs == index.blockSize
    ensures AcceptedIn(c, index, source, policy, now) == AcceptedBlocks(c, source, policy, now)
  {
    hide Wf;
    hide Exact;
    hide PrefixIndex.ChildrenOf;
    hide PrefixIndex.DescendantsOf;
    forall id: BlockId {
      index.CountsWhenExact(id);
    }
  }

  /** A scan: only accepted blocks move, and at the end all accepted ones have moved or the target is
      full. */
  ghost predicate Scanned(c: Cache, source: Tier, target: Tier, accepted: set<BlockId>, moved: set<BlockId>,
                          c': Cache) {
    && MovedTo(c, source, target, moved, c')
    && moved <= accepted
    && (moved == accepted || !c'.tiers.At(target).HasCapacity())
  }

  lemma NothingMoved(c: Cache, source: Tier, target: Tier, h: Hasher)
    requires source != target
    ensures SoFar(c, source, target, {}, c, h)
  {
    LaterRefl(c);
    hide Later;
    hide CacheInv;
    assert c.tiers.At(source).ids - {} == c.tiers.At(source).ids;
    assert c.tiers.At(target).ids + {} == c.tiers.At(target).ids;
  }

  lemma MoveTiersMore(tiers: Tiers, source: Tier, target: Tier, moved: set<BlockId>, tiers': Tiers, id: BlockId)
    requires MovedTiers(tiers, source, target, moved, tiers') && id in tiers.At(source).ids && id !in moved
    ensures id in tiers'.At(source).ids
    ensures MovedTiers(tiers, source, target, moved + {id}, tiers'.Drop(source, id).Add(target, id))
  {
    assert tiers.At(source).ids - moved - {id} == tiers.At(source).ids - (moved + {id});
    assert tiers.At(target).ids + moved + {id} == tiers.At(target).ids + (moved + {id});
  }

  /** One more block can move whenever the target has room. */
  lemma MoveOneMore(c: Cache, source: Tier, target: Tier, moved: set<BlockId>, c': Cache, id: BlockId)
    requires BaseInv(c) && BaseInv(c') && MovedTo(c, source, target, moved, c')
    requires id in c.tiers.At(source).ids && id !in moved && c'.tiers.At(target).HasCapacity()
    ensures id < |c'.mgr.recs| && MoveStatus(c'.TS(), id, target) == Success
    ensures MovedTo(c, source, target, moved + {id}, MoveBlock(c', id, target))
  {
    hide BaseInv;
    hide MovedTiers;
    MoveTiersMore(c.tiers, source, target, moved, c'.tiers, id);
    RecordTier(c', source, id);
  }

  lemma RecordTier(c: Cache, source: Tier, id: BlockId)
    requires BaseInv(c) && id in c.tiers.At(source).ids
    ensures id < |c.mgr.recs| && c.mgr.recs[id].tier == source
  {
    assert id in c.tiers.Placed();
  }

  /** Until a block moves, the policy sees it as it was when the scan began. */
  lemma SameRecord(c: Cache, source: Tier, target: Tier, moved: set<BlockId>, c': Cache, id: BlockId)
    requires MovedTo(c, source, target, moved, c') && id < |c.mgr.recs| && id !in moved
    ensures |c'.mgr.recs| == |c.mgr.recs| && c'.mgr.recs[id] == c.mgr.recs[id]
  {
  }

  lemma PlacedInBounds(c: Cache)
    requires BaseInv(c)
    ensures forall id | id in c.tiers.Placed() :: id < |c.mgr.recs|
    ensures forall id | id in c.tiers.gpu.ids || id in c.tiers.host.ids :: id < |c.mgr.recs|
    ensures c.tiers.gpu.ids !! c.tiers.host.ids
    ensures |c.tiers.gpu.ids| <= c.tiers.gpu.capacity && |c.tiers.host.ids| <= c.tiers.host.capacity
  {
  }

  lemma TiersConserve(tiers: Tiers, source: Tier, target: Tier, moved: set<BlockId>, tiers': Tiers)
    requires MovedTiers(tiers, source, target, moved, tiers') && tiers.gpu.ids !! tiers.host.ids
    ensures tiers'.Placed() == tiers.Placed()
    ensures |tiers'.At(target).ids| == |tiers.At(target).ids| + |moved|
    ensures |tiers'.At(source).ids| == |tiers.At(source).ids| - |moved|
  {
    var kept := tiers.At(source).ids - moved;
    assert tiers.At(source).ids == kept + moved;
  }

  /** A scan conserves the number of placed blocks, and neither tier grows past its capacity. */
  lemma ScanConserves(c: Cache, source: Tier, target: Tier, moved: set<BlockId>, c': Cache)
    requires BaseInv(c) && BaseInv(c') && MovedTo(c, source, target, moved, c')
    ensures c'.tiers.Placed() == c.tiers.Placed()
    ensures |c'.tiers.gpu.ids| + |c'.tiers.host.ids| == |c.tiers.gpu.ids| + |c.tiers.host.ids|
    ensures |c'.tiers.At(target).ids| == |c.tiers.At(target).ids| + |moved| <= c.tiers.At(target).capacity
  {
    hide BaseInv;
    hide MovedRecords;
    PlacedInBounds(c);
    PlacedInBounds(c');
    TiersConserve(c.tiers, source, target, moved, c'.tiers);
  }

  /** What a scan policy is told: how full GpuSim is before the scan, in either direction of the scan, the time, and the
      block.  So a policy that moves blocks while at most half of GpuSim is used, from some time on, moves nothing
      when more is used or the time is not there, and otherwise everything that fits. */
  lemma GuardedScan(c: Cache, index: PrefixIndex, source: Tier, target: Tier, policy: MovePolicy, now: nat, since: nat,
                    moved: set<BlockId>, c': Cache)
    requires index.Valid() && BaseInv(c)
    requires forall ctx: ScanContext, f: Features ::
      policy(ctx, f) <==> 2 * ctx.gpuUsed <= ctx.gpuCapacity && ctx.timestamp >= since
    requires Scanned(c, source, target, AcceptedIn(c, index, source, policy, now), moved, c')
    ensures
      if 2 * |c.tiers.gpu.ids| <= c.tiers.gpu.capacity && now >= since then
        moved == c.tiers.At(source).ids || |c'.tiers.At(target).ids| >= c'.tiers.At(target).capacity
      else moved == {}
  {
    hide BaseInv;
    hide Wf;
    hide PrefixIndex.ChildrenOf;
    hide PrefixIndex.DescendantsOf;
    hide FeaturesWith;
    hide MovedTo;
    PlacedInBounds(c);
    var accepted := AcceptedIn(c, index, source, policy, now);
    if 2 * |c.tiers.gpu.ids| <= c.tiers.gpu.capacity && now >= since {
      assert accepted == c.tiers.At(source).ids;
    } else {
      assert accepted == {};
    }
  }

  class TierScanner {
    const tiers: TierManager
    const manager: BlockManager
    const index: PrefixIndex
    const builder: BlockFeatureBuilder

    ghost predicate Wired()
      reads this
    {
      builder.store == manager.store && builder.index == index && tiers.blockStore == manager.store
    }

    ghost function View(): Cache
      reads this, manager, manager.pool, manager.store, manager.store.records, index
      reads tiers, tiers.gpu, tiers.host, tiers.payloadStore, tiers.blockStore.records
    {
      ViewOf(manager, index, tiers)
    }

    constructor (tiers: TierManager, manager: BlockManager, index: PrefixIndex)
      requires tiers.blockStore == manager.store
      ensures this.tiers == tiers && this.manager == manager && this.index == index && Wired()
    {
      this.tiers, this.manager, this.index := tiers, manager, index;
      builder := new BlockFeatureBuilder(manager.store, index);
    }

    /** Asks the policy about one block, and moves it if it says so. */
    method Consider(id: BlockId, source: Tier, target: Tier, policy: MovePolicy, ctx: ScanContext, ghost c: Cache,
                    ghost moved: set<BlockId>, ghost h: Hasher) returns (success: bool)
      requires Wired() && PartsOk(manager, index, tiers) && BaseInv(c) && SoFar(c, source, target, moved, View(), h)
      requires ctx == ContextOf(c, ctx.timestamp)
      requires id in c.tiers.At(source).ids && id !in moved && tiers.HasCapacity(target)
      modifies manager.store.records, tiers.gpu, tiers.host
      ensures PartsOk(manager, index, tiers)
      ensures success <==> id in AcceptedIn(c, index, source, policy, ctx.timestamp)
      ensures SoFar(c, source, target, if success then moved + {id} else moved, View(), h)
    {
      hide Wf;
      hide Exact;
      hide Contents;
      hide BaseInv;
      hide SoFar;
      hide Wanted;
      hide FeaturesWith;
      hide BuildFeatures;
      hide MovedState;
      hide TierInv;
      hide PrefixIndex.ChildrenOf;
      hide PrefixIndex.DescendantsOf;
      hide Refs;
      hide WithRefs;
      hide PartsOk;
      hide ManagerInv;
      PartsAre(manager, index, tiers);
      OwnRefs(manager.store.Recs());
      ghost var c1 := View();
      PolicySees(c, index, source, target, moved, c1, id, policy, ctx.timestamp, h);
      var features := builder.Build(id, ctx.timestamp);
      success := false;
      if policy(ctx, features.value) {
        ScanStep(c, source, target, moved, c1, id, h);
        var status := tiers.Promote(id, target);
        success := status == Success;
        OwnRefs(manager.store.Recs());
        ScanManager(c1.WithTS(MovedState(c1.TS(), id, target)));
        PartsFrom(manager, index, tiers);
      }
    }

    /** Between rounds: the parts are in order, and the scan has come as far as Progress says. */
    ghost predicate Underway(c: Cache, source: Tier, target: Tier, accepted: set<BlockId>, todo: set<BlockId>,
                             moved: set<BlockId>, count: nat, h: Hasher)
      reads this, manager, manager.pool, manager.store, manager.store.records, index
      reads tiers, tiers.gpu, tiers.host, tiers.payloadStore, tiers.blockStore, tiers.blockStore.records
    {
      && PartsOk(manager, index, tiers) && SoFar(c, source, target, moved, View(), h)
      && Progress(c, source, accepted, todo, moved, count)
    }

    /** One round: the block leaves the list, and moves if the policy wants it to. */
    method Round(id: BlockId, source: Tier, target: Tier, policy: MovePolicy, ctx: ScanContext, ghost c: Cache,
                 ghost todo: set<BlockId>, ghost moved: set<BlockId>, ghost count: nat, ghost h: Hasher)
      returns (success: bool)
      requires Wired() && BaseInv(c) && index.Valid() && ctx == ContextOf(c, ctx.timestamp) && id in todo
      requires Underway(c, source, target, AcceptedIn(c, index, source, policy, ctx.timestamp), todo, moved, count, h)
      requires tiers.HasCapacity(target)
      modifies manager.store.records, tiers.gpu, tiers.host
      ensures |todo - {id}| < |todo|
      ensures
        Underway(c, source, target, AcceptedIn(c, index, source, policy, ctx.timestamp), todo - {id},
                 if success then moved + {id} else moved, if success then count + 1 else count, h)
    {
      hide PartsOk;
      hide SoFar;
      hide Progress;
      hide BaseInv;
      hide AcceptedIn;
      hide View;
      ProgressStep(c, source, AcceptedIn(c, index, source, policy, ctx.timestamp), todo, moved, count, id);
      success := Consider(id, source, target, policy, ctx, c, moved, h);
    }

    /** Over the blocks of the source tier, in any order, until the target is full. */
    method Scan(source: Tier, target: Tier, policy: MovePolicy, now: nat, ghost h: Hasher)
      returns (count: nat, ghost moved: set<BlockId>)
      requires Wired() && PartsOk(manager, index, tiers) && source != target
      modifies manager.store.records, tiers.gpu, tiers.host
      ensures PartsOk(manager, index, tiers) && count == |moved|
      ensures Scanned(old(View()), source, target, AcceptedIn(old(View()), index, source, policy, now), moved, View())
      ensures Exact(index.T()) ==>
        AcceptedIn(old(View()), index, source, policy, now) == AcceptedBlocks(old(View()), source, policy, now)
      ensures Later(old(View()), View())
      ensures old(CacheInv(View(), h)) ==> CacheInv(View(), h)
    {
      hide PartsOk;
      hide BaseInv;
      hide Underway;
      hide Later;
      hide CacheInv;
      hide Scanned;
      hide AcceptedIn;
      hide AcceptedBlocks;
      hide Exact;
      ghost var c := View();
      PartsBase(manager, index, tiers);
      AcceptedNow(c, source, policy, now);
      var ctx := ScanContext(|tiers.gpu.ids|, tiers.gpu.capacity, now);
      var todo := tiers.StoreOf(source).ids;
      count, moved := 0, {};
      ScanStart(source, target, policy, now, h);
      while todo != {}
        invariant Underway(c, source, target, AcceptedIn(c, index, source, policy, now), todo, moved, count, h)
        decreases |todo|
      {
        if !tiers.HasCapacity(target) {
          break;
        }
        var id := AnyOf(todo);
        var success := Round(id, source, target, policy, ctx, c, todo, moved, count, h);
        todo := todo - {id};
        if success {
          count, moved := count + 1, moved + {id};
        }
      }
      ScanEnd(c, source, target, AcceptedIn(c, index, source, policy, now), todo, moved, count, h);
    }

    lemma ScanStart(source: Tier, target: Tier, policy: MovePolicy, now: nat, h: Hasher)
      requires PartsOk(manager, index, tiers) && source != target && index.Valid()
      ensures Underway(View(), source, target, AcceptedIn(View(), index, source, policy, now),
                       View().tiers.At(source).ids,
                       {}, 0, h)
    {
      hide PartsOk;
      hide SoFar;
      hide Progress;
      hide AcceptedIn;
      NothingMoved(View(), source, target, h);
      ProgressStart(View(), source, AcceptedIn(View(), index, source, policy, now));
    }

    lemma ScanEnd(c: Cache, source: Tier, target: Tier, accepted: set<BlockId>, todo: set<BlockId>, moved: set<BlockId>,
                  count: nat, h: Hasher)
      requires Underway(c, source, target, accepted, todo, moved, count, h)
      requires todo == {} || !tiers.HasCapacity(target)
      ensures PartsOk(manager, index, tiers)
      ensures Scanned(c, source, target, accepted, moved, View()) && count == |moved|
      ensures Later(c, View()) && (CacheInv(c, h) ==> CacheInv(View(), h))
    {
      hide PartsOk;
      hide MovedTo;
      hide Later;
      hide CacheInv;
    }

    lemma AcceptedNow(c: Cache, source: Tier, policy: MovePolicy, now: nat)
      requires index.Valid() && c.index == index.M() && c.bs == index.blockSize
      ensures Exact(index.T()) ==> AcceptedIn(c, index, source, policy, now) == AcceptedBlocks(c, source, policy, now)
    {
      hide Wf;
      hide Exact;
      if Exact(index.T()) {
        AcceptedWhenExact(c, index, source, policy, now);
      }
    }
  }

  lemma PartsBase(manager: BlockManager, index: PrefixIndex, tiers: TierManager)
    requires PartsOk(manager, index, tiers)
    ensures BaseInv(ViewOf(manager, index, tiers)) && index.Valid()
  {
  }

  /** What a scan keeps, in one piece. */
  ghost predicate SoFar(c: Cache, source: Tier, target: Tier, moved: set<BlockId>, c1: Cache, h: Hasher) {
    && MovedTo(c, source, target, moved, c1)
    && Later(c, c1)
    && (CacheInv(c, h) ==> CacheInv(c1, h))
  }

  /** The blocks not in todo have been considered; of these, exactly the accepted ones have moved. */
  ghost predicate Progress(c: Cache, source: Tier, accepted: set<BlockId>, todo: set<BlockId>, moved: set<BlockId>,
                           count: nat)
  {
    && todo <= c.tiers.At(source).ids && moved !! todo && count == |moved|
    && moved <= accepted <= moved + todo
  }

  lemma ProgressStart(c: Cache, source: Tier, accepted: set<BlockId>)
    requires accepted <= c.tiers.At(source).ids
    ensures Progress(c, source, accepted, c.tiers.At(source).ids, {}, 0)
  {
  }

  lemma ProgressStep(c: Cache, source: Tier, accepted: set<BlockId>, todo: set<BlockId>, moved: set<BlockId>,
                     count: nat, id: BlockId)
    requires Progress(c, source, accepted, todo, moved, count) && id in todo
    ensures id in c.tiers.At(source).ids && id !in moved && |todo - {id}| < |todo|
    ensures id in accepted ==> Progress(c, source, accepted, todo - {id}, moved + {id}, count + 1)
    ensures id !in accepted ==> Progress(c, source, accepted, todo - {id}, moved, count)
  {
  }

  lemma PolicySees(c: Cache, index: PrefixIndex, source: Tier, target: Tier, moved: set<BlockId>, c1: Cache,
                   id: BlockId, policy: MovePolicy, now: nat, h: Hasher)
    requires BaseInv(c) && SoFar(c, source, target, moved, c1, h) && id in c.tiers.At(source).ids && id !in moved
    requires index.Valid()
    ensures id < |c1.mgr.recs|
    ensures id in AcceptedIn(c, index, source, policy, now) <==>
      policy(ContextOf(c, now), FeaturesWith(c1.mgr.recs[id], id, now, index.ChildrenOf(id), index.DescendantsOf(id)))
  {
    hide BaseInv;
    hide FeaturesWith;
    hide Wf;
    hide PrefixIndex.ChildrenOf;
    hide PrefixIndex.DescendantsOf;
    hide Later;
    PlacedInBounds(c);
    SameRecord(c, source, target, moved, c1, id);
  }

  /** One move of the scan keeps everything the loop needs. */
  lemma ScanStep(c: Cache, source: Tier, target: Tier, moved: set<BlockId>, c1: Cache, id: BlockId, h: Hasher)
    requires BaseInv(c) && BaseInv(c1) && SoFar(c, source, target, moved, c1, h)
    requires id in c.tiers.At(source).ids && id !in moved && c1.tiers.At(target).HasCapacity()
    ensures id < |c1.mgr.recs| && MoveStatus(c1.TS(), id, target) == Success && TierInv(c1.TS())
    ensures
      var c2 := c1.WithTS(MovedState(c1.TS(), id, target));
      SoFar(c, source, target, moved + {id}, c2, h) && BaseInv(c2)
  {
    hide BaseInv;
    hide IndexInv;
    hide MovedTo;
    hide Later;
    hide MoveBlock;
    hide MovedState;
    MoveOneMore(c, source, target, moved, c1, id);
    MoveKeepsBase(c1, id, target);
    MovedView(c1, id, target);
    LaterTrans(c, c1, MoveBlock(c1, id, target));
    if CacheInv(c1, h) {
      MoveKeepsInv(c1, h, id, target);
    }
  }

  lemma ScanManager(c: Cache)
    requires BaseInv(c)
    ensures ManagerInv(c.mgr)
  {
  }

  lemma MovedView(c: Cache, id: BlockId, target: Tier)
    requires BaseInv(c) && id < |c.mgr.recs| && MoveStatus(c.TS(), id, target) == Success
    ensures TierInv(c.TS()) && MoveBlock(c, id, target) == c.WithTS(MovedState(c.TS(), id, target))
  {
  }

  class PromotionController {
    const policy: MovePolicy
    const scanner: TierScanner

    constructor (policy: MovePolicy, tiers: TierManager, manager: BlockManager, index: PrefixIndex)
      requires tiers.blockStore == manager.store
      ensures this.policy == policy && scanner.Wired()
      ensures scanner.tiers == tiers && scanner.manager == manager && scanner.index == index
    {
      this.policy := policy;
      scanner := new TierScanner(tiers, manager, index);
    }

    /** Host to GpuSim. */
    method RunScan(now: nat, ghost h: Hasher) returns (promoted: nat, ghost moved: set<BlockId>)
      requires scanner.Wired() && PartsOk(scanner.manager, scanner.index, scanner.tiers)
      modifies scanner.manager.store.records, scanner.tiers.gpu, scanner.tiers.host
      ensures PartsOk(scanner.manager, scanner.index, scanner.tiers)
      ensures promoted == |moved|
      ensures Scanned(old(scanner.View()), Host, GpuSim,
                      AcceptedIn(old(scanner.View()), scanner.index, Host, policy, now), moved,
                      scanner.View())
      ensures Exact(scanner.index.T()) ==>
        AcceptedIn(old(scanner.View()), scanner.index, Host, policy, now)
          == AcceptedBlocks(old(scanner.View()), Host, policy, now)
      ensures Later(old(scanner.View()), scanner.View())
      ensures old(CacheInv(scanner.View(), h)) ==> CacheInv(scanner.View(), h)
    {
      promoted, moved := scanner.Scan(Host, GpuSim, policy, now, h);
    }
  }

  class DemotionController {
    const policy: MovePolicy
    const scanner: TierScanner

    constructor (policy: MovePolicy, tiers: TierManager, manager: BlockManager, index: PrefixIndex)
      requires tiers.blockStore == manager.store
      ensures this.policy == policy && scanner.Wired()
      ensures scanner.tiers == tiers && scanner.manager == manager && scanner.index == index
    {
      this.policy := policy;
      scanner := new TierScanner(tiers, manager, index);
    }

    /** GpuSim to Host. */
    method RunScan(now: nat, ghost h: Hasher) returns (demoted: nat, ghost moved: set<BlockId>)
      requires scanner.Wired() && PartsOk(scanner.manager, scanner.index, scanner.tiers)
      modifies scanner.manager.store.records, scanner.tiers.gpu, scanner.tiers.host
      ensures PartsOk(scanner.manager, scanner.index, scanner.tiers)
      ensures demoted == |moved|
      ensures Scanned(old(scanner.View()), GpuSim, Host,
                      AcceptedIn(old(scanner.View()), scanner.index, GpuSim, policy, now), moved,
                      scanner.View())
      ensures Exact(scanner.index.T()) ==>
        AcceptedIn(old(scanner.View()), scanner.index, GpuSim, policy, now)
          == AcceptedBlocks(old(scanner.View()), GpuSim, policy, now)
      ensures Later(old(scanner.View()), scanner.View())
      ensures old(CacheInv(scanner.View(), h)) ==> CacheInv(scanner.View(), h)
    {
      demoted, moved := scanner.Scan(GpuSim, Host, policy, now, h);
    }
  }
}
