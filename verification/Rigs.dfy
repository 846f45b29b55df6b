/** Two workers that fetch from each other through one coordinator, put together as
    tests/test_request_pipeline.cc does, but each with a tier manager: what the constructors promise is enough to
    serve requests one after the other and to end the handles they return. */
module Rigs {
  import opened Types
  import opened Blocks
  import opened TierModel
  import opened Tiering
  import opened CacheModel
  import opened Controllers
  import opened LocalCaches
  import opened Coordinator
  import opened PipelineModel
  import opened Pipeline

  /** Two tiers and a payload store, over a record store of their own. */
  method NewTiers(size: nat, bytesPerBlock: nat) returns (tiers: TierManager)
    ensures fresh(tiers.Footprint())
    ensures tiers.Valid() && CanStart(size, tiers.TS())
  {
    var gpu := new TierStore(size);
    var host := new TierStore(size);
    var payloads := new PayloadStore(size, bytesPerBlock);
    var records := new BlockStore(size);
    tiers := new TierManager(gpu, host, payloads, records);
    InitTierInv(size, size, size, bytesPerBlock, records.Recs());
  }

  /** A worker's cache with everything of its own. */
  method NewCache(size: nat, blockSize: nat, bytesPerBlock: nat, policies: Policies) returns (cache: LocalCache)
    requires blockSize > 0 && PicksFromOffer(policies.evict)
    ensures fresh(cache.Footprint()) && cache.Ready() && Counted({}, cache.manager.store.records)
  {
    hide TierInv;
    hide CanStart;
    hide PicksFromOffer;
    hide PartsOk;
    hide StartCache;
    hide Counted;
    var tiers := NewTiers(size, bytesPerBlock);
    cache := new LocalCache(size, blockSize, tiers, policies);
  }

  /** A transport that reaches one worker. */
  method Connect(node: NodeId, worker: LocalCache) returns (transport: InprocTransport)
    requires worker.Ready() && Counted({}, worker.manager.store.records)
    ensures transport.Ready() && transport.AllCounted({})
    ensures transport.workers == map[node := worker] && fresh(transport)
  {
    hide LocalCache.Ready;
    hide LocalCache.Footprint;
    hide Counted;
    assert allocated(worker.Footprint());
    OwnRecords(worker);
    transport := new InprocTransport();
    assert worker.Ready() && transport.Ready() && transport.AwayFrom(node, worker);
    NoTransportInside(transport, worker);
    transport.RegisterWorker(node, worker);
  }

  /** One worker's pipeline: its own cache, and another worker that it can reach. */
  method Assemble(cache: LocalCache, node: NodeId, peer: LocalCache, coordinator: GlobalIndex, hash: Hasher,
                  choose: ReplicaPolicy) returns (pipeline: RequestPipeline)
    requires cache.Ready() && peer.Ready() && cache.Footprint() !! peer.Footprint()
    requires Counted({}, cache.manager.store.records) && Counted({}, peer.manager.store.records)
    ensures pipeline.cache == cache && pipeline.remote.coordinator == coordinator
    ensures pipeline.Wired() && pipeline.remote.Wired() && pipeline.PeersReady({}) && pipeline.Apart()
  {
    hide LocalCache.Ready;
    hide LocalCache.Footprint;
    hide InprocTransport.Ready;
    hide InprocTransport.AllCounted;
    hide Counted;
    var transport := Connect(node, peer);
    assert allocated(transport.Footprints()) && allocated(transport.Records());
    var cleaner := new StaleReferenceCleaner(coordinator);
    var fetcher := new RemoteBlockFetcher(transport);
    var planner := new MissingBlockPlanner(hash);
    var remote := new RemoteResolutionStage(coordinator, cleaner, choose, fetcher, planner);
    var admission := new AdmissionStage(cache);
    pipeline := new RequestPipeline(cache, remote, admission);
  }

  /** Two caches that share nothing. */
  method TwoCaches(size: nat, blockSize: nat, bytesPerBlock: nat, policies: Policies)
    returns (first: LocalCache, second: LocalCache)
    requires blockSize > 0 && PicksFromOffer(policies.evict)
    ensures first.Ready() && second.Ready() && first.Footprint() !! second.Footprint()
    ensures Counted({}, first.manager.store.records) && Counted({}, second.manager.store.records)
    ensures fresh(first.Footprint()) && fresh(second.Footprint())
  {
    hide LocalCache.Ready;
    hide LocalCache.Footprint;
    hide Counted;
    hide PicksFromOffer;
    first := NewCache(size, blockSize, bytesPerBlock, policies);
    assert allocated(first.Footprint());
    OwnRecords(first);
    second := NewCache(size, blockSize, bytesPerBlock, policies);
  }

  /** Two workers, each of which can reach the other through one coordinator. */
  method TwoWorkers(size: nat, blockSize: nat, bytesPerBlock: nat, policies: Policies, hash: Hasher,
                    choose: ReplicaPolicy) returns (a: RequestPipeline, b: RequestPipeline)
    requires blockSize > 0 && PicksFromOffer(policies.evict)
    ensures a.Wired() && a.remote.Wired() && a.PeersReady({}) && a.Apart()
    ensures b.Wired() && b.remote.Wired() && b.PeersReady({}) && b.Apart()
    ensures a.cache.Ready() && Counted({}, a.cache.manager.store.records)
    ensures b.cache.Ready() && Counted({}, b.cache.manager.store.records)
  {
    hide LocalCache.Ready;
    hide LocalCache.Footprint;
    hide InprocTransport.Ready;
    hide InprocTransport.AllCounted;
    hide RequestPipeline.Apart;
    hide Counted;
    hide PicksFromOffer;
    var first, second := TwoCaches(size, blockSize, bytesPerBlock, policies);
    assert allocated(first.Footprint()) && allocated(second.Footprint());
    OwnRecords(first);
    OwnRecords(second);
    var coordinator := new GlobalIndex();
    a := Assemble(first, 2, second, coordinator, hash, choose);
    assert allocated(a.remote.fetcher.transport.Footprints()) && allocated(a.remote.fetcher.transport.Records());
    b := Assemble(second, 1, first, coordinator, hash, choose);
  }

  /** Handles on a cache end, one after the other. */
  method EndAll(cache: LocalCache, handles: seq<BlockHandle>, ghost ids: seq<BlockId>, ghost hs: set<BlockHandle>)
    requires cache.Ready() && HandlesOn(handles, cache.manager.store.records, ids)
    requires Different(handles) && HandleSet(handles) !! hs
    requires Counted(hs + HandleSet(handles), cache.manager.store.records)
    modifies cache.manager.store.records
    ensures cache.Ready() && Counted(hs, cache.manager.store.records)
  {
    hide LocalCache.Ready;
    hide LocalCache.View;
    hide Counted;
    assert handles[0..] == handles;
    for i := 0 to |handles|
      invariant cache.Ready() && HandlesOn(handles, cache.manager.store.records, ids)
      invariant Counted(hs + HandleSet(handles[i..]), cache.manager.store.records)
    {
      var rest := handles[i + 1..];
      assert handles[i..] == [handles[i]] + rest;
      assert hs + HandleSet(handles[i..]) == hs + HandleSet(rest) + {handles[i]};
      assert handles[i] in HandleSet(handles);
      cache.EndHandle(handles[i], handles[i].record.value, hs + HandleSet(rest));
    }
    assert hs + HandleSet(handles[|handles|..]) == hs;
  }

  /** One request, and the end of the handles that it returned. */
  method ServeOne(pipeline: RequestPipeline, req: Request, now: nat, clock: nat -> nat)
    requires pipeline.Wired() && pipeline.remote.Wired() && pipeline.PeersReady({}) && pipeline.Apart()
    requires pipeline.cache.Ready() && Counted({}, pipeline.cache.manager.store.records)
    modifies pipeline.cache.Parts(), pipeline.remote.coordinator, pipeline.remote.fetcher.transport.Records()
    ensures pipeline.cache.Ready() && Counted({}, pipeline.cache.manager.store.records)
    ensures pipeline.PeersReady({}) && pipeline.Apart()
  {
    hide LocalCache.Ready;
    hide LocalCache.View;
    hide Counted;
    hide RequestPipeline.PeersReady;
    hide RequestPipeline.Apart;
    hide IsRequestRun;
    hide RunRequest;
    hide Different;
    hide HandlesOn;
    var r, run, rs := pipeline.Run(req, now, clock, {});
    pipeline.PeersStillReady(r.reusable, run.route.reusable, {});
    pipeline.PartsApart();
    assert allocated(pipeline.remote.fetcher.transport.Footprints());
    assert allocated(pipeline.remote.fetcher.transport.Records());
    EndAll(pipeline.cache, r.reusable, run.route.reusable, {});
  }

  /** Any number of requests, one after the other, where the handles of each end before the next.  In the end every
      refcount is zero. */
  method ServeAll(pipeline: RequestPipeline, reqs: seq<Request>, now: nat, clock: nat -> nat)
    requires pipeline.Wired() && pipeline.remote.Wired() && pipeline.PeersReady({}) && pipeline.Apart()
    requires pipeline.cache.Ready() && Counted({}, pipeline.cache.manager.store.records)
    modifies pipeline.cache.Parts(), pipeline.remote.coordinator, pipeline.remote.fetcher.transport.Records()
    ensures pipeline.cache.Ready() && pipeline.PeersReady({}) && pipeline.Apart()
    ensures forall s: nat | s < pipeline.cache.manager.store.records.Length ::
      pipeline.cache.manager.store.records[s].refcount == 0
  {
    hide LocalCache.Ready;
    hide LocalCache.View;
    hide RequestPipeline.PeersReady;
    hide RequestPipeline.Apart;
    hide IsRequestRun;
    hide RunRequest;
    hide Different;
    for i := 0 to |reqs|
      invariant pipeline.cache.Ready() && Counted({}, pipeline.cache.manager.store.records)
      invariant pipeline.PeersReady({}) && pipeline.Apart()
    {
      ServeOne(pipeline, reqs[i], now + i, clock);
    }
  }
}
