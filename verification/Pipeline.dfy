/** src/transport/inproc_transport.cc and src/pipeline as objects, each method proved against the functions
    of PipelineModel. */
module Pipeline {
  import opened Types
  import opened PrefixTree
  import opened PrefixMap
  import opened BlockLifecycle
  import opened Blocks
  import opened CacheModel
  import opened CacheOps
  import opened Controllers
  import opened LocalCaches
  import opened Coordinator
  import opened Distributed
  import opened PipelineModel
  import opened PipelineTheory

  class MissingBlockPlanner {
    const hash: Hasher

    constructor (hash: Hasher)
      ensures this.hash == hash
    {
      this.hash := hash;
    }

    method FindMissing(bs: nat, req: Request, first: nat) returns (missing: seq<Missing>)
      requires bs > 0
      ensures missing == Plan(hash, bs, req, first)
    {
      hide BlockHash;
      var total := |req.tokens| / bs;
      missing := [];
      if first >= total {
        return;
      }
      var bi := first;
      while bi < total
        invariant first <= bi <= total
        invariant missing == Plan(hash, bs, req, first)[..bi - first]
      {
        missing := missing + [Missing(bi, BlockHash(hash, bs, req, bi))];
        bi := bi + 1;
      }
    }
  }

  lemma OwnRecords(worker: LocalCache)
    ensures worker.manager.store.records in worker.Footprint()
  {
  }

  lemma NoTransportInside(transport: InprocTransport, worker: LocalCache)
    ensures transport !in worker.Footprint()
  {
  }

  /** The peers that can be reached; a node that is not registered is a transport error. */
  class InprocTransport {
    var workers: map<NodeId, LocalCache>

    ghost function Footprints(): set<object>
      reads this
    {
      set n, o | n in workers && o in workers[n].Footprint() :: o
    }

    /** Every worker is in order, and none has anything to do with another's records. */
    ghost predicate Ready()
      reads this, Footprints()
    {
      && (forall n | n in workers :: workers[n].Ready())
      && (forall n, n' | n in workers && n' in workers && n != n' ::
            workers[n].manager.store.records !in workers[n'].Footprint())
    }

    ghost function Views(): map<NodeId, Cache>
      reads this, Footprints()
    {
      map n | n in workers :: workers[n].View()
    }

    ghost function Records(): set<object>
      reads this
    {
      set n | n in workers :: workers[n].manager.store.records
    }

    ghost predicate AllCounted(hs: set<BlockHandle>)
      reads this, Footprints(), Records(), hs
    {
      forall n | n in workers :: Counted(hs, workers[n].manager.store.records)
    }

    constructor ()
      ensures workers == map[]
    {
      workers := map[];
    }

    /** A worker that is in order, and away from the other nodes' records, keeps the peers in order. */
    method RegisterWorker(node: NodeId, worker: LocalCache)
      modifies this
      ensures workers == old(workers)[node := worker]
      ensures old(Ready() && worker.Ready() && AwayFrom(node, worker)) ==> Ready()
    {
      hide LocalCache.Footprint;
      hide LocalCache.Ready;
      ghost var fine := Ready() && worker.Ready() && AwayFrom(node, worker);
      if fine {
        WorkersReady();
      }
      ghost var others := workers;
      workers := workers[node := worker];
      if fine {
        forall n | n in workers ensures workers[n].Ready() {
          NoTransportInside(this, workers[n]);
        }
        ReadyWhen();
      }
    }

    /** This worker and the other nodes have nothing of each other's records. */
    ghost predicate AwayFrom(node: NodeId, worker: LocalCache)
      reads this
    {
      forall n | n in workers && n != node ::
        && workers[n].manager.store.records !in worker.Footprint()
        && worker.manager.store.records !in workers[n].Footprint()
    }

    lemma WorkersReady()
      requires Ready()
      ensures forall n | n in workers :: workers[n].Ready()
      ensures forall n, n' | n in workers && n' in workers && n != n' ::
        workers[n].manager.store.records !in workers[n'].Footprint()
    {
    }

    lemma ReadyWhen()
      requires forall n | n in workers :: workers[n].Ready()
      requires forall n, n' | n in workers && n' in workers && n != n' ::
        workers[n].manager.store.records !in workers[n'].Footprint()
      ensures Ready()
    {
    }

    method FetchBlock(node: NodeId, block: BlockId, generation: nat, now: nat, ghost hs: set<BlockHandle>)
      returns (r: Distributed.FetchResult)
      requires Ready() && AllCounted(hs)
      modifies Records()
      ensures Ready() && AllCounted(hs)
      ensures Views() == AfterFetch(old(Views()), Ref(node, block, generation), now)
      ensures node !in workers ==> r.status == FetchTransportError
      ensures node in workers ==>
        var s := Serve(old(Views())[node], block, generation, now);
        && r.status
          == (match s.status case ServeOk => FetchOk case ServeNotFound => FetchNotFound case ServeStale => FetchStale)
        && (r.status == FetchOk ==> r.payload == s.payload && r.hash == s.hash)
    {
      hide Ready;
      hide LocalCache.Ready;
      hide LocalCache.View;
      hide LocalCache.Footprint;
      hide Counted;
      hide Serve;
      ghost var before := Views();
      if node !in workers {
        return Distributed.FetchResult(FetchTransportError, [], ContentHash(0, 0));
      }
      WorkersReady();
      assert forall n | n in workers :: allocated(workers[n].Footprint());
      var result := workers[node].ServeBlockFetch(block, generation, now, hs);
      forall n | n in workers && n != node
        ensures workers[n].Ready() && workers[n].View() == before[n] && Counted(hs, workers[n].manager.store.records)
      {
        assert workers[node].manager.store.records !in workers[n].Footprint();
        OwnRecords(workers[n]);
      }
      ReadyWhen();
      match result.status
      case ServeOk => r := Distributed.FetchResult(FetchOk, result.payload, result.hash);
      case ServeNotFound => r := Distributed.FetchResult(FetchNotFound, [], ContentHash(0, 0));
      case ServeStale => r := Distributed.FetchResult(FetchStale, [], ContentHash(0, 0));
    }
  }

  class RemoteBlockFetcher {
    const transport: InprocTransport

    constructor (transport: InprocTransport)
      ensures this.transport == transport
    {
      this.transport := transport;
    }

    method FetchRemote(ref: Ref, expected: ContentHash, now: nat, ghost hs: set<BlockHandle>)
      returns (r: Distributed.FetchResult)
      requires transport.Ready() && transport.AllCounted(hs)
      modifies transport.Records()
      ensures transport.Ready() && transport.AllCounted(hs)
      ensures transport.Views() == AfterFetch(old(transport.Views()), ref, now)
      ensures r == Fetch(old(transport.Views()), ref, expected, now)
    {
      hide InprocTransport.Ready;
      hide InprocTransport.AllCounted;
      hide AfterFetch;
      hide Serve;
      var resp := transport.FetchBlock(ref.node, ref.block, ref.generation, now, hs);
      if resp.status == FetchNotFound || resp.status == FetchStale || resp.status == FetchTransportError {
        return Distributed.FetchResult(resp.status, [], ContentHash(0, 0));
      }
      if resp.hash != expected {
        return Distributed.FetchResult(FetchHashMismatch, [], ContentHash(0, 0));
      }
      r := Distributed.FetchResult(FetchOk, resp.payload, resp.hash);
    }
  }

  datatype ResolutionOutcome = ResolutionOutcome(fetched: seq<Candidate>, remoteHits: nat, staleRefs: nat)

  class RemoteResolutionStage {
    const coordinator: GlobalIndex
    const cleaner: StaleReferenceCleaner
    const choose: ReplicaPolicy
    const fetcher: RemoteBlockFetcher
    const planner: MissingBlockPlanner

    ghost predicate Wired()
      reads this
    {
      cleaner.index == coordinator
    }

    constructor (coordinator: GlobalIndex, cleaner: StaleReferenceCleaner, choose: ReplicaPolicy,
                 fetcher: RemoteBlockFetcher,
                 planner: MissingBlockPlanner)
      requires cleaner.index == coordinator
      ensures Wired() && this.coordinator == coordinator && this.choose == choose && this.fetcher == fetcher
      ensures this.planner == planner
    {
      this.coordinator, this.cleaner, this.choose, this.fetcher, this.planner :=
        coordinator, cleaner, choose, fetcher, planner;
    }

    lemma CoordinatorApart()
      ensures coordinator !in fetcher.transport.Footprints() && coordinator !in fetcher.transport.Records()
    {
    }

    method Report(ref: Ref, ghost hs: set<BlockHandle>)
      requires Wired() && fetcher.transport.Ready() && fetcher.transport.AllCounted(hs)
      modifies coordinator
      ensures fetcher.transport.Ready() && fetcher.transport.AllCounted(hs)
      ensures fetcher.transport.Views() == old(fetcher.transport.Views())
      ensures coordinator.index == Cleaned(old(coordinator.index), Is(ref))
    {
      hide InprocTransport.Ready;
      hide InprocTransport.AllCounted;
      hide InprocTransport.Views;
      hide Cleaned;
      hide LocalCache.Footprint;
      hide InprocTransport.Footprints;
      hide InprocTransport.Records;
      CoordinatorApart();
      assert allocated(fetcher.transport.Footprints()) && allocated(fetcher.transport.Records());
      cleaner.ReportStaleFetch(ref.node, ref.block, ref.generation);
    }

    /** One missing block: asks for its refs, chooses one and fetches it; a ref that turns out stale is
        reported to the coordinator. */
    method Obtain(bs: nat, req: Request, mb: Missing, now: nat, ghost hs: set<BlockHandle>)
      returns (cand: Option<Candidate>, stale: nat, ghost failure: Option<Distributed.FetchStatus>)
      requires Wired() && fetcher.transport.Ready() && fetcher.transport.AllCounted(hs)
      modifies coordinator, fetcher.transport.Records()
      ensures fetcher.transport.Ready() && fetcher.transport.AllCounted(hs)
      ensures Step(fetcher.transport.Views(), coordinator.index, cand, stale, failure)
        == StepFrom(old(fetcher.transport.Views()), old(coordinator.index), bs, req, mb, choose, now)
    {
      hide InprocTransport.Ready;
      hide InprocTransport.AllCounted;
      hide InprocTransport.Views;
      hide AfterFetch;
      hide Fetch;
      hide Cleaned;
      cand, stale, failure := None, 0, None;
      var refs := coordinator.QueryRefs(mb.hash);
      if refs == [] {
        return;
      }
      var chosen := choose(mb.hash, refs);
      if chosen == None {
        return;
      }
      var fetch := fetcher.FetchRemote(chosen.value, mb.hash, now, hs);
      if fetch.status == FetchStale {
        Report(chosen.value, hs);
        stale, failure := 1, Some(fetch.status);
        return;
      }
      if fetch.status != FetchOk {
        failure := Some(fetch.status);
        return;
      }
      cand := Some(FetchedCandidate(bs, req, mb, fetch));
    }

    /** Walks the missing blocks until one cannot be had. */
    method Run(bs: nat, req: Request, first: nat, now: nat, ghost hs: set<BlockHandle>)
      returns (r: ResolutionOutcome, ghost failure: Option<Distributed.FetchStatus>)
      requires Wired() && bs > 0 && fetcher.transport.Ready() && fetcher.transport.AllCounted(hs)
      modifies coordinator, fetcher.transport.Records()
      ensures fetcher.transport.Ready() && fetcher.transport.AllCounted(hs)
      ensures
        Resolution(fetcher.transport.Views(), coordinator.index, r.fetched, r.staleRefs, failure)
          == Resolve(old(fetcher.transport.Views()), old(coordinator.index), bs, req,
                     Plan(planner.hash, bs, req, first),
                     choose, now)
      ensures r.remoteHits == |r.fetched|
    {
      hide InprocTransport.Ready;
      hide InprocTransport.AllCounted;
      hide InprocTransport.Views;
      hide Plan;
      hide Resolve;
      hide StepFrom;
      assert allocated(fetcher.transport.Footprints());
      var missing := planner.FindMissing(bs, req, first);
      failure := None;
      var fetched: seq<Candidate> := [];
      var hits, stale, i := 0, 0, 0;
      ghost var v0, d0 := fetcher.transport.Views(), coordinator.index;
      assert missing[0..] == missing;
      while i < |missing|
        invariant 0 <= i <= |missing| && hits == |fetched| && stale == 0 && failure == None
        invariant fetcher.transport.Ready() && fetcher.transport.AllCounted(hs)
        invariant Resolve(v0, d0, bs, req, missing, choose, now)
          == After(fetched, Resolve(fetcher.transport.Views(), coordinator.index, bs, req, missing[i..], choose, now))
      {
        ResolveUnfold(fetcher.transport.Views(), coordinator.index, bs, req, missing, i, choose, now);
        var cand;
        cand, stale, failure := Obtain(bs, req, missing[i], now, hs);
        if cand == None {
          break;
        }
        fetched := fetched + [cand.value];
        hits := hits + 1;
        i := i + 1;
      }
      if i == |missing| {
        assert missing[i..] == [];
        ResolveNothing(fetcher.transport.Views(), coordinator.index, bs, req, choose, now);
      }
      r := ResolutionOutcome(fetched, hits, stale);
    }
  }

  /** One missing block, as values. */
  datatype Step = Step(workers: map<NodeId, Cache>, dir: Directory, cand: Option<Candidate>, stale: nat,
                       failure: Option<Distributed.FetchStatus>)

  ghost function StepFrom(workers: map<NodeId, Cache>, dir: Directory, bs: nat, req: Request, mb: Missing,
                          choose: ReplicaPolicy, now: nat): (r: Step)
    ensures r.cand.Some? ==> r.stale == 0 && r.failure == None
  {
    var refs := Query(dir, mb.hash);
    var ref := if refs == [] then None else choose(mb.hash, refs);
    if ref == None then Step(workers, dir, None, 0, None)
    else
      var f := Fetch(workers, ref.value, mb.hash, now);
      var workers' := AfterFetch(workers, ref.value, now);
      match f.status
      case FetchStale => Step(workers', Cleaned(dir, Is(ref.value)), None, 1, Some(f.status))
      case FetchOk => Step(workers', dir, Some(FetchedCandidate(bs, req, mb, f)), 0, None)
      case _ => Step(workers', dir, None, 0, Some(f.status))
  }

  ghost function After(fetched: seq<Candidate>, rest: Resolution): Resolution {
    rest.(fetched := fetched + rest.fetched)
  }

  lemma ResolveNothing(workers: map<NodeId, Cache>, dir: Directory, bs: nat, req: Request, choose: ReplicaPolicy,
                       now: nat)
    ensures Resolve(workers, dir, bs, req, [], choose, now) == Resolution(workers, dir, [], 0, None)
  {
  }

  /** One round of the walk. */
  lemma ResolveUnfold(workers: map<NodeId, Cache>, dir: Directory, bs: nat, req: Request, missing: seq<Missing>, i: nat,
                      choose: ReplicaPolicy, now: nat)
    requires i < |missing|
    ensures
      var st := StepFrom(workers, dir, bs, req, missing[i], choose, now);
      Resolve(workers, dir, bs, req, missing[i..], choose, now) ==
        if st.cand == None then Resolution(st.workers, st.dir, [], st.stale, st.failure)
        else After([st.cand.value], Resolve(st.workers, st.dir, bs, req, missing[i + 1..], choose, now))
  {
    assert missing[i..][0] == missing[i] && missing[i..][1..] == missing[i + 1..];
  }

  datatype AdmissionOutcome = AdmissionOutcome(handles: seq<BlockHandle>, admitted: nat, rejected: nat)

  ghost function AfterChain(ids: seq<BlockId>, statuses: seq<AdmitStatus>, rest: ChainResult): ChainResult {
    ChainResult(rest.cache, ids + rest.handles, statuses + rest.statuses)
  }

  /** One round of chain admission. */
  lemma AdmitAllUnfold(c: Cache, cands: seq<Candidate>, i: nat, pol: Policies, clock: nat -> nat)
    requires i < |cands| && c.bs > 0
    ensures
      var r := Admit(c, cands[i], clock(i), pol);
      && AdmitAll(c, cands[i..], pol, clock, i)
        == AfterChain(if r.handle.Some? then [r.handle.value] else [], [r.status],
                      AdmitAll(r.cache, cands[i + 1..], pol, clock, i + 1))
      && (UsableAlong(c, cands[i..], pol, clock, i) ==> UsableAlong(r.cache, cands[i + 1..], pol, clock, i + 1))
  {
    hide Admit;
    assert cands[i..][0] == cands[i] && cands[i..][1..] == cands[i + 1..];
  }

  lemma AfterChainTwice(a: seq<BlockId>, b: seq<AdmitStatus>, c: seq<BlockId>, d: seq<AdmitStatus>, rest: ChainResult)
    ensures AfterChain(a, b, AfterChain(c, d, rest)) == AfterChain(a + c, b + d, rest)
  {
    assert a + c + rest.handles == a + (c + rest.handles);
    assert b + d + rest.statuses == b + (d + rest.statuses);
  }

  lemma AfterChainEnds(ids: seq<BlockId>, statuses: seq<AdmitStatus>, r: ChainResult)
    ensures AfterChain([], [], r) == r
    ensures AfterChain(ids, statuses, ChainResult(r.cache, [], [])) == ChainResult(r.cache, ids, statuses)
  {
  }

  /** Chain admission from c0 has come to c with these handles and statuses, names no block twice, and will
      not for the rest of the candidates. */
  ghost predicate Usable(c0: Cache, cands: seq<Candidate>, pol: Policies, clock: nat -> nat, c: Cache,
                         ids: seq<BlockId>, statuses: seq<AdmitStatus>, i: nat)
  {
    && i <= |cands| && UsableAlong(c, cands[i..], pol, clock, i)
    && AdmitAll(c0, cands, pol, clock, 0) == AfterChain(ids, statuses, AdmitAll(c, cands[i..], pol, clock, i))
  }

  /** Chain admission from c0 has come to c through the outcomes rs, one for each of the first i candidates. */
  ghost predicate Went(c0: Cache, cands: seq<Candidate>, pol: Policies, clock: nat -> nat, c: Cache, ids: seq<BlockId>,
                       statuses: seq<AdmitStatus>, rs: seq<AdmitResult>, i: nat, admitted: nat, rejected: nat)
  {
    && i <= |cands| && |statuses| == i
    && IsChainRun(c0, cands[..i], pol, clock, 0, rs)
    && ChainOf(c0, rs) == ChainResult(c, ids, statuses)
    && admitted == HitCount(statuses) && admitted + rejected == i
  }

  lemma ChainStart(c: Cache, cands: seq<Candidate>, pol: Policies, clock: nat -> nat)
    ensures Went(c, cands, pol, clock, c, [], [], [], 0, 0, 0)
    ensures UsableAlong(c, cands, pol, clock, 0) <==> Usable(c, cands, pol, clock, c, [], [], 0)
  {
    hide AdmitAll;
    hide UsableAlong;
    assert cands[0..] == cands;
    AfterChainEnds([], [], AdmitAll(c, cands, pol, clock, 0));
  }

  lemma WentNext(c0: Cache, cands: seq<Candidate>, pol: Policies, clock: nat -> nat, c: Cache, ids: seq<BlockId>,
                 statuses: seq<AdmitStatus>, rs: seq<AdmitResult>, i: nat, admitted: nat, rejected: nat, r: AdmitResult)
    requires i < |cands| && Went(c0, cands, pol, clock, c, ids, statuses, rs, i, admitted, rejected)
    requires Admits(c, cands[i], clock(i), pol, r)
    ensures
      Went(c0, cands, pol, clock, r.cache, ids + (if r.handle.Some? then [r.handle.value] else []),
           statuses + [r.status], rs + [r], i + 1, if CountsAsHit(r.status) then admitted + 1 else admitted,
           if CountsAsHit(r.status) then rejected else rejected + 1)
  {
    hide IsChainRun;
    hide ChainOf;
    hide Admits;
    assert cands[..i + 1] == cands[..i] + [cands[i]];
    ChainRunMore(c0, cands[..i], pol, clock, 0, rs, cands[i], r);
    HitCountPush(statuses, r.status);
  }

  lemma UsableNext(c0: Cache, cands: seq<Candidate>, pol: Policies, clock: nat -> nat, c: Cache, ids: seq<BlockId>,
                   statuses: seq<AdmitStatus>, i: nat)
    requires i < |cands|
    ensures Usable(c0, cands, pol, clock, c, ids, statuses, i) ==>
      && c.bs > 0
      && var r := Admit(c, cands[i], clock(i), pol);
         && Injective(r.cache.index)
         && Usable(c0, cands, pol, clock, r.cache, ids + (if r.handle.Some? then [r.handle.value] else []),
                   statuses + [r.status], i + 1)
  {
    hide Admit;
    hide AdmitAll;
    hide AfterChain;
    if Usable(c0, cands, pol, clock, c, ids, statuses, i) {
      UsableAgain(c, cands[i..], pol, clock, i);
      AdmitAllUnfold(c, cands, i, pol, clock);
      var r := Admit(c, cands[i], clock(i), pol);
      AfterChainTwice(ids, statuses, if r.handle.Some? then [r.handle.value] else [], [r.status],
                      AdmitAll(r.cache, cands[i + 1..], pol, clock, i + 1));
      UsableNow(r.cache, cands[i + 1..], pol, clock, i + 1);
    }
  }

  lemma UsableAgain(c: Cache, cands: seq<Candidate>, pol: Policies, clock: nat -> nat, step: nat)
    requires UsableAlong(c, cands, pol, clock, step) && cands != []
    ensures c.bs > 0
  {
  }

  lemma ChainEnd(c0: Cache, cands: seq<Candidate>, pol: Policies, clock: nat -> nat, c: Cache, ids: seq<BlockId>,
                 statuses: seq<AdmitStatus>, rs: seq<AdmitResult>, admitted: nat, rejected: nat)
    requires Went(c0, cands, pol, clock, c, ids, statuses, rs, |cands|, admitted, rejected)
    ensures IsChainRun(c0, cands, pol, clock, 0, rs) && ChainOf(c0, rs) == ChainResult(c, ids, statuses)
    ensures admitted == HitCount(statuses) && admitted + rejected == |statuses| == |cands|
    ensures Usable(c0, cands, pol, clock, c, ids, statuses, |cands|) ==>
      AdmitAll(c0, cands, pol, clock, 0) == ChainResult(c, ids, statuses)
  {
    hide IsChainRun;
    hide UsableAlong;
    assert cands[..|cands|] == cands && cands[|cands|..] == [];
    AfterChainEnds(ids, statuses, ChainResult(c, [], []));
  }

  lemma UsableNow(c: Cache, cands: seq<Candidate>, pol: Policies, clock: nat -> nat, step: nat)
    requires UsableAlong(c, cands, pol, clock, step)
    ensures Injective(c.index)
  {
  }

  lemma {:induction false} HitCountPush(statuses: seq<AdmitStatus>, status: AdmitStatus)
    ensures HitCount(statuses + [status]) == HitCount(statuses) + if CountsAsHit(status) then 1 else 0
  {
    if statuses == [] {
      assert statuses + [status] == [status];
    } else {
      HitCountPush(statuses[1..], status);
      assert (statuses + [status])[1..] == statuses[1..] + [status];
    }
  }

  class AdmissionStage {
    const cache: LocalCache

    constructor (cache: LocalCache)
      ensures this.cache == cache
    {
      this.cache := cache;
    }

    /** One candidate; the handle of a newly admitted block goes to the end of the list.  Whatever the state of
        the reverse index, the outcome is one that admission may have; with an exact one it is the one that
        Admit computes. */
    method AdmitOne(cand: Candidate, now: nat, handles: seq<BlockHandle>, ghost ids: seq<BlockId>,
                    ghost hs: set<BlockHandle>)
      returns (status: AdmitStatus, kept: seq<BlockHandle>, ghost r: AdmitResult)
      requires cache.Ready() && Counted(hs + HandleSet(handles), cache.manager.store.records)
      requires HandlesOn(handles, cache.manager.store.records, ids) && Different(handles)
      modifies cache.Parts()
      ensures cache.Ready() && r.cache == cache.View() && r.status == status
      ensures Admits(old(cache.View()), cand, now, cache.admission.policies, r)
      ensures old(Exact(cache.index.T())) ==>
        && old(cache.View()).bs > 0 && r == CacheModel.Admit(old(cache.View()), cand, now, cache.admission.policies)
        && (Exact(cache.index.T()) <==> Injective(cache.View().index))
      ensures HandlesOn(kept, cache.manager.store.records, ids + if r.handle.Some? then [r.handle.value] else [])
      ensures Different(kept) && handles <= kept && forall h | h in kept :: h in handles || fresh(h)
      ensures Counted(hs + HandleSet(kept), cache.manager.store.records)
    {
      hide LocalCache.Ready;
      hide LocalCache.View;
      hide Counted;
      hide Exact;
      hide Wf;
      hide Admits;
      hide CacheModel.Admit;
      hide Injective;
      hide CacheInv;
      hide Different;
      var handle;
      status, handle := cache.AdmitBlock(cand, now, (_, _, _, _) => ContentHash(0, 0), hs + HandleSet(handles));
      r := AdmitResult(cache.View(), status, if handle.Some? then handle.value.record else None);
      kept := handles;
      if status == Admitted || status == AlreadyPresent {
        if handle.Some? {
          HandlesPush(handles, handle.value, cache.manager.store.records, ids, handle.value.record.value, hs);
          kept := handles + [handle.value];
        }
      }
      assert r.handle == None ==> ids + [] == ids;
    }

    /** Chain admission: candidate after candidate, whatever became of the one before; a handle comes with
        each newly admitted block, and a block found present counts as admitted without one. */
    method AdmitBlocks(cands: seq<Candidate>, clock: nat -> nat, ghost hs: set<BlockHandle>)
      returns (r: AdmissionOutcome, ghost ids: seq<BlockId>, ghost statuses: seq<AdmitStatus>,
               ghost rs: seq<AdmitResult>)
      requires cache.Ready() && Counted(hs, cache.manager.store.records)
      modifies cache.Parts()
      ensures cache.Ready() && HandlesOn(r.handles, cache.manager.store.records, ids)
      ensures IsChainRun(old(cache.View()), cands, cache.admission.policies, clock, 0, rs)
      ensures ChainResult(cache.View(), ids, statuses) == ChainOf(old(cache.View()), rs)
      ensures old(Exact(cache.index.T()) && UsableAlong(cache.View(), cands, cache.admission.policies, clock, 0)) ==>
        && Exact(cache.index.T())
        && ChainOf(old(cache.View()), rs) == AdmitAll(old(cache.View()), cands, cache.admission.policies, clock, 0)
      ensures r.admitted == HitCount(statuses) && r.admitted + r.rejected == |statuses| == |cands|
      ensures Different(r.handles) && forall h | h in r.handles :: fresh(h)
      ensures Counted(hs + HandleSet(r.handles), cache.manager.store.records)
    {
      hide LocalCache.Ready;
      hide LocalCache.View;
      hide Counted;
      hide HandlesOn;
      hide HandleSet;
      hide Usable;
      hide Went;
      hide Exact;
      hide Admits;
      hide AdmitAll;
      hide UsableAlong;
      hide IsChainRun;
      hide ChainOf;
      hide Different;
      hide Injective;
      hide CacheModel.Admit;
      var handles: seq<BlockHandle> := [];
      var admitted, rejected, i := 0, 0, 0;
      ids, statuses, rs := [], [], [];
      ghost var c0, pol, exact := cache.View(), cache.admission.policies, Exact(cache.index.T());
      NoHandles(cache.manager.store.records, hs);
      ChainStart(c0, cands, pol, clock);
      while i < |cands|
        invariant cache.Ready() && HandlesOn(handles, cache.manager.store.records, ids)
        invariant Different(handles) && forall h | h in handles :: fresh(h)
        invariant Counted(hs + HandleSet(handles), cache.manager.store.records)
        invariant i <= |cands| && Went(c0, cands, pol, clock, cache.View(), ids, statuses, rs, i, admitted, rejected)
        invariant exact && UsableAlong(c0, cands, pol, clock, 0) ==>
          Exact(cache.index.T()) && Usable(c0, cands, pol, clock, cache.View(), ids, statuses, i)
      {
        ghost var c := cache.View();
        var status;
        ghost var one;
        status, handles, one := AdmitOne(cands[i], clock(i), handles, ids, hs);
        WentNext(c0, cands, pol, clock, c, ids, statuses, rs, i, admitted, rejected, one);
        UsableNext(c0, cands, pol, clock, c, ids, statuses, i);
        if status == Admitted || status == AlreadyPresent {
          admitted := admitted + 1;
        } else {
          rejected := rejected + 1;
        }
        ids := ids + if one.handle.Some? then [one.handle.value] else [];
        statuses, rs := statuses + [status], rs + [one];
        i := i + 1;
      }
      ChainEnd(c0, cands, pol, clock, cache.View(), ids, statuses, rs, admitted, rejected);
      r := AdmissionOutcome(handles, admitted, rejected);
    }
  }

  datatype RouteOutcome = RouteOutcome(reusable: seq<BlockHandle>, matchedTokens: nat, missTokenOffset: nat,
                                       localHits: nat, remoteHits: nat)

  /** The handles have been moved from. */
  ghost predicate Emptied(handles: seq<BlockHandle>)
    reads HandleSet(handles)
  {
    forall h | h in HandleSet(handles) :: h.record == None
  }

  class ResultAssembler {
    constructor () {}

    /** Moves the handles into a new vector; the old ones are empty afterwards, and no count changes. */
    method MoveAll(handles: seq<BlockHandle>, ghost records: array<BlockRecord>, ghost ids: seq<BlockId>,
                   ghost hs: set<BlockHandle>) returns (moved: seq<BlockHandle>)
      requires HandlesOn(handles, records, ids) && Different(handles)
      requires HandleSet(handles) <= hs && Counted(hs, records)
      modifies HandleSet(handles)
      ensures HandlesOn(moved, records, ids) && Different(moved) && forall h | h in moved :: fresh(h)
      ensures Emptied(handles)
      ensures Counted(hs + HandleSet(moved), records)
    {
      moved := [];
      var i := 0;
      NoHandles(records, hs);
      while i < |handles|
        invariant 0 <= i == |moved| <= |handles|
        invariant HandlesOn(moved, records, ids[..i]) && Different(moved) && forall h | h in moved :: fresh(h)
        invariant forall j | 0 <= j < i :: handles[j].record == None
        invariant forall j | i <= j < |handles| :: handles[j].records == records && handles[j].record == Some(ids[j])
        invariant Counted(hs + HandleSet(moved), records)
      {
        ghost var live := hs + HandleSet(moved);
        assert handles[i] in HandleSet(handles);
        var h := new BlockHandle.MoveFrom(handles[i], live);
        HandlesPush(moved, h, records, ids[..i], ids[i], hs);
        moved := moved + [h];
        assert ids[..i + 1] == ids[..i] + [ids[i]];
        i := i + 1;
      }
      assert ids[..i] == ids;
    }

    method Assemble(bs: nat, local: seq<BlockHandle>, admitted: seq<BlockHandle>, admittedCount: nat,
                    ghost records: array<BlockRecord>, ghost localIds: seq<BlockId>, ghost admittedIds: seq<BlockId>,
                    ghost hs: set<BlockHandle>) returns (r: RouteOutcome)
      requires HandlesOn(local, records, localIds) && Different(local) && HandleSet(local) <= hs
      requires HandlesOn(admitted, records, admittedIds) && Different(admitted) && HandleSet(admitted) <= hs
      requires HandleSet(local) !! HandleSet(admitted) && Counted(hs, records)
      modifies HandleSet(local), HandleSet(admitted)
      ensures HandlesOn(r.reusable, records, localIds + admittedIds)
      ensures Different(r.reusable) && forall h | h in r.reusable :: fresh(h)
      ensures Emptied(local) && Emptied(admitted)
      ensures r.localHits == |local| && r.remoteHits == admittedCount
      ensures r.matchedTokens == r.missTokenOffset == |r.reusable| * bs
      ensures Counted(hs + HandleSet(r.reusable), records)
    {
      hide Counted;
      hide HandlesOn;
      hide Different;
      hide Emptied;
      var first := MoveAll(local, records, localIds, hs);
      var second := MoveAll(admitted, records, admittedIds, hs + HandleSet(first));
      HandlesConcat(first, second, records, localIds, admittedIds, hs);
      DifferentConcat(first, second);
      var reusable := first + second;
      r := RouteOutcome(reusable, |reusable| * bs, |reusable| * bs, |local|, admittedCount);
    }
  }

  lemma DifferentConcat(a: seq<BlockHandle>, b: seq<BlockHandle>)
    requires Different(a) && Different(b) && forall h | h in b :: h !in a
    ensures Different(a + b)
  {
    forall i, j | 0 <= i < j < |a + b| ensures (a + b)[i] != (a + b)[j] {
      if i < |a| <= j {
        assert a[i] in a && b[j - |a|] in b;
      }
    }
  }

  lemma HandlesConcat(a: seq<BlockHandle>, b: seq<BlockHandle>, records: array<BlockRecord>, ids: seq<BlockId>,
                      ids': seq<BlockId>, hs: set<BlockHandle>)
    requires HandlesOn(a, records, ids) && HandlesOn(b, records, ids')
    ensures HandlesOn(a + b, records, ids + ids')
    ensures hs + HandleSet(a + b) == hs + HandleSet(a) + HandleSet(b)
  {
    assert HandleSet(a + b) == HandleSet(a) + HandleSet(b);
  }

  class RequestPipeline {
    const cache: LocalCache
    const remote: RemoteResolutionStage
    const admission: AdmissionStage
    const assembler: ResultAssembler

    ghost predicate Wired()
      reads this
    {
      admission.cache == cache
    }

    constructor (cache: LocalCache, remote: RemoteResolutionStage, admission: AdmissionStage)
      requires admission.cache == cache
      ensures Wired() && this.cache == cache && this.remote == remote && this.admission == admission
    {
      this.cache, this.remote, this.admission := cache, remote, admission;
      assembler := new ResultAssembler();
    }

    /** The peers share nothing with this worker's own cache. */
    ghost predicate Apart()
      reads remote.fetcher.transport
    {
      forall n | n in remote.fetcher.transport.workers ::
        remote.fetcher.transport.workers[n].Footprint() !! cache.Footprint()
    }

    lemma PartsApart()
      requires Apart()
      ensures cache.Footprint() !! remote.fetcher.transport.Footprints()
      ensures cache.Footprint() !! remote.fetcher.transport.Records()
      ensures remote.coordinator !in cache.Footprint() && remote.fetcher.transport !in cache.Footprint()
    {
    }

    /** The peers, as this request finds them between its stages. */
    ghost predicate PeersReady(hs: set<BlockHandle>)
      reads remote.fetcher.transport, remote.fetcher.transport.Footprints(), remote.fetcher.transport.Records(), hs
    {
      remote.fetcher.transport.Ready() && remote.fetcher.transport.AllCounted(hs)
    }

    method LookupStage(req: Request, now: nat, ghost hs: set<BlockHandle>) returns (local: LookupOutcome)
      requires cache.Ready() && Counted(hs, cache.manager.store.records) && PeersReady(hs) && Apart()
      modifies cache.manager.store.records
      ensures cache.Ready() && old(cache.View()).bs == cache.blockSize > 0 && cache.index.T() == old(cache.index.T())
      ensures
        var p := LookupPrefix(old(cache.View()), req.ctx, req.tokens, now);
        cache.View() == p.cache && HandlesOn(local.matchedBlocks, cache.manager.store.records, p.handles)
      ensures Different(local.matchedBlocks) && forall h | h in local.matchedBlocks :: fresh(h)
      ensures Counted(hs + HandleSet(local.matchedBlocks), cache.manager.store.records)
      ensures PeersReady(hs) && remote.fetcher.transport.Views() == old(remote.fetcher.transport.Views()) && Apart()
    {
      hide LocalCache.Ready;
      hide Counted;
      hide PeersReady;
      hide InprocTransport.Views;
      hide InprocTransport.Footprints;
      hide InprocTransport.Records;
      hide Different;
      hide LookupPrefix;
      PartsApart();
      ViewSize(cache);
      assert allocated(remote.fetcher.transport.Footprints()) && allocated(remote.fetcher.transport.Records());
      local := cache.LookupPrefix(req.ctx, req.tokens, now, hs);
    }

    method RemoteStage(req: Request, local: seq<BlockHandle>, now: nat, ghost ids: seq<BlockId>,
                       ghost hs: set<BlockHandle>)
      returns (r: ResolutionOutcome, ghost failure: Option<Distributed.FetchStatus>)
      requires remote.Wired() && cache.blockSize > 0 && PeersReady(hs) && Apart()
      requires cache.Ready() && Counted(hs + HandleSet(local), cache.manager.store.records)
      requires HandlesOn(local, cache.manager.store.records, ids)
      modifies remote.coordinator, remote.fetcher.transport.Records()
      ensures PeersReady(hs) && Apart() && r.remoteHits == |r.fetched|
      ensures
        Resolution(remote.fetcher.transport.Views(), remote.coordinator.index, r.fetched, r.staleRefs, failure)
          == Resolve(old(remote.fetcher.transport.Views()), old(remote.coordinator.index), cache.blockSize, req,
                     Plan(remote.planner.hash, cache.blockSize, req, |local|), remote.choose, now)
      ensures cache.Ready() && cache.View() == old(cache.View()) && cache.index.T() == old(cache.index.T())
      ensures Counted(hs + HandleSet(local), cache.manager.store.records)
      ensures HandlesOn(local, cache.manager.store.records, ids)
    {
      hide LocalCache.Ready;
      hide LocalCache.View;
      hide Counted;
      hide HandlesOn;
      hide InprocTransport.Ready;
      hide InprocTransport.AllCounted;
      hide InprocTransport.Views;
      hide Resolve;
      hide Plan;
      PartsApart();
      assert allocated(cache.Footprint());
      r, failure := remote.Run(cache.blockSize, req, |local|, now, hs);
    }

    method AdmissionStep(fetched: seq<Candidate>, local: seq<BlockHandle>, clock: nat -> nat,
                         ghost localIds: seq<BlockId>, ghost hs: set<BlockHandle>)
      returns (r: AdmissionOutcome, ghost ids: seq<BlockId>, ghost statuses: seq<AdmitStatus>,
               ghost rs: seq<AdmitResult>)
      requires Wired() && cache.Ready() && Counted(hs + HandleSet(local), cache.manager.store.records)
      requires PeersReady(hs) && Apart() && HandlesOn(local, cache.manager.store.records, localIds)
      modifies cache.Parts()
      ensures cache.Ready() && HandlesOn(r.handles, cache.manager.store.records, ids)
      ensures IsChainRun(old(cache.View()), fetched, cache.admission.policies, clock, 0, rs)
      ensures ChainResult(cache.View(), ids, statuses) == ChainOf(old(cache.View()), rs)
      ensures old(Exact(cache.index.T()) && UsableAlong(cache.View(), fetched, cache.admission.policies, clock, 0)) ==>
        && Exact(cache.index.T())
        && ChainOf(old(cache.View()), rs) == AdmitAll(old(cache.View()), fetched, cache.admission.policies, clock, 0)
      ensures r.admitted == HitCount(statuses)
      ensures Different(r.handles) && forall h | h in r.handles :: fresh(h)
      ensures Counted(hs + HandleSet(local) + HandleSet(r.handles), cache.manager.store.records)
      ensures PeersReady(hs) && remote.fetcher.transport.Views() == old(remote.fetcher.transport.Views())
      ensures HandlesOn(local, cache.manager.store.records, localIds)
    {
      hide LocalCache.Ready;
      hide LocalCache.View;
      hide Counted;
      hide HandlesOn;
      hide PeersReady;
      hide InprocTransport.Views;
      hide InprocTransport.Footprints;
      hide InprocTransport.Records;
      hide Different;
      hide UsableAlong;
      hide AdmitAll;
      hide IsChainRun;
      hide ChainOf;
      hide Exact;
      hide Wf;
      hide HandleSet;
      hide LocalCache.Footprint;
      PartsApart();
      PartsOfFootprint();
      HandlesApart(local);
      assert allocated(HandleSet(local));
      assert allocated(remote.fetcher.transport.Footprints()) && allocated(remote.fetcher.transport.Records());
      r, ids, statuses, rs := admission.AdmitBlocks(fetched, clock, hs + HandleSet(local));
    }

    lemma PartsOfFootprint()
      ensures cache.Parts() <= cache.Footprint()
    {
    }

    lemma HandlesApart(handles: seq<BlockHandle>)
      ensures HandleSet(handles) !! remote.fetcher.transport.Footprints()
      ensures HandleSet(handles) !! remote.fetcher.transport.Records()
      ensures HandleSet(handles) !! cache.Footprint()
    {
    }

    lemma AllAllocated()
      ensures allocated(remote.fetcher.transport.Footprints()) && allocated(remote.fetcher.transport.Records())
      ensures allocated(cache.Footprint())
    {
    }

    method AssembleStep(local: seq<BlockHandle>, admitted: seq<BlockHandle>, count: nat, ghost localIds: seq<BlockId>,
                        ghost ids: seq<BlockId>, ghost hs: set<BlockHandle>) returns (r: RouteOutcome)
      requires cache.Ready() && PeersReady(hs)
      requires HandlesOn(local, cache.manager.store.records, localIds) && Different(local)
      requires HandlesOn(admitted, cache.manager.store.records, ids) && Different(admitted)
      requires HandleSet(local) !! HandleSet(admitted) && HandleSet(local) !! hs && HandleSet(admitted) !! hs
      requires Counted(hs + HandleSet(local) + HandleSet(admitted), cache.manager.store.records)
      modifies HandleSet(local), HandleSet(admitted)
      ensures HandlesOn(r.reusable, cache.manager.store.records, localIds + ids)
      ensures Different(r.reusable) && forall h | h in r.reusable :: fresh(h)
      ensures Counted(hs + HandleSet(r.reusable), cache.manager.store.records)
      ensures r.localHits == |local| && r.remoteHits == count
      ensures r.matchedTokens == r.missTokenOffset == |r.reusable| * cache.blockSize
      ensures cache.Ready() && cache.View() == old(cache.View()) && cache.index.T() == old(cache.index.T())
      ensures PeersReady(hs) && remote.fetcher.transport.Views() == old(remote.fetcher.transport.Views())
    {
      hide LocalCache.Ready;
      hide LocalCache.View;
      hide PeersReady;
      hide Counted;
      hide HandlesOn;
      hide InprocTransport.Views;
      hide InprocTransport.Footprints;
      hide InprocTransport.Records;
      hide LocalCache.Footprint;
      hide Different;
      HandlesApart(local);
      HandlesApart(admitted);
      AllAllocated();
      r := assembler.Assemble(cache.blockSize, local, admitted, count, cache.manager.store.records, localIds, ids,
                              hs + HandleSet(local) + HandleSet(admitted));
      OnlyReusableCount(local, admitted, r.reusable, hs, cache.manager.store.records);
    }

    /** The whole request.  Whatever the state of the reverse index, it goes as one of the runs of the request;
        when the index is exact and stays so along the way, as the one that RunRequest computes. */
    method Run(req: Request, now: nat, clock: nat -> nat, ghost hs: set<BlockHandle>)
      returns (r: RouteOutcome, ghost run: RunResult, ghost rs: seq<AdmitResult>)
      requires Wired() && remote.Wired() && cache.Ready() && Counted(hs, cache.manager.store.records)
      requires PeersReady(hs) && Apart()
      modifies cache.Parts(), remote.coordinator, remote.fetcher.transport.Records()
      ensures IsRequestRun(old(cache.View()), old(remote.fetcher.transport.Views()), old(remote.coordinator.index),
                           remote.planner.hash, req, cache.admission.policies, remote.choose, now, clock, rs, run)
      ensures
        && old(Exact(cache.index.T()))
        && RequestUsable(old(cache.View()), old(remote.fetcher.transport.Views()), old(remote.coordinator.index),
                         remote.planner.hash, req, cache.admission.policies, remote.choose, now, clock)
        ==>
          && Exact(cache.index.T())
          && old(cache.View()).bs > 0
          && run == RunRequest(old(cache.View()), old(remote.fetcher.transport.Views()), old(remote.coordinator.index),
                               remote.planner.hash, req, cache.admission.policies, remote.choose, now, clock)
      ensures cache.Ready() && cache.View() == run.cache
      ensures PeersReady(hs + HandleSet(r.reusable)) && Apart() && remote.fetcher.transport.Views() == run.peers
      ensures remote.coordinator.index == run.dir
      ensures HandlesOn(r.reusable, cache.manager.store.records, run.route.reusable)
      ensures Different(r.reusable) && forall h | h in r.reusable :: fresh(h)
      ensures Counted(hs + HandleSet(r.reusable), cache.manager.store.records)
      ensures r.matchedTokens == r.missTokenOffset == run.route.matchedTokens
      ensures r.localHits == run.route.localHits && r.remoteHits == run.route.remoteHits
    {
      hide LocalCache.Ready;
      hide LocalCache.View;
      hide PeersReady;
      hide Apart;
      hide Counted;
      hide HandlesOn;
      hide InprocTransport.Views;
      hide InprocTransport.Footprints;
      hide InprocTransport.Records;
      hide UsableAlong;
      hide Exact;
      hide Different;
      hide LookupPrefix;
      hide Resolve;
      hide Plan;
      hide AdmitAll;
      hide IsChainRun;
      hide ChainOf;
      ghost var c, peers, dir := cache.View(), remote.fetcher.transport.Views(), remote.coordinator.index;
      var local := LookupStage(req, now, hs);
      ghost var localRun := LookupPrefix(c, req.ctx, req.tokens, now);
      HandlesLength(local.matchedBlocks, cache.manager.store.records, localRun.handles);
      var fetched;
      ghost var failure;
      fetched, failure := RemoteStage(req, local.matchedBlocks, now, localRun.handles, hs);
      ghost var res := ResolveFor(c, peers, dir, remote.planner.hash, req, remote.choose, now);
      var admitted;
      ghost var ids, statuses;
      admitted, ids, statuses, rs := AdmissionStep(fetched.fetched, local.matchedBlocks, clock, localRun.handles, hs);
      run := RunOf(c.bs, localRun, res, ChainOf(localRun.cache, rs));
      HandlesLength(admitted.handles, cache.manager.store.records, ids);
      r := AssembleStep(local.matchedBlocks, admitted.handles, admitted.admitted, localRun.handles, ids, hs);
      HandlesLength(r.reusable, cache.manager.store.records, localRun.handles + ids);
      PeersStillReady(r.reusable, localRun.handles + ids, hs);
    }

    /** Handles on this worker's records do not count at the peers. */
    lemma PeersStillReady(handles: seq<BlockHandle>, ids: seq<BlockId>, hs: set<BlockHandle>)
      requires Apart() && HandlesOn(handles, cache.manager.store.records, ids)
      ensures PeersReady(hs + HandleSet(handles)) <==> PeersReady(hs)
    {
      hide LocalCache.Ready;
      hide Counted;
      var workers := remote.fetcher.transport.workers;
      OwnRecords(cache);
      forall n | n in workers
        ensures
          var records := workers[n].manager.store.records;
          Counted(hs + HandleSet(handles), records) <==> Counted(hs, records)
      {
        OwnRecords(workers[n]);
        OthersUncounted(hs, HandleSet(handles), workers[n].manager.store.records);
      }
    }
  }

  /** The handles that were moved from are empty, so the new ones count alone. */
  lemma OnlyReusableCount(local: seq<BlockHandle>, admitted: seq<BlockHandle>, reusable: seq<BlockHandle>,
                          hs: set<BlockHandle>, records: array<BlockRecord>)
    requires Emptied(local) && Emptied(admitted)
    requires HandleSet(local) !! hs && HandleSet(admitted) !! hs
    requires HandleSet(local) !! HandleSet(reusable) && HandleSet(admitted) !! HandleSet(reusable)
    requires Counted(hs + HandleSet(local) + HandleSet(admitted) + HandleSet(reusable), records)
    ensures Counted(hs + HandleSet(reusable), records)
  {
    hide Counted;
    hide HandleSet;
    var gone := HandleSet(local) + HandleSet(admitted);
    var all := hs + HandleSet(local) + HandleSet(admitted) + HandleSet(reusable);
    EmptyUncounted(all, gone, records);
    assert all - gone == hs + HandleSet(reusable);
  }

  lemma HandlesLength(handles: seq<BlockHandle>, records: array<BlockRecord>, ids: seq<BlockId>)
    requires HandlesOn(handles, records, ids)
    ensures |handles| == |ids|
  {
  }

  lemma ViewSize(cache: LocalCache)
    requires cache.Ready()
    ensures cache.View().bs == cache.blockSize > 0
  {
  }
}
