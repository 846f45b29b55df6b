/** One request through a worker's pipeline, as values: local lookup, the plan of missing blocks, their
    resolution at other workers, and chain admission of what was fetched (src/pipeline).  What the result
    is, and what a stale directory can cost. */
module PipelineModel {
  import opened Types
  import opened PrefixMap
  import opened CacheModel
  import opened CacheOps
  import opened Coordinator
  import opened Distributed

  datatype Request = Request(ctx: ContextHash, tokens: seq<Token>)

  datatype Missing = Missing(blockIndex: nat, hash: ContentHash)

  // ---------- the plan ----------

  /** The content hash of the request's i-th block. */
  function BlockHash(h: Hasher, bs: nat, req: Request, i: nat): ContentHash {
    if Fits(bs, req.tokens, i + 1) then
      OneMore(bs, i);
      h(req.ctx, i, Truncated16(bs), req.tokens[i * bs..(i + 1) * bs])
    else ContentHash(0, 0)
  }

  lemma OneMore(bs: nat, i: nat)
    ensures i * bs <= (i + 1) * bs == i * bs + bs
  {
  }

  /** All full blocks of the request from the first missing one on. */
  function Plan(h: Hasher, bs: nat, req: Request, first: nat): seq<Missing>
    requires bs > 0
  {
    var total := |req.tokens| / bs;
    if first >= total then []
    else seq(total - first, i requires 0 <= i < total - first => Missing(first + i, BlockHash(h, bs, req, first + i)))
  }

  ghost predicate IsPlanned(h: Hasher, bs: nat, req: Request, i: nat, mb: Missing) {
    Fits(bs, req.tokens, i + 1) && mb == Missing(i, BlockHash(h, bs, req, i))
  }

  /** Blocks of the request from `first` on, one after the other. */
  ghost predicate IsPlan(h: Hasher, bs: nat, req: Request, first: nat, missing: seq<Missing>) {
    forall i | 0 <= i < |missing| :: IsPlanned(h, bs, req, first + i, missing[i])
  }

  lemma FullBlocks(bs: nat, tokens: seq<Token>, i: nat)
    requires bs > 0
    ensures Fits(bs, tokens, i) <==> i <= |tokens| / bs
  {
    var total := |tokens| / bs;
    assert total * bs <= |tokens| < (total + 1) * bs;
    if i <= total {
      FitsMono(bs, tokens, i, total);
    } else if Fits(bs, tokens, i) {
      FitsMono(bs, tokens, total + 1, i);
      assert false;
    }
  }

  /** The plan lists exactly the full blocks of the request that are missing. */
  lemma PlanIs(h: Hasher, bs: nat, req: Request, first: nat)
    requires bs > 0
    ensures IsPlan(h, bs, req, first, Plan(h, bs, req, first))
    ensures !Fits(bs, req.tokens, first + |Plan(h, bs, req, first)| + 1)
  {
    hide Fits;
    hide BlockHash;
    var missing := Plan(h, bs, req, first);
    forall i | 0 <= i < |missing| ensures IsPlanned(h, bs, req, first + i, missing[i]) {
      FullBlocks(bs, req.tokens, first + i + 1);
    }
    FullBlocks(bs, req.tokens, first + |missing| + 1);
  }

  // ---------- resolution ----------

  /** A policy may decline, but a replica it names is one that it was offered. */
  type ReplicaPolicy = (ContentHash, seq<Ref>) -> Option<Ref>

  ghost predicate ChoosesFromOffer(choose: ReplicaPolicy) {
    forall hash: ContentHash, refs: seq<Ref> :: choose(hash, refs).Some? ==> choose(hash, refs).value in refs
  }

  function Prefix(tokens: seq<Token>, n: nat): seq<Token> {
    if n <= |tokens| then tokens[..n] else tokens
  }

  function FetchedCandidate(bs: nat, req: Request, mb: Missing, f: Distributed.FetchResult): Candidate {
    Candidate(req.ctx, mb.blockIndex, Prefix(req.tokens, (mb.blockIndex + 1) * bs), f.hash, f.payload, RemoteFetch)
  }

  /** failure is why the last fetch ended the walk, if a fetch did. */
  datatype Resolution = Resolution(
    workers: map<NodeId, Cache>,
    dir: Directory,
    fetched: seq<Candidate>,
    stale: nat,
    failure: Option<Distributed.FetchStatus>)

  /** Block by block until one cannot be had; a stale ref is reported before the walk ends. */
  ghost function Resolve(workers: map<NodeId, Cache>, dir: Directory, bs: nat, req: Request, missing: seq<Missing>,
                         choose: ReplicaPolicy, now: nat): Resolution
    decreases |missing|
  {
    if missing == [] then Resolution(workers, dir, [], 0, None)
    else
      var mb := missing[0];
      var refs := Query(dir, mb.hash);
      var ref := if refs == [] then None else choose(mb.hash, refs);
      if ref == None then Resolution(workers, dir, [], 0, None)
      else
        var f := Fetch(workers, ref.value, mb.hash, now);
        var workers' := AfterFetch(workers, ref.value, now);
        match f.status
        case FetchStale => Resolution(workers', Cleaned(dir, Is(ref.value)), [], 1, Some(f.status))
        case FetchOk =>
          var rest := Resolve(workers', dir, bs, req, missing[1..], choose, now);
          rest.(fetched := [FetchedCandidate(bs, req, mb, f)] + rest.fetched)
        case _ => Resolution(workers', dir, [], 0, Some(f.status))
  }

  /** cand is block i of the request: position, tokens up to its end, and content hash. */
  ghost predicate IsRequestBlock(h: Hasher, bs: nat, req: Request, i: nat, cand: Candidate) {
    && Fits(bs, req.tokens, i + 1)
    && cand.ctx == req.ctx
    && cand.blockIndex == i
    && cand.tokens == Prefix(req.tokens, (i + 1) * bs)
    && cand.hash == BlockHash(h, bs, req, i)
  }

  lemma {:induction false} ResolveBlocks(workers: map<NodeId, Cache>, dir: Directory, h: Hasher, bs: nat, req: Request,
                                         missing: seq<Missing>, first: nat, choose: ReplicaPolicy, now: nat)
    requires IsPlan(h, bs, req, first, missing)
    ensures
      var fetched := Resolve(workers, dir, bs, req, missing, choose, now).fetched;
      && |fetched| <= |missing|
      && forall i | 0 <= i < |fetched| :: IsRequestBlock(h, bs, req, first + i, fetched[i])
    decreases |missing|
  {
    hide Serve;
    hide BlockHash;
    hide Fits;
    if missing != [] {
      var mb, refs := missing[0], Query(dir, missing[0].hash);
      var ref := if refs == [] then None else choose(mb.hash, refs);
      if ref.Some? && Fetch(workers, ref.value, mb.hash, now).status == FetchOk {
        assert IsPlanned(h, bs, req, first + 0, missing[0]);
        forall i | 0 <= i < |missing[1..]| ensures IsPlanned(h, bs, req, first + 1 + i, missing[1..][i]) {
          assert IsPlanned(h, bs, req, first + (i + 1), missing[i + 1]);
        }
        var rest := Resolve(AfterFetch(workers, ref.value, now), dir, bs, req, missing[1..], choose, now);
        ResolveBlocks(AfterFetch(workers, ref.value, now), dir, h, bs, req, missing[1..], first + 1, choose, now);
        var cand := FetchedCandidate(bs, req, mb, Fetch(workers, ref.value, mb.hash, now));
        assert IsRequestBlock(h, bs, req, first, cand);
        forall i | 0 <= i < |[cand] + rest.fetched|
          ensures IsRequestBlock(h, bs, req, first + i, ([cand] + rest.fetched)[i])
        {
          if i > 0 {
            assert IsRequestBlock(h, bs, req, first + 1 + (i - 1), rest.fetched[i - 1]);
          }
        }
      }
    }
  }

  /** What is fetched are the blocks of the request from the first local miss on, without a gap, each with
      all the tokens up to its end and the hash of its own block: whatever the directory says and whatever
      the workers hold. */
  lemma FetchedAreNextBlocks(workers: map<NodeId, Cache>, dir: Directory, h: Hasher, bs: nat, req: Request, first: nat,
                             choose: ReplicaPolicy, now: nat)
    requires bs > 0
    ensures
      var fetched := Resolve(workers, dir, bs, req, Plan(h, bs, req, first), choose, now).fetched;
      forall i | 0 <= i < |fetched| ::
        IsRequestBlock(h, bs, req, first + i, fetched[i]) && |fetched[i].tokens| == (first + i + 1) * bs
  {
    hide Resolve;
    hide IsPlan;
    hide BlockHash;
    PlanIs(h, bs, req, first);
    ResolveBlocks(workers, dir, h, bs, req, Plan(h, bs, req, first), first, choose, now);
  }

  // ---------- progress against stale entries ----------

  /** A resolution reports at most one stale ref; reporting one strictly lowers the number of directory
      entries, and without one the directory is as before. */
  lemma {:induction false} StaleLowersEntries(workers: map<NodeId, Cache>, dir: Directory, bs: nat, req: Request,
                                              missing: seq<Missing>, choose: ReplicaPolicy, now: nat)
    requires ChoosesFromOffer(choose)
    ensures
      var r := Resolve(workers, dir, bs, req, missing, choose, now);
      && r.stale <= 1
      && (r.stale == 0 ==> r.dir == dir)
      && EntryCount(r.dir) + r.stale <= EntryCount(dir)
      && (r.stale == 1 <==> r.failure == Some(FetchStale))
    decreases |missing|
  {
    hide EntryCount;
    hide Cleaned;
    hide Serve;
    if missing != [] {
      var mb, refs := missing[0], Query(dir, missing[0].hash);
      var ref := if refs == [] then None else choose(mb.hash, refs);
      if ref.Some? {
        match Fetch(workers, ref.value, mb.hash, now).status
        case FetchStale =>
          assert Listed(dir, mb.hash, ref.value);
          InvalidateLowers(dir, mb.hash, ref.value);
        case FetchOk =>
          StaleLowersEntries(AfterFetch(workers, ref.value, now), dir, bs, req, missing[1..], choose, now);
        case _ =>
      }
    }
  }

  /** One attempt to resolve a request; between attempts the workers may have done anything. */
  datatype Attempt = Attempt(workers: map<NodeId, Cache>, bs: nat, req: Request, missing: seq<Missing>,
                             choose: ReplicaPolicy, now: nat)

  ghost function AttemptOn(dir: Directory, a: Attempt): Resolution {
    Resolve(a.workers, dir, a.bs, a.req, a.missing, a.choose, a.now)
  }

  /** How many of the attempts ended at a stale ref. */
  ghost function StaleEnds(dir: Directory, attempts: seq<Attempt>): nat
    decreases |attempts|
  {
    if attempts == [] then 0
    else
      var r := AttemptOn(dir, attempts[0]);
      (if r.failure == Some(FetchStale) then 1 else 0) + StaleEnds(r.dir, attempts[1..])
  }

  /** Without new announcements, however often requests are retried, at most as many attempts end at a
      stale ref as the directory has entries. */
  lemma {:induction false} RetriesAreBounded(dir: Directory, attempts: seq<Attempt>)
    requires forall i | 0 <= i < |attempts| :: ChoosesFromOffer(attempts[i].choose)
    ensures StaleEnds(dir, attempts) <= EntryCount(dir)
    decreases |attempts|
  {
    hide EntryCount;
    hide Resolve;
    hide ChoosesFromOffer;
    if attempts != [] {
      var a := attempts[0];
      StaleLowersEntries(a.workers, dir, a.bs, a.req, a.missing, a.choose, a.now);
      RetriesAreBounded(AttemptOn(dir, a).dir, attempts[1..]);
    }
  }

  // ---------- chain admission and the result ----------

  /** handles are those of the blocks admitted; statuses has one entry for each candidate. */
  datatype ChainResult = ChainResult(cache: Cache, handles: seq<BlockId>, statuses: seq<AdmitStatus>)

  /** Candidate after candidate, at the times that the clock gives, whatever became of the one before. */
  ghost function AdmitAll(c: Cache, cands: seq<Candidate>, pol: Policies, clock: nat -> nat, step: nat): ChainResult
    decreases |cands|
  {
    if cands == [] || c.bs == 0 then ChainResult(c, [], [])
    else
      var r := Admit(c, cands[0], clock(step), pol);
      var rest := AdmitAll(r.cache, cands[1..], pol, clock, step + 1);
      ChainResult(rest.cache, (if r.handle.Some? then [r.handle.value] else []) + rest.handles,
                  [r.status] + rest.statuses)
  }

  /** Outcomes of admit, one for each candidate, each in the cache that the one before left. */
  ghost predicate IsChainRun(c: Cache, cands: seq<Candidate>, pol: Policies, clock: nat -> nat, step: nat,
                             rs: seq<AdmitResult>)
    decreases |cands|
  {
    && |rs| == |cands|
    && (cands != [] ==>
          && Admits(c, cands[0], clock(step), pol, rs[0])
          && IsChainRun(rs[0].cache, cands[1..], pol, clock, step + 1, rs[1..]))
  }

  /** What such outcomes add up to. */
  function ChainOf(c: Cache, rs: seq<AdmitResult>): ChainResult
    decreases |rs|
  {
    if rs == [] then ChainResult(c, [], [])
    else
      var r, rest := rs[0], ChainOf(rs[0].cache, rs[1..]);
      ChainResult(rest.cache, (if r.handle.Some? then [r.handle.value] else []) + rest.handles,
                  [r.status] + rest.statuses)
  }

  /** A block that is there already counts as admitted. */
  predicate CountsAsHit(status: AdmitStatus) {
    status == Admitted || status == AlreadyPresent
  }

  function HitCount(statuses: seq<AdmitStatus>): nat {
    if statuses == [] then 0
    else (if CountsAsHit(statuses[0]) then 1 else 0) + HitCount(statuses[1..])
  }

  /** What the request gets: the handles it may reuse, the tokens they cover, and where they came from. */
  datatype RouteResult = RouteResult(reusable: seq<BlockId>, matchedTokens: nat, localHits: nat, remoteHits: nat)

  function Assemble(bs: nat, local: seq<BlockId>, admitted: seq<BlockId>, hits: nat): RouteResult {
    RouteResult(local + admitted, |local + admitted| * bs, |local|, hits)
  }

  datatype RunResult = RunResult(cache: Cache, peers: map<NodeId, Cache>, dir: Directory, route: RouteResult,
                                 local: seq<BlockId>, fetched: seq<Candidate>, statuses: seq<AdmitStatus>,
                                 failure: Option<Distributed.FetchStatus>)

  /** What a request leaves, given its lookup, its resolution and its chain admission. */
  function RunOf(bs: nat, local: LookupResult, res: Resolution, chain: ChainResult): RunResult {
    RunResult(chain.cache, res.workers, res.dir, Assemble(bs, local.handles, chain.handles, HitCount(chain.statuses)),
              local.handles, res.fetched, chain.statuses, res.failure)
  }

  ghost function ResolveFor(c: Cache, peers: map<NodeId, Cache>, dir: Directory, h: Hasher, req: Request,
                            choose: ReplicaPolicy, now: nat): Resolution
    requires c.bs > 0
  {
    Resolve(peers, dir, c.bs, req, Plan(h, c.bs, req, |LookupPrefix(c, req.ctx, req.tokens, now).handles|), choose, now)
  }

  /** The whole request; peers are the workers that the transport can reach. */
  ghost function RunRequest(c: Cache, peers: map<NodeId, Cache>, dir: Directory, h: Hasher, req: Request, pol: Policies,
                            choose: ReplicaPolicy, now: nat, clock: nat -> nat): RunResult
    requires c.bs > 0
  {
    var local, res := LookupPrefix(c, req.ctx, req.tokens, now), ResolveFor(c, peers, dir, h, req, choose, now);
    RunOf(c.bs, local, res, AdmitAll(local.cache, res.fetched, pol, clock, 0))
  }

  /** run is an outcome of the request in which chain admission went as rs says. */
  ghost predicate IsRequestRun(c: Cache, peers: map<NodeId, Cache>, dir: Directory, h: Hasher, req: Request,
                               pol: Policies,
                               choose: ReplicaPolicy, now: nat, clock: nat -> nat, rs: seq<AdmitResult>, run: RunResult)
  {
    && c.bs > 0
    && var local, res := LookupPrefix(c, req.ctx, req.tokens, now), ResolveFor(c, peers, dir, h, req, choose, now);
       && IsChainRun(local.cache, res.fetched, pol, clock, 0, rs)
       && run == RunOf(c.bs, local, res, ChainOf(local.cache, rs))
  }
}
