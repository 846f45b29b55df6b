/** How far a resolution gets and why it ends (src/pipeline/remote_resolution_stage.cc), and which answer a fetch gives
    (src/core/local_cache.cc, src/pipeline/remote_block_fetcher.cc): stated on the records that the workers hold
    and on the directory, as they are before the walk. */
module ResolutionTheory {
  import opened Types
  import opened BlockLifecycle
  import opened CacheModel
  import opened CacheOps
  import opened Recency
  import opened Coordinator
  import opened Distributed
  import opened PipelineModel

  // ---------- which answer a serve or a fetch gives ----------

  /** The slot holds the block of this generation, and it is available. */
  predicate HoldsBlock(c: Cache, id: BlockId, generation: nat) {
    && id < |c.mgr.recs| && c.mgr.recs[id].generation == generation > 0
    && c.mgr.recs[id].state == Ready
  }

  /** The slot was used, and its record is of another generation. */
  predicate MovedOn(c: Cache, id: BlockId, generation: nat) {
    id < |c.mgr.recs| && c.mgr.recs[id].generation > 0 && c.mgr.recs[id].generation != generation
  }

  /** A serve succeeds exactly where the slot holds the block asked for, is stale exactly where the slot has moved on,
      and finds nothing otherwise. */
  lemma ServeStatusIs(c: Cache, id: BlockId, generation: nat, now: nat)
    ensures
      var r := Serve(c, id, generation, now);
      && (r.status == ServeOk <==> HoldsBlock(c, id, generation))
      && (r.status == ServeStale <==> MovedOn(c, id, generation))
      && (r.status == ServeNotFound <==> !HoldsBlock(c, id, generation) && !MovedOn(c, id, generation))
      && (r.status == ServeOk ==>
            && r.hash == c.mgr.recs[id].hash && r.generation == generation
            && r.payload == if c.shared then SlotBytes(c, id) else [])
  {
    hide SlotBytes;
  }

  /** And so does a fetch, which besides compares the hash, and fails where the node is not reachable. */
  lemma FetchStatusIs(workers: map<NodeId, Cache>, ref: Ref, expected: ContentHash, now: nat)
    ensures
      var r := Fetch(workers, ref, expected, now);
      if ref.node !in workers then r.status == FetchTransportError
      else
        var c := workers[ref.node];
        && (r.status == FetchOk <==>
              HoldsBlock(c, ref.block, ref.generation) && c.mgr.recs[ref.block].hash == expected)
        && (r.status == FetchHashMismatch <==>
              HoldsBlock(c, ref.block, ref.generation) && c.mgr.recs[ref.block].hash != expected)
        && (r.status == FetchStale <==> MovedOn(c, ref.block, ref.generation))
        && (r.status == FetchNotFound <==>
              !HoldsBlock(c, ref.block, ref.generation) && !MovedOn(c, ref.block, ref.generation))
        && (r.status == FetchOk ==>
              r.hash == expected && r.payload == if c.shared then SlotBytes(c, ref.block) else [])
  {
    hide Serve;
    hide SlotBytes;
    if ref.node in workers {
      ServeStatusIs(workers[ref.node], ref.block, ref.generation, now);
    }
  }

  /** In every clean run, fetching a ref under a hash with which it was issued ends stale exactly if the slot has
      moved to a newer generation, succeeds exactly if the block is still there and available, and finds nothing
      while it is there and not available. */
  lemma IssuedRefStatus(s0: System, events: seq<Event>, hash: ContentHash, ref: Ref, now: nat)
    requires SystemInit(s0) && IsSystemRun(s0, events) && CleanRun(s0, events)
    requires Stems(SystemEnd(s0, events), hash, ref)
    ensures
      var s := SystemEnd(s0, events);
      && ref.node in s.workers && ref.block < |s.workers[ref.node].mgr.recs|
      && var rec, status := s.workers[ref.node].mgr.recs[ref.block], Fetch(s.workers, ref, hash, now).status;
         && rec.generation >= ref.generation
         && (status == FetchStale <==> rec.generation > ref.generation)
         && (status == FetchOk <==> rec.generation == ref.generation && rec.state == Ready)
         && (status == FetchNotFound <==> rec.generation == ref.generation && rec.state != Ready)
  {
    hide SystemInv;
    hide Fetch;
    var s := SystemEnd(s0, events);
    InitInv(s0);
    RunInv(s0, events);
    IssuedRecord(s, hash, ref);
    FetchStatusIs(s.workers, ref, hash, now);
  }

  lemma IssuedRecord(s: System, hash: ContentHash, ref: Ref)
    requires SystemInv(s) && Stems(s, hash, ref)
    ensures ref.node in s.workers && ref.block < |s.workers[ref.node].mgr.recs| && ref.generation > 0
    ensures
      var rec := s.workers[ref.node].mgr.recs[ref.block];
      rec.generation > ref.generation || (rec.generation == ref.generation && rec.hash == hash)
  {
    hide BaseInv;
    hide BytesOf;
    var i :| i in s.issued && i.hash == hash && i.ref == ref;
    assert IssueOk(s, i);
  }

  // ---------- a fetch changes no answer ----------

  /** Up to access data and handles the worker is the same. */
  ghost predicate AnswersAlike(c: Cache, c': Cache) {
    && c'.payloads == c.payloads && c'.shared == c.shared && |c'.mgr.recs| == |c.mgr.recs|
    && forall s | 0 <= s < |c.mgr.recs| ::
         var r, r' := c.mgr.recs[s], c'.mgr.recs[s];
         r'.generation == r.generation && r'.state == r.state && r'.hash == r.hash && r'.payload == r.payload
  }

  ghost predicate AllAnswerAlike(workers: map<NodeId, Cache>, workers': map<NodeId, Cache>) {
    && workers'.Keys == workers.Keys
    && forall n | n in workers :: AnswersAlike(workers[n], workers'[n])
  }

  lemma ServeAlike(c: Cache, c': Cache, id: BlockId, generation: nat, now: nat)
    requires AnswersAlike(c, c')
    ensures
      var r, r' := Serve(c, id, generation, now), Serve(c', id, generation, now);
      && r'.status == r.status && r'.payload == r.payload && r'.hash == r.hash
      && AnswersAlike(r.cache, r'.cache)
    ensures AnswersAlike(c, Serve(c, id, generation, now).cache)
  {
  }

  lemma FetchAlike(workers: map<NodeId, Cache>, workers': map<NodeId, Cache>, ref: Ref, expected: ContentHash, now: nat)
    requires AllAnswerAlike(workers, workers')
    ensures Fetch(workers', ref, expected, now) == Fetch(workers, ref, expected, now)
    ensures AllAnswerAlike(AfterFetch(workers, ref, now), AfterFetch(workers', ref, now))
  {
    hide Serve;
    hide AnswersAlike;
    if ref.node in workers {
      ServeAlike(workers[ref.node], workers'[ref.node], ref.block, ref.generation, now);
    }
  }

  lemma AfterFetchAlike(workers: map<NodeId, Cache>, ref: Ref, now: nat)
    ensures AllAnswerAlike(workers, AfterFetch(workers, ref, now))
  {
    forall n | n in workers ensures AnswersAlike(workers[n], workers[n]) {
    }
    hide AnswersAlike;
    hide Serve;
    if ref.node in workers {
      ServeAlike(workers[ref.node], workers[ref.node], ref.block, ref.generation, now);
    }
  }

  /** The replica that is tried for a planned block, if any is listed and the policy takes one. */
  function Tried(dir: Directory, mb: Missing, choose: ReplicaPolicy): Option<Ref> {
    if Query(dir, mb.hash) == [] then None else choose(mb.hash, Query(dir, mb.hash))
  }

  lemma {:induction false} ResolveAlike(workers: map<NodeId, Cache>, workers': map<NodeId, Cache>, dir: Directory,
                                        bs: nat, req: Request, missing: seq<Missing>, choose: ReplicaPolicy, now: nat)
    requires AllAnswerAlike(workers, workers')
    ensures
      var r := Resolve(workers, dir, bs, req, missing, choose, now);
      var r' := Resolve(workers', dir, bs, req, missing, choose, now);
      r'.fetched == r.fetched && r'.dir == r.dir && r'.stale == r.stale && r'.failure == r.failure
    decreases |missing|
  {
    hide Fetch;
    hide AfterFetch;
    hide AllAnswerAlike;
    hide Cleaned;
    hide Query;
    hide FetchedCandidate;
    if missing != [] && Tried(dir, missing[0], choose).Some? {
      var ref := Tried(dir, missing[0], choose).value;
      FetchAlike(workers, workers', ref, missing[0].hash, now);
      ResolveAlike(AfterFetch(workers, ref, now), AfterFetch(workers', ref, now), dir, bs, req, missing[1..], choose,
                   now);
    }
  }

  // ---------- how far the walk gets ----------

  /** The worker of this ref has the planned block. */
  predicate CanServe(workers: map<NodeId, Cache>, ref: Ref, mb: Missing) {
    && ref.node in workers && HoldsBlock(workers[ref.node], ref.block, ref.generation)
    && workers[ref.node].mgr.recs[ref.block].hash == mb.hash
  }

  predicate CanBeHad(workers: map<NodeId, Cache>, dir: Directory, mb: Missing, choose: ReplicaPolicy) {
    Tried(dir, mb, choose).Some? && CanServe(workers, Tried(dir, mb, choose).value, mb)
  }

  /** The candidate made of the block that the worker has. */
  ghost function MadeFrom(workers: map<NodeId, Cache>, ref: Ref, bs: nat, req: Request, mb: Missing): Candidate
    requires CanServe(workers, ref, mb)
  {
    var c, end := workers[ref.node], (mb.blockIndex + 1) * bs;
    Candidate(req.ctx, mb.blockIndex, if end <= |req.tokens| then req.tokens[..end] else req.tokens, mb.hash,
              if c.shared then SlotBytes(c, ref.block) else [], RemoteFetch)
  }

  /** The ref that the walk ends at has moved on. */
  predicate EndsStale(workers: map<NodeId, Cache>, dir: Directory, missing: seq<Missing>, choose: ReplicaPolicy,
                      n: nat)
  {
    && n < |missing| && Tried(dir, missing[n], choose).Some?
    && var ref := Tried(dir, missing[n], choose).value;
       ref.node in workers && MovedOn(workers[ref.node], ref.block, ref.generation)
  }

  /** r is the walk over the planned blocks up to the first that cannot be had: what is fetched, why it ends, and which
      ref is taken out of the directory. */
  ghost predicate WalkedTo(workers: map<NodeId, Cache>, dir: Directory, bs: nat, req: Request, missing: seq<Missing>,
                           choose: ReplicaPolicy, r: Resolution) {
    var n := |r.fetched|;
    && n <= |missing|
    && (forall i | 0 <= i < n ::
          && CanBeHad(workers, dir, missing[i], choose)
          && r.fetched[i] == MadeFrom(workers, Tried(dir, missing[i], choose).value, bs, req, missing[i]))
    && (n < |missing| ==> !CanBeHad(workers, dir, missing[n], choose))
    && (r.failure == None <==> n == |missing| || Tried(dir, missing[n], choose) == None)
    && (r.failure == Some(FetchStale) <==> EndsStale(workers, dir, missing, choose, n))
    && r.stale == (if r.failure == Some(FetchStale) then 1 else 0)
    && forall hash, ref :: Listed(r.dir, hash, ref) <==>
         && Listed(dir, hash, ref)
         && !(EndsStale(workers, dir, missing, choose, n) && ref == Tried(dir, missing[n], choose).value)
  }

  /** For every directory, block size and replica policy, and whatever the workers hold: the walk gets exactly to the
      first planned block whose list is empty, whose choice is declined or whose fetch does not succeed, and the one
      ref that it takes out of the directory is that of a fetch that ended stale. */
  lemma {:induction false} ResolveWalks(workers: map<NodeId, Cache>, dir: Directory, bs: nat, req: Request,
                                        missing: seq<Missing>, choose: ReplicaPolicy, now: nat)
    ensures WalkedTo(workers, dir, bs, req, missing, choose, Resolve(workers, dir, bs, req, missing, choose, now))
    decreases |missing|
  {
    hide WalkedTo;
    hide Resolve;
    hide CanBeHad;
    if missing == [] || !CanBeHad(workers, dir, missing[0], choose) {
      WalksNowhere(workers, dir, bs, req, missing, choose, now);
    } else {
      var rest := Resolve(workers, dir, bs, req, missing[1..], choose, now);
      ResolveWalks(workers, dir, bs, req, missing[1..], choose, now);
      var made := GoesOn(workers, dir, bs, req, missing, choose, now);
      WalksOn(workers, dir, bs, req, missing, choose, made, rest);
      SameWalk(workers, dir, bs, req, missing, choose, rest.(fetched := [made] + rest.fetched),
               Resolve(workers, dir, bs, req, missing, choose, now));
    }
  }

  lemma SameWalk(workers: map<NodeId, Cache>, dir: Directory, bs: nat, req: Request, missing: seq<Missing>,
                 choose: ReplicaPolicy, r: Resolution, r': Resolution)
    requires WalkedTo(workers, dir, bs, req, missing, choose, r) && r' == r.(workers := r'.workers)
    ensures WalkedTo(workers, dir, bs, req, missing, choose, r')
  {
  }

  /** A block that cannot be had ends the walk: with nothing fetched, and a reason if a fetch failed. */
  lemma WalksNowhere(workers: map<NodeId, Cache>, dir: Directory, bs: nat, req: Request, missing: seq<Missing>,
                     choose: ReplicaPolicy, now: nat)
    requires missing == [] || !CanBeHad(workers, dir, missing[0], choose)
    ensures WalkedTo(workers, dir, bs, req, missing, choose, Resolve(workers, dir, bs, req, missing, choose, now))
  {
    hide Fetch;
    hide AfterFetch;
    hide Cleaned;
    hide HoldsBlock;
    hide MovedOn;
    if missing != [] && Tried(dir, missing[0], choose).Some? {
      var ref := Tried(dir, missing[0], choose).value;
      FetchStatusIs(workers, ref, missing[0].hash, now);
      CleanIs(dir, Is(ref));
      OneAnswer(workers, ref);
    }
  }

  lemma OneAnswer(workers: map<NodeId, Cache>, ref: Ref)
    ensures ref.node in workers && HoldsBlock(workers[ref.node], ref.block, ref.generation) ==>
      !MovedOn(workers[ref.node], ref.block, ref.generation)
  {
  }

  /** One that can be had is fetched, and the walk goes on as if from here. */
  lemma GoesOn(workers: map<NodeId, Cache>, dir: Directory, bs: nat, req: Request, missing: seq<Missing>,
               choose: ReplicaPolicy, now: nat) returns (made: Candidate)
    requires missing != [] && CanBeHad(workers, dir, missing[0], choose)
    ensures made == MadeFrom(workers, Tried(dir, missing[0], choose).value, bs, req, missing[0])
    ensures
      var r := Resolve(workers, dir, bs, req, missing, choose, now);
      var rest := Resolve(workers, dir, bs, req, missing[1..], choose, now);
      r == rest.(workers := r.workers, fetched := [made] + rest.fetched)
  {
    hide Fetch;
    hide AfterFetch;
    hide AllAnswerAlike;
    hide Cleaned;
    hide HoldsBlock;
    hide MovedOn;
    hide SlotBytes;
    var ref := Tried(dir, missing[0], choose).value;
    FetchStatusIs(workers, ref, missing[0].hash, now);
    AfterFetchAlike(workers, ref, now);
    ResolveAlike(workers, AfterFetch(workers, ref, now), dir, bs, req, missing[1..], choose, now);
    made := MadeFrom(workers, ref, bs, req, missing[0]);
  }

  lemma WalksOn(workers: map<NodeId, Cache>, dir: Directory, bs: nat, req: Request, missing: seq<Missing>,
                choose: ReplicaPolicy, made: Candidate, rest: Resolution)
    requires missing != [] && CanBeHad(workers, dir, missing[0], choose)
    requires made == MadeFrom(workers, Tried(dir, missing[0], choose).value, bs, req, missing[0])
    requires WalkedTo(workers, dir, bs, req, missing[1..], choose, rest)
    ensures WalkedTo(workers, dir, bs, req, missing, choose, rest.(fetched := [made] + rest.fetched))
  {
    hide CanServe;
    hide MadeFrom;
    hide Tried;
    hide Listed;
    hide MovedOn;
    var n, all := |rest.fetched|, [made] + rest.fetched;
    assert forall i | 0 <= i < |missing| - 1 :: missing[1..][i] == missing[i + 1];
    assert EndsStale(workers, dir, missing[1..], choose, n) <==> EndsStale(workers, dir, missing, choose, n + 1);
    forall i | 0 <= i < n + 1
      ensures CanBeHad(workers, dir, missing[i], choose)
      ensures all[i] == MadeFrom(workers, Tried(dir, missing[i], choose).value, bs, req, missing[i])
    {
      if i > 0 {
        assert all[i] == rest.fetched[i - 1] && missing[i] == missing[1..][i - 1];
      }
    }
  }

  // ---------- what follows ----------

  /** A replica policy that takes one whenever there is one. */
  ghost predicate TakesOne(choose: ReplicaPolicy) {
    ChoosesFromOffer(choose) && forall hash: ContentHash, refs: seq<Ref> :: refs != [] ==> choose(hash, refs).Some?
  }

  /** Where every planned block is listed, the policy takes one of the refs and whichever it takes can be served, all
      planned blocks are fetched and the directory stays as it is. */
  lemma EverythingFetched(workers: map<NodeId, Cache>, dir: Directory, bs: nat, req: Request, missing: seq<Missing>,
                   choose: ReplicaPolicy, now: nat)
    requires TakesOne(choose)
    requires forall i | 0 <= i < |missing| :: Query(dir, missing[i].hash) != []
    requires forall i, ref | 0 <= i < |missing| && Listed(dir, missing[i].hash, ref) ::
      CanServe(workers, ref, missing[i])
    ensures
      var r := Resolve(workers, dir, bs, req, missing, choose, now);
      && |r.fetched| == |missing| && r.failure == None && r.stale == 0
      && forall hash, ref :: Listed(r.dir, hash, ref) <==> Listed(dir, hash, ref)
  {
    hide Resolve;
    hide CanServe;
    ResolveWalks(workers, dir, bs, req, missing, choose, now);
    forall i | 0 <= i < |missing| ensures CanBeHad(workers, dir, missing[i], choose) {
      assert Listed(dir, missing[i].hash, Tried(dir, missing[i], choose).value);
    }
  }

  /** End to end: in every clean run, a resolution whose first blocks can be had and that then tries a ref whose slot
      has moved to a newer generation ends there, stale, and takes this ref, and no other, out of the directory. */
  lemma OutdatedIsTakenOut(s0: System, events: seq<Event>, bs: nat, req: Request, missing: seq<Missing>, n: nat,
                           choose: ReplicaPolicy, now: nat)
    requires SystemInit(s0) && IsSystemRun(s0, events) && CleanRun(s0, events)
    requires ChoosesFromOffer(choose) && n < |missing|
    requires
      var s := SystemEnd(s0, events);
      && (forall i | 0 <= i < n :: CanBeHad(s.workers, s.dir, missing[i], choose))
      && Tried(s.dir, missing[n], choose).Some?
      && var ref := Tried(s.dir, missing[n], choose).value;
         ref.node in s.workers && ref.block < |s.workers[ref.node].mgr.recs|
         && s.workers[ref.node].mgr.recs[ref.block].generation > ref.generation
    ensures
      var s := SystemEnd(s0, events);
      var ref, r := Tried(s.dir, missing[n], choose).value, Resolve(s.workers, s.dir, bs, req, missing, choose, now);
      && |r.fetched| == n && r.failure == Some(FetchStale) && r.stale == 1
      && Listed(s.dir, missing[n].hash, ref)
      && forall hash, other :: Listed(r.dir, hash, other) <==> Listed(s.dir, hash, other) && other != ref
  {
    hide Resolve;
    hide SystemInv;
    hide CanServe;
    var s := SystemEnd(s0, events);
    var ref, r := Tried(s.dir, missing[n], choose).value, Resolve(s.workers, s.dir, bs, req, missing, choose, now);
    ResolveWalks(s.workers, s.dir, bs, req, missing, choose, now);
    NotServed(s.workers, ref, missing[n]);
  }

  lemma NotServed(workers: map<NodeId, Cache>, ref: Ref, mb: Missing)
    requires ref.node in workers && MovedOn(workers[ref.node], ref.block, ref.generation)
    ensures !CanServe(workers, ref, mb)
  {
  }

  // ---------- what the walk leaves at the workers ----------

  /** Every record has been accessed at this time, or not at all. */
  ghost predicate AccessedAt(a: seq<BlockRecord>, now: nat, b: seq<BlockRecord>) {
    && |b| == |a|
    && forall s | 0 <= s < |a| ::
         || (b[s].lastAccess == a[s].lastAccess && b[s].accessCount == a[s].accessCount)
         || (b[s].lastAccess == now && b[s].accessCount > a[s].accessCount)
  }

  ghost predicate AllAccessedAt(workers: map<NodeId, Cache>, now: nat, workers': map<NodeId, Cache>) {
    && workers'.Keys == workers.Keys
    && forall n | n in workers :: AccessedAt(workers[n].mgr.recs, now, workers'[n].mgr.recs)
  }

  /** The block of this ref was last accessed at this time. */
  ghost predicate LastAt(workers: map<NodeId, Cache>, ref: Ref, now: nat) {
    && ref.node in workers && ref.block < |workers[ref.node].mgr.recs|
    && workers[ref.node].mgr.recs[ref.block].lastAccess == now
  }

  lemma FetchAccesses(workers: map<NodeId, Cache>, ref: Ref, expected: ContentHash, now: nat)
    ensures AllAccessedAt(workers, now, AfterFetch(workers, ref, now))
    ensures Fetch(workers, ref, expected, now).status == FetchOk ==> LastAt(AfterFetch(workers, ref, now), ref, now)
  {
    hide Serve;
    if ref.node in workers {
      ServeRenews(workers[ref.node], ref.block, ref.generation, now);
      ServeStatusIs(workers[ref.node], ref.block, ref.generation, now);
    }
  }

  lemma AccessedTwice(a: map<NodeId, Cache>, now: nat, b: map<NodeId, Cache>, c: map<NodeId, Cache>, ref: Ref)
    requires AllAccessedAt(a, now, b) && AllAccessedAt(b, now, c)
    ensures AllAccessedAt(a, now, c) && (LastAt(b, ref, now) ==> LastAt(c, ref, now))
  {
    forall n | n in a ensures AccessedAt(a[n].mgr.recs, now, c[n].mgr.recs) {
      assert AccessedAt(b[n].mgr.recs, now, c[n].mgr.recs);
    }
    if LastAt(b, ref, now) {
      assert AccessedAt(b[ref.node].mgr.recs, now, c[ref.node].mgr.recs);
    }
  }

  /** A resolution renews every block that it fetches, at its worker; and it accesses blocks at its own time only. */
  lemma {:induction false} ResolveRenews(workers: map<NodeId, Cache>, dir: Directory, bs: nat, req: Request,
                                         missing: seq<Missing>, choose: ReplicaPolicy, now: nat)
    ensures
      var r := Resolve(workers, dir, bs, req, missing, choose, now);
      && AllAccessedAt(workers, now, r.workers)
      && |r.fetched| <= |missing|
      && forall i | 0 <= i < |r.fetched| ::
           Tried(dir, missing[i], choose).Some? && LastAt(r.workers, Tried(dir, missing[i], choose).value, now)
    decreases |missing|
  {
    hide Fetch;
    hide AfterFetch;
    hide AllAccessedAt;
    hide LastAt;
    hide Cleaned;
    hide FetchedCandidate;
    NoneAccessed(workers, now);
    if missing != [] && Tried(dir, missing[0], choose).Some? {
      var ref := Tried(dir, missing[0], choose).value;
      var workers' := AfterFetch(workers, ref, now);
      FetchAccesses(workers, ref, missing[0].hash, now);
      if Fetch(workers, ref, missing[0].hash, now).status == FetchOk {
        var rest := Resolve(workers', dir, bs, req, missing[1..], choose, now);
        var r := Resolve(workers, dir, bs, req, missing, choose, now);
        ResolveRenews(workers', dir, bs, req, missing[1..], choose, now);
        AccessedTwice(workers, now, workers', rest.workers, ref);
        forall i | 0 <= i < |r.fetched|
          ensures Tried(dir, missing[i], choose).Some? && LastAt(r.workers, Tried(dir, missing[i], choose).value, now)
        {
          if i > 0 {
            assert missing[i] == missing[1..][i - 1];
          }
        }
      }
    }
  }

  lemma NoneAccessed(workers: map<NodeId, Cache>, now: nat)
    ensures AllAccessedAt(workers, now, workers)
  {
  }
}
