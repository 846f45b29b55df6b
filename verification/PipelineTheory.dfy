/** What a request's result is: when the pipeline returns an unbroken, pinned prefix of the request, and
    what the rest of the system is left with. */
module PipelineTheory {
  import opened Types
  import opened PrefixMap
  import opened BlockLifecycle
  import opened TierModel
  import opened CacheModel
  import opened CacheTheory
  import opened AdmitTheory
  import opened CacheOps
  import opened Coordinator
  import opened Distributed
  import opened PipelineModel

  // ---------- chains of a prefix of the request ----------

  /** Looking up a shorter prefix of the tokens finds the chain as far as it goes. */
  lemma ChainOnPrefix(m: Entries, bs: nat, ctx: ContextHash, tokens: seq<Token>, n: nat, ids: seq<BlockId>)
    requires bs > 0 && Fits(bs, tokens, n) && |ids| <= n && IsChain(m, bs, ctx, tokens, ids)
    requires |ids| < n ==> BlockKey(bs, ctx, tokens, |ids| + 1) !in m
    ensures Chain(m, bs, ctx, tokens[..n * bs]) == ids
  {
    var short := tokens[..n * bs];
    hide Chain;
    FitsMono(bs, tokens, |ids|, n);
    forall j: nat | j <= n ensures Fits(bs, short, j) && BlockKey(bs, ctx, short, j) == BlockKey(bs, ctx, tokens, j) {
      FitsMono(bs, tokens, j, n);
    }
    OneMore(bs, n);
    assert IsLongestChain(m, bs, ctx, short, ids);
    LongestChainUnique(m, bs, ctx, short, Chain(m, bs, ctx, short), ids);
  }

  // ---------- one step of chain admission ----------

  ghost predicate AllPinned(recs: seq<BlockRecord>, ids: seq<BlockId>) {
    forall i | 0 <= i < |ids| :: ids[i] < |recs| && recs[ids[i]].refcount > 0
  }

  /** Block i of the request is in the index. */
  ghost predicate Stored(m: Entries, bs: nat, req: Request, i: nat) {
    Fits(bs, req.tokens, i + 1) && BlockKey(bs, req.ctx, req.tokens, i + 1) in m
  }

  /** None of the n blocks of the request from `first` on is. */
  ghost predicate NoneStored(m: Entries, bs: nat, req: Request, first: nat, n: nat) {
    forall i | first <= i < first + n :: !Stored(m, bs, req, i)
  }

  /** Where chain admission stands: ids are the blocks of the request that are stored and pinned, and none of
      the n blocks after them is stored. */
  ghost predicate OnPathState(c: Cache, h: Hasher, req: Request, ids: seq<BlockId>, n: nat) {
    && CacheInv(c, h)
    && IsChain(c.index, c.bs, req.ctx, req.tokens, ids)
    && AllPinned(c.mgr.recs, ids)
    && NoneStored(c.index, c.bs, req, |ids|, n)
  }

  /** The next block is missing. */
  lemma NextNotStored(c: Cache, h: Hasher, req: Request, ids: seq<BlockId>, n: nat)
    requires OnPathState(c, h, req, ids, n) && n > 0
    ensures !Stored(c.index, c.bs, req, |ids|)
  {
  }

  lemma RequestBlockTokens(h: Hasher, bs: nat, req: Request, i: nat, cand: Candidate)
    requires IsRequestBlock(h, bs, req, i, cand)
    ensures |cand.tokens| == (cand.blockIndex + 1) * bs && cand.tokens == req.tokens[..(i + 1) * bs]
    ensures i * bs <= (i + 1) * bs <= |req.tokens| && cand.tokens[..i * bs] == req.tokens[..i * bs]
  {
    OneMore(bs, i);
  }

  lemma RequestBlockHonest(c: Cache, h: Hasher, req: Request, i: nat, cand: Candidate)
    requires IsRequestBlock(h, c.bs, req, i, cand)
    ensures Honest(c, cand, h)
  {
    OneMore(c.bs, i);
    RequestBlockTokens(h, c.bs, req, i, cand);
    var n := |cand.tokens|;
    assert cand.tokens[n - c.bs..] == req.tokens[i * c.bs..(i + 1) * c.bs];
  }

  /** Where the chain of the request breaks off, a candidate behind the gap is refused, and nothing changes. */
  lemma AfterGap(c: Cache, h: Hasher, req: Request, ids: seq<BlockId>, i: nat, cand: Candidate, now: nat, pol: Policies)
    requires c.bs > 0 && IsChain(c.index, c.bs, req.ctx, req.tokens, ids) && !Stored(c.index, c.bs, req, |ids|)
    requires |ids| < i && IsRequestBlock(h, c.bs, req, i, cand)
    ensures Admit(c, cand, now, pol) == AdmitResult(c, InvalidBlock, None)
    ensures Refusal(c, cand, now, pol) == Some(InvalidBlock)
    ensures |cand.tokens| == (cand.blockIndex + 1) * c.bs && Ancestors(c, cand) == ids
  {
    hide Chain;
    hide IsChain;
    RequestBlockTokens(h, c.bs, req, i, cand);
    FitsMono(c.bs, req.tokens, i, i + 1);
    FitsMono(c.bs, req.tokens, |ids| + 1, i);
    ChainOnPrefix(c.index, c.bs, req.ctx, req.tokens, i, ids);
    ChainOnPrefix(c.index, c.bs, req.ctx, req.tokens, i + 1, ids);
  }

  /** Where the chain of the request breaks off, the next candidate finds its ancestors complete and itself
      missing: only the policy can refuse it. */
  lemma NextChecks(c: Cache, h: Hasher, req: Request, ids: seq<BlockId>, cand: Candidate, now: nat, pol: Policies)
    requires c.bs > 0 && IsChain(c.index, c.bs, req.ctx, req.tokens, ids) && !Stored(c.index, c.bs, req, |ids|)
    requires IsRequestBlock(h, c.bs, req, |ids|, cand)
    ensures |cand.tokens| == (cand.blockIndex + 1) * c.bs && Ancestors(c, cand) == ids
    ensures Refusal(c, cand, now, pol) == if AcceptedBy(pol, cand, c.bs, now) then None else Some(Rejected)
  {
    hide Chain;
    hide IsChain;
    RequestBlockTokens(h, c.bs, req, |ids|, cand);
    FitsMono(c.bs, req.tokens, |ids|, |ids| + 1);
    ChainOnPrefix(c.index, c.bs, req.ctx, req.tokens, |ids|, ids);
    ChainOnPrefix(c.index, c.bs, req.ctx, req.tokens, |ids| + 1, ids);
  }

  lemma PinnedAncestors(c: Cache, cand: Candidate, ids: seq<BlockId>)
    requires c.bs > 0 && |cand.tokens| == (cand.blockIndex + 1) * c.bs && Ancestors(c, cand) == ids
    requires AllPinned(c.mgr.recs, ids)
    ensures AncestorsPinned(c, cand)
  {
    hide Ancestors;
    forall v | v in ids ensures v < |c.mgr.recs| && c.mgr.recs[v].refcount > 0 {
      var i :| 0 <= i < |ids| && ids[i] == v;
    }
  }

  /** The next candidate of a pinned chain finds its ancestors complete and pinned, and itself missing. */
  lemma NextCandidate(c: Cache, h: Hasher, req: Request, ids: seq<BlockId>, n: nat, cand: Candidate, now: nat,
                      pol: Policies)
    requires OnPathState(c, h, req, ids, n) && n > 0 && IsRequestBlock(h, c.bs, req, |ids|, cand)
    ensures c.bs > 0 && |cand.tokens| == (cand.blockIndex + 1) * c.bs
    ensures Ancestors(c, cand) == ids && AncestorsPinned(c, cand)
    ensures Refusal(c, cand, now, pol) == if AcceptedBy(pol, cand, c.bs, now) then None else Some(Rejected)
  {
    hide CacheInv;
    hide Ancestors;
    hide Refusal;
    hide AncestorsPinned;
    hide AllPinned;
    hide IsRequestBlock;
    InvBase(c, h);
    NextNotStored(c, h, req, ids, n);
    NextChecks(c, h, req, ids, cand, now, pol);
    PinnedAncestors(c, cand, ids);
  }

  /** The index after the victims have left and the new entry has come. */
  lemma IndexAfter(m: Entries, m1: Entries, vs: seq<BlockId>, bs: nat, req: Request, ids: seq<BlockId>, id: BlockId,
                   n: nat)
    requires bs > 0 && LostEntries(m, vs, m1) && IsChain(m, bs, req.ctx, req.tokens, ids)
    requires forall v | v in vs :: v !in ids
    requires Fits(bs, req.tokens, |ids| + 1) && NoneStored(m, bs, req, |ids|, n)
    ensures
      var m2 := m1[BlockKey(bs, req.ctx, req.tokens, |ids| + 1) := id];
      && IsChain(m2, bs, req.ctx, req.tokens, ids + [id])
      && NoneStored(m2, bs, req, |ids| + 1, if n > 0 then n - 1 else 0)
  {
    var k := |ids| + 1;
    var m2 := m1[BlockKey(bs, req.ctx, req.tokens, k) := id];
    forall j | 1 <= j <= k
      ensures BlockKey(bs, req.ctx, req.tokens, j) in m2
      ensures m2[BlockKey(bs, req.ctx, req.tokens, j)] == (ids + [id])[j - 1]
    {
      if j < k {
        BlockKeyLength(bs, req.ctx, req.tokens, j, k);
        assert ids[j - 1] in ids;
      }
    }
    forall i | k <= i < k + (n - 1) ensures !Stored(m2, bs, req, i) {
      assert !Stored(m, bs, req, i);
      if Fits(bs, req.tokens, i + 1) {
        BlockKeyLength(bs, req.ctx, req.tokens, k, i + 1);
      }
    }
  }

  /** The pins after the same: a pinned block is no victim, and its slot is not the free one. */
  lemma PinsAfter(c: Cache, c1: Cache, tier: Tier, vs: seq<BlockId>, ids: seq<BlockId>, id: BlockId, r: BlockRecord)
    requires ManagerInv(c.mgr) && LostBlocks(c, tier, vs, c1) && AllPinned(c.mgr.recs, ids)
    requires id < |c1.mgr.recs| && c1.mgr.recs[id].state == Free && r.refcount > 0
    ensures forall v | v in vs :: v !in ids
    ensures AllPinned(c1.mgr.recs[id := r], ids + [id])
  {
    forall v | v in vs ensures v < |c.mgr.recs| && c.mgr.recs[v].refcount == 0 {
      var j :| 0 <= j < |vs| && vs[j] == v;
      assert vs[j] in EligibleSlots(c.mgr.recs, tier);
    }
    forall i | 0 <= i < |ids| ensures ids[i] !in vs && ids[i] != id && c1.mgr.recs[ids[i]].refcount > 0 {
      assert SlotInv(c.mgr, ids[i]);
    }
  }

  /** Admitting the next block of the request keeps the chain unbroken and pinned, one longer. */
  lemma NextAdmitted(c: Cache, h: Hasher, req: Request, ids: seq<BlockId>, n: nat, cand: Candidate, now: nat,
                     pol: Policies)
    requires OnPathState(c, h, req, ids, n) && n > 0 && IsRequestBlock(h, c.bs, req, |ids|, cand)
    requires PicksFromOffer(pol.evict) && c.bs > 0 && Admit(c, cand, now, pol).status == Admitted
    ensures
      var r := Admit(c, cand, now, pol);
      && r.handle.Some? && r.cache.bs == c.bs
      && OnPathState(r.cache, h, req, ids + [r.handle.value], n - 1)
  {
    hide Admit;
    hide Prepared;
    hide Refusal;
    hide CacheInv;
    hide BaseInv;
    hide LostBlocks;
    hide IsChain;
    hide NoneStored;
    hide AllPinned;
    hide Honest;
    hide PicksFromOffer;
    hide Ancestors;
    hide AncestorsPinned;
    hide AncestorsSurvive;
    hide IsRequestBlock;
    hide AdmittedRecord;
    InvBase(c, h);
    NextCandidate(c, h, req, ids, n, cand, now, pol);
    RequestBlockHonest(c, h, req, |ids|, cand);
    RequestBlockTokens(h, c.bs, req, |ids|, cand);
    RequestBlockKey(h, c.bs, req, |ids|, cand);
    PinnedAdmit(c, h, cand, now, pol);
    PinnedSurvive(c, cand, now, pol);
    AdmittedShape(c, cand, now, pol);
    var c1, tier, vs := Prepared(c, cand, now, pol).cache, TierFor(c, cand, now, pol), AdmitVictims(c, cand, now, pol);
    var id := NextId(c1.mgr.pool);
    SurvivingIndex(c, cand, now, pol, id);
    NextSlotFacts(c1);
    BaseManagerInv(c);
    NewRecordPinned(c1, cand, tier, now);
    PinsAfter(c, c1, tier, vs, ids, id, AdmittedRecord(c1, cand, tier, now));
    LostGivesEntries(c, tier, vs, c1);
    IndexAfter(c.index, c1.index, vs, c.bs, req, ids, id, n);
  }

  lemma NewRecordPinned(c: Cache, cand: Candidate, tier: Tier, now: nat)
    requires CanAllocate(c.mgr.pool)
    ensures AdmittedRecord(c, cand, tier, now).refcount > 0
  {
  }

  lemma BaseManagerInv(c: Cache)
    requires BaseInv(c)
    ensures ManagerInv(c.mgr)
  {
  }

  lemma LostGivesEntries(c: Cache, tier: Tier, vs: seq<BlockId>, c1: Cache)
    requires LostBlocks(c, tier, vs, c1)
    ensures LostEntries(c.index, vs, c1.index) && c1.bs == c.bs
  {
  }

  lemma RequestBlockKey(h: Hasher, bs: nat, req: Request, i: nat, cand: Candidate)
    requires IsRequestBlock(h, bs, req, i, cand)
    ensures Fits(bs, req.tokens, i + 1) && Key(cand.ctx, cand.tokens) == BlockKey(bs, req.ctx, req.tokens, i + 1)
  {
  }

  // ---------- the whole chain ----------

  ghost predicate RequestBlocksFrom(h: Hasher, bs: nat, req: Request, first: nat, cands: seq<Candidate>) {
    forall i | 0 <= i < |cands| :: IsRequestBlock(h, bs, req, first + i, cands[i])
  }

  lemma RequestBlocksTail(h: Hasher, bs: nat, req: Request, first: nat, cands: seq<Candidate>)
    requires cands != [] && RequestBlocksFrom(h, bs, req, first, cands)
    ensures IsRequestBlock(h, bs, req, first, cands[0]) && RequestBlocksFrom(h, bs, req, first + 1, cands[1..])
  {
    assert IsRequestBlock(h, bs, req, first + 0, cands[0]);
    forall i | 0 <= i < |cands[1..]| ensures IsRequestBlock(h, bs, req, first + 1 + i, cands[1..][i]) {
      assert IsRequestBlock(h, bs, req, first + (i + 1), cands[i + 1]);
    }
  }

  /** The first n were admitted, and none after that. */
  predicate AdmittedThenNot(statuses: seq<AdmitStatus>, n: nat) {
    && n <= |statuses|
    && (forall i | 0 <= i < n :: statuses[i] == Admitted)
    && (forall i | n <= i < |statuses| :: !CountsAsHit(statuses[i]))
  }

  lemma {:induction false} HitsAre(statuses: seq<AdmitStatus>, n: nat)
    requires AdmittedThenNot(statuses, n)
    ensures HitCount(statuses) == n
  {
    if statuses != [] {
      HitsAre(statuses[1..], if n > 0 then n - 1 else 0);
    }
  }

  /** At every call of admit the chain before the candidate is pinned. */
  ghost predicate PinnedAtEveryCall(c: Cache, cands: seq<Candidate>, pol: Policies, clock: nat -> nat, step: nat)
    decreases |cands|
  {
    cands == [] ||
    (&& c.bs > 0 && |cands[0].tokens| == (cands[0].blockIndex + 1) * c.bs && AncestorsPinned(c, cands[0])
     && PinnedAtEveryCall(Admit(c, cands[0], clock(step), pol).cache, cands[1..], pol, clock, step + 1))
  }

  lemma AdmitAllCons(c: Cache, cands: seq<Candidate>, pol: Policies, clock: nat -> nat, step: nat)
    ensures cands == [] ==> AdmitAll(c, cands, pol, clock, step) == ChainResult(c, [], [])
    ensures cands != [] && c.bs > 0 ==>
      var r := Admit(c, cands[0], clock(step), pol);
      var rest := AdmitAll(r.cache, cands[1..], pol, clock, step + 1);
      AdmitAll(c, cands, pol, clock, step) ==
        ChainResult(rest.cache, (if r.handle.Some? then [r.handle.value] else []) + rest.handles,
                    [r.status] + rest.statuses)
  {
    hide Admit;
  }

  /** Behind a gap everything is refused, and nothing changes. */
  lemma {:induction false} RestRefused(c: Cache, h: Hasher, req: Request, ids: seq<BlockId>, first: nat,
                                       cands: seq<Candidate>, pol: Policies, clock: nat -> nat, step: nat)
    requires c.bs > 0 && IsChain(c.index, c.bs, req.ctx, req.tokens, ids) && !Stored(c.index, c.bs, req, |ids|)
    requires |ids| < first && RequestBlocksFrom(h, c.bs, req, first, cands)
    ensures
      var r := AdmitAll(c, cands, pol, clock, step);
      && r.cache == c && r.handles == [] && |r.statuses| == |cands|
      && (forall i | 0 <= i < |cands| :: r.statuses[i] == InvalidBlock)
    ensures AllPinned(c.mgr.recs, ids) ==> PinnedAtEveryCall(c, cands, pol, clock, step)
    decreases |cands|
  {
    hide IsChain;
    hide Stored;
    hide RequestBlocksFrom;
    hide Admit;
    hide Ancestors;
    hide AncestorsPinned;
    hide AllPinned;
    hide IsRequestBlock;
    if cands != [] {
      RequestBlocksTail(h, c.bs, req, first, cands);
      AfterGap(c, h, req, ids, first, cands[0], clock(step), pol);
      if AllPinned(c.mgr.recs, ids) {
        PinnedAncestors(c, cands[0], ids);
      }
      RestRefused(c, h, req, ids, first + 1, cands[1..], pol, clock, step + 1);
    }
  }

  /** The next candidate is admitted, or it is refused and nothing changes; it is never found present. */
  lemma NextOutcome(c: Cache, h: Hasher, req: Request, ids: seq<BlockId>, n: nat, cand: Candidate, now: nat,
                    pol: Policies)
    requires OnPathState(c, h, req, ids, n) && n > 0 && IsRequestBlock(h, c.bs, req, |ids|, cand)
    requires PicksFromOffer(pol.evict)
    ensures c.bs > 0
    ensures
      var r := Admit(c, cand, now, pol);
      && (r.status == Admitted <==> r.handle.Some?)
      && (r.status != Admitted ==> !CountsAsHit(r.status) && r.cache == c)
  {
    hide Admit;
    hide Prepared;
    hide Refusal;
    hide CacheInv;
    hide Install;
    hide PicksFromOffer;
    hide IsRequestBlock;
    InvBase(c, h);
    NextCandidate(c, h, req, ids, n, cand, now, pol);
    AdmitUnfold(c, cand, now, pol);
    AdmitIsAtomic(c, cand, now, pol);
    if Admit(c, cand, now, pol).status == Admitted {
      NextAdmitted(c, h, req, ids, n, cand, now, pol);
    }
  }

  lemma PathIsChain(c: Cache, h: Hasher, req: Request, ids: seq<BlockId>, n: nat)
    requires OnPathState(c, h, req, ids, n)
    ensures CacheInv(c, h) && IsChain(c.index, c.bs, req.ctx, req.tokens, ids) && AllPinned(c.mgr.recs, ids)
    ensures OnPathState(c, h, req, ids, 0)
  {
  }

  /** Admitting the next blocks of the request, one after the other, when none of them is stored: some first
      part of them is admitted, each with a handle, and all the rest is refused; the chain stays unbroken and
      pinned throughout. */
  lemma {:induction false} ChainAdmission(c: Cache, h: Hasher, req: Request, ids: seq<BlockId>, cands: seq<Candidate>,
                                          pol: Policies, clock: nat -> nat, step: nat)
    requires OnPathState(c, h, req, ids, |cands|) && RequestBlocksFrom(h, c.bs, req, |ids|, cands)
    requires PicksFromOffer(pol.evict)
    ensures
      var r := AdmitAll(c, cands, pol, clock, step);
      && OnPathState(r.cache, h, req, ids + r.handles, 0) && r.cache.bs == c.bs
      && |r.statuses| == |cands| && AdmittedThenNot(r.statuses, |r.handles|)
    ensures PinnedAtEveryCall(c, cands, pol, clock, step)
    decreases |cands|
  {
    hide OnPathState;
    hide RequestBlocksFrom;
    hide Admit;
    hide AncestorsPinned;
    hide AllPinned;
    hide IsChain;
    hide Stored;
    hide Refusal;
    hide Ancestors;
    hide PicksFromOffer;
    hide IsRequestBlock;
    hide AdmitAll;
    hide AdmittedThenNot;
    if cands == [] {
      AdmitAllCons(c, cands, pol, clock, step);
      NoneAdmitted([]);
      assert ids + [] == ids;
    } else {
      var now, rest := clock(step), cands[1..];
      PathIsChain(c, h, req, ids, |cands|);
      RequestBlocksTail(h, c.bs, req, |ids|, cands);
      NextCandidate(c, h, req, ids, |cands|, cands[0], now, pol);
      NextOutcome(c, h, req, ids, |cands|, cands[0], now, pol);
      var r := Admit(c, cands[0], now, pol);
      if r.status == Admitted {
        NextAdmitted(c, h, req, ids, |cands|, cands[0], now, pol);
        ChainAdmission(r.cache, h, req, ids + [r.handle.value], rest, pol, clock, step + 1);
        var chain := AdmitAll(r.cache, rest, pol, clock, step + 1);
        AdmitAllCons(c, cands, pol, clock, step);
        OneMoreAdmitted(chain.statuses, |chain.handles|);
        assert ids + [r.handle.value] + chain.handles == ids + ([r.handle.value] + chain.handles);
      } else {
        NextNotStored(c, h, req, ids, |cands|);
        RestRefused(c, h, req, ids, |ids| + 1, rest, pol, clock, step + 1);
        FirstRefused(c, cands, pol, clock, step);
        NoneAdmitted(AdmitAll(c, cands, pol, clock, step).statuses);
        assert ids + [] == ids;
      }
    }
  }

  lemma NoneAdmitted(statuses: seq<AdmitStatus>)
    requires forall i | 0 <= i < |statuses| :: !CountsAsHit(statuses[i])
    ensures AdmittedThenNot(statuses, 0)
  {
  }

  lemma OneMoreAdmitted(rest: seq<AdmitStatus>, n: nat)
    requires AdmittedThenNot(rest, n)
    ensures AdmittedThenNot([Admitted] + rest, n + 1)
  {
  }

  /** The first candidate is refused, nothing changes, and so it goes on. */
  lemma FirstRefused(c: Cache, cands: seq<Candidate>, pol: Policies, clock: nat -> nat, step: nat)
    requires cands != [] && c.bs > 0
    requires
      var r := Admit(c, cands[0], clock(step), pol);
      r.cache == c && r.handle == None && !CountsAsHit(r.status)
    requires
      var rest := AdmitAll(c, cands[1..], pol, clock, step + 1);
      && rest.cache == c && rest.handles == [] && |rest.statuses| == |cands| - 1
      && forall i | 0 <= i < |rest.statuses| :: !CountsAsHit(rest.statuses[i])
    ensures
      var all := AdmitAll(c, cands, pol, clock, step);
      && all.cache == c && all.handles == [] && |all.statuses| == |cands|
      && forall i | 0 <= i < |all.statuses| :: !CountsAsHit(all.statuses[i])
  {
    hide AdmitAll;
    hide Admit;
    AdmitAllCons(c, cands, pol, clock, step);
    var rest := AdmitAll(c, cands[1..], pol, clock, step + 1).statuses;
    var all := AdmitAll(c, cands, pol, clock, step).statuses;
    forall i | 0 <= i < |all| ensures !CountsAsHit(all[i]) {
      if i > 0 {
        assert all[i] == rest[i - 1];
      }
    }
  }

  // ---------- the result ----------

  lemma FetchedBlocks(peers: map<NodeId, Cache>, dir: Directory, h: Hasher, bs: nat, req: Request, first: nat,
                      choose: ReplicaPolicy, now: nat)
    requires bs > 0
    ensures RequestBlocksFrom(h, bs, req, first,
                              Resolve(peers, dir, bs, req, Plan(h, bs, req, first), choose, now).fetched)
  {
    FetchedAreNextBlocks(peers, dir, h, bs, req, first, choose, now);
  }

  lemma AfterLookup(c: Cache, h: Hasher, req: Request, now: nat, n: nat)
    requires CacheInv(c, h)
    requires NoneStored(c.index, c.bs, req, |LookupPrefix(c, req.ctx, req.tokens, now).handles|, n)
    ensures
      var r := LookupPrefix(c, req.ctx, req.tokens, now);
      OnPathState(r.cache, h, req, r.handles, n) && r.cache.bs == c.bs
  {
    hide CacheInv;
    hide NoneStored;
    hide LookupPrefix;
    InvBase(c, h);
    LookupOk(c, h, req.ctx, req.tokens, now);
    var r := LookupPrefix(c, req.ctx, req.tokens, now);
    forall i | 0 <= i < |r.handles|
      ensures r.handles[i] < |r.cache.mgr.recs| && r.cache.mgr.recs[r.handles[i]].refcount > 0
    {
      assert r.handles[i] in r.handles;
    }
  }

  /** Handle i is on block i of the request: its record has the position, size and content hash of that
      block. */
  ghost predicate OnOwnBlocks(c: Cache, h: Hasher, req: Request, handles: seq<BlockId>) {
    forall i | 0 <= i < |handles| :: IsBlockOf(c.mgr.recs, c.bs, h, req.ctx, req.tokens, handles[i], i)
  }

  lemma PathBlocks(c: Cache, h: Hasher, req: Request, ids: seq<BlockId>)
    requires OnPathState(c, h, req, ids, 0)
    ensures CacheInv(c, h) && NoDup(ids) && AllPinned(c.mgr.recs, ids) && OnOwnBlocks(c, h, req, ids)
  {
    hide CacheInv;
    ChainAvailable(c, h, req.ctx, req.tokens, ids);
  }

  /** None of the blocks that the request fetches is stored in the cache. */
  ghost predicate FetchesNew(c: Cache, peers: map<NodeId, Cache>, dir: Directory, h: Hasher, req: Request,
                             choose: ReplicaPolicy, now: nat)
    requires c.bs > 0
  {
    NoneStored(c.index, c.bs, req, |LookupPrefix(c, req.ctx, req.tokens, now).handles|,
               |ResolveFor(c, peers, dir, h, req, choose, now).fetched|)
  }

  /** If none of the fetched blocks is stored, then under any policy and any capacity the result is an unbroken
      prefix of the request: the reusable handles are on its blocks 0, 1, ..., n-1 in this order, all
      different, all pinned, each with the content hash of its block; local and remote hits add up to n and
      the matched tokens are n blocks; of the fetched blocks a first part was admitted and everything after it
      refused; at every admission the ancestors were pinned; and the cache keeps its invariant. */
  lemma RequestIsContiguous(c: Cache, peers: map<NodeId, Cache>, dir: Directory, h: Hasher, req: Request, pol: Policies,
                            choose: ReplicaPolicy, now: nat, clock: nat -> nat)
    requires CacheInv(c, h) && PicksFromOffer(pol.evict)
    requires c.bs > 0 && FetchesNew(c, peers, dir, h, req, choose, now)
    ensures
      var r := RunRequest(c, peers, dir, h, req, pol, choose, now, clock);
      var n := |r.route.reusable|;
      && CacheInv(r.cache, h) && r.cache.bs == c.bs
      && r.route.localHits + r.route.remoteHits == n
      && r.route.matchedTokens == n * c.bs
      && NoDup(r.route.reusable) && AllPinned(r.cache.mgr.recs, r.route.reusable)
      && OnOwnBlocks(r.cache, h, req, r.route.reusable)
      && |r.statuses| == |r.fetched| && AdmittedThenNot(r.statuses, r.route.remoteHits)
      && PinnedAtEveryCall(LookupPrefix(c, req.ctx, req.tokens, now).cache, r.fetched, pol, clock, 0)
  {
    hide CacheInv;
    hide OnPathState;
    hide Resolve;
    hide Plan;
    hide AdmitAll;
    hide PinnedAtEveryCall;
    hide LookupPrefix;
    hide OnOwnBlocks;
    hide RequestBlocksFrom;
    hide NoneStored;
    hide PicksFromOffer;
    var local := LookupPrefix(c, req.ctx, req.tokens, now);
    var fetched := ResolveFor(c, peers, dir, h, req, choose, now).fetched;
    AfterLookup(c, h, req, now, |fetched|);
    FetchedBlocks(peers, dir, h, c.bs, req, |local.handles|, choose, now);
    ChainAdmission(local.cache, h, req, local.handles, fetched, pol, clock, 0);
    var chain := AdmitAll(local.cache, fetched, pol, clock, 0);
    HitsAre(chain.statuses, |chain.handles|);
    PathBlocks(chain.cache, h, req, local.handles + chain.handles);
  }

  /** Before and after every call of admit the index names no block twice. */
  ghost predicate UsableAlong(c: Cache, cands: seq<Candidate>, pol: Policies, clock: nat -> nat, step: nat)
    decreases |cands|
  {
    && Injective(c.index)
    && (cands == [] ||
        (c.bs > 0 && UsableAlong(Admit(c, cands[0], clock(step), pol).cache, cands[1..], pol, clock, step + 1)))
  }

  /** Pinned ancestors and honest hashes at every call keep the cache usable throughout. */
  lemma {:induction false} PinnedIsUsable(c: Cache, h: Hasher, req: Request, first: nat, cands: seq<Candidate>,
                                          pol: Policies, clock: nat -> nat, step: nat)
    requires CacheInv(c, h) && PicksFromOffer(pol.evict) && RequestBlocksFrom(h, c.bs, req, first, cands)
    requires PinnedAtEveryCall(c, cands, pol, clock, step)
    ensures UsableAlong(c, cands, pol, clock, step)
    decreases |cands|
  {
    hide CacheInv;
    hide RequestBlocksFrom;
    hide Admit;
    hide AncestorsPinned;
    hide PicksFromOffer;
    hide Honest;
    hide Injective;
    InvInjective(c, h);
    InvBase(c, h);
    if cands != [] {
      RequestBlocksTail(h, c.bs, req, first, cands);
      RequestBlockHonest(c, h, req, first, cands[0]);
      PinnedAdmit(c, h, cands[0], clock(step), pol);
      AdmitSameSize(c, cands[0], clock(step), pol);
      PinnedIsUsable(Admit(c, cands[0], clock(step), pol).cache, h, req, first + 1, cands[1..], pol, clock, step + 1);
    }
  }

  lemma AdmitSameSize(c: Cache, cand: Candidate, now: nat, pol: Policies)
    requires BaseInv(c) && PicksFromOffer(pol.evict)
    ensures Admit(c, cand, now, pol).cache.bs == c.bs
  {
    hide Admit;
    hide Prepared;
    hide Refusal;
    hide BaseInv;
    hide LostEntries;
    hide LostRecords;
    hide LostPlaces;
    hide TierFor;
    BlockSizePositive(c);
    AdmitIsAtomic(c, cand, now, pol);
    if Admit(c, cand, now, pol).status == Admitted {
      AdmittedShape(c, cand, now, pol);
    }
  }

  /** If none of the fetched blocks is stored, the request's admissions keep the cache usable. */
  lemma RequestIsUsable(c: Cache, peers: map<NodeId, Cache>, dir: Directory, h: Hasher, req: Request, pol: Policies,
                        choose: ReplicaPolicy, now: nat, clock: nat -> nat)
    requires CacheInv(c, h) && PicksFromOffer(pol.evict)
    requires c.bs > 0 && FetchesNew(c, peers, dir, h, req, choose, now)
    ensures RequestUsable(c, peers, dir, h, req, pol, choose, now, clock)
  {
    hide CacheInv;
    hide Resolve;
    hide Plan;
    hide AdmitAll;
    hide PinnedAtEveryCall;
    hide UsableAlong;
    hide LookupPrefix;
    hide OnOwnBlocks;
    hide RequestBlocksFrom;
    hide NoneStored;
    hide PicksFromOffer;
    hide OnPathState;
    hide RunRequest;
    hide IsChain;
    hide AllPinned;
    var local := LookupPrefix(c, req.ctx, req.tokens, now);
    var fetched := ResolveFor(c, peers, dir, h, req, choose, now).fetched;
    AfterLookup(c, h, req, now, |fetched|);
    PathIsChain(local.cache, h, req, local.handles, |fetched|);
    FetchedBlocks(peers, dir, h, c.bs, req, |local.handles|, choose, now);
    ChainAdmission(local.cache, h, req, local.handles, fetched, pol, clock, 0);
    PinnedIsUsable(local.cache, h, req, |local.handles|, fetched, pol, clock, 0);
  }

  ghost predicate RequestUsable(c: Cache, peers: map<NodeId, Cache>, dir: Directory, h: Hasher, req: Request,
                                pol: Policies, choose: ReplicaPolicy, now: nat, clock: nat -> nat)
  {
    && c.bs > 0
    && UsableAlong(LookupPrefix(c, req.ctx, req.tokens, now).cache,
                   ResolveFor(c, peers, dir, h, req, choose, now).fetched,
                   pol, clock, 0)
  }

  // ---------- the request as part of the system ----------

  /** These bytes were written by an admission under this hash. */
  ghost predicate WrittenAs(s: System, hash: ContentHash, bytes: seq<Byte>) {
    exists i :: i in s.issued && i.hash == hash && SameFront(i.payload, bytes)
  }

  predicate SameFront(a: seq<Byte>, b: seq<Byte>) {
    a[..Min(|a|, |b|)] == b[..Min(|a|, |b|)]
  }

  /** The payload of a fetched candidate was written by an admission under the candidate's hash. */
  ghost predicate Sourced(s: System, cand: Candidate) {
    WrittenAs(s, cand.hash, cand.payload)
  }

  lemma DeliveredIsWritten(s: System, ref: Ref, hash: ContentHash, bytes: seq<Byte>)
    requires Delivers(s, ref, hash, bytes)
    ensures WrittenAs(s, hash, bytes)
  {
    var i :| i in s.issued && i.hash == hash && i.ref == ref && ServedAs(s.workers[ref.node], i.payload, bytes);
    assert SameFront(i.payload, bytes);
  }

  ghost function Merged(s: System, workers: map<NodeId, Cache>, dir: Directory): System {
    s.(workers := s.workers + workers, dir := dir)
  }

  /** One fetch of a listed ref: no mismatch, bytes from an admission under that hash, and the system's
      invariant kept. */
  lemma FetchStep(s: System, self: NodeId, hash: ContentHash, ref: Ref, now: nat)
    requires SystemInv(s) && Listed(s.dir, hash, ref)
    ensures
      var peers := s.workers - {self};
      var f := Fetch(peers, ref, hash, now);
      var s1 := Merged(s, AfterFetch(peers, ref, now), s.dir);
      && f.status != FetchHashMismatch
      && (f.status == FetchOk ==> f.hash == hash && WrittenAs(s, hash, f.payload))
      && SystemInv(s1) && s1.workers - {self} == AfterFetch(peers, ref, now)
      && AfterFetch(peers, ref, now).Keys == peers.Keys
  {
    hide BaseInv;
    hide Later;
    hide IssueOk;
    hide Serve;
    hide WrittenAs;
    hide Delivers;
    var peers := s.workers - {self};
    assert s.workers + peers == s.workers;
    if ref.node in peers {
      assert Stems(s, hash, ref);
      IssueFetch(s, hash, ref, now);
      assert Fetch(peers, ref, hash, now) == Fetch(s.workers, ref, hash, now);
      if Fetch(peers, ref, hash, now).status == FetchOk {
        DeliveredIsWritten(s, ref, hash, Fetch(peers, ref, hash, now).payload);
      }
      var c' := Serve(s.workers[ref.node], ref.block, ref.generation, now).cache;
      ServeLater(s.workers[ref.node], ref.block, ref.generation, now);
      WorkerStep(s, ref.node, c');
      assert s.workers + AfterFetch(peers, ref, now) == s.workers[ref.node := c'];
    }
  }

  /** A resolution over a directory that may be behind: no fetch ever comes back with another hash than the
      one asked for, every fetched payload was admitted somewhere under the hash of its block, and the
      system's invariant is kept. */
  lemma {:induction false} ResolveSystem(s: System, self: NodeId, bs: nat, req: Request, missing: seq<Missing>,
                                         choose: ReplicaPolicy, now: nat)
    requires SystemInv(s) && ChoosesFromOffer(choose)
    ensures
      var r := Resolve(s.workers - {self}, s.dir, bs, req, missing, choose, now);
      && r.failure != Some(FetchHashMismatch)
      && SystemInv(Merged(s, r.workers, r.dir))
      && r.workers.Keys == (s.workers - {self}).Keys
      && forall i | 0 <= i < |r.fetched| :: Sourced(s, r.fetched[i])
    decreases |missing|
  {
    hide SystemInv;
    hide Serve;
    hide Cleaned;
    hide Fetch;
    hide AfterFetch;
    var peers := s.workers - {self};
    assert s.workers + peers == s.workers;
    if missing != [] {
      var mb, refs := missing[0], Query(s.dir, missing[0].hash);
      var ref := if refs == [] then None else choose(mb.hash, refs);
      if ref.Some? {
        assert Listed(s.dir, mb.hash, ref.value);
        FetchStep(s, self, mb.hash, ref.value, now);
        var f, peers1 := Fetch(peers, ref.value, mb.hash, now), AfterFetch(peers, ref.value, now);
        var s1 := Merged(s, peers1, s.dir);
        match f.status
        case FetchStale =>
          assert Enabled(s1, EvInvalidate(ref.value));
          NextInv(s1, EvInvalidate(ref.value));
          assert Next(s1, EvInvalidate(ref.value)) == Merged(s, peers1, Cleaned(s.dir, Is(ref.value)));
        case FetchOk =>
          ResolveSystem(s1, self, bs, req, missing[1..], choose, now);
          var rest := Resolve(peers1, s.dir, bs, req, missing[1..], choose, now);
          assert Merged(s1, rest.workers, rest.dir) == Merged(s, rest.workers, rest.dir);
          var fetched := [FetchedCandidate(bs, req, mb, f)] + rest.fetched;
          forall i | 0 <= i < |fetched| ensures Sourced(s, fetched[i]) {
            if i > 0 {
              assert Sourced(s1, rest.fetched[i - 1]);
            }
          }
        case _ =>
      }
    }
  }

  /** Chain admission is a run of admissions of the system, whatever each of them evicts. */
  lemma {:induction false} ChainSystem(s: System, self: NodeId, cands: seq<Candidate>, pol: Policies, clock: nat -> nat,
                                       step: nat, rs: seq<AdmitResult>) returns (s': System)
    requires SystemInv(s) && self in s.workers && IsChainRun(s.workers[self], cands, pol, clock, step, rs)
    ensures SystemInv(s') && s'.dir == s.dir && s.issued <= s'.issued
    ensures s'.workers == s.workers[self := ChainOf(s.workers[self], rs).cache]
    decreases |cands|
  {
    hide Admits;
    hide BaseInv;
    hide IssueOk;
    if cands == [] {
      s' := s;
    } else {
      var e := EvAdmit(self, cands[0], clock(step), pol, rs[0]);
      NextInv(s, e);
      s' := ChainSystem(Next(s, e), self, cands[1..], pol, clock, step + 1, rs[1..]);
    }
  }

  /** A whole request is a run of the system: lookup, serves, an invalidation, admissions; also when one of
      these evicts an ancestor of its candidate. */
  lemma RequestSystem(s: System, self: NodeId, h: Hasher, req: Request, pol: Policies, choose: ReplicaPolicy, now: nat,
                      clock: nat -> nat, rs: seq<AdmitResult>, run: RunResult) returns (s': System)
    requires SystemInv(s) && self in s.workers && ChoosesFromOffer(choose)
    requires IsRequestRun(s.workers[self], s.workers - {self}, s.dir, h, req, pol, choose, now, clock, rs, run)
    ensures SystemInv(s')
    ensures s'.workers == (s.workers + run.peers)[self := run.cache] && s'.dir == run.dir && s.issued <= s'.issued
    ensures run.failure != Some(FetchHashMismatch)
    ensures forall i | 0 <= i < |run.fetched| :: Sourced(s, run.fetched[i])
  {
    hide SystemInv;
    hide LookupPrefix;
    hide Resolve;
    hide Plan;
    hide IsChainRun;
    hide ChainOf;
    hide ChoosesFromOffer;
    hide Sourced;
    var c := s.workers[self];
    var e := EvLookup(self, req.ctx, req.tokens, now);
    NextInv(s, e);
    var s1 := Next(s, e);
    var local := LookupPrefix(c, req.ctx, req.tokens, now);
    assert s1.workers - {self} == s.workers - {self};
    var missing := Plan(h, c.bs, req, |local.handles|);
    ResolveSystem(s1, self, c.bs, req, missing, choose, now);
    var res := Resolve(s.workers - {self}, s.dir, c.bs, req, missing, choose, now);
    var s2 := Merged(s1, res.workers, res.dir);
    assert s2.workers[self] == local.cache;
    s' := ChainSystem(s2, self, res.fetched, pol, clock, 0, rs);
    SourcedSame(s, s1, res.fetched);
  }

  lemma SourcedSame(s: System, s1: System, cands: seq<Candidate>)
    requires s.issued == s1.issued && forall i | 0 <= i < |cands| :: Sourced(s1, cands[i])
    ensures forall i | 0 <= i < |cands| :: Sourced(s, cands[i])
  {
  }

  /** What AdmitAll computes is such a chain run, and what RunRequest computes such a request. */
  lemma {:induction false} AdmitAllIsRun(c: Cache, cands: seq<Candidate>, pol: Policies, clock: nat -> nat, step: nat)
      returns (rs: seq<AdmitResult>)
    requires BaseInv(c) && PicksFromOffer(pol.evict)
    ensures IsChainRun(c, cands, pol, clock, step, rs) && ChainOf(c, rs) == AdmitAll(c, cands, pol, clock, step)
    decreases |cands|
  {
    hide BaseInv;
    hide Admit;
    hide Admits;
    hide PicksFromOffer;
    BlockSizePositive(c);
    if cands == [] {
      rs := [];
    } else {
      var r := Admit(c, cands[0], clock(step), pol);
      AdmitIsAdmits(c, cands[0], clock(step), pol);
      AdmitKeepsBase(c, cands[0], clock(step), pol, r);
      var rest := AdmitAllIsRun(r.cache, cands[1..], pol, clock, step + 1);
      rs := [r] + rest;
      assert rs[1..] == rest;
    }
  }

  /** One more outcome at the end of a chain run. */
  lemma {:induction false} ChainRunMore(c: Cache, cands: seq<Candidate>, pol: Policies, clock: nat -> nat, step: nat,
                                        rs: seq<AdmitResult>, cand: Candidate, r: AdmitResult)
    requires IsChainRun(c, cands, pol, clock, step, rs)
    requires Admits(ChainOf(c, rs).cache, cand, clock(step + |cands|), pol, r)
    ensures IsChainRun(c, cands + [cand], pol, clock, step, rs + [r])
    ensures
      var before, after := ChainOf(c, rs), ChainOf(c, rs + [r]);
      after == ChainResult(r.cache, before.handles + if r.handle.Some? then [r.handle.value] else [],
                           before.statuses + [r.status])
    decreases |cands|
  {
    hide Admits;
    if cands == [] {
      assert rs == [];
      assert (rs + [r])[1..] == [] && (cands + [cand])[1..] == [];
      assert ChainOf(r.cache, []) == ChainResult(r.cache, [], []);
    } else {
      assert rs[0] == (rs + [r])[0] && (rs + [r])[1..] == rs[1..] + [r];
      assert (cands + [cand])[0] == cands[0] && (cands + [cand])[1..] == cands[1..] + [cand];
      ChainRunMore(rs[0].cache, cands[1..], pol, clock, step + 1, rs[1..], cand, r);
    }
  }
}
