/** When the result of a request is contiguous, under any policy and any capacity: its admissions tell. */
module Contiguity {
  import opened Types
  import opened PrefixMap
  import opened CacheModel
  import opened AdmitTheory
  import opened CacheOps
  import opened Coordinator
  import opened PipelineModel
  import opened PipelineTheory
  import opened StrandedTheory

  /** No candidate that was found present comes before one that was admitted. */
  ghost predicate PresentLast(statuses: seq<AdmitStatus>) {
    forall i, j | 0 <= i < j < |statuses| && statuses[i] == AlreadyPresent :: statuses[j] != Admitted
  }

  ghost predicate NoneAdmittedIn(statuses: seq<AdmitStatus>) {
    forall i | 0 <= i < |statuses| :: statuses[i] != Admitted
  }

  /** A handle on a block of this position. */
  ghost predicate PinnedAt(c: Cache, id: BlockId, blockIndex: nat) {
    id < |c.mgr.recs| && c.mgr.recs[id].refcount > 0 && c.mgr.recs[id].blockIndex == blockIndex
  }

  /** An admission, however it turns out, leaves pinned blocks alone, pins the block that it admits, and otherwise
      changes nothing. */
  lemma AdmitPins(c: Cache, cand: Candidate, now: nat, pol: Policies, r: AdmitResult)
    requires BaseInv(c) && Admits(c, cand, now, pol, r)
    ensures BaseInv(r.cache) && r.cache.bs == c.bs
    ensures (r.status == Admitted <==> r.handle.Some?) && (r.status != Admitted ==> r.cache == c)
    ensures r.handle.Some? ==> PinnedAt(r.cache, r.handle.value, cand.blockIndex)
    ensures forall id, n | PinnedAt(c, id, n) :: PinnedAt(r.cache, id, n)
  {
    hide BaseInv;
    hide Admits;
    hide AdmittedAs;
    AdmitKeepsBase(c, cand, now, pol, r);
    AdmitLater(c, cand, now, pol, r);
    if r.status == Admitted {
      AdmittedIsPinned(r.cache, cand, r.handle.value);
    }
    forall id, n | PinnedAt(c, id, n) ensures PinnedAt(r.cache, id, n) {
      PinnedNotTouched(c, cand, now, pol, r, id);
    }
  }

  lemma AdmittedIsPinned(c: Cache, cand: Candidate, id: BlockId)
    requires AdmittedAs(c, cand, id)
    ensures PinnedAt(c, id, cand.blockIndex)
  {
  }

  /** Pinned blocks stay through chain admission; if nothing is admitted nothing changes, and otherwise the first
      handle is on the block of some candidate. */
  lemma {:induction false} ChainPins(c: Cache, cands: seq<Candidate>, pol: Policies, clock: nat -> nat, step: nat,
                                     rs: seq<AdmitResult>)
    requires BaseInv(c) && IsChainRun(c, cands, pol, clock, step, rs)
    ensures
      var r := ChainOf(c, rs);
      && |r.statuses| == |cands|
      && (forall id, n | PinnedAt(c, id, n) :: PinnedAt(r.cache, id, n))
      && (NoneAdmittedIn(r.statuses) ==> r.handles == [] && r.cache == c)
      && (!NoneAdmittedIn(r.statuses) ==>
            r.handles != [] && exists j :: 0 <= j < |cands| && PinnedAt(r.cache, r.handles[0], cands[j].blockIndex))
    decreases |cands|
  {
    hide BaseInv;
    hide Admits;
    hide PinnedAt;
    hide NoneAdmittedIn;
    NothingAdmitted();
    if cands != [] {
      var first := rs[0];
      AdmitPins(c, cands[0], clock(step), pol, first);
      ChainPins(first.cache, cands[1..], pol, clock, step + 1, rs[1..]);
      var rest := ChainOf(first.cache, rs[1..]);
      NoneAdmittedCons(first.status, rest.statuses);
      if first.status == Admitted {
        assert PinnedAt(rest.cache, first.handle.value, cands[0].blockIndex);
      } else if !NoneAdmittedIn(rest.statuses) {
        var j :| 0 <= j < |cands[1..]| && PinnedAt(rest.cache, rest.handles[0], cands[1..][j].blockIndex);
        assert cands[1..][j] == cands[j + 1];
        assert [] + rest.handles == rest.handles;
      }
    }
  }

  lemma NothingAdmitted()
    ensures NoneAdmittedIn([])
  {
  }

  lemma NoneAdmittedCons(status: AdmitStatus, rest: seq<AdmitStatus>)
    ensures NoneAdmittedIn([status] + rest) <==> status != Admitted && NoneAdmittedIn(rest)
    ensures PresentLast([status] + rest) <==>
      PresentLast(rest) && (status == AlreadyPresent ==> NoneAdmittedIn(rest))
    ensures NoneAdmittedIn(rest) ==> PresentLast(rest)
  {
    var all := [status] + rest;
    assert forall i | 0 <= i < |rest| :: all[i + 1] == rest[i];
    assert all[0] == status;
    if PresentLast(all) {
      forall i, j | 0 <= i < j < |rest| && rest[i] == AlreadyPresent ensures rest[j] != Admitted {
        assert all[i + 1] == AlreadyPresent;
      }
    }
    if NoneAdmittedIn(all) {
      forall i | 0 <= i < |rest| ensures rest[i] != Admitted {
        assert all[i + 1] != Admitted;
      }
    }
  }

  // ---------- where chain admission stands ----------

  /** The blocks ids of the request are stored, pinned, and the right ones. */
  ghost predicate PinnedChain(c: Cache, h: Hasher, req: Request, ids: seq<BlockId>) {
    && BaseInv(c)
    && IsChain(c.index, c.bs, req.ctx, req.tokens, ids)
    && AllPinned(c.mgr.recs, ids)
    && OnOwnBlocks(c, h, req, ids)
  }

  lemma PinnedChainIs(c: Cache, h: Hasher, req: Request, ids: seq<BlockId>)
    requires PinnedChain(c, h, req, ids)
    ensures BaseInv(c) && c.bs > 0 && IsChain(c.index, c.bs, req.ctx, req.tokens, ids) && OnOwnBlocks(c, h, req, ids)
  {
  }

  /** An outcome of admission where the checks refuse. */
  lemma AdmitsRefusal(c: Cache, cand: Candidate, now: nat, pol: Policies, r: AdmitResult)
    requires Admits(c, cand, now, pol, r) && Refusal(c, cand, now, pol).Some?
    ensures r == AdmitResult(c, Refusal(c, cand, now, pol).value, None)
  {
    hide Refusal;
    var vs, mid :| AdmitsVia(c, cand, now, pol, vs, mid, r);
  }

  /** The insertion adds the next block to what eviction left of the index. */
  lemma InsertedNext(m: Entries, m1: Entries, vs: seq<BlockId>, bs: nat, req: Request, ids: seq<BlockId>, id: BlockId)
    requires bs > 0 && IsChain(m, bs, req.ctx, req.tokens, ids) && Fits(bs, req.tokens, |ids| + 1)
    requires !Stored(m, bs, req, |ids|) && ShrunkEntries(m, vs, m1) && forall i | 0 <= i < |ids| :: ids[i] !in vs
    ensures
      IsChain(InsertChain(m1, bs, req.ctx, req.tokens[..(|ids| + 1) * bs], ids + [id]), bs, req.ctx, req.tokens,
              ids + [id])
  {
    hide InsertUpTo;
    var n := |ids| + 1;
    var short, all := req.tokens[..n * bs], ids + [id];
    assert Fits(bs, short, n);
    InsertUpToIs(m1, bs, req.ctx, short, all, n);
    forall j | 1 <= j <= n ensures BlockKey(bs, req.ctx, short, j) == BlockKey(bs, req.ctx, req.tokens, j) {
      FitsMono(bs, short, j, n);
      FitsMono(bs, req.tokens, j, n);
    }
    forall j | 1 <= j <= |ids| ensures BlockKey(bs, req.ctx, req.tokens, j) in m1 {
      assert m[BlockKey(bs, req.ctx, req.tokens, j)] == ids[j - 1];
    }
    assert BlockKey(bs, req.ctx, req.tokens, n) !in m1;
  }

  /** The new block is the next one of the request. */
  lemma AdmittedIsBlock(c: Cache, h: Hasher, req: Request, i: nat, cand: Candidate, id: BlockId)
    requires IsRequestBlock(h, c.bs, req, i, cand) && id < |c.mgr.recs|
    requires
      var r := c.mgr.recs[id];
      r.hash == cand.hash && r.blockIndex == cand.blockIndex && r.tokenCount == Truncated16(c.bs)
    ensures IsBlockOf(c.mgr.recs, c.bs, h, req.ctx, req.tokens, id, i)
  {
    OneMore(c.bs, i);
  }

  /** Admitting the next block, whatever is evicted for it, keeps the pinned chain, one longer. */
  lemma NextPinned(c: Cache, h: Hasher, req: Request, ids: seq<BlockId>, cand: Candidate, now: nat, pol: Policies,
                   r: AdmitResult)
    requires PinnedChain(c, h, req, ids) && !Stored(c.index, c.bs, req, |ids|)
    requires IsRequestBlock(h, c.bs, req, |ids|, cand) && Admits(c, cand, now, pol, r) && r.status == Admitted
    ensures r.handle.Some? && PinnedChain(r.cache, h, req, ids + [r.handle.value])
  {
    hide BaseInv;
    hide Admits;
    hide Evicts;
    hide IsChain;
    hide Stored;
    hide Refusal;
    hide Ancestors;
    hide InsertChain;
    hide IsBlockOf;
    hide Fits;
    PinnedChainIs(c, h, req, ids);
    AdmitKeepsBase(c, cand, now, pol, r);
    NextChecks(c, h, req, ids, cand, now, pol);
    RequestBlockTokens(h, c.bs, req, |ids|, cand);
    var tier, vs, mid, index := AdmitsShape(c, cand, now, pol, r);
    var id := r.handle.value;
    VictimsUnpinned(c, tier, vs, mid, ids);
    InsertedNext(c.index, mid.index, vs, c.bs, req, ids, id);
    AdmittedIsBlock(r.cache, h, req, |ids|, cand, id);
    forall i | 0 <= i < |ids| + 1
      ensures (ids + [id])[i] < |r.cache.mgr.recs| && r.cache.mgr.recs[(ids + [id])[i]].refcount > 0
      ensures IsBlockOf(r.cache.mgr.recs, r.cache.bs, h, req.ctx, req.tokens, (ids + [id])[i], i)
    {
      if i < |ids| {
        PinnedNotTouched(c, cand, now, pol, r, ids[i]);
        assert IsBlockOf(c.mgr.recs, c.bs, h, req.ctx, req.tokens, ids[i], i);
        SameRecordIsBlock(c, r.cache, h, req, ids[i], i);
      }
    }
  }

  lemma SameRecordIsBlock(c: Cache, c': Cache, h: Hasher, req: Request, id: BlockId, i: nat)
    requires IsBlockOf(c.mgr.recs, c.bs, h, req.ctx, req.tokens, id, i) && c'.bs == c.bs
    requires id < |c'.mgr.recs| && c'.mgr.recs[id] == c.mgr.recs[id]
    ensures IsBlockOf(c'.mgr.recs, c'.bs, h, req.ctx, req.tokens, id, i)
  {
  }

  lemma VictimsUnpinned(c: Cache, tier: Tier, vs: seq<BlockId>, c': Cache, ids: seq<BlockId>)
    requires Evicts(c, tier, vs, c') && AllPinned(c.mgr.recs, ids)
    ensures ShrunkEntries(c.index, vs, c'.index)
    ensures forall i | 0 <= i < |ids| :: ids[i] !in vs
  {
    hide EvictAll;
    forall i, j | 0 <= i < |ids| && 0 <= j < |vs| ensures ids[i] != vs[j] {
      assert vs[j] in EligibleSlots(c.mgr.recs, tier);
    }
  }

  /** A block found present: the blocks behind it get handles that are off by one, if they get any. */
  lemma BehindPresent(c: Cache, h: Hasher, req: Request, ids: seq<BlockId>, cands: seq<Candidate>, pol: Policies,
                      clock: nat -> nat, step: nat, rs: seq<AdmitResult>)
    requires PinnedChain(c, h, req, ids) && IsChainRun(c, cands, pol, clock, step, rs)
    requires RequestBlocksFrom(h, c.bs, req, |ids| + 1, cands)
    ensures
      var r := ChainOf(c, rs);
      OnOwnBlocks(r.cache, h, req, ids + r.handles) <==> NoneAdmittedIn(r.statuses)
  {
    hide BaseInv;
    hide NoneAdmittedIn;
    hide IsChainRun;
    hide ChainOf;
    hide IsChain;
    ChainPins(c, cands, pol, clock, step, rs);
    var r := ChainOf(c, rs);
    if NoneAdmittedIn(r.statuses) {
      assert ids + [] == ids;
    } else {
      var j :| 0 <= j < |cands| && PinnedAt(r.cache, r.handles[0], cands[j].blockIndex);
      assert IsRequestBlock(h, c.bs, req, |ids| + 1 + j, cands[j]);
      var all := ids + r.handles;
      assert all[|ids|] == r.handles[0];
      assert !IsBlockOf(r.cache.mgr.recs, r.cache.bs, h, req.ctx, req.tokens, all[|ids|], |ids|);
    }
  }

  /** Behind a gap everything is refused. */
  lemma {:induction false} BehindGap(c: Cache, h: Hasher, req: Request, ids: seq<BlockId>, first: nat,
                                     cands: seq<Candidate>, pol: Policies, clock: nat -> nat, step: nat,
                                     rs: seq<AdmitResult>)
    requires c.bs > 0 && IsChain(c.index, c.bs, req.ctx, req.tokens, ids) && !Stored(c.index, c.bs, req, |ids|)
    requires |ids| < first && RequestBlocksFrom(h, c.bs, req, first, cands)
    requires IsChainRun(c, cands, pol, clock, step, rs)
    ensures NoneAdmittedIn(ChainOf(c, rs).statuses)
    decreases |cands|
  {
    hide IsChain;
    hide Stored;
    hide RequestBlocksFrom;
    hide Admits;
    hide Refusal;
    hide IsRequestBlock;
    hide NoneAdmittedIn;
    NothingAdmitted();
    if cands != [] {
      RequestBlocksTail(h, c.bs, req, first, cands);
      AfterGap(c, h, req, ids, first, cands[0], clock(step), pol);
      AdmitsRefusal(c, cands[0], clock(step), pol, rs[0]);
      BehindGap(c, h, req, ids, first + 1, cands[1..], pol, clock, step + 1, rs[1..]);
      NoneAdmittedCons(rs[0].status, ChainOf(rs[0].cache, rs[1..]).statuses);
    }
  }

  /** Whether the handles continue the chain can be told from the statuses. */
  ghost predicate ToldByStatus(c: Cache, h: Hasher, req: Request, ids: seq<BlockId>, rs: seq<AdmitResult>) {
    var r := ChainOf(c, rs);
    OnOwnBlocks(r.cache, h, req, ids + r.handles) <==> PresentLast(r.statuses)
  }

  /** The handles of chain admission continue the chain in order exactly when no candidate was found present
      before one was admitted. */
  lemma {:induction false} ChainContiguousIff(c: Cache, h: Hasher, req: Request, ids: seq<BlockId>,
                                              cands: seq<Candidate>, pol: Policies, clock: nat -> nat, step: nat,
                                              rs: seq<AdmitResult>)
    requires PinnedChain(c, h, req, ids) && IsChainRun(c, cands, pol, clock, step, rs)
    requires RequestBlocksFrom(h, c.bs, req, |ids|, cands)
    ensures ToldByStatus(c, h, req, ids, rs)
    decreases |cands|
  {
    hide PinnedChain;
    hide RequestBlocksFrom;
    hide IsChain;
    hide Stored;
    hide Admits;
    hide IsRequestBlock;
    hide Refusal;
    hide PinnedAt;
    hide IsChainRun;
    hide ChainOf;
    hide ToldByStatus;
    hide OnOwnBlocks;
    hide BaseInv;
    PinnedChainIs(c, h, req, ids);
    ChainRunCons(c, cands, pol, clock, step, rs);
    if cands == [] {
      ToldOfNothing(c, h, req, ids);
    } else {
      RequestBlocksTail(h, c.bs, req, |ids|, cands);
      if Stored(c.index, c.bs, req, |ids|) {
        ToldPresent(c, h, req, ids, cands, pol, clock, step, rs);
      } else if rs[0].status == Admitted {
        AdmitKeepsBase(c, cands[0], clock(step), pol, rs[0]);
        NextPinned(c, h, req, ids, cands[0], clock(step), pol, rs[0]);
        ChainContiguousIff(rs[0].cache, h, req, ids + [rs[0].handle.value], cands[1..], pol, clock, step + 1, rs[1..]);
        ToldAdmitted(c, h, req, ids, cands, pol, clock, step, rs);
      } else {
        ToldRefused(c, h, req, ids, cands, pol, clock, step, rs);
      }
    }
  }

  lemma ToldOfNothing(c: Cache, h: Hasher, req: Request, ids: seq<BlockId>)
    requires OnOwnBlocks(c, h, req, ids)
    ensures ToldByStatus(c, h, req, ids, [])
  {
    hide OnOwnBlocks;
    NothingPresent();
    assert ids + [] == ids;
  }

  lemma ToldPresent(c: Cache, h: Hasher, req: Request, ids: seq<BlockId>, cands: seq<Candidate>, pol: Policies,
                    clock: nat -> nat, step: nat, rs: seq<AdmitResult>)
    requires PinnedChain(c, h, req, ids) && IsChainRun(c, cands, pol, clock, step, rs) && cands != []
    requires RequestBlocksFrom(h, c.bs, req, |ids|, cands) && Stored(c.index, c.bs, req, |ids|)
    ensures ToldByStatus(c, h, req, ids, rs)
  {
    hide PinnedChain;
    hide RequestBlocksFrom;
    hide IsChain;
    hide Stored;
    hide Admits;
    hide OnOwnBlocks;
    hide PresentLast;
    hide NoneAdmittedIn;
    hide IsRequestBlock;
    hide Refusal;
    hide IsChainRun;
    hide ChainOf;
    PinnedChainIs(c, h, req, ids);
    ChainRunCons(c, cands, pol, clock, step, rs);
    RequestBlocksTail(h, c.bs, req, |ids|, cands);
    var id := NextPresent(c, h, req, ids, cands[0], clock(step), pol);
    AdmitsRefusal(c, cands[0], clock(step), pol, rs[0]);
    var rest := ChainOf(c, rs[1..]);
    NoneAdmittedCons(AlreadyPresent, rest.statuses);
    BehindPresent(c, h, req, ids, cands[1..], pol, clock, step + 1, rs[1..]);
    assert [] + rest.handles == rest.handles;
  }

  lemma ToldAdmitted(c: Cache, h: Hasher, req: Request, ids: seq<BlockId>, cands: seq<Candidate>, pol: Policies,
                     clock: nat -> nat, step: nat, rs: seq<AdmitResult>)
    requires IsChainRun(c, cands, pol, clock, step, rs) && cands != []
    requires |rs| > 0 && rs[0].status == Admitted && rs[0].handle.Some?
    requires ToldByStatus(rs[0].cache, h, req, ids + [rs[0].handle.value], rs[1..])
    ensures ToldByStatus(c, h, req, ids, rs)
  {
    hide OnOwnBlocks;
    hide PresentLast;
    hide NoneAdmittedIn;
    hide IsChainRun;
    hide ChainOf;
    ChainRunCons(c, cands, pol, clock, step, rs);
    var id, rest := rs[0].handle.value, ChainOf(rs[0].cache, rs[1..]);
    NoneAdmittedCons(Admitted, rest.statuses);
    assert ids + [id] + rest.handles == ids + ([id] + rest.handles);
  }

  lemma ToldRefused(c: Cache, h: Hasher, req: Request, ids: seq<BlockId>, cands: seq<Candidate>, pol: Policies,
                    clock: nat -> nat, step: nat, rs: seq<AdmitResult>)
    requires PinnedChain(c, h, req, ids) && IsChainRun(c, cands, pol, clock, step, rs) && cands != []
    requires RequestBlocksFrom(h, c.bs, req, |ids|, cands) && !Stored(c.index, c.bs, req, |ids|)
    requires |rs| > 0 && rs[0].status != Admitted
    ensures ToldByStatus(c, h, req, ids, rs)
  {
    hide PinnedChain;
    hide RequestBlocksFrom;
    hide IsChain;
    hide Stored;
    hide Admits;
    hide OnOwnBlocks;
    hide PresentLast;
    hide NoneAdmittedIn;
    hide IsRequestBlock;
    hide Refusal;
    hide PinnedAt;
    hide IsChainRun;
    hide ChainOf;
    PinnedChainIs(c, h, req, ids);
    ChainRunCons(c, cands, pol, clock, step, rs);
    RequestBlocksTail(h, c.bs, req, |ids|, cands);
    AdmitPins(c, cands[0], clock(step), pol, rs[0]);
    NextChecks(c, h, req, ids, cands[0], clock(step), pol);
    NotPresent(c, cands[0], clock(step), pol, rs[0]);
    var rest := ChainOf(c, rs[1..]);
    BehindGap(c, h, req, ids, |ids| + 1, cands[1..], pol, clock, step + 1, rs[1..]);
    NothingChanged(c, cands[1..], pol, clock, step + 1, rs[1..]);
    NoneAdmittedCons(rs[0].status, rest.statuses);
    assert [] + rest.handles == [] && ids + [] == ids;
  }

  lemma ChainRunCons(c: Cache, cands: seq<Candidate>, pol: Policies, clock: nat -> nat, step: nat, rs: seq<AdmitResult>)
    requires IsChainRun(c, cands, pol, clock, step, rs)
    ensures |rs| == |cands| && (cands == [] ==> ChainOf(c, rs) == ChainResult(c, [], []))
    ensures cands != [] ==>
      && Admits(c, cands[0], clock(step), pol, rs[0])
      && IsChainRun(rs[0].cache, cands[1..], pol, clock, step + 1, rs[1..])
      && var r, rest := rs[0], ChainOf(rs[0].cache, rs[1..]);
         ChainOf(c, rs) == ChainResult(rest.cache, (if r.handle.Some? then [r.handle.value] else []) + rest.handles,
                                       [r.status] + rest.statuses)
  {
    hide Admits;
  }

  lemma NotPresent(c: Cache, cand: Candidate, now: nat, pol: Policies, r: AdmitResult)
    requires BaseInv(c) && Admits(c, cand, now, pol, r)
    requires Refusal(c, cand, now, pol) == None || Refusal(c, cand, now, pol) == Some(Rejected)
    ensures r.status != AlreadyPresent
  {
    hide BaseInv;
    hide Refusal;
    hide Install;
    hide Evicts;
    hide Ancestors;
    var vs, mid :| AdmitsVia(c, cand, now, pol, vs, mid, r);
    if Refusal(c, cand, now, pol) == None && r.status != Full {
      AcceptedChain(c, cand, now, pol);
      var tier := TierFor(c, cand, now, pol);
      InstallStatus(if vs == [] then c else mid, cand, Ancestors(c, cand), tier, now);
      InstallStatus(mid, cand, Ancestors(c, cand), tier, now);
    }
  }

  lemma InstallStatus(c: Cache, cand: Candidate, anc: seq<BlockId>, tier: Tier, now: nat)
    ensures Install(c, cand, anc, tier, now).status != AlreadyPresent
  {
  }

  lemma NothingChanged(c: Cache, cands: seq<Candidate>, pol: Policies, clock: nat -> nat, step: nat,
                       rs: seq<AdmitResult>)
    requires BaseInv(c) && IsChainRun(c, cands, pol, clock, step, rs) && NoneAdmittedIn(ChainOf(c, rs).statuses)
    ensures ChainOf(c, rs).handles == [] && ChainOf(c, rs).cache == c
  {
    hide BaseInv;
    hide IsChainRun;
    hide ChainOf;
    ChainPins(c, cands, pol, clock, step, rs);
  }

  lemma NothingPresent()
    ensures PresentLast([])
  {
  }

  /** The local hits are a pinned chain. */
  lemma LookupIsPinned(c: Cache, h: Hasher, req: Request, now: nat)
    requires CacheInv(c, h)
    ensures
      var r := LookupPrefix(c, req.ctx, req.tokens, now);
      PinnedChain(r.cache, h, req, r.handles) && r.cache.bs == c.bs > 0
  {
    hide CacheInv;
    hide LookupPrefix;
    InvBase(c, h);
    AfterLookup(c, h, req, now, 0);
    var r := LookupPrefix(c, req.ctx, req.tokens, now);
    PathIsChain(r.cache, h, req, r.handles, 0);
    PathBlocks(r.cache, h, req, r.handles);
    InvBase(r.cache, h);
  }

  /** Contiguity of a request's result under any policy and any capacity, however its admissions turn out: every
      reusable handle is on its own block if and only if no candidate that was found present came before one
      that was admitted. */
  lemma ContiguousByStatus(c: Cache, peers: map<NodeId, Cache>, dir: Directory, h: Hasher, req: Request, pol: Policies,
                           choose: ReplicaPolicy, now: nat, clock: nat -> nat, rs: seq<AdmitResult>, run: RunResult)
    requires CacheInv(c, h) && IsRequestRun(c, peers, dir, h, req, pol, choose, now, clock, rs, run)
    ensures OnOwnBlocks(run.cache, h, req, run.route.reusable) <==> PresentLast(run.statuses)
  {
    hide CacheInv;
    hide PinnedChain;
    hide Resolve;
    hide Plan;
    hide IsChainRun;
    hide ChainOf;
    hide LookupPrefix;
    hide OnOwnBlocks;
    hide RequestBlocksFrom;
    hide PresentLast;
    var local := LookupPrefix(c, req.ctx, req.tokens, now);
    var fetched := ResolveFor(c, peers, dir, h, req, choose, now).fetched;
    LookupIsPinned(c, h, req, now);
    FetchedBlocks(peers, dir, h, c.bs, req, |local.handles|, choose, now);
    ChainContiguousIff(local.cache, h, req, local.handles, fetched, pol, clock, 0, rs);
  }

  ghost predicate NonePresent(statuses: seq<AdmitStatus>) {
    forall i | 0 <= i < |statuses| :: statuses[i] != AlreadyPresent
  }

  lemma NonePresentCons(status: AdmitStatus, rest: seq<AdmitStatus>)
    ensures NonePresent([]) && (NonePresent([status] + rest) <==> status != AlreadyPresent && NonePresent(rest))
    ensures HitCount([status] + rest) == (if CountsAsHit(status) then 1 else 0) + HitCount(rest)
  {
    var all := [status] + rest;
    assert all[0] == status && all[1..] == rest;
    if NonePresent(all) {
      forall i | 0 <= i < |rest| ensures rest[i] != AlreadyPresent {
        assert all[i + 1] != AlreadyPresent;
      }
    }
  }

  /** There are as many hits as handles exactly when nothing was found present. */
  lemma {:induction false} ChainBackedIff(c: Cache, cands: seq<Candidate>, pol: Policies, clock: nat -> nat, step: nat,
                                          rs: seq<AdmitResult>)
    requires BaseInv(c) && IsChainRun(c, cands, pol, clock, step, rs)
    ensures
      var r := ChainOf(c, rs);
      |r.handles| <= HitCount(r.statuses) && (|r.handles| == HitCount(r.statuses) <==> NonePresent(r.statuses))
    decreases |cands|
  {
    hide BaseInv;
    hide Admits;
    hide NonePresent;
    hide PinnedAt;
    NonePresentCons(Admitted, []);
    if cands != [] {
      AdmitPins(c, cands[0], clock(step), pol, rs[0]);
      ChainBackedIff(rs[0].cache, cands[1..], pol, clock, step + 1, rs[1..]);
      NonePresentCons(rs[0].status, ChainOf(rs[0].cache, rs[1..]).statuses);
    }
  }

  /** The hits that a request reports are backed by handles, under any policy and any capacity and however its
      admissions turn out, if and only if no candidate was found present; in any state of the index. */
  lemma BackedByStatus(c: Cache, peers: map<NodeId, Cache>, dir: Directory, h: Hasher, req: Request, pol: Policies,
                       choose: ReplicaPolicy, now: nat, clock: nat -> nat, rs: seq<AdmitResult>, run: RunResult)
    requires BaseInv(c) && IsRequestRun(c, peers, dir, h, req, pol, choose, now, clock, rs, run)
    ensures run.route.localHits + run.route.remoteHits == |run.route.reusable| <==> NonePresent(run.statuses)
  {
    hide BaseInv;
    hide Resolve;
    hide Plan;
    hide IsChainRun;
    hide ChainOf;
    hide LookupPrefix;
    hide NonePresent;
    hide Later;
    LookupLater(c, req.ctx, req.tokens, now);
    var fetched := ResolveFor(c, peers, dir, h, req, choose, now).fetched;
    ChainBackedIff(LookupPrefix(c, req.ctx, req.tokens, now).cache, fetched, pol, clock, 0, rs);
  }
}
