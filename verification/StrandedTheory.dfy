/** Requests that fetch a block which is stored already, behind one that is missing: which handles they get,
    and exactly when these are on their own blocks and back all the hits. */
module StrandedTheory {
  import opened Types
  import opened PrefixMap
  import opened BlockLifecycle
  import opened CacheModel
  import opened CacheTheory
  import opened AdmitTheory
  import opened CacheOps
  import opened Coordinator
  import opened PipelineModel
  import opened PipelineTheory

  /** The pool and both tiers have room for k more blocks. */
  ghost predicate Room(c: Cache, k: nat) {
    && k <= |c.mgr.pool.freeList|
    && |c.tiers.gpu.ids| + k <= c.tiers.gpu.capacity
    && |c.tiers.host.ids| + k <= c.tiers.host.capacity
  }

  ghost predicate AdmitsEverything(pol: Policies) {
    forall ctx: AdmissionContext, f: CandidateFeatures :: pol.admit(ctx, f)
  }

  /** m' has all entries of m. */
  ghost predicate Kept(m: Entries, m': Entries) {
    forall k | k in m :: k in m' && m'[k] == m[k]
  }

  // ---------- one step ----------

  /** With room, a candidate that passes the checks is admitted, and only its own key is added. */
  lemma AdmitWithRoom(c: Cache, h: Hasher, cand: Candidate, now: nat, pol: Policies, k: nat)
    requires CacheInv(c, h) && PicksFromOffer(pol.evict) && Honest(c, cand, h) && Room(c, k + 1)
    requires c.bs > 0 && Refusal(c, cand, now, pol) == None
    ensures
      var r := Admit(c, cand, now, pol);
      && r.status == Admitted && r.handle.Some? && r.cache.bs == c.bs
      && r.cache.index == c.index[Key(cand.ctx, cand.tokens) := r.handle.value]
      && CacheInv(r.cache, h) && Room(r.cache, k)
  {
    hide Admit;
    hide Refusal;
    hide CacheInv;
    hide BaseInv;
    hide LostBlocks;
    hide Honest;
    hide PicksFromOffer;
    hide TierFor;
    InvBase(c, h);
    AdmitIsAtomic(c, cand, now, pol);
    AdmittedShape(c, cand, now, pol);
    AdmitKeepsInvIff(c, h, cand, now, pol);
    SurvivingIndex(c, cand, now, pol, NextId(c.mgr.pool));
    NextSlotFacts(c);
  }

  lemma LessRoom(c: Cache, k: nat)
    requires Room(c, k + 1)
    ensures Room(c, k)
  {
  }

  /** The next block of the request is stored already: it is found present, and nothing changes. */
  lemma NextPresent(c: Cache, h: Hasher, req: Request, ids: seq<BlockId>, cand: Candidate, now: nat, pol: Policies)
      returns (id: BlockId)
    requires c.bs > 0 && IsChain(c.index, c.bs, req.ctx, req.tokens, ids)
    requires IsRequestBlock(h, c.bs, req, |ids|, cand) && Stored(c.index, c.bs, req, |ids|)
    ensures Admit(c, cand, now, pol) == AdmitResult(c, AlreadyPresent, None)
    ensures Refusal(c, cand, now, pol) == Some(AlreadyPresent)
    ensures IsChain(c.index, c.bs, req.ctx, req.tokens, ids + [id])
  {
    hide Chain;
    RequestBlockTokens(h, c.bs, req, |ids|, cand);
    id := c.index[BlockKey(c.bs, req.ctx, req.tokens, |ids| + 1)];
    var all := ids + [id];
    assert IsChain(c.index, c.bs, req.ctx, req.tokens, all);
    ChainOnPrefix(c.index, c.bs, req.ctx, req.tokens, |all|, all);
  }

  /** After the next block has been added, the blocks of the request after it are stored or not as before. */
  lemma ChainGrows(m: Entries, bs: nat, req: Request, ids: seq<BlockId>, id: BlockId)
    requires bs > 0 && IsChain(m, bs, req.ctx, req.tokens, ids) && Fits(bs, req.tokens, |ids| + 1)
    requires !Stored(m, bs, req, |ids|)
    ensures
      var m' := m[BlockKey(bs, req.ctx, req.tokens, |ids| + 1) := id];
      && IsChain(m', bs, req.ctx, req.tokens, ids + [id]) && Kept(m, m')
      && forall i: nat | i > |ids| :: Stored(m', bs, req, i) <==> Stored(m, bs, req, i)
  {
    var n := |ids| + 1;
    var m' := m[BlockKey(bs, req.ctx, req.tokens, n) := id];
    forall i: nat | i > |ids| ensures Stored(m', bs, req, i) <==> Stored(m, bs, req, i) {
      if Fits(bs, req.tokens, i + 1) {
        BlockKeyLength(bs, req.ctx, req.tokens, n, i + 1);
      }
    }
    forall j | 1 <= j < n ensures BlockKey(bs, req.ctx, req.tokens, j) != BlockKey(bs, req.ctx, req.tokens, n) {
      BlockKeyLength(bs, req.ctx, req.tokens, j, n);
    }
  }

  // ---------- which blocks are missing ----------

  /** The blocks of the request that are not stored, out of n from `first` on. */
  ghost function NotStored(m: Entries, bs: nat, req: Request, first: nat, n: nat): seq<nat>
    decreases n
  {
    if n == 0 then []
    else (if Stored(m, bs, req, first) then [] else [first]) + NotStored(m, bs, req, first + 1, n - 1)
  }

  /** Among them no stored block comes before one that is not stored. */
  ghost predicate StoredLast(m: Entries, bs: nat, req: Request, first: nat, n: nat) {
    forall i, j | first <= i < j < first + n && Stored(m, bs, req, i) :: Stored(m, bs, req, j)
  }

  ghost predicate Consecutive(s: seq<nat>, first: nat) {
    forall j | 0 <= j < |s| :: s[j] == first + j
  }

  lemma {:induction false} NotStoredBounds(m: Entries, bs: nat, req: Request, first: nat, n: nat)
    ensures |NotStored(m, bs, req, first, n)| <= n
    ensures |NotStored(m, bs, req, first, n)| == n <==> NoneStored(m, bs, req, first, n)
    ensures forall j | 0 <= j < |NotStored(m, bs, req, first, n)| ::
      first <= NotStored(m, bs, req, first, n)[j] < first + n && !Stored(m, bs, req, NotStored(m, bs, req, first, n)[j])
    decreases n
  {
    hide Stored;
    if n > 0 {
      NotStoredBounds(m, bs, req, first + 1, n - 1);
    }
  }

  lemma {:induction false} NotStoredSame(m: Entries, m': Entries, bs: nat, req: Request, first: nat, n: nat)
    requires forall i: nat | i >= first :: Stored(m', bs, req, i) <==> Stored(m, bs, req, i)
    ensures NotStored(m', bs, req, first, n) == NotStored(m, bs, req, first, n)
    decreases n
  {
    hide Stored;
    if n > 0 {
      NotStoredSame(m, m', bs, req, first + 1, n - 1);
    }
  }

  /** The missing blocks come one after the other exactly when no stored block comes before one of them. */
  lemma {:induction false} ConsecutiveIff(m: Entries, bs: nat, req: Request, first: nat, n: nat)
    ensures Consecutive(NotStored(m, bs, req, first, n), first) <==> StoredLast(m, bs, req, first, n)
    decreases n
  {
    hide Stored;
    hide StoredLast;
    hide Consecutive;
    if n == 0 {
      NothingToStore(m, bs, req, first);
    } else {
      var rest := NotStored(m, bs, req, first + 1, n - 1);
      if Stored(m, bs, req, first) {
        assert NotStored(m, bs, req, first, n) == rest;
        FirstStored(m, bs, req, first, n);
      } else {
        ConsecutiveIff(m, bs, req, first + 1, n - 1);
        ConsecutivePush(rest, first);
        FirstMissing(m, bs, req, first, n);
      }
    }
  }

  lemma NothingToStore(m: Entries, bs: nat, req: Request, first: nat)
    ensures Consecutive([], first) && StoredLast(m, bs, req, first, 0)
  {
  }

  lemma FirstMissing(m: Entries, bs: nat, req: Request, first: nat, n: nat)
    requires n > 0 && !Stored(m, bs, req, first)
    ensures StoredLast(m, bs, req, first, n) <==> StoredLast(m, bs, req, first + 1, n - 1)
  {
    hide Stored;
  }

  lemma FirstStored(m: Entries, bs: nat, req: Request, first: nat, n: nat)
    requires n > 0 && Stored(m, bs, req, first)
    ensures StoredLast(m, bs, req, first, n) <==> Consecutive(NotStored(m, bs, req, first + 1, n - 1), first)
  {
    hide Stored;
    var rest := NotStored(m, bs, req, first + 1, n - 1);
    NoneMissing(m, bs, req, first + 1, n - 1);
    NotStoredBounds(m, bs, req, first + 1, n - 1);
    hide NotStored;
    if rest != [] {
      assert rest[0] > first && !Stored(m, bs, req, rest[0]);
    } else {
      assert forall j | first < j < first + n :: Stored(m, bs, req, j);
    }
  }

  lemma ConsecutivePush(rest: seq<nat>, first: nat)
    ensures Consecutive([first] + rest, first) <==> Consecutive(rest, first + 1)
  {
    var all := [first] + rest;
    if Consecutive(all, first) {
      forall j | 0 <= j < |rest| ensures rest[j] == first + 1 + j {
        assert all[j + 1] == first + (j + 1);
      }
    }
    if Consecutive(rest, first + 1) {
      forall j | 0 <= j < |all| ensures all[j] == first + j {
        if j > 0 {
          assert rest[j - 1] == first + 1 + (j - 1);
        }
      }
    }
  }

  lemma {:induction false} NoneMissing(m: Entries, bs: nat, req: Request, first: nat, n: nat)
    ensures NotStored(m, bs, req, first, n) == [] <==> forall i | first <= i < first + n :: Stored(m, bs, req, i)
    decreases n
  {
    hide Stored;
    if n > 0 {
      NoneMissing(m, bs, req, first + 1, n - 1);
    }
  }

  // ---------- chain admission with room ----------

  /** What a fetched block comes to: a hit without a handle if it was stored, admitted otherwise. */
  ghost function StatusFor(m: Entries, bs: nat, req: Request, i: nat): AdmitStatus {
    if Stored(m, bs, req, i) then AlreadyPresent else Admitted
  }

  /** The first p blocks came to that, and the rest was refused. */
  ghost predicate HitsUntil(m: Entries, bs: nat, req: Request, first: nat, statuses: seq<AdmitStatus>, p: nat) {
    && p <= |statuses|
    && (forall i | 0 <= i < p :: statuses[i] == StatusFor(m, bs, req, first + i))
    && (forall i | p <= i < |statuses| :: !CountsAsHit(statuses[i]))
  }

  /** Handle j is on the block that is stored for block which[j] of the request. */
  ghost predicate HandlesFor(m: Entries, bs: nat, req: Request, which: seq<nat>, handles: seq<BlockId>) {
    && |handles| == |which|
    && forall j | 0 <= j < |handles| :: EntryFor(m, bs, req, which[j], handles[j])
  }

  ghost predicate EntryFor(m: Entries, bs: nat, req: Request, i: nat, id: BlockId) {
    Stored(m, bs, req, i) && m[BlockKey(bs, req.ctx, req.tokens, i + 1)] == id
  }

  /** How chain admission went, with room: the first p blocks were hits, with handles for those of them that
      were not stored before, and nothing left the index. */
  ghost predicate WentTo(c: Cache, h: Hasher, req: Request, first: nat, r: ChainResult, p: nat) {
    && CacheInv(r.cache, h) && r.cache.bs == c.bs && Kept(c.index, r.cache.index)
    && HitsUntil(c.index, c.bs, req, first, r.statuses, p)
    && HandlesFor(r.cache.index, c.bs, req, NotStored(c.index, c.bs, req, first, p), r.handles)
  }

  lemma WentFacts(c: Cache, h: Hasher, req: Request, first: nat, r: ChainResult, p: nat)
    requires WentTo(c, h, req, first, r, p)
    ensures CacheInv(r.cache, h) && r.cache.bs == c.bs && Kept(c.index, r.cache.index)
    ensures HitsUntil(c.index, c.bs, req, first, r.statuses, p)
    ensures HandlesFor(r.cache.index, c.bs, req, NotStored(c.index, c.bs, req, first, p), r.handles)
    ensures |r.handles| == |NotStored(c.index, c.bs, req, first, p)|
  {
  }

  lemma WentNowhere(c: Cache, h: Hasher, req: Request, first: nat, statuses: seq<AdmitStatus>)
    requires CacheInv(c, h) && forall i | 0 <= i < |statuses| :: !CountsAsHit(statuses[i])
    ensures WentTo(c, h, req, first, ChainResult(c, [], statuses), 0)
  {
    hide CacheInv;
  }

  lemma HitsPush(m: Entries, bs: nat, req: Request, first: nat, status: AdmitStatus, rest: seq<AdmitStatus>, p: nat)
    requires status == StatusFor(m, bs, req, first) && HitsUntil(m, bs, req, first + 1, rest, p)
    ensures HitsUntil(m, bs, req, first, [status] + rest, p + 1)
  {
    hide StatusFor;
    var all := [status] + rest;
    forall i | 0 <= i < p + 1 ensures all[i] == StatusFor(m, bs, req, first + i) {
      if i > 0 {
        assert rest[i - 1] == StatusFor(m, bs, req, first + 1 + (i - 1));
      }
    }
    forall i | p + 1 <= i < |all| ensures !CountsAsHit(all[i]) {
      assert all[i] == rest[i - 1];
    }
  }

  /** A block that is stored: the walk goes on in the same cache. */
  lemma WentPresent(c: Cache, h: Hasher, req: Request, first: nat, cands: seq<Candidate>, pol: Policies,
                    clock: nat -> nat, step: nat, p: nat)
    requires cands != [] && c.bs > 0 && Admit(c, cands[0], clock(step), pol) == AdmitResult(c, AlreadyPresent, None)
    requires WentTo(c, h, req, first + 1, AdmitAll(c, cands[1..], pol, clock, step + 1), p)
    requires Stored(c.index, c.bs, req, first)
    ensures WentTo(c, h, req, first, AdmitAll(c, cands, pol, clock, step), p + 1)
  {
    hide CacheInv;
    hide Stored;
    hide HitsUntil;
    hide HandlesFor;
    hide AdmitAll;
    hide Admit;
    AdmitAllCons(c, cands, pol, clock, step);
    var r := AdmitAll(c, cands[1..], pol, clock, step + 1);
    HitsPush(c.index, c.bs, req, first, AlreadyPresent, r.statuses, p);
    assert [] + r.handles == r.handles;
    assert NotStored(c.index, c.bs, req, first, p + 1) == NotStored(c.index, c.bs, req, first + 1, p);
  }

  /** A block that is missing and gets admitted: the walk goes on in the cache that has it. */
  lemma WentAdmitted(c: Cache, h: Hasher, req: Request, first: nat, cands: seq<Candidate>, pol: Policies,
                     clock: nat -> nat, step: nat, p: nat)
    requires cands != [] && c.bs > 0 && GrewBy(c, req, first, Admit(c, cands[0], clock(step), pol))
    requires
      var c1 := Admit(c, cands[0], clock(step), pol).cache;
      WentTo(c1, h, req, first + 1, AdmitAll(c1, cands[1..], pol, clock, step + 1), p)
    ensures WentTo(c, h, req, first, AdmitAll(c, cands, pol, clock, step), p + 1)
  {
    hide CacheInv;
    hide AdmitAll;
    hide Admit;
    hide NotStored;
    AdmitAllCons(c, cands, pol, clock, step);
    var c1, id := Admit(c, cands[0], clock(step), pol).cache, Admit(c, cands[0], clock(step), pol).handle.value;
    var r := AdmitAll(c1, cands[1..], pol, clock, step + 1);
    var m, m1, m2 := c.index, c1.index, r.cache.index;
    assert EntryFor(m2, c.bs, req, first, id);
    hide Stored;
    hide EntryFor;
    NotStoredSame(m, m1, c.bs, req, first + 1, p);
    assert HitsUntil(m, c.bs, req, first + 1, r.statuses, p) by {
      forall i | 0 <= i < p ensures r.statuses[i] == StatusFor(m, c.bs, req, first + 1 + i) {
        assert r.statuses[i] == StatusFor(m1, c.bs, req, first + 1 + i);
      }
    }
    HitsPush(m, c.bs, req, first, Admitted, r.statuses, p);
    HandlesForPush(m2, c.bs, req, first, id, NotStored(m, c.bs, req, first + 1, p), r.handles);
    NotStoredPush(m, c.bs, req, first, p);
  }

  lemma NotStoredPush(m: Entries, bs: nat, req: Request, first: nat, p: nat)
    requires !Stored(m, bs, req, first)
    ensures NotStored(m, bs, req, first, p + 1) == [first] + NotStored(m, bs, req, first + 1, p)
  {
    hide Stored;
  }

  /** An admission that added block i of the request, and nothing else, to the index. */
  ghost predicate GrewBy(c: Cache, req: Request, i: nat, r: AdmitResult) {
    && r.status == Admitted && r.handle.Some? && r.cache.bs == c.bs
    && Fits(c.bs, req.tokens, i + 1) && !Stored(c.index, c.bs, req, i)
    && r.cache.index == c.index[BlockKey(c.bs, req.ctx, req.tokens, i + 1) := r.handle.value]
    && Kept(c.index, r.cache.index)
    && forall j: nat | j > i :: Stored(r.cache.index, c.bs, req, j) <==> Stored(c.index, c.bs, req, j)
  }

  lemma HandlesForPush(m: Entries, bs: nat, req: Request, i: nat, id: BlockId, which: seq<nat>, handles: seq<BlockId>)
    requires EntryFor(m, bs, req, i, id) && HandlesFor(m, bs, req, which, handles)
    ensures HandlesFor(m, bs, req, [i] + which, [id] + handles)
  {
    hide EntryFor;
  }

  /** How many of the candidates come before the first whose block is missing and that the policy rejects at the
      time of its turn. */
  ghost function Reach(m: Entries, bs: nat, req: Request, first: nat, cands: seq<Candidate>, pol: Policies,
                       clock: nat -> nat, step: nat): (p: nat)
    ensures p <= |cands|
    decreases |cands|
  {
    if cands == [] || (!Stored(m, bs, req, first) && !AcceptedBy(pol, cands[0], bs, clock(step))) then 0
    else 1 + Reach(m, bs, req, first + 1, cands[1..], pol, clock, step + 1)
  }

  ghost predicate Passes(m: Entries, bs: nat, req: Request, first: nat, cands: seq<Candidate>, pol: Policies,
                         clock: nat -> nat, step: nat, i: nat)
    requires i < |cands|
  {
    Stored(m, bs, req, first + i) || AcceptedBy(pol, cands[i], bs, clock(step + i))
  }

  /** That is exactly the number p for which all before it pass and the candidate at p, if there is one, does
      not. */
  lemma {:induction false} ReachIs(m: Entries, bs: nat, req: Request, first: nat, cands: seq<Candidate>, pol: Policies,
                                   clock: nat -> nat, step: nat)
    ensures
      var p := Reach(m, bs, req, first, cands, pol, clock, step);
      && (forall i | 0 <= i < p :: Passes(m, bs, req, first, cands, pol, clock, step, i))
      && (p < |cands| ==> !Passes(m, bs, req, first, cands, pol, clock, step, p))
    decreases |cands|
  {
    hide Stored;
    hide AcceptedBy;
    if cands != [] {
      var rest, p := cands[1..], Reach(m, bs, req, first, cands, pol, clock, step);
      ReachIs(m, bs, req, first + 1, rest, pol, clock, step + 1);
      forall i | 0 <= i < p ensures Passes(m, bs, req, first, cands, pol, clock, step, i) {
        if i > 0 {
          assert Passes(m, bs, req, first + 1, rest, pol, clock, step + 1, i - 1);
        }
      }
      if 0 < p < |cands| {
        assert !Passes(m, bs, req, first + 1, rest, pol, clock, step + 1, p - 1);
      }
    }
  }

  lemma {:induction false} ReachSame(m: Entries, m': Entries, bs: nat, req: Request, first: nat, cands: seq<Candidate>,
                                     pol: Policies, clock: nat -> nat, step: nat)
    requires forall i: nat | i >= first :: Stored(m', bs, req, i) <==> Stored(m, bs, req, i)
    ensures Reach(m', bs, req, first, cands, pol, clock, step) == Reach(m, bs, req, first, cands, pol, clock, step)
    decreases |cands|
  {
    hide Stored;
    hide AcceptedBy;
    if cands != [] {
      ReachSame(m, m', bs, req, first + 1, cands[1..], pol, clock, step + 1);
    }
  }

  lemma {:induction false} ReachAll(m: Entries, bs: nat, req: Request, first: nat, cands: seq<Candidate>, pol: Policies,
                                    clock: nat -> nat, step: nat)
    requires AdmitsEverything(pol)
    ensures Reach(m, bs, req, first, cands, pol, clock, step) == |cands|
    decreases |cands|
  {
    hide Stored;
    if cands != [] {
      ReachAll(m, bs, req, first + 1, cands[1..], pol, clock, step + 1);
    }
  }

  lemma NothingToReach(c: Cache, req: Request, first: nat, pol: Policies, clock: nat -> nat, step: nat)
    requires Injective(c.index)
    ensures Reach(c.index, c.bs, req, first, [], pol, clock, step) == 0 && UsableAlong(c, [], pol, clock, step)
  {
    hide Injective;
  }

  lemma ReachCons(m: Entries, bs: nat, req: Request, first: nat, cands: seq<Candidate>, pol: Policies,
                  clock: nat -> nat, step: nat)
    requires cands != []
    ensures Reach(m, bs, req, first, cands, pol, clock, step)
      == if Stored(m, bs, req, first) || AcceptedBy(pol, cands[0], bs, clock(step))
         then 1 + Reach(m, bs, req, first + 1, cands[1..], pol, clock, step + 1) else 0
  {
    hide Stored;
    hide AcceptedBy;
  }

  lemma UsableCons(c: Cache, cands: seq<Candidate>, pol: Policies, clock: nat -> nat, step: nat)
    requires c.bs > 0 && Injective(c.index) && cands != []
    requires UsableAlong(Admit(c, cands[0], clock(step), pol).cache, cands[1..], pol, clock, step + 1)
    ensures UsableAlong(c, cands, pol, clock, step)
  {
    hide Injective;
    hide Admit;
  }

  lemma GrewReach(c: Cache, req: Request, i: nat, r: AdmitResult, cands: seq<Candidate>, pol: Policies,
                  clock: nat -> nat, step: nat)
    requires GrewBy(c, req, i, r)
    ensures Reach(r.cache.index, c.bs, req, i + 1, cands, pol, clock, step)
      == Reach(c.index, c.bs, req, i + 1, cands, pol, clock, step)
  {
    hide Stored;
    ReachSame(c.index, r.cache.index, c.bs, req, i + 1, cands, pol, clock, step);
  }

  /** Refusals leave the cache as it is. */
  lemma {:induction false} RefusedUsable(c: Cache, h: Hasher, req: Request, ids: seq<BlockId>, first: nat,
                                         cands: seq<Candidate>, pol: Policies, clock: nat -> nat, step: nat)
    requires c.bs > 0 && Injective(c.index)
    requires IsChain(c.index, c.bs, req.ctx, req.tokens, ids) && !Stored(c.index, c.bs, req, |ids|)
    requires |ids| < first && RequestBlocksFrom(h, c.bs, req, first, cands)
    ensures UsableAlong(c, cands, pol, clock, step)
    decreases |cands|
  {
    hide IsChain;
    hide Stored;
    hide RequestBlocksFrom;
    hide Admit;
    hide IsRequestBlock;
    hide Injective;
    if cands != [] {
      RequestBlocksTail(h, c.bs, req, first, cands);
      AfterGap(c, h, req, ids, first, cands[0], clock(step), pol);
      RefusedUsable(c, h, req, ids, first + 1, cands[1..], pol, clock, step + 1);
    }
  }

  lemma RejectedUsable(c: Cache, h: Hasher, req: Request, ids: seq<BlockId>, cands: seq<Candidate>, pol: Policies,
                       clock: nat -> nat, step: nat)
    requires c.bs > 0 && Injective(c.index) && cands != []
    requires IsChain(c.index, c.bs, req.ctx, req.tokens, ids) && RequestBlocksFrom(h, c.bs, req, |ids|, cands)
    requires !Stored(c.index, c.bs, req, |ids|) && Refusal(c, cands[0], clock(step), pol) == Some(Rejected)
    ensures UsableAlong(c, cands, pol, clock, step)
  {
    hide IsChain;
    hide RequestBlocksFrom;
    hide Admit;
    hide Stored;
    hide Refusal;
    hide Injective;
    hide IsRequestBlock;
    RequestBlocksTail(h, c.bs, req, |ids|, cands);
    RefusedUnfold(c, cands[0], clock(step), pol);
    RefusedUsable(c, h, req, ids, |ids| + 1, cands[1..], pol, clock, step + 1);
  }

  /** A block that is missing and rejected: so is everything after it. */
  lemma WentRejected(c: Cache, h: Hasher, req: Request, ids: seq<BlockId>, cands: seq<Candidate>, pol: Policies,
                     clock: nat -> nat, step: nat)
    requires CacheInv(c, h) && c.bs > 0 && cands != []
    requires IsChain(c.index, c.bs, req.ctx, req.tokens, ids) && RequestBlocksFrom(h, c.bs, req, |ids|, cands)
    requires !Stored(c.index, c.bs, req, |ids|) && Refusal(c, cands[0], clock(step), pol) == Some(Rejected)
    ensures WentTo(c, h, req, |ids|, AdmitAll(c, cands, pol, clock, step), 0)
  {
    hide CacheInv;
    hide IsChain;
    hide RequestBlocksFrom;
    hide Admit;
    hide Stored;
    hide Refusal;
    hide AdmitAll;
    hide WentTo;
    hide PinnedAtEveryCall;
    hide AllPinned;
    RequestBlocksTail(h, c.bs, req, |ids|, cands);
    RefusedUnfold(c, cands[0], clock(step), pol);
    RestRefused(c, h, req, ids, |ids| + 1, cands[1..], pol, clock, step + 1);
    FirstRefused(c, cands, pol, clock, step);
    WentNowhere(c, h, req, |ids|, AdmitAll(c, cands, pol, clock, step).statuses);
  }

  /** The outcome of a chain that went as far as it could. */
  ghost predicate WentFar(c: Cache, h: Hasher, req: Request, first: nat, cands: seq<Candidate>, pol: Policies,
                          clock: nat -> nat, step: nat) {
    && WentTo(c, h, req, first, AdmitAll(c, cands, pol, clock, step),
              Reach(c.index, c.bs, req, first, cands, pol, clock, step))
    && UsableAlong(c, cands, pol, clock, step)
  }

  lemma FarNowhere(c: Cache, h: Hasher, req: Request, first: nat, pol: Policies, clock: nat -> nat, step: nat)
    requires CacheInv(c, h) && Injective(c.index)
    ensures WentFar(c, h, req, first, [], pol, clock, step)
  {
    hide CacheInv;
    hide Injective;
    hide WentTo;
    hide AdmitAll;
    NothingToReach(c, req, first, pol, clock, step);
    AdmitAllCons(c, [], pol, clock, step);
    WentNowhere(c, h, req, first, []);
  }

  lemma FarPresent(c: Cache, h: Hasher, req: Request, first: nat, cands: seq<Candidate>, pol: Policies,
                   clock: nat -> nat, step: nat)
    requires cands != [] && c.bs > 0 && Injective(c.index)
    requires Admit(c, cands[0], clock(step), pol) == AdmitResult(c, AlreadyPresent, None)
    requires Stored(c.index, c.bs, req, first)
    requires WentFar(c, h, req, first + 1, cands[1..], pol, clock, step + 1)
    ensures WentFar(c, h, req, first, cands, pol, clock, step)
  {
    hide Injective;
    hide WentTo;
    hide Admit;
    hide AdmitAll;
    hide Stored;
    hide AcceptedBy;
    hide Reach;
    hide UsableAlong;
    ReachCons(c.index, c.bs, req, first, cands, pol, clock, step);
    UsableCons(c, cands, pol, clock, step);
    WentPresent(c, h, req, first, cands, pol, clock, step,
                Reach(c.index, c.bs, req, first + 1, cands[1..], pol, clock, step + 1));
  }

  lemma FarAdmitted(c: Cache, h: Hasher, req: Request, first: nat, cands: seq<Candidate>, pol: Policies,
                    clock: nat -> nat, step: nat)
    requires cands != [] && c.bs > 0 && Injective(c.index) && AcceptedBy(pol, cands[0], c.bs, clock(step))
    requires GrewBy(c, req, first, Admit(c, cands[0], clock(step), pol))
    requires
      var c1 := Admit(c, cands[0], clock(step), pol).cache;
      c1.bs == c.bs && WentFar(c1, h, req, first + 1, cands[1..], pol, clock, step + 1)
    ensures WentFar(c, h, req, first, cands, pol, clock, step)
  {
    hide Injective;
    hide WentTo;
    hide Admit;
    hide AdmitAll;
    hide GrewBy;
    hide Stored;
    hide AcceptedBy;
    hide Reach;
    hide UsableAlong;
    ReachCons(c.index, c.bs, req, first, cands, pol, clock, step);
    UsableCons(c, cands, pol, clock, step);
    GrewReach(c, req, first, Admit(c, cands[0], clock(step), pol), cands[1..], pol, clock, step + 1);
    WentAdmitted(c, h, req, first, cands, pol, clock, step,
                 Reach(c.index, c.bs, req, first + 1, cands[1..], pol, clock, step + 1));
  }

  lemma FarRejected(c: Cache, h: Hasher, req: Request, ids: seq<BlockId>, cands: seq<Candidate>, pol: Policies,
                    clock: nat -> nat, step: nat)
    requires CacheInv(c, h) && c.bs > 0 && Injective(c.index) && cands != []
    requires IsChain(c.index, c.bs, req.ctx, req.tokens, ids) && RequestBlocksFrom(h, c.bs, req, |ids|, cands)
    requires !Stored(c.index, c.bs, req, |ids|) && !AcceptedBy(pol, cands[0], c.bs, clock(step))
    requires Refusal(c, cands[0], clock(step), pol) == Some(Rejected)
    ensures WentFar(c, h, req, |ids|, cands, pol, clock, step)
  {
    hide CacheInv;
    hide Injective;
    hide IsChain;
    hide RequestBlocksFrom;
    hide Refusal;
    hide WentTo;
    hide AdmitAll;
    hide Stored;
    hide AcceptedBy;
    hide Reach;
    hide UsableAlong;
    ReachCons(c.index, c.bs, req, |ids|, cands, pol, clock, step);
    WentRejected(c, h, req, ids, cands, pol, clock, step);
    RejectedUsable(c, h, req, ids, cands, pol, clock, step);
  }

  lemma {:induction false} ChainWentFar(c: Cache, h: Hasher, req: Request, ids: seq<BlockId>, cands: seq<Candidate>,
                                        pol: Policies, clock: nat -> nat, step: nat)
    requires CacheInv(c, h) && PicksFromOffer(pol.evict) && Room(c, |cands|)
    requires IsChain(c.index, c.bs, req.ctx, req.tokens, ids) && RequestBlocksFrom(h, c.bs, req, |ids|, cands)
    ensures WentFar(c, h, req, |ids|, cands, pol, clock, step)
    decreases |cands|
  {
    hide CacheInv;
    hide IsChain;
    hide RequestBlocksFrom;
    hide Admit;
    hide PicksFromOffer;
    hide Room;
    hide WentFar;
    hide Stored;
    hide BlockKey;
    hide Refusal;
    hide Ancestors;
    hide IsRequestBlock;
    hide GrewBy;
    hide NoneStored;
    hide AcceptedBy;
    hide Injective;
    InvBase(c, h);
    InvInjective(c, h);
    if cands == [] {
      FarNowhere(c, h, req, |ids|, pol, clock, step);
    } else {
      var now, rest := clock(step), cands[1..];
      RequestBlocksTail(h, c.bs, req, |ids|, cands);
      LessRoom(c, |rest|);
      if Stored(c.index, c.bs, req, |ids|) {
        var id := NextPresent(c, h, req, ids, cands[0], now, pol);
        ChainWentFar(c, h, req, ids + [id], rest, pol, clock, step + 1);
        FarPresent(c, h, req, |ids|, cands, pol, clock, step);
      } else {
        NextChecks(c, h, req, ids, cands[0], now, pol);
        if AcceptedBy(pol, cands[0], c.bs, now) {
          AdmitNext(c, h, req, ids, cands[0], now, pol, |rest|);
          var r := Admit(c, cands[0], now, pol);
          ChainWentFar(r.cache, h, req, ids + [r.handle.value], rest, pol, clock, step + 1);
          FarAdmitted(c, h, req, |ids|, cands, pol, clock, step);
        } else {
          FarRejected(c, h, req, ids, cands, pol, clock, step);
        }
      }
    }
  }

  /** With room, whatever the policy: the fetched blocks are hits up to the first that is missing and that the
      policy rejects, and everything from there on is refused; a hit on a block that was stored comes without
      a handle, and nothing is evicted. */
  lemma ChainWithRoom(c: Cache, h: Hasher, req: Request, ids: seq<BlockId>, cands: seq<Candidate>,
                      pol: Policies, clock: nat -> nat, step: nat)
    requires CacheInv(c, h) && PicksFromOffer(pol.evict) && Room(c, |cands|)
    requires IsChain(c.index, c.bs, req.ctx, req.tokens, ids) && RequestBlocksFrom(h, c.bs, req, |ids|, cands)
    ensures
      WentTo(c, h, req, |ids|, AdmitAll(c, cands, pol, clock, step),
             Reach(c.index, c.bs, req, |ids|, cands, pol, clock, step))
    ensures UsableAlong(c, cands, pol, clock, step)
  {
    hide CacheInv;
    hide PicksFromOffer;
    hide Room;
    hide IsChain;
    hide RequestBlocksFrom;
    hide WentTo;
    hide AdmitAll;
    hide Reach;
    hide UsableAlong;
    ChainWentFar(c, h, req, ids, cands, pol, clock, step);
  }

  lemma {:induction false} StatusPerCandidate(c: Cache, cands: seq<Candidate>, pol: Policies, clock: nat -> nat,
                                              step: nat)
    requires BaseInv(c) && PicksFromOffer(pol.evict)
    ensures |AdmitAll(c, cands, pol, clock, step).statuses| == |cands|
    decreases |cands|
  {
    hide BaseInv;
    hide Admit;
    hide PicksFromOffer;
    BlockSizePositive(c);
    if cands != [] {
      AdmitIsAdmits(c, cands[0], clock(step), pol);
      AdmitKeepsBase(c, cands[0], clock(step), pol, Admit(c, cands[0], clock(step), pol));
      StatusPerCandidate(Admit(c, cands[0], clock(step), pol).cache, cands[1..], pol, clock, step + 1);
    }
  }

  lemma RefusedUnfold(c: Cache, cand: Candidate, now: nat, pol: Policies)
    requires c.bs > 0 && Refusal(c, cand, now, pol) == Some(Rejected)
    ensures Admit(c, cand, now, pol) == AdmitResult(c, Rejected, None)
  {
    hide Refusal;
  }

  lemma AdmitNext(c: Cache, h: Hasher, req: Request, ids: seq<BlockId>, cand: Candidate, now: nat, pol: Policies,
                  k: nat)
    requires CacheInv(c, h) && PicksFromOffer(pol.evict) && Room(c, k + 1) && c.bs > 0
    requires IsChain(c.index, c.bs, req.ctx, req.tokens, ids) && IsRequestBlock(h, c.bs, req, |ids|, cand)
    requires Refusal(c, cand, now, pol) == None && !Stored(c.index, c.bs, req, |ids|)
    ensures
      var r := Admit(c, cand, now, pol);
      && GrewBy(c, req, |ids|, r) && CacheInv(r.cache, h) && Room(r.cache, k) && r.handle.Some? && r.cache.bs == c.bs
      && IsChain(r.cache.index, c.bs, req.ctx, req.tokens, ids + [r.handle.value])
  {
    hide CacheInv;
    hide IsChain;
    hide Admit;
    hide PicksFromOffer;
    hide Room;
    hide Stored;
    hide Honest;
    hide Refusal;
    hide IsRequestBlock;
    RequestBlockHonest(c, h, req, |ids|, cand);
    RequestBlockKey(h, c.bs, req, |ids|, cand);
    AdmitWithRoom(c, h, cand, now, pol, k);
    ChainGrows(c.index, c.bs, req, ids, Admit(c, cand, now, pol).handle.value);
  }

  // ---------- the request ----------

  /** The blocks of a request that its chain admission went to: its own blocks, as far as they are stored. */
  lemma StoredIsBlock(c: Cache, h: Hasher, req: Request, i: nat, id: BlockId)
    requires CacheInv(c, h) && EntryFor(c.index, c.bs, req, i, id)
    ensures IsBlockOf(c.mgr.recs, c.bs, h, req.ctx, req.tokens, id, i)
  {
    hide BlockKey;
    hide Fits;
    hide CacheInv;
    var k := BlockKey(c.bs, req.ctx, req.tokens, i + 1);
    StoredEntry(c, h, k);
    KeyTail(c.bs, req.ctx, req.tokens, i);
    SameMultiple(c.mgr.recs[id].blockIndex + 1, i + 1, c.bs);
  }

  /** The handles of a request: first those of the local hits, then those of the blocks that were missing. */
  lemma RouteHandles(c: Cache, c': Cache, h: Hasher, req: Request, local: seq<BlockId>, which: seq<nat>,
                     admitted: seq<BlockId>)
    requires CacheInv(c', h) && c'.bs == c.bs && Kept(c.index, c'.index)
    requires IsChain(c.index, c.bs, req.ctx, req.tokens, local)
    requires HandlesFor(c'.index, c.bs, req, which, admitted)
    ensures forall i | 0 <= i < |local| :: IsBlockOf(c'.mgr.recs, c.bs, h, req.ctx, req.tokens, local[i], i)
    ensures forall j | 0 <= j < |admitted| ::
      IsBlockOf(c'.mgr.recs, c.bs, h, req.ctx, req.tokens, admitted[j], which[j])
  {
    hide CacheInv;
    hide IsBlockOf;
    forall i | 0 <= i < |local| ensures IsBlockOf(c'.mgr.recs, c.bs, h, req.ctx, req.tokens, local[i], i) {
      FitsMono(c.bs, req.tokens, i + 1, |local|);
      assert BlockKey(c.bs, req.ctx, req.tokens, i + 1) in c.index;
      StoredIsBlock(c', h, req, i, local[i]);
    }
    forall j | 0 <= j < |admitted|
      ensures IsBlockOf(c'.mgr.recs, c.bs, h, req.ctx, req.tokens, admitted[j], which[j])
    {
      assert EntryFor(c'.index, c.bs, req, which[j], admitted[j]);
      StoredIsBlock(c', h, req, which[j], admitted[j]);
    }
  }

  /** So each is on its own block exactly when the missing blocks come one after the other. */
  lemma OwnBlocksIff(c': Cache, h: Hasher, req: Request, local: seq<BlockId>, which: seq<nat>, admitted: seq<BlockId>)
    requires |which| == |admitted|
    requires forall i | 0 <= i < |local| :: IsBlockOf(c'.mgr.recs, c'.bs, h, req.ctx, req.tokens, local[i], i)
    requires forall j | 0 <= j < |admitted| ::
      IsBlockOf(c'.mgr.recs, c'.bs, h, req.ctx, req.tokens, admitted[j], which[j])
    ensures OnOwnBlocks(c', h, req, local + admitted) <==> Consecutive(which, |local|)
  {
    var all := local + admitted;
    if OnOwnBlocks(c', h, req, all) {
      forall j | 0 <= j < |which| ensures which[j] == |local| + j {
        assert all[|local| + j] == admitted[j];
        assert IsBlockOf(c'.mgr.recs, c'.bs, h, req.ctx, req.tokens, all[|local| + j], |local| + j);
      }
    }
    if Consecutive(which, |local|) {
      forall i | 0 <= i < |all| ensures IsBlockOf(c'.mgr.recs, c'.bs, h, req.ctx, req.tokens, all[i], i) {
        if i >= |local| {
          assert all[i] == admitted[i - |local|] && which[i - |local|] == i;
        }
      }
    }
  }

  lemma RoomAfterCounts(c: Cache, c': Cache, k: nat)
    requires Room(c, k) && c' == c.(mgr := c.mgr.(recs := c'.mgr.recs))
    ensures Room(c', k)
  {
  }

  /** Of the fetched blocks, how many come before the first that is missing and that the policy rejects. */
  ghost function ReachOf(c: Cache, local: seq<BlockId>, req: Request, fetched: seq<Candidate>, pol: Policies,
                         clock: nat -> nat): nat
  {
    Reach(c.index, c.bs, req, |local|, fetched, pol, clock, 0)
  }

  /** The handles behind the local ones are on the first p blocks that were missing, so each is on its own block
      exactly when these come one after the other. */
  ghost predicate RouteOnMissing(m: Entries, bs: nat, c': Cache, h: Hasher, req: Request, local: seq<BlockId>, p: nat,
                                 all: seq<BlockId>) {
    var which := NotStored(m, bs, req, |local|, p);
    && |all| == |local| + |which|
    && (OnOwnBlocks(c', h, req, all) <==> Consecutive(which, |local|))
    && forall j | 0 <= j < |which| ::
         IsBlockOf(c'.mgr.recs, bs, h, req.ctx, req.tokens, all[|local| + j], which[j])
  }

  lemma WentRoute(c: Cache, h: Hasher, req: Request, local: seq<BlockId>, chain: ChainResult, p: nat)
    requires WentTo(c, h, req, |local|, chain, p) && IsChain(c.index, c.bs, req.ctx, req.tokens, local)
    ensures RouteOnMissing(c.index, c.bs, chain.cache, h, req, local, p, local + chain.handles)
  {
    hide CacheInv;
    hide OnOwnBlocks;
    hide IsBlockOf;
    hide HitsUntil;
    hide Consecutive;
    hide NotStored;
    hide Kept;
    hide IsChain;
    hide HandlesFor;
    hide WentTo;
    var which := NotStored(c.index, c.bs, req, |local|, p);
    WentFacts(c, h, req, |local|, chain, p);
    RouteHandles(c, chain.cache, h, req, local, which, chain.handles);
    OwnBlocksIff(chain.cache, h, req, local, which, chain.handles);
  }

  /** Chain admission after the lookup, with room for what is fetched. */
  lemma FetchedWithRoom(c: Cache, peers: map<NodeId, Cache>, dir: Directory, h: Hasher, req: Request, pol: Policies,
                        choose: ReplicaPolicy, now: nat, clock: nat -> nat)
    requires CacheInv(c, h) && PicksFromOffer(pol.evict)
    requires c.bs > 0 && Room(c, |ResolveFor(c, peers, dir, h, req, choose, now).fetched|)
    ensures
      var local, fetched :=
        LookupPrefix(c, req.ctx, req.tokens, now), ResolveFor(c, peers, dir, h, req, choose, now).fetched;
      && local.cache.index == c.index && local.cache.bs == c.bs
      && IsChain(c.index, c.bs, req.ctx, req.tokens, local.handles)
      && WentTo(local.cache, h, req, |local.handles|, AdmitAll(local.cache, fetched, pol, clock, 0),
                ReachOf(c, local.handles, req, fetched, pol, clock))
      && |AdmitAll(local.cache, fetched, pol, clock, 0).statuses| == |fetched|
      && UsableAlong(local.cache, fetched, pol, clock, 0)
  {
    hide CacheInv;
    hide IsLongestChain;
    hide Resolve;
    hide Plan;
    hide AdmitAll;
    hide Room;
    hide PicksFromOffer;
    hide Reach;
    hide UsableAlong;
    hide LookupPrefix;
    hide RequestBlocksFrom;
    hide PinnedOnce;
    hide IsChain;
    hide WentTo;
    InvBase(c, h);
    LookupOk(c, h, req.ctx, req.tokens, now);
    var local := LookupPrefix(c, req.ctx, req.tokens, now);
    LongestIsChain(c, req, local.handles);
    FetchedBlocks(peers, dir, h, c.bs, req, |local.handles|, choose, now);
    var fetched := ResolveFor(c, peers, dir, h, req, choose, now).fetched;
    RoomAfterCounts(c, local.cache, |fetched|);
    ChainWithRoom(local.cache, h, req, local.handles, fetched, pol, clock, 0);
    InvBase(local.cache, h);
    StatusPerCandidate(local.cache, fetched, pol, clock, 0);
  }

  /** What a request with room comes to: how far its fetched blocks were hits, and which handles it got. */
  lemma RequestWithRoom(c: Cache, peers: map<NodeId, Cache>, dir: Directory, h: Hasher, req: Request, pol: Policies,
                        choose: ReplicaPolicy, now: nat, clock: nat -> nat)
    requires CacheInv(c, h) && PicksFromOffer(pol.evict)
    requires c.bs > 0 && Room(c, |ResolveFor(c, peers, dir, h, req, choose, now).fetched|)
    ensures
      var r := RunRequest(c, peers, dir, h, req, pol, choose, now, clock);
      var p := ReachOf(c, r.local, req, r.fetched, pol, clock);
      && p <= |r.fetched| == |r.statuses| && r.cache.bs == c.bs && CacheInv(r.cache, h)
      && HitsUntil(c.index, c.bs, req, |r.local|, r.statuses, p)
      && RouteOnMissing(c.index, c.bs, r.cache, h, req, r.local, p, r.route.reusable)
    ensures RequestUsable(c, peers, dir, h, req, pol, choose, now, clock)
  {
    hide CacheInv;
    hide Resolve;
    hide Plan;
    hide AdmitAll;
    hide Room;
    hide PicksFromOffer;
    hide Reach;
    hide UsableAlong;
    hide LookupPrefix;
    hide RouteOnMissing;
    hide HitsUntil;
    hide NotStored;
    hide Kept;
    hide IsChain;
    hide HandlesFor;
    hide WentTo;
    FetchedWithRoom(c, peers, dir, h, req, pol, choose, now, clock);
    var local := LookupPrefix(c, req.ctx, req.tokens, now);
    var fetched := ResolveFor(c, peers, dir, h, req, choose, now).fetched;
    var chain, p := AdmitAll(local.cache, fetched, pol, clock, 0), ReachOf(c, local.handles, req, fetched, pol, clock);
    WentFacts(local.cache, h, req, |local.handles|, chain, p);
    WentRoute(local.cache, h, req, local.handles, chain, p);
  }

  lemma LongestIsChain(c: Cache, req: Request, ids: seq<BlockId>)
    requires IsLongestChain(c.index, c.bs, req.ctx, req.tokens, ids)
    ensures IsChain(c.index, c.bs, req.ctx, req.tokens, ids)
  {
  }

  /** Contiguity of a request's result, exactly.  When none of the fetched blocks is stored, every handle is on
      its own block, under any policy and any capacity.  With room for the fetched blocks, and any policy, they
      are if and only if, before the first block that is missing and rejected, no stored block is followed by
      one that is not. */
  lemma ContiguousIff(c: Cache, peers: map<NodeId, Cache>, dir: Directory, h: Hasher, req: Request, pol: Policies,
                      choose: ReplicaPolicy, now: nat, clock: nat -> nat)
    requires CacheInv(c, h) && PicksFromOffer(pol.evict) && c.bs > 0
    ensures
      var r := RunRequest(c, peers, dir, h, req, pol, choose, now, clock);
      var own := OnOwnBlocks(r.cache, h, req, r.route.reusable);
      var p := ReachOf(c, r.local, req, r.fetched, pol, clock);
      && (NoneStored(c.index, c.bs, req, |r.local|, |r.fetched|) ==> own)
      && (Room(c, |r.fetched|) ==> (own <==> StoredLast(c.index, c.bs, req, |r.local|, p)))
  {
    hide CacheInv;
    hide Resolve;
    hide Plan;
    hide AdmitAll;
    hide Room;
    hide PicksFromOffer;
    hide Reach;
    hide LookupPrefix;
    hide OnOwnBlocks;
    hide IsBlockOf;
    hide HitsUntil;
    hide Consecutive;
    hide NotStored;
    hide NoneStored;
    hide StoredLast;
    hide AllPinned;
    hide PinnedAtEveryCall;
    hide UsableAlong;
    var local, fetched :=
      LookupPrefix(c, req.ctx, req.tokens, now), ResolveFor(c, peers, dir, h, req, choose, now).fetched;
    if NoneStored(c.index, c.bs, req, |local.handles|, |fetched|) {
      RequestIsContiguous(c, peers, dir, h, req, pol, choose, now, clock);
    }
    if Room(c, |fetched|) {
      RequestWithRoom(c, peers, dir, h, req, pol, choose, now, clock);
      ConsecutiveIff(c.index, c.bs, req, |local.handles|, ReachOf(c, local.handles, req, fetched, pol, clock));
    }
  }

  lemma {:induction false} HitsCounted(m: Entries, bs: nat, req: Request, first: nat, statuses: seq<AdmitStatus>,
                                       p: nat)
    requires HitsUntil(m, bs, req, first, statuses, p)
    ensures HitCount(statuses) == p
    decreases |statuses|
  {
    hide Stored;
    if statuses != [] {
      var rest := statuses[1..];
      if p > 0 {
        assert statuses[0] == StatusFor(m, bs, req, first + 0);
        forall i | 0 <= i < p - 1 ensures rest[i] == StatusFor(m, bs, req, first + 1 + i) {
          assert statuses[i + 1] == StatusFor(m, bs, req, first + (i + 1));
        }
        HitsCounted(m, bs, req, first + 1, rest, p - 1);
      } else {
        HitsCounted(m, bs, req, first + 1, rest, 0);
      }
    }
  }

  /** Whether the hits that the result reports are backed by handles, exactly: under any policy and any capacity
      they are when none of the fetched blocks is stored; with room, and any policy, if and only if none is
      before the first block that is missing and rejected. */
  lemma HitsBackedIff(c: Cache, peers: map<NodeId, Cache>, dir: Directory, h: Hasher, req: Request, pol: Policies,
                      choose: ReplicaPolicy, now: nat, clock: nat -> nat)
    requires CacheInv(c, h) && PicksFromOffer(pol.evict) && c.bs > 0
    ensures
      var r := RunRequest(c, peers, dir, h, req, pol, choose, now, clock);
      var backed := r.route.localHits + r.route.remoteHits == |r.route.reusable|;
      var p := ReachOf(c, r.local, req, r.fetched, pol, clock);
      && (NoneStored(c.index, c.bs, req, |r.local|, |r.fetched|) ==> backed)
      && (Room(c, |r.fetched|) ==> (backed <==> NoneStored(c.index, c.bs, req, |r.local|, p)))
  {
    hide CacheInv;
    hide Resolve;
    hide Plan;
    hide AdmitAll;
    hide Room;
    hide PicksFromOffer;
    hide Reach;
    hide LookupPrefix;
    hide OnOwnBlocks;
    hide IsBlockOf;
    hide HitsUntil;
    hide Consecutive;
    hide NotStored;
    hide NoneStored;
    hide AllPinned;
    hide PinnedAtEveryCall;
    hide UsableAlong;
    var local, fetched :=
      LookupPrefix(c, req.ctx, req.tokens, now), ResolveFor(c, peers, dir, h, req, choose, now).fetched;
    if NoneStored(c.index, c.bs, req, |local.handles|, |fetched|) {
      RequestIsContiguous(c, peers, dir, h, req, pol, choose, now, clock);
    }
    if Room(c, |fetched|) {
      var p := ReachOf(c, local.handles, req, fetched, pol, clock);
      RequestWithRoom(c, peers, dir, h, req, pol, choose, now, clock);
      HitsCounted(c.index, c.bs, req, |local.handles|,
                  RunRequest(c, peers, dir, h, req, pol, choose, now, clock).statuses, p);
      NotStoredBounds(c.index, c.bs, req, |local.handles|, p);
    }
  }
}
