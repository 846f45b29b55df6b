/** What the policies of a worker are told, and what their decisions come to (src/controller/admission_controller.cc,
    src/controller/eviction_controller.cc, src/policy/policies): stated on candidate, map, records and tier sets. */
module Decisions {
  import opened Types
  import opened PrefixMap
  import opened BlockLifecycle
  import opened TierModel
  import opened CacheModel
  import opened CacheTheory
  import opened AdmitTheory

  // ---------- placement ----------

  /** GpuFirstPlacementPolicy::chooseTier. */
  function GpuFirst(ctx: PlacementContext, f: CandidateFeatures): Tier {
    if ctx.gpuUsed < ctx.gpuCapacity then GpuSim else Host
  }

  /** The block v has left and the block id has arrived in this tier, and no other block has moved. */
  ghost predicate Replaced(a: Tiers, out: set<BlockId>, tier: Tier, id: BlockId, b: Tiers) {
    && b.gpu == TierSet(a.gpu.capacity, a.gpu.ids - out + if tier == GpuSim then {id} else {})
    && b.host == TierSet(a.host.capacity, a.host.ids - out + if tier == Host then {id} else {})
  }

  /** The blocks that stay keep their records. */
  ghost predicate RecordsStay(a: seq<BlockRecord>, out: set<BlockId>, id: BlockId, b: seq<BlockRecord>) {
    && |b| == |a|
    && forall s | 0 <= s < |a| && s !in out && s != id :: b[s] == a[s]
  }

  /** Where an admitted block goes: to one tier, into a slot that was free before or has just been evicted; and what
      leaves for it is one evictable block of that tier if the tier was full or no slot was free, and else
      nothing. */
  lemma AdmissionReplaces(c: Cache, cand: Candidate, now: nat, pol: Policies, r: AdmitResult)
      returns (tier: Tier, out: set<BlockId>)
    requires BaseInv(c) && Admits(c, cand, now, pol, r) && r.status == Admitted
    ensures tier == pol.place(
      PlacementContext(|c.tiers.gpu.ids|, c.tiers.gpu.capacity, |c.tiers.host.ids|, c.tiers.host.capacity, now),
      CandidateFeatures(cand.hash, cand.blockIndex, c.bs % 0x1_0000, |cand.payload|, cand.origin))
    ensures r.handle.Some? && r.handle.value < |r.cache.mgr.recs|
    ensures r.handle.value !in c.tiers.Placed() - out && r.cache.mgr.recs[r.handle.value].tier == tier
    ensures Replaced(c.tiers, out, tier, r.handle.value, r.cache.tiers)
    ensures RecordsStay(c.mgr.recs, out, r.handle.value, r.cache.mgr.recs)
    ensures out <= EligibleSlots(c.mgr.recs, tier)
    ensures |out| == if c.mgr.pool.freeList == [] || |c.tiers.At(tier).ids| >= c.tiers.At(tier).capacity then 1 else 0
    ensures out == {} ==> forall k | k in c.index :: k in r.cache.index && r.cache.index[k] == c.index[k]
  {
    hide BaseInv;
    hide Admits;
    hide Evicts;
    hide Refusal;
    hide Ancestors;
    hide EvictAll;
    hide WithBlock;
    hide InsertChain;
    hide EligibleSlots;
    hide Replaced;
    hide RecordsStay;
    hide ShrunkEntries;
    hide RefInBounds;
    var vs, mid, index;
    BlockSizePositive(c);
    tier, vs, mid, index := AdmitsShape(c, cand, now, pol, r);
    out := set v | v in vs;
    var id := NextId(mid.mgr.pool);
    Leaves(c, tier, vs, mid);
    NextSlotFacts(mid);
    Arrives(mid, cand, tier, now, index);
    ReplacedThen(c, out, mid, tier, id, r.cache);
    KeptThen(c, vs, mid, cand, Ancestors(c, cand) + [id]);
  }

  /** The blocks out have left both tiers. */
  ghost predicate Left(a: Tiers, out: set<BlockId>, b: Tiers) {
    && b.gpu == TierSet(a.gpu.capacity, a.gpu.ids - out)
    && b.host == TierSet(a.host.capacity, a.host.ids - out)
  }

  lemma Leaves(c: Cache, tier: Tier, vs: seq<BlockId>, mid: Cache)
    requires BaseInv(c) && Evicts(c, tier, vs, mid) && |vs| <= 1
    ensures
      var out := set v | v in vs;
      && Left(c.tiers, out, mid.tiers)
      && RecordsStay(c.mgr.recs, out, |c.mgr.recs|, mid.mgr.recs)
      && out <= EligibleSlots(c.mgr.recs, tier)
      && |out| == |vs|
    ensures ShrunkEntries(c.index, vs, mid.index)
  {
    hide BaseInv;
    hide EvictAll;
    hide EligibleSlots;
    EvictsBase(c, tier, vs, mid);
    var out := set v | v in vs;
    assert mid.tiers.gpu.ids == c.tiers.gpu.ids - out && mid.tiers.host.ids == c.tiers.host.ids - out;
    forall v | v in out ensures v in EligibleSlots(c.mgr.recs, tier) {
      var i :| 0 <= i < |vs| && vs[i] == v;
    }
    if |vs| == 1 {
      assert out == {vs[0]};
    }
  }

  lemma Arrives(c: Cache, cand: Candidate, tier: Tier, now: nat, index: Entries)
    requires CanCreate(c.mgr) && CanAllocate(c.mgr.pool) && RefInBounds(c.payloads)
    ensures
      var id, c' := NextId(c.mgr.pool), WithBlock(c, cand, tier, now, index);
      && id < |c'.mgr.recs| && c'.mgr.recs[id].tier == tier && c'.index == index
      && RecordsStay(c.mgr.recs, {}, id, c'.mgr.recs)
      && Replaced(c.tiers, {}, tier, id, c'.tiers)
  {
  }

  lemma ReplacedThen(c: Cache, out: set<BlockId>, mid: Cache, tier: Tier, id: BlockId, c': Cache)
    requires Left(c.tiers, out, mid.tiers) && Replaced(mid.tiers, {}, tier, id, c'.tiers)
    requires RecordsStay(c.mgr.recs, out, |c.mgr.recs|, mid.mgr.recs) && RecordsStay(mid.mgr.recs, {}, id, c'.mgr.recs)
    ensures Replaced(c.tiers, out, tier, id, c'.tiers) && RecordsStay(c.mgr.recs, out, id, c'.mgr.recs)
    ensures mid.tiers.Placed() == c.tiers.Placed() - out
  {
    assert c.tiers.gpu.ids - out - {} == c.tiers.gpu.ids - out;
    assert c.tiers.host.ids - out - {} == c.tiers.host.ids - out;
  }

  lemma KeptThen(c: Cache, vs: seq<BlockId>, mid: Cache, cand: Candidate, ids: seq<BlockId>)
    requires ShrunkEntries(c.index, vs, mid.index)
    ensures
      var m' := InsertChain(mid.index, c.bs, cand.ctx, cand.tokens, ids);
      vs == [] ==> forall k | k in c.index :: k in m' && m'[k] == c.index[k]
  {
    InsertKeeps(mid.index, c.bs, cand.ctx, cand.tokens, ids, |ids|);
  }

  lemma {:induction false} InsertKeeps(m: Entries, bs: nat, ctx: ContextHash, tokens: seq<Token>, ids: seq<BlockId>,
                                       n: nat)
    requires n <= |ids|
    ensures
      var m' := InsertUpTo(m, bs, ctx, tokens, ids, n);
      forall k | k in m :: k in m' && m'[k] == m[k]
  {
    if n > 0 {
      InsertKeeps(m, bs, ctx, tokens, ids, n - 1);
    }
  }

  /** Under gpu-first a block goes to GpuSim if and only if GpuSim had room before the call, and to Host otherwise;
      and with a free slot, and room in the tier so chosen, nothing that is stored leaves or moves. */
  lemma GpuFirstPlaces(c: Cache, cand: Candidate, now: nat, pol: Policies, r: AdmitResult)
    requires BaseInv(c) && Admits(c, cand, now, pol, r) && r.status == Admitted && pol.place == GpuFirst
    ensures r.handle.Some?
    ensures
      var id := r.handle.value;
      var room := |c.tiers.gpu.ids| < c.tiers.gpu.capacity;
      && (id in r.cache.tiers.gpu.ids <==> room)
      && (id in r.cache.tiers.host.ids <==> !room)
    ensures
      && c.mgr.pool.freeList != []
      && (|c.tiers.gpu.ids| < c.tiers.gpu.capacity || |c.tiers.host.ids| < c.tiers.host.capacity)
      ==>
        && (forall s | s in c.tiers.gpu.ids :: s in r.cache.tiers.gpu.ids)
        && (forall s | s in c.tiers.host.ids :: s in r.cache.tiers.host.ids)
        && (forall k | k in c.index :: k in r.cache.index && r.cache.index[k] == c.index[k])
  {
    hide BaseInv;
    hide Admits;
    var tier, out := AdmissionReplaces(c, cand, now, pol, r);
  }

  // ---------- the checks of admission ----------

  /** The first j blocks of the candidate are stored. */
  ghost predicate HasBlock(m: Entries, bs: nat, cand: Candidate, j: nat) {
    j * bs <= |cand.tokens| && Key(cand.ctx, cand.tokens[..j * bs]) in m
  }

  /** What the admission policy is told of a candidate, and says. */
  predicate PolicyAdmits(pol: Policies, cand: Candidate, bs: nat, now: nat) {
    pol.admit(AdmissionContext(cand.ctx, now),
              CandidateFeatures(cand.hash, cand.blockIndex, bs % 0x1_0000, |cand.payload|, cand.origin))
  }

  /** The longest chain of n blocks of tokens is complete exactly when all of them are stored. */
  lemma CompleteChain(m: Entries, bs: nat, ctx: ContextHash, tokens: seq<Token>, n: nat)
    requires bs > 0 && |tokens| == n * bs
    ensures |Chain(m, bs, ctx, tokens)| == n <==> forall j | 1 <= j <= n :: BlockKey(bs, ctx, tokens, j) in m
  {
    hide ChainFrom;
    hide BlockKey;
    var ids := Chain(m, bs, ctx, tokens);
    assert (n + 1) * bs == n * bs + bs;
    assert |ids| <= n by {
      if |ids| > n {
        FitsMono(bs, tokens, n + 1, |ids|);
      }
    }
    if |ids| < n {
      FitsMono(bs, tokens, |ids| + 1, n);
      assert BlockKey(bs, ctx, tokens, |ids| + 1) !in m;
    }
  }

  lemma SameBlocks(m: Entries, bs: nat, cand: Candidate, n: nat)
    requires n * bs <= |cand.tokens|
    ensures forall j | 1 <= j <= n :: HasBlock(m, bs, cand, j) <==>
      BlockKey(bs, cand.ctx, cand.tokens[..n * bs], j) in m
  {
    forall j | 1 <= j <= n ensures HasBlock(m, bs, cand, j) <==> BlockKey(bs, cand.ctx, cand.tokens[..n * bs], j) in m {
      FitsMono(bs, cand.tokens[..n * bs], j, n);
      assert cand.tokens[..n * bs][..j * bs] == cand.tokens[..j * bs];
    }
  }

  /** Which answer each failed check gives: a wrong number of tokens is an invalid block; a candidate whose blocks
      are all stored is present; one with a gap before its own block is invalid; only then is the policy asked, and
      what it does not admit is rejected. */
  lemma RefusalIs(c: Cache, cand: Candidate, now: nat, pol: Policies)
    requires c.bs > 0
    ensures
      var n, r := cand.blockIndex, Refusal(c, cand, now, pol);
      var before := forall j | 1 <= j <= n :: HasBlock(c.index, c.bs, cand, j);
      if |cand.tokens| != (n + 1) * c.bs || !before then r == Some(InvalidBlock)
      else if HasBlock(c.index, c.bs, cand, n + 1) then r == Some(AlreadyPresent)
      else if !PolicyAdmits(pol, cand, c.bs, now) then r == Some(Rejected)
      else r == None
  {
    hide Chain;
    hide HasBlock;
    var bs, n := c.bs, cand.blockIndex;
    if |cand.tokens| == (n + 1) * bs {
      assert n * bs <= (n + 1) * bs;
      assert cand.tokens[..(n + 1) * bs] == cand.tokens;
      CompleteChain(c.index, bs, cand.ctx, cand.tokens, n + 1);
      CompleteChain(c.index, bs, cand.ctx, cand.tokens[..n * bs], n);
      SameBlocks(c.index, bs, cand, n + 1);
      SameBlocks(c.index, bs, cand, n);
    }
  }

  /** A policy that chooses whenever it is offered something. */
  ghost predicate NeverDeclines(policy: EvictionPolicy) {
    forall ctx: EvictionContext, offer: seq<Features> :: offer != [] ==> policy(ctx, offer).Some?
  }

  lemma DeclinesNothing(c: Cache, tier: Tier, now: nat, policy: EvictionPolicy)
    requires BaseInv(c) && PicksFromOffer(policy) && NeverDeclines(policy)
    ensures Victim(c, tier, now, policy) == None <==> EligibleSlots(c.mgr.recs, tier) == {}
  {
    hide BaseInv;
    hide EligibleSlots;
    hide Offer;
    OfferOfBase(c, tier);
    VictimOk(c, tier, now, policy);
    var ids := Offer(c.mgr.recs, tier);
    if ids != [] {
      assert ids[0] in EligibleSlots(c.mgr.recs, tier);
      assert |OfferFeatures(c.mgr.recs, c.index, c.bs, now, ids)| == |ids|;
    }
  }

  /** Past the checks an admission succeeds, or is answered Full: exactly when the pool or the chosen tier is full
      and no block of that tier can be evicted. */
  lemma AdmissionIsFullIff(c: Cache, cand: Candidate, now: nat, pol: Policies)
    requires BaseInv(c) && PicksFromOffer(pol.evict) && NeverDeclines(pol.evict) && Refusal(c, cand, now, pol) == None
    ensures
      var tier, r := TierFor(c, cand, now, pol), Admit(c, cand, now, pol);
      var full := c.mgr.pool.freeList == [] || |c.tiers.At(tier).ids| >= c.tiers.At(tier).capacity;
      r.status == if full && EligibleSlots(c.mgr.recs, tier) == {} then Full else Admitted
  {
    hide BaseInv;
    hide EligibleSlots;
    hide PicksFromOffer;
    hide NeverDeclines;
    hide Refusal;
    hide Install;
    hide Evicted;
    hide Victim;
    hide TierFor;
    hide Ancestors;
    BlockSizePositive(c);
    var tier := TierFor(c, cand, now, pol);
    DeclinesNothing(c, tier, now, pol.evict);
    VictimOk(c, tier, now, pol.evict);
    AcceptedChain(c, cand, now, pol);
    var v := Victim(c, tier, now, pol.evict);
    if v.Some? {
      assert MakeSpaceFrom(Evicted(c, v.value), 1, 1, tier, now, pol.evict).status == SpaceMade;
    }
    PreparedOk(c, cand, now, pol);
    if Prepared(c, cand, now, pol).status == SpaceMade {
      PreparedHasRoom(c, cand, now, pol);
      InstallShape(Prepared(c, cand, now, pol).cache, cand, Ancestors(c, cand), tier, now);
    }
  }

  // ---------- what an eviction policy is told of the request ----------

  /** A policy that spares one tier and waits until some time: makeSpace evicts nothing of that tier and nothing
      before that time, and as much as is asked for, or is there, otherwise. */
  lemma {:induction false} GuardedEviction(c: Cache, evicted: nat, needed: nat, tier: Tier, now: nat,
                                           policy: EvictionPolicy, spared: Tier, since: nat)
    requires BaseInv(c) && PicksFromOffer(policy) && evicted <= needed
    requires forall ctx: EvictionContext, offer: seq<Features> ::
      policy(ctx, offer).Some? <==> offer != [] && ctx.tier != spared && ctx.timestamp >= since
    ensures
      var r, eligible := MakeSpaceFrom(c, evicted, needed, tier, now, policy), EligibleSlots(c.mgr.recs, tier);
      && r.evicted == evicted + (if tier == spared || now < since then 0 else Min(needed - evicted, |eligible|))
      && (r.evicted == evicted ==> r.cache == c)
    decreases needed - evicted
  {
    hide BaseInv;
    hide EligibleSlots;
    hide PicksFromOffer;
    hide Evicted;
    hide Victim;
    hide LostBlocks;
    if evicted < needed {
      GuardedChoice(c, tier, now, policy, spared, since);
      VictimOk(c, tier, now, policy);
      var v := Victim(c, tier, now, policy);
      if v.Some? {
        LostFirst(c, tier, v.value);
        GuardedEviction(Evicted(c, v.value), evicted + 1, needed, tier, now, policy, spared, since);
      }
    }
  }

  lemma GuardedChoice(c: Cache, tier: Tier, now: nat, policy: EvictionPolicy, spared: Tier, since: nat)
    requires BaseInv(c) && PicksFromOffer(policy)
    requires forall ctx: EvictionContext, offer: seq<Features> ::
      policy(ctx, offer).Some? <==> offer != [] && ctx.tier != spared && ctx.timestamp >= since
    ensures Victim(c, tier, now, policy).Some? <==>
      EligibleSlots(c.mgr.recs, tier) != {} && tier != spared && now >= since
  {
    hide BaseInv;
    hide EligibleSlots;
    hide Offer;
    OfferOfBase(c, tier);
    var ids := Offer(c.mgr.recs, tier);
    if ids != [] {
      assert ids[0] in EligibleSlots(c.mgr.recs, tier);
      assert |OfferFeatures(c.mgr.recs, c.index, c.bs, now, ids)| == |ids|;
    }
  }
}
