/** One worker's cache as a value: block manager, prefix index (as its map), tiers and payloads, with the
    eviction loop and the admission path over them (src/controller/eviction_controller.cc,
    src/controller/admission_controller.cc), and the invariant that ties the structures together. */
module CacheModel {
  import opened Types
  import opened PrefixMap
  import opened BlockLifecycle
  import opened TierModel

  /** The tier manager writes a block's tier and payload reference into the record store that it was given.  That is
      the block manager's own (shared), or another one: then the records here have the references that the tier
      manager has for them, and the block manager's own records have none. */
  datatype Cache = Cache(bs: nat, mgr: Manager, index: Entries, tiers: Tiers, payloads: Payloads, shared: bool) {
    function TS(): TierState {
      TierState(tiers, payloads, mgr.recs)
    }

    function WithTS(t: TierState): Cache {
      this.(mgr := Manager(mgr.pool, t.recs), tiers := t.tiers, payloads := t.payloads)
    }
  }

  /** The content hash, uninterpreted: context, block index, token count, the block's own tokens. */
  type Hasher = (ContextHash, nat, nat, seq<Token>) -> ContentHash

  /** token_count is the block size cut down to 16 bits. */
  function Truncated16(n: nat): nat {
    n % 0x1_0000
  }

  // ---------- policies ----------

  datatype Features = Features(
    id: BlockId,
    hash: ContentHash,
    tier: Tier,
    age: nat,
    lastAccess: nat,
    accessCount: nat,
    depthBlocks: nat,
    childCount: nat,
    descendantCount: nat,
    isSharedPrefix: bool)

  datatype EvictionContext = EvictionContext(tier: Tier, timestamp: nat)

  type EvictionPolicy = (EvictionContext, seq<Features>) -> Option<BlockId>

  /** A policy may decline, but a victim it names is one that it was offered. */
  ghost predicate PicksFromOffer(policy: EvictionPolicy) {
    forall ctx: EvictionContext, offer: seq<Features> :: policy(ctx, offer).Some? ==>
      exists i :: 0 <= i < |offer| && offer[i].id == policy(ctx, offer).value
  }

  datatype Origin = LocallyComputed | RemoteFetch

  datatype Candidate = Candidate(
    ctx: ContextHash,
    blockIndex: nat,
    tokens: seq<Token>,
    hash: ContentHash,
    payload: seq<Byte>,
    origin: Origin)

  datatype CandidateFeatures = CandidateFeatures(
    hash: ContentHash,
    blockIndex: nat,
    tokenCount: nat,
    payloadBytes: nat,
    origin: Origin)

  datatype AdmissionContext = AdmissionContext(ctx: ContextHash, timestamp: nat)

  datatype PlacementContext = PlacementContext(gpuUsed: nat, gpuCapacity: nat, hostUsed: nat, hostCapacity: nat,
                                               timestamp: nat)

  datatype Policies = Policies(
    admit: (AdmissionContext, CandidateFeatures) -> bool,
    place: (PlacementContext, CandidateFeatures) -> Tier,
    evict: EvictionPolicy)

  function FeaturesOf(c: Candidate, bs: nat): CandidateFeatures {
    CandidateFeatures(c.hash, c.blockIndex, Truncated16(bs), |c.payload|, c.origin)
  }

  /** The admission policy is asked with the context of the candidate. */
  predicate AcceptedBy(pol: Policies, c: Candidate, bs: nat, now: nat) {
    pol.admit(AdmissionContext(c.ctx, now), FeaturesOf(c, bs))
  }

  /** What a policy sees of a block, given the record and the counts of stored keys below it. */
  function FeaturesWith(r: BlockRecord, id: BlockId, now: nat, children: nat, descendants: nat): Features {
    Features(
      id, r.hash, r.tier,
      if now >= r.lastAccess then now - r.lastAccess else 0,
      r.lastAccess, r.accessCount, r.blockIndex,
      children, descendants, children > 0)
  }

  /** BlockFeatureBuilder::build: what the record and the prefix index say about one block. */
  ghost function BuildFeatures(recs: seq<BlockRecord>, index: Entries, bs: nat, id: BlockId, now: nat): Features
    requires id < |recs|
  {
    FeaturesWith(recs[id], id, now, ChildCount(index, bs, id), DescendantCount(index, id))
  }

  // ---------- candidates for eviction ----------

  predicate Evictable(r: BlockRecord) {
    r.state == Ready && r.refcount == 0
  }

  /** SafeCandidateFinder over the first n slots: the ids of Ready records without handles, in slot
      order. */
  function SafeUpTo(recs: seq<BlockRecord>, n: nat): seq<BlockId>
    requires n <= |recs|
  {
    if n == 0 then []
    else if Evictable(recs[n - 1]) then SafeUpTo(recs, n - 1) + [recs[n - 1].id]
    else SafeUpTo(recs, n - 1)
  }

  function SafeCandidates(recs: seq<BlockRecord>): seq<BlockId> {
    SafeUpTo(recs, |recs|)
  }

  predicate InTier(recs: seq<BlockRecord>, tier: Tier, id: BlockId) {
    id < |recs| && recs[id].tier == tier
  }

  function FilterTier(recs: seq<BlockRecord>, tier: Tier, ids: seq<BlockId>): seq<BlockId> {
    if ids == [] then []
    else
      var last := ids[|ids| - 1];
      var front := FilterTier(recs, tier, ids[..|ids| - 1]);
      if InTier(recs, tier, last) then front + [last] else front
  }

  function Offer(recs: seq<BlockRecord>, tier: Tier): seq<BlockId> {
    FilterTier(recs, tier, SafeCandidates(recs))
  }

  /** What an eviction in a tier may take: exactly the evictable slots of that tier. */
  ghost function EligibleSlots(recs: seq<BlockRecord>, tier: Tier): set<BlockId> {
    set s | s in Upto(|recs|) && Evictable(recs[s]) && recs[s].tier == tier
  }

  predicate Ascending(s: seq<BlockId>) {
    forall i, j | 0 <= i < j < |s| :: s[i] < s[j]
  }

  lemma AscendingPush(s: seq<BlockId>, x: BlockId)
    requires Ascending(s) && forall y | y in s :: y < x
    ensures Ascending(s + [x]) && forall y: nat :: y in s + [x] <==> y in s || y == x
  {
    forall i | 0 <= i < |s| ensures s[i] < x {
      assert s[i] in s;
    }
  }

  /** A Ready record names its own slot. */
  ghost predicate IdsAreSlots(recs: seq<BlockRecord>) {
    forall s | 0 <= s < |recs| && recs[s].state == Ready :: recs[s].id == s
  }

  lemma {:induction false} SafeUpToIs(recs: seq<BlockRecord>, n: nat)
    requires n <= |recs| && IdsAreSlots(recs)
    ensures forall s: nat :: s in SafeUpTo(recs, n) <==> s < n && Evictable(recs[s])
    ensures Ascending(SafeUpTo(recs, n))
  {
    if n > 0 {
      SafeUpToIs(recs, n - 1);
      if Evictable(recs[n - 1]) {
        AscendingPush(SafeUpTo(recs, n - 1), n - 1);
      }
    }
  }

  lemma {:induction false} FilterTierIs(recs: seq<BlockRecord>, tier: Tier, ids: seq<BlockId>)
    requires Ascending(ids)
    ensures forall s: nat :: s in FilterTier(recs, tier, ids) <==> s in ids && InTier(recs, tier, s)
    ensures Ascending(FilterTier(recs, tier, ids))
  {
    if ids != [] {
      var front, last := ids[..|ids| - 1], ids[|ids| - 1];
      assert ids == front + [last];
      FilterTierIs(recs, tier, front);
      if InTier(recs, tier, last) {
        forall y | y in FilterTier(recs, tier, front) ensures y < last {
          assert y in front;
        }
        AscendingPush(FilterTier(recs, tier, front), last);
      }
    }
  }

  /** The offer lists exactly the eligible slots, in slot order. */
  lemma OfferIs(recs: seq<BlockRecord>, tier: Tier)
    requires IdsAreSlots(recs)
    ensures forall s: nat :: s in Offer(recs, tier) <==> s in EligibleSlots(recs, tier)
    ensures Ascending(Offer(recs, tier)) && InBounds(recs, Offer(recs, tier))
  {
    SafeUpToIs(recs, |recs|);
    FilterTierIs(recs, tier, SafeCandidates(recs));
    forall i | 0 <= i < |Offer(recs, tier)| ensures Offer(recs, tier)[i] < |recs| {
      assert Offer(recs, tier)[i] in Offer(recs, tier);
    }
  }

  predicate InBounds(recs: seq<BlockRecord>, ids: seq<BlockId>) {
    forall i | 0 <= i < |ids| :: ids[i] < |recs|
  }

  ghost function OfferFeatures(recs: seq<BlockRecord>, index: Entries, bs: nat, now: nat,
                               ids: seq<BlockId>): (r: seq<Features>)
    requires InBounds(recs, ids)
  {
    seq(|ids|, i requires 0 <= i < |ids| => BuildFeatures(recs, index, bs, ids[i], now))
  }

  // ---------- eviction ----------

  /** One victim: out of Ready, out of the index, out of its tier, and back to the pool. */
  ghost function Evicted(c: Cache, id: BlockId): (r: Cache)
    requires id < |c.mgr.recs|
    ensures |r.mgr.recs| == |c.mgr.recs| && r.bs == c.bs && r.shared == c.shared
  {
    var m := Transitioned(c.mgr, id, Ready, Evicting);
    var t := RemovedState(TierState(c.tiers, c.payloads, m.recs), id);
    var m' := Transitioned(Manager(m.pool, t.recs), id, Evicting, Free);
    Cache(c.bs, m', RemoveId(c.index, id), t.tiers, t.payloads, c.shared)
  }

  /** The policy's choice, if there is anything to choose from. */
  ghost function Victim(c: Cache, tier: Tier, now: nat, policy: EvictionPolicy): Option<BlockId> {
    var ids := Offer(c.mgr.recs, tier);
    if ids == [] || !InBounds(c.mgr.recs, ids) then None
    else policy(EvictionContext(tier, now), OfferFeatures(c.mgr.recs, c.index, c.bs, now, ids))
  }

  datatype SpaceStatus = SpaceMade | InsufficientCandidates
  datatype SpaceResult = SpaceResult(cache: Cache, status: SpaceStatus, evicted: nat)

  /** makeSpace, with `evicted` victims taken so far. */
  ghost function MakeSpaceFrom(c: Cache, evicted: nat, needed: nat, tier: Tier, now: nat,
                               policy: EvictionPolicy): SpaceResult
    decreases needed - evicted
  {
    if evicted >= needed then SpaceResult(c, SpaceMade, evicted)
    else
      var v := Victim(c, tier, now, policy);
      if v == None || v.value >= |c.mgr.recs| then SpaceResult(c, InsufficientCandidates, evicted)
      else MakeSpaceFrom(Evicted(c, v.value), evicted + 1, needed, tier, now, policy)
  }

  ghost function MakeSpace(c: Cache, needed: nat, tier: Tier, now: nat, policy: EvictionPolicy): SpaceResult {
    MakeSpaceFrom(c, 0, needed, tier, now, policy)
  }

  // ---------- eviction, whatever it leaves of the index ----------

  ghost predicate AllIn(vs: seq<BlockId>, s: set<BlockId>) {
    forall i | 0 <= i < |vs| :: vs[i] in s
  }

  /** The blocks vs evicted, one after the other. */
  ghost function EvictAll(c: Cache, vs: seq<BlockId>): (r: Cache)
    ensures |r.mgr.recs| == |c.mgr.recs| && r.bs == c.bs && r.shared == c.shared
    decreases |vs|
  {
    if vs == [] || vs[0] >= |c.mgr.recs| then c else EvictAll(Evicted(c, vs[0]), vs[1..])
  }

  /** What is left of the index when the blocks vs leave: nothing new, and all of the other blocks.  Of a block
      that is stored once its key goes; of one that is stored twice only one key does. */
  ghost predicate ShrunkEntries(m: Entries, vs: seq<BlockId>, m': Entries) {
    && (forall k | k in m' :: k in m && m'[k] == m[k])
    && (forall k | k in m && m[k] !in vs :: k in m')
  }

  /** c' is c after the eviction of distinct eligible blocks vs of one tier, with whatever index they leave. */
  ghost predicate Evicts(c: Cache, tier: Tier, vs: seq<BlockId>, c': Cache) {
    && NoDup(vs) && AllIn(vs, EligibleSlots(c.mgr.recs, tier))
    && c' == EvictAll(c, vs).(index := c'.index)
    && ShrunkEntries(c.index, vs, c'.index)
  }

  // ---------- admission ----------

  datatype AdmitStatus = Admitted | AlreadyPresent | Full | InvalidBlock | Rejected | Faulted

  /** Faulted stands for an exception leaving admit. */
  datatype AdmitResult = AdmitResult(cache: Cache, status: AdmitStatus, handle: Option<BlockId>)

  ghost function TierFor(c: Cache, cand: Candidate, now: nat, pol: Policies): Tier {
    pol.place(
      PlacementContext(|c.tiers.gpu.ids|, c.tiers.gpu.capacity, |c.tiers.host.ids|, c.tiers.host.capacity, now),
      FeaturesOf(cand, c.bs))
  }

  predicate NeedsSpace(c: Cache, tier: Tier) {
    c.mgr.pool.freeList == [] || !c.tiers.At(tier).HasCapacity()
  }

  /** The blocks already stored for everything before the candidate's own block. */
  ghost function Ancestors(c: Cache, cand: Candidate): seq<BlockId>
    requires c.bs > 0 && |cand.tokens| == (cand.blockIndex + 1) * c.bs
  {
    Chain(c.index, c.bs, cand.ctx, cand.tokens[..cand.blockIndex * c.bs])
  }

  /** Everything admit checks before it changes anything; None means go on. */
  ghost function Refusal(c: Cache, cand: Candidate, now: nat, pol: Policies): Option<AdmitStatus>
    requires c.bs > 0
  {
    if |cand.tokens| != (cand.blockIndex + 1) * c.bs then Some(InvalidBlock)
    else if |Chain(c.index, c.bs, cand.ctx, cand.tokens)| == cand.blockIndex + 1 then Some(AlreadyPresent)
    else if |Ancestors(c, cand)| != cand.blockIndex then Some(InvalidBlock)
    else if !AcceptedBy(pol, cand, c.bs, now) then Some(Rejected)
    else None
  }

  /** The part of admit after space has been made: create, place, index, mark Ready, hand out a handle.
      `ancestors` is the chain looked up before the eviction. */
  ghost function Install(c: Cache, cand: Candidate, ancestors: seq<BlockId>, tier: Tier, now: nat): AdmitResult {
    if !CanCreate(c.mgr) then AdmitResult(c, Full, None)
    else
      var id := NextId(c.mgr.pool);
      var m := Created(c.mgr, cand.hash, cand.blockIndex, Truncated16(c.bs), tier);
      var t := TierState(c.tiers, c.payloads, m.recs);
      if !CanPlace(t, tier) || !RefInBounds(t.payloads) then AdmitResult(c.(mgr := m), Faulted, None)
      else
        var t' := PlacedState(t, id, tier, cand.payload);
        var index := InsertChain(c.index, c.bs, cand.ctx, cand.tokens, ancestors + [id]);
        var m' := Transitioned(Manager(m.pool, t'.recs), id, Admitting, Ready);
        var recs := if CanAcquire(m'.recs, id) then Acquired(m'.recs, id, now) else m'.recs;
        AdmitResult(Cache(c.bs, Manager(m'.pool, recs), index, t'.tiers, t'.payloads, c.shared), Admitted, Some(id))
  }

  ghost function Admit(c: Cache, cand: Candidate, now: nat, pol: Policies): AdmitResult
    requires c.bs > 0
  {
    var refusal := Refusal(c, cand, now, pol);
    if refusal.Some? then AdmitResult(c, refusal.value, None)
    else
      var ancestors := Ancestors(c, cand);
      var tier := TierFor(c, cand, now, pol);
      if !NeedsSpace(c, tier) then Install(c, cand, ancestors, tier, now)
      else
        var space := MakeSpace(c, 1, tier, now, pol.evict);
        if space.status == InsufficientCandidates then AdmitResult(space.cache, Full, None)
        else Install(space.cache, cand, ancestors, tier, now)
  }

  /** r is an outcome of admit in which vs made room and left the cache mid: the checks come first, at most one
      block is evicted, and then the block is installed below the ancestors looked up before.  Which block
      is evicted, and what that leaves of the index, is open. */
  ghost predicate AdmitsVia(c: Cache, cand: Candidate, now: nat, pol: Policies, vs: seq<BlockId>, mid: Cache,
                            r: AdmitResult)
    requires c.bs > 0
  {
    var refusal := Refusal(c, cand, now, pol);
    if refusal.Some? then r == AdmitResult(c, refusal.value, None)
    else
      var tier := TierFor(c, cand, now, pol);
      && Evicts(c, tier, vs, mid)
      && if !NeedsSpace(c, tier) then vs == [] && mid == c && r == Install(c, cand, Ancestors(c, cand), tier, now)
         else if vs == [] then r == AdmitResult(c, Full, None)
         else |vs| == 1 && r == Install(mid, cand, Ancestors(c, cand), tier, now)
  }

  ghost predicate Admits(c: Cache, cand: Candidate, now: nat, pol: Policies, r: AdmitResult) {
    c.bs > 0 && exists vs, mid :: AdmitsVia(c, cand, now, pol, vs, mid, r)
  }

  // ---------- the whole-cache invariant ----------

  /** The entry k -> id is right: the block is Ready, its record has the position, size and hash of the
      last block of k. */
  ghost predicate EntryOk(c: Cache, h: Hasher, k: Key)
    requires k in c.index
  {
    var id := c.index[k];
    && id < |c.mgr.recs|
    && c.mgr.recs[id].state == Ready
    && |k.tokens| == (c.mgr.recs[id].blockIndex + 1) * c.bs
    && c.mgr.recs[id].tokenCount == Truncated16(c.bs)
    && c.mgr.recs[id].hash == h(k.ctx, c.mgr.recs[id].blockIndex, Truncated16(c.bs), k.tokens[|k.tokens| - c.bs..])
  }

  /** The index holds exactly the Ready blocks, each once. */
  ghost predicate IndexInv(c: Cache, h: Hasher) {
    && Injective(c.index)
    && (forall k | k in c.index :: EntryOk(c, h, k))
    && (forall s: nat | s < |c.mgr.recs| && c.mgr.recs[s].state == Ready :: s in c.index.Values)
  }

  /** Between operations a record is Free or Ready, and the Ready blocks are the placed ones. */
  ghost predicate PlacementInv(c: Cache) {
    && (forall s | 0 <= s < |c.mgr.recs| :: c.mgr.recs[s].state == Free || c.mgr.recs[s].state == Ready)
    && (forall s: nat :: s in c.tiers.Placed() <==> s < |c.mgr.recs| && c.mgr.recs[s].state == Ready)
    && (c.payloads.bytesPerBlock > 0 ==> |c.mgr.recs| <= |c.payloads.buffers|)
  }

  /** Pool, records, tiers and payloads agree. */
  ghost predicate BaseInv(c: Cache) {
    c.bs > 0 && ManagerInv(c.mgr) && TierInv(c.TS()) && PlacementInv(c)
  }

  /** The whole-cache invariant: and the index agrees with them. */
  ghost predicate CacheInv(c: Cache, h: Hasher) {
    BaseInv(c) && IndexInv(c, h)
  }

  /** The candidate's hash is that of its own last block. */
  ghost predicate Honest(c: Cache, cand: Candidate, h: Hasher) {
    |cand.tokens| == (cand.blockIndex + 1) * c.bs && c.bs <= |cand.tokens| ==>
      cand.hash == h(cand.ctx, cand.blockIndex, Truncated16(c.bs), cand.tokens[|cand.tokens| - c.bs..])
  }
}
