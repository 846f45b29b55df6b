/** A worker without a tier manager (the other constructors of src/core/local_cache.cc): its admission and
    eviction, and that they are those of a worker with one tier that has a place for every slot and stores
    no bytes. */
module Untiered {
  import opened Types
  import opened PrefixMap
  import opened BlockLifecycle
  import opened TierModel
  import opened CacheModel
  import opened CacheTheory
  import opened AdmitTheory

  datatype Plain = Plain(bs: nat, mgr: Manager, index: Entries)

  datatype PlainResult = PlainResult(worker: Plain, status: AdmitStatus, handle: Option<BlockId>)

  function PlainOf(c: Cache): Plain {
    Plain(c.bs, c.mgr, c.index)
  }

  /** The checks and the policy look at block size, records and index only. */
  function AsCache(w: Plain): Cache {
    Cache(w.bs, w.mgr, w.index, Tiers(TierSet(0, {}), TierSet(0, {})), Payloads(0, [], []), true)
  }

  /** One victim: out of Ready, out of the index, and back to the pool. */
  ghost function PlainEvicted(w: Plain, id: BlockId): Plain {
    var m := Transitioned(w.mgr, id, Ready, Evicting);
    Plain(w.bs, Transitioned(m, id, Evicting, Free), RemoveId(w.index, id))
  }

  /** makeSpace for one block: the worker afterwards, and whether there was a victim. */
  ghost function PlainMakeSpace(w: Plain, now: nat, policy: EvictionPolicy): (Plain, SpaceStatus) {
    var v := Victim(AsCache(w), GpuSim, now, policy);
    if v == None || v.value >= |w.mgr.recs| then (w, InsufficientCandidates) else (PlainEvicted(w, v.value), SpaceMade)
  }

  ghost function PlainInstall(w: Plain, cand: Candidate, ancestors: seq<BlockId>, now: nat): PlainResult {
    if !CanCreate(w.mgr) then PlainResult(w, Full, None)
    else
      var id := NextId(w.mgr.pool);
      var m :=
        Transitioned(Created(w.mgr, cand.hash, cand.blockIndex, Truncated16(w.bs), GpuSim), id, Admitting, Ready);
      var recs := if CanAcquire(m.recs, id) then Acquired(m.recs, id, now) else m.recs;
      PlainResult(
        Plain(w.bs, Manager(m.pool, recs), InsertChain(w.index, w.bs, cand.ctx, cand.tokens, ancestors + [id])),
        Admitted,
        Some(id))
  }

  ghost function PlainAdmit(w: Plain, cand: Candidate, now: nat, pol: Policies): PlainResult
    requires w.bs > 0
  {
    var refusal := Refusal(AsCache(w), cand, now, pol);
    if refusal.Some? then PlainResult(w, refusal.value, None)
    else
      var ancestors := Ancestors(AsCache(w), cand);
      if w.mgr.pool.freeList != [] then PlainInstall(w, cand, ancestors, now)
      else
        var (w', status) := PlainMakeSpace(w, now, pol.evict);
        if status == InsufficientCandidates then PlainResult(w', Full, None) else PlainInstall(w', cand, ancestors, now)
  }

  /** One tier with a place for every slot, and no bytes. */
  ghost predicate OneBigTier(c: Cache) {
    BaseInv(c) && c.payloads.bytesPerBlock == 0 && c.tiers.gpu.capacity >= |c.mgr.recs|
  }

  /** Space is needed exactly when the pool is empty. */
  lemma UntieredNeedsSpace(c: Cache)
    requires OneBigTier(c)
    ensures NeedsSpace(c, GpuSim) <==> c.mgr.pool.freeList == []
  {
    if c.mgr.pool.freeList != [] {
      RoomInPool(c);
      NextSlotFacts(c);
      var id := NextId(c.mgr.pool);
      assert c.tiers.gpu.ids <= Upto(|c.mgr.recs|) - {id};
      SubsetSize(c.tiers.gpu.ids, Upto(|c.mgr.recs|) - {id});
    }
  }

  /** An eviction is the same, tier or no tier. */
  lemma UntieredEvicted(c: Cache, id: BlockId)
    requires OneBigTier(c) && id < |c.mgr.recs| && Evictable(c.mgr.recs[id])
    ensures PlainOf(Evicted(c, id)) == PlainEvicted(PlainOf(c), id) && OneBigTier(Evicted(c, id))
  {
    EvictedBase(c, id);
    hide BaseInv;
    hide Evicted;
    var recs := c.mgr.recs[id := c.mgr.recs[id].(state := Evicting)];
    assert Transitioned(c.mgr, id, Ready, Evicting) == Manager(c.mgr.pool, recs);
    hide Freed;
    FreedShape(Manager(c.mgr.pool, recs), id);
    assert recs[id := recs[id].(state := Free)] == c.mgr.recs[id := c.mgr.recs[id].(state := Free)];
  }

  lemma UntieredSpace(c: Cache, now: nat, policy: EvictionPolicy)
    requires OneBigTier(c) && PicksFromOffer(policy)
    ensures
      var space := MakeSpace(c, 1, GpuSim, now, policy);
      (PlainOf(space.cache), space.status) == PlainMakeSpace(PlainOf(c), now, policy) && OneBigTier(space.cache)
  {
    hide Evicted;
    hide OneBigTier;
    hide PlainEvicted;
    hide PicksFromOffer;
    hide BaseInv;
    var v := Victim(c, GpuSim, now, policy);
    assert Victim(AsCache(PlainOf(c)), GpuSim, now, policy) == v;
    BigTierBase(c);
    VictimOk(c, GpuSim, now, policy);
    if v.Some? {
      EligibleFacts(c, GpuSim, v.value);
      UntieredEvicted(c, v.value);
      assert MakeSpaceFrom(Evicted(c, v.value), 1, 1, GpuSim, now, policy).cache == Evicted(c, v.value);
    }
  }

  lemma BigTierBase(c: Cache)
    requires OneBigTier(c)
    ensures BaseInv(c) && c.bs > 0
  {
  }

  lemma UntieredInstall(c: Cache, cand: Candidate, ancestors: seq<BlockId>, now: nat)
    requires OneBigTier(c) && CanCreate(c.mgr)
    ensures
      var r, q := Install(c, cand, ancestors, GpuSim, now), PlainInstall(PlainOf(c), cand, ancestors, now);
      && PlainOf(r.cache) == q.worker && r.status == q.status && r.handle == q.handle && OneBigTier(r.cache)
  {
    UntieredNeedsSpace(c);
    BigTierBase(c);
    InstallShape(c, cand, ancestors, GpuSim, now);
    var id := NextId(c.mgr.pool);
    var index := InsertChain(c.index, c.bs, cand.ctx, cand.tokens, ancestors + [id]);
    WithBlockBase(c, cand, GpuSim, now, index);
    hide BaseInv;
    hide Install;
    hide InsertChain;
    hide Allocated;
    var m := Created(c.mgr, cand.hash, cand.blockIndex, Truncated16(c.bs), GpuSim);
    var ready := m.recs[id := m.recs[id].(state := Ready)];
    assert Transitioned(m, id, Admitting, Ready) == Manager(m.pool, ready);
    assert CanAcquire(ready, id);
    assert Acquired(ready, id, now) == c.mgr.recs[id := AdmittedRecord(c, cand, GpuSim, now)];
  }

  lemma UntieredChecks(c: Cache, cand: Candidate, now: nat, pol: Policies)
    requires c.bs > 0
    ensures Refusal(c, cand, now, pol) == Refusal(AsCache(PlainOf(c)), cand, now, pol)
    ensures |cand.tokens| == (cand.blockIndex + 1) * c.bs ==> Ancestors(c, cand) == Ancestors(AsCache(PlainOf(c)), cand)
  {
  }

  /** With one big tier, no bytes, and every block placed there, admission is that of a worker without tiers:
      same outcome, same handle, same pool, records and index; and the worker stays of this kind, so this goes
      on through every run. */
  lemma UntieredAdmit(c: Cache, cand: Candidate, now: nat, pol: Policies)
    requires OneBigTier(c) && PicksFromOffer(pol.evict) && TierFor(c, cand, now, pol) == GpuSim
    ensures c.bs > 0
    ensures
      var r, q := Admit(c, cand, now, pol), PlainAdmit(PlainOf(c), cand, now, pol);
      && PlainOf(r.cache) == q.worker && r.status == q.status && r.handle == q.handle && OneBigTier(r.cache)
  {
    hide OneBigTier;
    hide BaseInv;
    hide Admit;
    hide Install;
    hide PlainInstall;
    hide PlainMakeSpace;
    hide Refusal;
    hide Ancestors;
    hide TierFor;
    hide MakeSpaceFrom;
    hide LostBlocks;
    hide AdmitVictims;
    hide PicksFromOffer;
    BigTierBase(c);
    AdmitUnfold(c, cand, now, pol);
    UntieredChecks(c, cand, now, pol);
    UntieredNeedsSpace(c);
    if Refusal(c, cand, now, pol) == None {
      AcceptedChain(c, cand, now, pol);
      if NeedsSpace(c, GpuSim) {
        UntieredSpace(c, now, pol.evict);
      }
      if Prepared(c, cand, now, pol).status == SpaceMade {
        PreparedHasRoom(c, cand, now, pol);
        UntieredInstall(Prepared(c, cand, now, pol).cache, cand, Ancestors(c, cand), now);
      }
      PreparedOk(c, cand, now, pol);
    }
  }
}
