/** What eviction and admission keep: proofs about the functions of CacheModel. */
module CacheTheory {
  import opened Types
  import opened PrefixMap
  import opened BlockLifecycle
  import opened TierModel
  import opened CacheModel

  // ---------- small facts ----------

  /** The tier invariant looks at the tier and payload fields of the records only. */
  lemma TierIgnoresRest(t: TierState, recs: seq<BlockRecord>)
    requires TierInv(t) && |recs| == |t.recs|
    requires forall s | 0 <= s < |recs| :: recs[s].tier == t.recs[s].tier && recs[s].payload == t.recs[s].payload
    ensures TierInv(t.(recs := recs))
    ensures forall x | x in t.tiers.Placed() :: ContentOf(t.(recs := recs), x) == ContentOf(t, x)
  {
    SamePayloads(t.tiers.Placed(), t.payloads, t.recs, recs);
  }

  lemma BaseTiers(c: Cache)
    requires BaseInv(c)
    ensures TierInv(c.TS())
  {
  }

  lemma ReadyIds(c: Cache)
    requires ManagerInv(c.mgr)
    ensures IdsAreSlots(c.mgr.recs)
  {
    forall s | 0 <= s < |c.mgr.recs| && c.mgr.recs[s].state == Ready ensures c.mgr.recs[s].id == s {
      assert SlotInv(c.mgr, s);
    }
  }

  // ---------- eviction of one block ----------

  /** The cache without one block, field by field. */
  ghost function WithoutBlock(c: Cache, id: BlockId): Cache
    requires id < |c.mgr.recs| && CanFree(c.mgr.pool, id)
  {
    Cache(
      c.bs,
      Manager(Freed(c.mgr.pool, id), c.mgr.recs[id := c.mgr.recs[id].(state := Free)]),
      RemoveId(c.index, id),
      c.tiers.Drop(c.mgr.recs[id].tier, id),
      AfterRemove(c.payloads, c.mgr.recs[id].payload),
      c.shared)
  }

  lemma EvictableFacts(c: Cache, id: BlockId)
    requires BaseInv(c) && id < |c.mgr.recs| && Evictable(c.mgr.recs[id])
    ensures CanFree(c.mgr.pool, id) && id in c.tiers.Placed()
    ensures TierOf(c.TS(), id) == Some(c.mgr.recs[id].tier) && !RefThrows(c.payloads, c.mgr.recs[id].payload)
  {
    assert SlotInv(c.mgr, id);
    RemoveOk(c.TS(), id);
  }

  /** The four steps of an eviction, none of which throws, come to exactly that. */
  lemma EvictedShape(c: Cache, id: BlockId)
    requires BaseInv(c) && id < |c.mgr.recs| && Evictable(c.mgr.recs[id])
    ensures CanFree(c.mgr.pool, id) && Evicted(c, id) == WithoutBlock(c, id)
  {
    EvictableFacts(c, id);
    hide BaseInv;
    var recs := c.mgr.recs[id := c.mgr.recs[id].(state := Evicting)];
    assert Transitioned(c.mgr, id, Ready, Evicting) == Manager(c.mgr.pool, recs);
    RemovedShape(TierState(c.tiers, c.payloads, recs), id, c.mgr.recs[id].tier);
    hide RemovedState;
    hide Freed;
    FreedShape(Manager(c.mgr.pool, recs), id);
    assert recs[id := recs[id].(state := Free)] == c.mgr.recs[id := c.mgr.recs[id].(state := Free)];
  }

  lemma RemovedShape(t: TierState, id: BlockId, tier: Tier)
    requires id < |t.recs| && TierOf(t, id) == Some(tier) && !RefThrows(t.payloads, t.recs[id].payload)
    ensures RemovedState(t, id)
      == TierState(t.tiers.Drop(tier, id), AfterRemove(t.payloads, t.recs[id].payload), t.recs)
  {
  }

  lemma FreedShape(m: Manager, id: BlockId)
    requires id < |m.recs| && m.recs[id].state == Evicting && CanFree(m.pool, id)
    ensures Transitioned(m, id, Evicting, Free) == Manager(Freed(m.pool, id), m.recs[id := m.recs[id].(state := Free)])
  {
  }

  lemma WithoutManager(c: Cache, id: BlockId)
    requires ManagerInv(c.mgr) && id < |c.mgr.recs| && Evictable(c.mgr.recs[id]) && CanFree(c.mgr.pool, id)
    ensures ManagerInv(WithoutBlock(c, id).mgr)
  {
    FreedInv(c.mgr.pool, id);
    var m' := WithoutBlock(c, id).mgr;
    forall s | 0 <= s < |m'.recs| ensures SlotInv(m', s) {
      assert SlotInv(c.mgr, s);
    }
  }

  lemma WithoutTiers(c: Cache, id: BlockId)
    requires TierInv(c.TS()) && id in c.tiers.Placed() && id < |c.mgr.recs| && CanFree(c.mgr.pool, id)
    ensures TierInv(WithoutBlock(c, id).TS())
    ensures WithoutBlock(c, id).tiers.Placed() == c.tiers.Placed() - {id}
    ensures forall x | x in c.tiers.Placed() && x != id ::
      ContentOf(WithoutBlock(c, id).TS(), x) == ContentOf(c.TS(), x)
  {
    hide TierInv;
    hide ContentOf;
    hide AfterRemove;
    RemoveOk(c.TS(), id);
    RemovedShape(c.TS(), id, c.mgr.recs[id].tier);
    hide RemovedState;
    var t := RemovedState(c.TS(), id);
    TierIgnoresRest(t, WithoutBlock(c, id).mgr.recs);
    assert WithoutBlock(c, id).TS() == t.(recs := WithoutBlock(c, id).mgr.recs);
  }

  lemma WithoutPlacement(c: Cache, id: BlockId)
    requires PlacementInv(c) && id < |c.mgr.recs| && CanFree(c.mgr.pool, id)
    requires WithoutBlock(c, id).tiers.Placed() == c.tiers.Placed() - {id}
    ensures PlacementInv(WithoutBlock(c, id))
  {
    hide RemoveId;
  }

  lemma WithoutIndex(c: Cache, h: Hasher, id: BlockId)
    requires IndexInv(c, h) && id < |c.mgr.recs| && CanFree(c.mgr.pool, id)
    ensures IndexInv(WithoutBlock(c, id), h)
  {
    var c' := WithoutBlock(c, id);
    forall k | k in c'.index ensures EntryOk(c', h, k) {
      assert EntryOk(c, h, k);
    }
    forall s: nat | s < |c'.mgr.recs| && c'.mgr.recs[s].state == Ready ensures s in c'.index.Values {
      var k := KeyOf(c.index, s);
      assert k in c'.index && c'.index[k] == s;
    }
  }

  /** Evicting a Ready block without handles keeps pool, records, tiers and payloads in agreement: the
      block leaves its tier and the payload store, its slot goes to the back of the free list, and nobody
      else's record or bytes change. */
  lemma EvictedBase(c: Cache, id: BlockId)
    requires BaseInv(c) && id < |c.mgr.recs| && Evictable(c.mgr.recs[id])
    ensures BaseInv(Evicted(c, id))
    ensures CanFree(c.mgr.pool, id) && Evicted(c, id) == WithoutBlock(c, id)
    ensures forall x | x in c.tiers.Placed() && x != id ::
      x in Evicted(c, id).tiers.Placed() && ContentOf(Evicted(c, id).TS(), x) == ContentOf(c.TS(), x)
  {
    EvictedShape(c, id);
    EvictableFacts(c, id);
    WithoutManager(c, id);
    WithoutTiers(c, id);
    WithoutPlacement(c, id);
  }

  /** It keeps the whole-cache invariant too: the index loses exactly that block. */
  lemma EvictedOk(c: Cache, h: Hasher, id: BlockId)
    requires CacheInv(c, h) && id < |c.mgr.recs| && Evictable(c.mgr.recs[id])
    ensures CacheInv(Evicted(c, id), h)
  {
    hide BaseInv;
    hide IndexInv;
    EvictedBase(c, id);
    WithoutIndex(c, h, id);
  }

  // ---------- the victim ----------

  lemma VictimOk(c: Cache, tier: Tier, now: nat, policy: EvictionPolicy)
    requires BaseInv(c) && PicksFromOffer(policy)
    ensures
      var v := Victim(c, tier, now, policy);
      v.Some? ==> v.value in EligibleSlots(c.mgr.recs, tier) && v.value < |c.mgr.recs|
  {
    ReadyIds(c);
    OfferIs(c.mgr.recs, tier);
    var v := Victim(c, tier, now, policy);
    if v.Some? {
      var ids := Offer(c.mgr.recs, tier);
      var offer := OfferFeatures(c.mgr.recs, c.index, c.bs, now, ids);
      assert policy(EvictionContext(tier, now), offer) == v;
      var i :| 0 <= i < |offer| && offer[i].id == v.value;
      assert offer[i].id == ids[i] && ids[i] in ids;
    }
  }

  // ---------- makeSpace ----------

  /** The victims that makeSpace takes, in order. */
  ghost function Victims(c: Cache, needed: nat, tier: Tier, now: nat, policy: EvictionPolicy): seq<BlockId>
    decreases needed
  {
    if needed == 0 then []
    else
      var v := Victim(c, tier, now, policy);
      if v == None || v.value >= |c.mgr.recs| then []
      else [v.value] + Victims(Evicted(c, v.value), needed - 1, tier, now, policy)
  }

  ghost predicate LostRecords(recs: seq<BlockRecord>, vs: seq<BlockId>, recs': seq<BlockRecord>) {
    && |recs'| == |recs|
    && forall s: nat | s < |recs| :: recs'[s] == if s in vs then recs[s].(state := Free) else recs[s]
  }

  ghost predicate LostEntries(m: Entries, vs: seq<BlockId>, m': Entries) {
    && (forall k :: k in m' <==> k in m && m[k] !in vs)
    && (forall k | k in m' :: m'[k] == m[k])
  }

  ghost predicate LostPlaces(tiers: Tiers, vs: seq<BlockId>, tiers': Tiers) {
    && tiers'.gpu.capacity == tiers.gpu.capacity
    && tiers'.host.capacity == tiers.host.capacity
    && (forall s: nat :: s in tiers'.gpu.ids <==> s in tiers.gpu.ids && s !in vs)
    && (forall s: nat :: s in tiers'.host.ids <==> s in tiers.host.ids && s !in vs)
  }

  /** c' is c after the eviction of exactly the blocks vs, all from one tier. */
  ghost predicate LostBlocks(c: Cache, tier: Tier, vs: seq<BlockId>, c': Cache) {
    && NoDup(vs) && AllIn(vs, EligibleSlots(c.mgr.recs, tier))
    && c'.bs == c.bs
    && LostRecords(c.mgr.recs, vs, c'.mgr.recs)
    && c'.mgr.pool.freeList == c.mgr.pool.freeList + vs
    && LostEntries(c.index, vs, c'.index)
    && LostPlaces(c.tiers, vs, c'.tiers)
  }

  lemma LostFirst(c: Cache, tier: Tier, v: BlockId)
    requires BaseInv(c) && v in EligibleSlots(c.mgr.recs, tier)
    ensures BaseInv(Evicted(c, v))
    ensures LostBlocks(c, tier, [v], Evicted(c, v))
    ensures EligibleSlots(Evicted(c, v).mgr.recs, tier) == EligibleSlots(c.mgr.recs, tier) - {v}
  {
    EligibleFacts(c, tier, v);
    EvictedBase(c, v);
    hide BaseInv;
    hide Evicted;
    hide WithoutBlock;
    hide LostBlocks;
    LostWithout(c, tier, v);
  }

  lemma EligibleFacts(c: Cache, tier: Tier, v: BlockId)
    requires BaseInv(c) && v in EligibleSlots(c.mgr.recs, tier)
    ensures v < |c.mgr.recs| && Evictable(c.mgr.recs[v]) && v in c.tiers.Placed()
    ensures SetsInv(c.tiers, c.mgr.recs)
  {
  }

  lemma LostWithout(c: Cache, tier: Tier, v: BlockId)
    requires v in EligibleSlots(c.mgr.recs, tier) && CanFree(c.mgr.pool, v)
    requires SetsInv(c.tiers, c.mgr.recs) && v in c.tiers.Placed()
    ensures LostBlocks(c, tier, [v], WithoutBlock(c, v))
    ensures EligibleSlots(WithoutBlock(c, v).mgr.recs, tier) == EligibleSlots(c.mgr.recs, tier) - {v}
  {
    var c' := WithoutBlock(c, v);
    assert LostRecords(c.mgr.recs, [v], c'.mgr.recs);
    assert LostEntries(c.index, [v], c'.index);
    assert LostPlaces(c.tiers, [v], c'.tiers) by {
      DropPlaces(c.tiers, c.mgr.recs, v);
    }
    LostEligible(c.mgr.recs, tier, v, c'.mgr.recs);
  }

  lemma DropPlaces(tiers: Tiers, recs: seq<BlockRecord>, v: BlockId)
    requires SetsInv(tiers, recs) && v in tiers.Placed()
    ensures v < |recs| && LostPlaces(tiers, [v], tiers.Drop(recs[v].tier, v))
  {
  }

  lemma LostEligible(recs: seq<BlockRecord>, tier: Tier, v: BlockId, recs': seq<BlockRecord>)
    requires LostRecords(recs, [v], recs')
    ensures EligibleSlots(recs', tier) == EligibleSlots(recs, tier) - {v}
  {
  }

  lemma PickedThen(v: BlockId, vs: seq<BlockId>, from: set<BlockId>)
    requires v in from && NoDup(vs) && AllIn(vs, from - {v})
    ensures NoDup([v] + vs) && AllIn([v] + vs, from)
  {
    forall i | 0 <= i < |vs| ensures vs[i] != v && vs[i] in from {
    }
  }

  lemma PartsThen(c: Cache, v: BlockId, c1: Cache, vs: seq<BlockId>, c2: Cache)
    requires LostRecords(c.mgr.recs, [v], c1.mgr.recs) && LostRecords(c1.mgr.recs, vs, c2.mgr.recs)
    requires LostEntries(c.index, [v], c1.index) && LostEntries(c1.index, vs, c2.index)
    requires LostPlaces(c.tiers, [v], c1.tiers) && LostPlaces(c1.tiers, vs, c2.tiers)
    ensures LostRecords(c.mgr.recs, [v] + vs, c2.mgr.recs)
    ensures LostEntries(c.index, [v] + vs, c2.index)
    ensures LostPlaces(c.tiers, [v] + vs, c2.tiers)
  {
    assert forall s: nat :: s in [v] + vs <==> s == v || s in vs;
    assert v in [v];
  }

  lemma LostThen(c: Cache, tier: Tier, v: BlockId, c1: Cache, vs: seq<BlockId>, c2: Cache)
    requires LostBlocks(c, tier, [v], c1) && LostBlocks(c1, tier, vs, c2)
    requires EligibleSlots(c1.mgr.recs, tier) == EligibleSlots(c.mgr.recs, tier) - {v}
    ensures LostBlocks(c, tier, [v] + vs, c2)
  {
    hide EligibleSlots;
    hide NoDup;
    hide LostRecords;
    hide LostEntries;
    hide LostPlaces;
    assert [v][0] in EligibleSlots(c.mgr.recs, tier);
    PickedThen(v, vs, EligibleSlots(c.mgr.recs, tier));
    PartsThen(c, v, c1, vs, c2);
    assert c2.mgr.pool.freeList == c.mgr.pool.freeList + ([v] + vs);
  }

  /** makeSpace under any policy that picks from its offer: it evicts a sequence of distinct eligible
      blocks of the requested tier and nothing else, and reports the number of victims; when it reports
      success that is the number asked for. */
  lemma {:induction false} MakeSpaceBase(c: Cache, evicted: nat, needed: nat, tier: Tier, now: nat,
                                         policy: EvictionPolicy)
    requires BaseInv(c) && PicksFromOffer(policy) && evicted <= needed
    ensures
      var r := MakeSpaceFrom(c, evicted, needed, tier, now, policy);
      var vs := Victims(c, needed - evicted, tier, now, policy);
      && BaseInv(r.cache)
      && LostBlocks(c, tier, vs, r.cache)
      && r.evicted == evicted + |vs|
      && (r.status == SpaceMade <==> r.evicted == needed)
    decreases needed - evicted
  {
    hide BaseInv;
    hide LostBlocks;
    hide Evicted;
    hide Victim;
    hide EligibleSlots;
    hide PicksFromOffer;
    if evicted == needed {
      LostNone(c, tier);
    } else {
      var v := Victim(c, tier, now, policy);
      VictimOk(c, tier, now, policy);
      if v.Some? {
        var c1 := Evicted(c, v.value);
        LostFirst(c, tier, v.value);
        MakeSpaceBase(c1, evicted + 1, needed, tier, now, policy);
        var vs := Victims(c1, needed - evicted - 1, tier, now, policy);
        LostThen(c, tier, v.value, c1, vs, MakeSpaceFrom(c1, evicted + 1, needed, tier, now, policy).cache);
      } else {
        LostNone(c, tier);
      }
    }
  }

  /** makeSpace keeps the whole-cache invariant. */
  lemma {:induction false} MakeSpaceOk(c: Cache, h: Hasher, evicted: nat, needed: nat, tier: Tier, now: nat,
                                       policy: EvictionPolicy)
    requires CacheInv(c, h) && PicksFromOffer(policy) && evicted <= needed
    ensures CacheInv(MakeSpaceFrom(c, evicted, needed, tier, now, policy).cache, h)
    decreases needed - evicted
  {
    hide BaseInv;
    hide IndexInv;
    hide Evicted;
    hide Victim;
    hide EligibleSlots;
    hide PicksFromOffer;
    if evicted < needed {
      var v := Victim(c, tier, now, policy);
      VictimOk(c, tier, now, policy);
      if v.Some? {
        EligibleFacts(c, tier, v.value);
        EvictedOk(c, h, v.value);
        MakeSpaceOk(Evicted(c, v.value), h, evicted + 1, needed, tier, now, policy);
      }
    }
  }

  lemma LostNone(c: Cache, tier: Tier)
    ensures LostBlocks(c, tier, [], c)
  {
  }

  // ---------- any eviction, whatever it leaves of the index ----------

  /** Pool, records, tiers and payloads do not depend on the index. */
  lemma BaseIgnoresIndex(c: Cache, m: Entries)
    requires BaseInv(c)
    ensures BaseInv(c.(index := m))
  {
    hide ManagerInv;
    hide TierInv;
    assert c.(index := m).TS() == c.TS();
  }

  lemma EvictedIgnoresIndex(c: Cache, m: Entries, id: BlockId, m': Entries)
    requires id < |c.mgr.recs|
    ensures Evicted(c.(index := m), id).(index := m') == Evicted(c, id).(index := m')
  {
    hide RemovedState;
    hide Transitioned;
  }

  /** Evicting distinct eligible blocks of a tier, in any order, keeps pool, records, tiers and payloads in
      agreement, and takes exactly these blocks. */
  lemma {:induction false} EvictAllBase(c: Cache, tier: Tier, vs: seq<BlockId>)
    requires BaseInv(c) && NoDup(vs) && AllIn(vs, EligibleSlots(c.mgr.recs, tier))
    ensures BaseInv(EvictAll(c, vs)) && LostBlocks(c, tier, vs, EvictAll(c, vs))
    decreases |vs|
  {
    hide BaseInv;
    hide LostBlocks;
    hide Evicted;
    hide EligibleSlots;
    if vs == [] {
      LostNone(c, tier);
    } else {
      assert vs[0] in EligibleSlots(c.mgr.recs, tier);
      EligibleFacts(c, tier, vs[0]);
      var c1, rest := Evicted(c, vs[0]), vs[1..];
      LostFirst(c, tier, vs[0]);
      forall i | 0 <= i < |rest| ensures rest[i] in EligibleSlots(c1.mgr.recs, tier) {
        assert rest[i] == vs[i + 1] && vs[i + 1] in EligibleSlots(c.mgr.recs, tier) && vs[0] != vs[i + 1];
      }
      EvictAllBase(c1, tier, rest);
      LostThen(c, tier, vs[0], c1, rest, EvictAll(c1, rest));
      assert [vs[0]] + rest == vs;
    }
  }

  lemma EvictsBase(c: Cache, tier: Tier, vs: seq<BlockId>, c': Cache)
    requires BaseInv(c) && Evicts(c, tier, vs, c')
    ensures BaseInv(c') && c'.bs == c.bs
    ensures LostBlocks(c, tier, vs, EvictAll(c, vs)) && c' == EvictAll(c, vs).(index := c'.index)
  {
    hide BaseInv;
    EvictAllBase(c, tier, vs);
    BaseIgnoresIndex(EvictAll(c, vs), c'.index);
  }

  lemma {:induction false} EvictAllThen(c: Cache, vs: seq<BlockId>, v: BlockId)
    requires v < |c.mgr.recs| && forall i | 0 <= i < |vs| :: vs[i] < |c.mgr.recs|
    ensures EvictAll(c, vs + [v]) == Evicted(EvictAll(c, vs), v)
    decreases |vs|
  {
    hide Evicted;
    if vs == [] {
      assert [] + [v] == [v];
      assert EvictAll(Evicted(c, v), [v][1..]) == Evicted(c, v);
    } else {
      assert (vs + [v])[1..] == vs[1..] + [v];
      EvictAllThen(Evicted(c, vs[0]), vs[1..], v);
    }
  }

  lemma NoneEvicted(c: Cache, tier: Tier)
    ensures Evicts(c, tier, [], c)
  {
  }

  /** One victim more, eligible after the others have left. */
  lemma EvictsThen(c: Cache, tier: Tier, vs: seq<BlockId>, c1: Cache, v: BlockId, c2: Cache)
    requires BaseInv(c) && Evicts(c, tier, vs, c1) && v in EligibleSlots(c1.mgr.recs, tier) && v < |c1.mgr.recs|
    requires c2 == Evicted(c1, v).(index := c2.index) && ShrunkEntries(c1.index, [v], c2.index)
    ensures Evicts(c, tier, vs + [v], c2)
  {
    hide BaseInv;
    hide Evicted;
    hide EvictAll;
    EvictsBase(c, tier, vs, c1);
    StillEligible(c, tier, vs, c1, v);
    AllSlots(c, tier, vs);
    EvictAllThen(c, vs, v);
    EvictedIgnoresIndex(EvictAll(c, vs), c1.index, v, c2.index);
    ShrunkThen(c.index, vs, c1.index, v, c2.index);
  }

  lemma AllSlots(c: Cache, tier: Tier, vs: seq<BlockId>)
    requires AllIn(vs, EligibleSlots(c.mgr.recs, tier))
    ensures forall i | 0 <= i < |vs| :: vs[i] < |c.mgr.recs|
  {
    forall i | 0 <= i < |vs| ensures vs[i] < |c.mgr.recs| {
      assert vs[i] in EligibleSlots(c.mgr.recs, tier);
    }
  }

  lemma StillEligible(c: Cache, tier: Tier, vs: seq<BlockId>, c1: Cache, v: BlockId)
    requires LostBlocks(c, tier, vs, EvictAll(c, vs)) && c1 == EvictAll(c, vs).(index := c1.index)
    requires v in EligibleSlots(c1.mgr.recs, tier)
    ensures v in EligibleSlots(c.mgr.recs, tier) && v !in vs
    ensures NoDup(vs + [v]) && AllIn(vs + [v], EligibleSlots(c.mgr.recs, tier))
  {
    hide EvictAll;
    forall i | 0 <= i < |vs| ensures vs[i] != v {
      assert vs[i] in vs;
    }
  }

  lemma ShrunkThen(m: Entries, vs: seq<BlockId>, m1: Entries, v: BlockId, m2: Entries)
    requires ShrunkEntries(m, vs, m1) && ShrunkEntries(m1, [v], m2)
    ensures ShrunkEntries(m, vs + [v], m2)
  {
    assert forall x: nat :: x in vs + [v] <==> x in vs || x == v;
  }

  lemma {:induction false} MakeSpaceIsEvictAll(c: Cache, evicted: nat, needed: nat, tier: Tier, now: nat,
                                               policy: EvictionPolicy)
    requires evicted <= needed
    ensures MakeSpaceFrom(c, evicted, needed, tier, now, policy).cache
      == EvictAll(c, Victims(c, needed - evicted, tier, now, policy))
    decreases needed - evicted
  {
    hide Evicted;
    hide Victim;
    if evicted < needed {
      var v := Victim(c, tier, now, policy);
      if v.Some? && v.value < |c.mgr.recs| {
        MakeSpaceIsEvictAll(Evicted(c, v.value), evicted + 1, needed, tier, now, policy);
        assert Victims(c, needed - evicted, tier, now, policy)[1..]
          == Victims(Evicted(c, v.value), needed - evicted - 1, tier, now, policy);
      }
    }
  }

  /** makeSpace is such an eviction, of the blocks that its policy chooses. */
  lemma MakeSpaceEvicts(c: Cache, needed: nat, tier: Tier, now: nat, policy: EvictionPolicy)
    requires BaseInv(c) && PicksFromOffer(policy)
    ensures
      var vs := Victims(c, needed, tier, now, policy);
      Evicts(c, tier, vs, MakeSpace(c, needed, tier, now, policy).cache)
  {
    hide BaseInv;
    hide LostBlocks;
    hide MakeSpaceFrom;
    hide Victims;
    hide EvictAll;
    hide Evicts;
    hide PicksFromOffer;
    MakeSpaceBase(c, 0, needed, tier, now, policy);
    MakeSpaceIsEvictAll(c, 0, needed, tier, now, policy);
    LostIsEvicted(c, tier, Victims(c, needed, tier, now, policy));
  }

  lemma LostIsEvicted(c: Cache, tier: Tier, vs: seq<BlockId>)
    requires LostBlocks(c, tier, vs, EvictAll(c, vs))
    ensures Evicts(c, tier, vs, EvictAll(c, vs))
  {
    hide EvictAll;
  }

  // ---------- LRU ----------

  /** The index of the first feature with the least last access. */
  function LruIndex(offer: seq<Features>, n: nat): (i: nat)
    requires 0 < n <= |offer|
    ensures i < n
    ensures forall j | 0 <= j < n :: offer[i].lastAccess <= offer[j].lastAccess
    ensures forall j | 0 <= j < i :: offer[i].lastAccess < offer[j].lastAccess
  {
    if n == 1 then 0
    else
      var i := LruIndex(offer, n - 1);
      if offer[n - 1].lastAccess < offer[i].lastAccess then n - 1 else i
  }

  /** LruEvictionPolicy::chooseVictim. */
  function LruVictim(ctx: EvictionContext, offer: seq<Features>): Option<BlockId> {
    if offer == [] then None else Some(offer[LruIndex(offer, |offer|)].id)
  }

  lemma LruPicksFromOffer()
    ensures PicksFromOffer(LruVictim)
  {
    forall ctx: EvictionContext, offer: seq<Features> | LruVictim(ctx, offer).Some?
      ensures exists i :: 0 <= i < |offer| && offer[i].id == LruVictim(ctx, offer).value
    {
      assert offer[LruIndex(offer, |offer|)].id == LruVictim(ctx, offer).value;
    }
  }

  /** Least recently used first; among equals, the lower slot first. */
  predicate Older(recs: seq<BlockRecord>, a: BlockId, b: BlockId)
    requires a < |recs| && b < |recs|
  {
    recs[a].lastAccess < recs[b].lastAccess || (recs[a].lastAccess == recs[b].lastAccess && a < b)
  }

  lemma LruVictimIsOldest(c: Cache, tier: Tier, now: nat)
    requires BaseInv(c)
    ensures
      var v := Victim(c, tier, now, LruVictim);
      && (v == None <==> EligibleSlots(c.mgr.recs, tier) == {})
      && (v.Some? ==>
            && v.value in EligibleSlots(c.mgr.recs, tier)
            && forall e | e in EligibleSlots(c.mgr.recs, tier) && e != v.value ::
              v.value < |c.mgr.recs| && e < |c.mgr.recs| && Older(c.mgr.recs, v.value, e))
  {
    hide BaseInv;
    hide OfferFeatures;
    hide Offer;
    hide Ascending;
    hide EligibleSlots;
    OfferOfBase(c, tier);
    var ids := Offer(c.mgr.recs, tier);
    if ids == [] {
      assert forall s: nat :: s !in EligibleSlots(c.mgr.recs, tier);
    } else {
      var offer := OfferFeatures(c.mgr.recs, c.index, c.bs, now, ids);
      OfferAccess(c, now, ids);
      var i := LruIndex(offer, |offer|);
      assert Victim(c, tier, now, LruVictim) == Some(ids[i]) && ids[i] in ids;
      forall e | e in EligibleSlots(c.mgr.recs, tier) && e != ids[i] ensures Older(c.mgr.recs, ids[i], e) {
        OldestInOffer(c.mgr.recs, ids, offer, i, e);
      }
    }
  }

  lemma OfferOfBase(c: Cache, tier: Tier)
    requires BaseInv(c)
    ensures forall s: nat :: s in Offer(c.mgr.recs, tier) <==> s in EligibleSlots(c.mgr.recs, tier)
    ensures Ascending(Offer(c.mgr.recs, tier)) && InBounds(c.mgr.recs, Offer(c.mgr.recs, tier))
    ensures forall s | s in EligibleSlots(c.mgr.recs, tier) :: s < |c.mgr.recs|
  {
    ReadyIds(c);
    OfferIs(c.mgr.recs, tier);
  }

  lemma OfferAccess(c: Cache, now: nat, ids: seq<BlockId>)
    requires InBounds(c.mgr.recs, ids)
    ensures
      var offer := OfferFeatures(c.mgr.recs, c.index, c.bs, now, ids);
      |offer| == |ids| && forall j | 0 <= j < |ids| ::
        offer[j].id == ids[j] && offer[j].lastAccess == c.mgr.recs[ids[j]].lastAccess
  {
  }

  lemma OldestInOffer(recs: seq<BlockRecord>, ids: seq<BlockId>, offer: seq<Features>, i: nat, e: BlockId)
    requires InBounds(recs, ids) && Ascending(ids) && |offer| == |ids| && i < |ids| && e in ids && e != ids[i]
    requires forall j | 0 <= j < |ids| :: offer[j].lastAccess == recs[ids[j]].lastAccess
    requires forall j | 0 <= j < |ids| :: offer[i].lastAccess <= offer[j].lastAccess
    requires forall j | 0 <= j < i :: offer[i].lastAccess < offer[j].lastAccess
    ensures e < |recs| && Older(recs, ids[i], e)
  {
    var j :| 0 <= j < |ids| && ids[j] == e;
    assert offer[j].lastAccess == recs[e].lastAccess;
    if j < i {
      assert offer[i].lastAccess < offer[j].lastAccess;
    }
  }

  ghost predicate OldestFirst(recs: seq<BlockRecord>, eligible: set<BlockId>, vs: seq<BlockId>) {
    && (forall s | s in eligible :: s < |recs|)
    && AllIn(vs, eligible)
    && (forall i, j | 0 <= i < j < |vs| :: Older(recs, vs[i], vs[j]))
    && (forall i, e | 0 <= i < |vs| && e in eligible && e !in vs :: Older(recs, vs[i], e))
  }

  lemma OldestThen(c: Cache, tier: Tier, v: BlockId, c1: Cache, vs: seq<BlockId>)
    requires v in EligibleSlots(c.mgr.recs, tier) && LostRecords(c.mgr.recs, [v], c1.mgr.recs)
    requires forall e | e in EligibleSlots(c.mgr.recs, tier) && e != v ::
      v < |c.mgr.recs| && e < |c.mgr.recs| && Older(c.mgr.recs, v, e)
    requires EligibleSlots(c1.mgr.recs, tier) == EligibleSlots(c.mgr.recs, tier) - {v}
    requires OldestFirst(c1.mgr.recs, EligibleSlots(c1.mgr.recs, tier), vs)
    ensures OldestFirst(c.mgr.recs, EligibleSlots(c.mgr.recs, tier), [v] + vs)
  {
    var e0, e1 := EligibleSlots(c.mgr.recs, tier), EligibleSlots(c1.mgr.recs, tier);
    var all := [v] + vs;
    forall s | s in e1 ensures c1.mgr.recs[s] == c.mgr.recs[s] {
    }
    forall i | 0 <= i < |vs| ensures vs[i] in e1 && vs[i] != v {
    }
    hide EligibleSlots;
    forall i, e | 0 <= i < |all| && e in e0 && e !in all ensures Older(c.mgr.recs, all[i], e) {
      assert e != v && e !in vs;
      if i > 0 {
        assert Older(c1.mgr.recs, vs[i - 1], e);
      }
    }
    forall i, j | 0 <= i < j < |all| ensures Older(c.mgr.recs, all[i], all[j]) {
      if i > 0 {
        assert Older(c1.mgr.recs, vs[i - 1], vs[j - 1]);
      }
    }
  }

  lemma LruStep(c: Cache, tier: Tier, now: nat)
    requires BaseInv(c)
    ensures Victim(c, tier, now, LruVictim) == None <==> EligibleSlots(c.mgr.recs, tier) == {}
    ensures Victim(c, tier, now, LruVictim).Some? ==>
      var v := Victim(c, tier, now, LruVictim).value;
      && v < |c.mgr.recs|
      && v in EligibleSlots(c.mgr.recs, tier)
      && BaseInv(Evicted(c, v))
      && LostRecords(c.mgr.recs, [v], Evicted(c, v).mgr.recs)
      && EligibleSlots(Evicted(c, v).mgr.recs, tier) == EligibleSlots(c.mgr.recs, tier) - {v}
      && forall e | e in EligibleSlots(c.mgr.recs, tier) && e != v :: e < |c.mgr.recs| && Older(c.mgr.recs, v, e)
  {
    LruPicksFromOffer();
    hide BaseInv;
    hide Evicted;
    hide LostBlocks;
    hide PicksFromOffer;
    hide LruVictim;
    hide Older;
    hide EligibleSlots;
    LruVictimIsOldest(c, tier, now);
    VictimOk(c, tier, now, LruVictim);
    hide Victim;
    var v := Victim(c, tier, now, LruVictim);
    if v.Some? {
      LostFirst(c, tier, v.value);
      LostGivesRecords(c, tier, [v.value], Evicted(c, v.value));
    }
  }

  /** Under LRU, makeSpace for k blocks evicts the k oldest eligible blocks of the tier, oldest first; or
      all of them, reporting failure, when there are fewer than k. */
  lemma {:induction false} LruMakeSpace(c: Cache, evicted: nat, needed: nat, tier: Tier, now: nat)
    requires BaseInv(c) && evicted <= needed
    ensures
      var r := MakeSpaceFrom(c, evicted, needed, tier, now, LruVictim);
      var vs := Victims(c, needed - evicted, tier, now, LruVictim);
      var eligible := EligibleSlots(c.mgr.recs, tier);
      && OldestFirst(c.mgr.recs, eligible, vs)
      && |vs| == Min(needed - evicted, |eligible|)
      && (r.status == SpaceMade <==> |eligible| >= needed - evicted)
    decreases needed - evicted
  {
    hide BaseInv;
    hide Evicted;
    hide OldestFirst;
    hide Older;
    hide EligibleSlots;
    hide Victim;
    hide LostRecords;
    NoneOldest(c.mgr.recs, tier);
    if evicted < needed {
      LruStep(c, tier, now);
      var v := Victim(c, tier, now, LruVictim);
      if v.Some? {
        var c1 := Evicted(c, v.value);
        LruMakeSpace(c1, evicted + 1, needed, tier, now);
        OldestThen(c, tier, v.value, c1, Victims(c1, needed - evicted - 1, tier, now, LruVictim));
      }
    }
  }

  lemma NoneOldest(recs: seq<BlockRecord>, tier: Tier)
    ensures OldestFirst(recs, EligibleSlots(recs, tier), [])
  {
  }

  lemma LostGivesRecords(c: Cache, tier: Tier, vs: seq<BlockId>, c': Cache)
    requires LostBlocks(c, tier, vs, c')
    ensures LostRecords(c.mgr.recs, vs, c'.mgr.recs)
  {
  }
}
