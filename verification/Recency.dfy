/** What an access does to a block's recency, and what LRU makes of it (src/core/block_store.cc,
    src/core/block_manager.cc, src/policy/policies/lru_eviction.cc): stated on the fields of the records. */
module Recency {
  import opened Types
  import opened PrefixMap
  import opened BlockLifecycle
  import opened TierModel
  import opened CacheModel
  import opened CacheTheory
  import opened AdmitTheory
  import opened CacheOps

  // ---------- what an access changes ----------

  function Times(ids: seq<BlockId>, s: nat): nat {
    multiset(ids)[s]
  }

  /** b is a after accesses to the blocks ids at this time, of which those in pinned have got a handle: the last
      access is that time, the count has gone up by one for each access, and nothing else has changed. */
  ghost predicate Accessed(a: seq<BlockRecord>, ids: seq<BlockId>, pinned: seq<BlockId>, now: nat, b: seq<BlockRecord>)
  {
    && |b| == |a|
    && forall s: nat | s < |a| ::
         && b[s].lastAccess == (if s in ids then now else a[s].lastAccess)
         && b[s].accessCount == a[s].accessCount + Times(ids, s)
         && b[s].refcount == a[s].refcount + Times(pinned, s)
         && b[s] == a[s].(lastAccess := b[s].lastAccess, accessCount := b[s].accessCount, refcount := b[s].refcount)
  }

  /** Which of the blocks a pinned lookup has accessed: those it has pinned and, where it stopped at a block of
      another size, that one. */
  ghost function AccessedIds(recs: seq<BlockRecord>, ids: seq<BlockId>, pinned: nat): seq<BlockId>
    requires pinned <= |ids|
  {
    if pinned < |ids| && CanAcquire(recs, ids[pinned]) then ids[..pinned + 1] else ids[..pinned]
  }

  lemma TimesCons(id: BlockId, ids: seq<BlockId>, s: nat)
    ensures Times([id] + ids, s) == Times(ids, s) + if s == id then 1 else 0
    ensures s in [id] + ids <==> s == id || s in ids
  {
    assert multiset([id] + ids) == multiset{id} + multiset(ids);
  }

  lemma AccessedThen(a: seq<BlockRecord>, id: BlockId, ids: seq<BlockId>, pinned: seq<BlockId>, now: nat,
                     b: seq<BlockRecord>)
    requires CanAcquire(a, id) && Accessed(Acquired(a, id, now), ids, pinned, now, b)
    ensures Accessed(a, [id] + ids, [id] + pinned, now, b)
  {
    var a1 := Acquired(a, id, now);
    forall s: nat | s < |a|
      ensures b[s].lastAccess == if s in [id] + ids then now else a[s].lastAccess
      ensures b[s].accessCount == a[s].accessCount + Times([id] + ids, s)
      ensures b[s].refcount == a[s].refcount + Times([id] + pinned, s)
      ensures b[s] == a[s].(lastAccess := b[s].lastAccess, accessCount := b[s].accessCount, refcount := b[s].refcount)
    {
      TimesCons(id, ids, s);
      TimesCons(id, pinned, s);
    }
  }

  /** r is what pinning these blocks one after the other comes to: it stops at the first block that is not available
      or has another size, and accesses each block once for each time it is listed up to there. */
  ghost predicate PinnedUpTo(c: Cache, ids: seq<BlockId>, bs: nat, now: nat, r: LookupResult) {
    var n := |r.handles|;
    && n <= |ids| && r.handles == ids[..n]
    && (forall i | 0 <= i < n :: CanPin(c.mgr.recs, ids[i], bs))
    && (n < |ids| ==> !CanPin(c.mgr.recs, ids[n], bs))
    && Accessed(c.mgr.recs, AccessedIds(c.mgr.recs, ids, n), r.handles, now, r.cache.mgr.recs)
    && r.cache == c.(mgr := c.mgr.(recs := r.cache.mgr.recs))
  }

  /** Pinning block by block, whatever the blocks are and whatever state the records are in. */
  lemma {:induction false} PinAllAccesses(c: Cache, ids: seq<BlockId>, bs: nat, now: nat)
    ensures PinnedUpTo(c, ids, bs, now, PinAll(c, ids, bs, now))
    decreases |ids|
  {
    hide PinnedUpTo;
    if ids == [] || !CanAcquire(c.mgr.recs, ids[0]) {
      PinsNothing(c, ids, bs, now);
    } else if c.mgr.recs[ids[0]].tokenCount != Truncated16(bs) {
      PinsAndDrops(c, ids, bs, now);
    } else {
      var c1 := c.(mgr := c.mgr.(recs := Acquired(c.mgr.recs, ids[0], now)));
      PinAllAccesses(c1, ids[1..], bs, now);
      PinsFirst(c, ids, bs, now, PinAll(c1, ids[1..], bs, now));
    }
  }

  lemma PinsNothing(c: Cache, ids: seq<BlockId>, bs: nat, now: nat)
    requires ids == [] || !CanAcquire(c.mgr.recs, ids[0])
    ensures PinnedUpTo(c, ids, bs, now, LookupResult(c, []))
  {
    hide Accessed;
    NoAccess(c.mgr.recs, now);
  }

  lemma PinsAndDrops(c: Cache, ids: seq<BlockId>, bs: nat, now: nat)
    requires ids != [] && CanAcquire(c.mgr.recs, ids[0]) && c.mgr.recs[ids[0]].tokenCount != Truncated16(bs)
    ensures
      var recs := Released(Acquired(c.mgr.recs, ids[0], now), ids[0]);
      PinnedUpTo(c, ids, bs, now, LookupResult(c.(mgr := c.mgr.(recs := recs)), []))
  {
    hide Accessed;
    OneAccess(c.mgr.recs, ids[0], now);
    assert ids[..1] == [ids[0]];
  }

  lemma PinsFirst(c: Cache, ids: seq<BlockId>, bs: nat, now: nat, rest: LookupResult)
    requires ids != [] && CanPin(c.mgr.recs, ids[0], bs)
    requires PinnedUpTo(c.(mgr := c.mgr.(recs := Acquired(c.mgr.recs, ids[0], now))), ids[1..], bs, now, rest)
    ensures PinnedUpTo(c, ids, bs, now, LookupResult(rest.cache, [ids[0]] + rest.handles))
  {
    hide Accessed;
    hide AccessedIds;
    hide CanPin;
    hide CanAcquire;
    hide Acquired;
    var tail, n := ids[1..], |rest.handles|;
    FirstIsAvailable(c.mgr.recs, ids[0], bs, now);
    var recs := Acquired(c.mgr.recs, ids[0], now);
    AccessedThen(c.mgr.recs, ids[0], AccessedIds(recs, tail, n), rest.handles, now, rest.cache.mgr.recs);
    MoreAccessed(c.mgr.recs, ids, bs, n, now);
    assert [ids[0]] + tail[..n] == ids[..n + 1];
    forall i | 0 <= i < n + 1 ensures CanPin(c.mgr.recs, ids[i], bs) {
      if i > 0 {
        assert ids[i] == tail[i - 1];
        SamePinnable(c.mgr.recs, ids[0], ids[i], bs, now);
      }
    }
    if n < |tail| {
      assert ids[n + 1] == tail[n];
      SamePinnable(c.mgr.recs, ids[0], ids[n + 1], bs, now);
    }
  }

  lemma FirstIsAvailable(recs: seq<BlockRecord>, id: BlockId, bs: nat, now: nat)
    requires CanPin(recs, id, bs)
    ensures CanAcquire(recs, id) && id < |recs| && |Acquired(recs, id, now)| == |recs|
  {
  }

  lemma MoreAccessed(recs: seq<BlockRecord>, ids: seq<BlockId>, bs: nat, n: nat, now: nat)
    requires ids != [] && CanPin(recs, ids[0], bs) && n <= |ids| - 1
    ensures
      AccessedIds(recs, ids, n + 1) == [ids[0]] + AccessedIds(Acquired(recs, ids[0], now), ids[1..], n)
  {
    var tail := ids[1..];
    assert [ids[0]] + tail[..n] == ids[..n + 1];
    if n < |tail| {
      assert ids[n + 1] == tail[n];
      assert [ids[0]] + tail[..n + 1] == ids[..n + 2];
    }
  }

  lemma NoAccess(a: seq<BlockRecord>, now: nat)
    ensures Accessed(a, [], [], now, a)
  {
  }

  lemma OneAccess(a: seq<BlockRecord>, id: BlockId, now: nat)
    requires id < |a|
    ensures Accessed(a, [id], [], now, Released(Acquired(a, id, now), id))
  {
  }

  lemma SamePinnable(recs: seq<BlockRecord>, id: BlockId, other: BlockId, bs: nat, now: nat)
    requires id < |recs|
    ensures CanPin(Acquired(recs, id, now), other, bs) <==> CanPin(recs, other, bs)
  {
  }

  // ---------- lookup, serve and admission renew ----------

  /** b is a after one access to each of the blocks ids at this time. */
  ghost predicate Renewed(a: seq<BlockRecord>, ids: seq<BlockId>, now: nat, b: seq<BlockRecord>) {
    && |b| == |a|
    && forall s: nat | s < |a| ::
         if s in ids then b[s].lastAccess == now && b[s].accessCount == a[s].accessCount + 1
         else b[s].lastAccess == a[s].lastAccess && b[s].accessCount == a[s].accessCount
  }

  lemma OnceEach(ids: seq<BlockId>, s: nat)
    requires NoDup(ids)
    ensures Times(ids, s) == if s in ids then 1 else 0
  {
    if s in ids {
      var i :| 0 <= i < |ids| && ids[i] == s;
      assert ids == ids[..i] + [s] + ids[i + 1..];
      var before, after := ids[..i], ids[i + 1..];
      forall j | 0 <= j < |before| ensures before[j] != s {
        assert before[j] == ids[j];
      }
      forall j | 0 <= j < |after| ensures after[j] != s {
        assert after[j] == ids[i + 1 + j];
      }
    }
  }

  /** Under the invariant a lookup renews exactly the blocks on which it returns handles. */
  lemma LookupRenews(c: Cache, h: Hasher, ctx: ContextHash, tokens: seq<Token>, now: nat)
    requires CacheInv(c, h)
    ensures
      var r := LookupPrefix(c, ctx, tokens, now);
      Renewed(c.mgr.recs, r.handles, now, r.cache.mgr.recs)
  {
    hide CacheInv;
    hide PinAll;
    hide Times;
    InvBase(c, h);
    var ids := Chain(c.index, c.bs, ctx, tokens);
    PinAllAccesses(c, ids, c.bs, now);
    LookupOk(c, h, ctx, tokens, now);
    var r := LookupPrefix(c, ctx, tokens, now);
    LongestChainUnique(c.index, c.bs, ctx, tokens, ids, r.handles);
    forall s: nat ensures Times(r.handles, s) == if s in r.handles then 1 else 0 {
      OnceEach(r.handles, s);
    }
  }

  /** A block served is renewed, and no other; a serve that fails changes nothing. */
  lemma ServeRenews(c: Cache, id: BlockId, generation: nat, now: nat)
    ensures
      var r := Serve(c, id, generation, now);
      && Renewed(c.mgr.recs, if r.status == ServeOk then [id] else [], now, r.cache.mgr.recs)
      && (r.status != ServeOk ==> r.cache == c)
  {
  }

  /** Evicting changes no access data. */
  lemma EvictionRenewsNone(c: Cache, tier: Tier, vs: seq<BlockId>, c': Cache)
    requires BaseInv(c) && Evicts(c, tier, vs, c')
    ensures Renewed(c.mgr.recs, [], 0, c'.mgr.recs)
  {
    hide BaseInv;
    hide EvictAll;
    EvictsBase(c, tier, vs, c');
  }

  lemma NewRecordIs(c: Cache, cand: Candidate, tier: Tier, now: nat, index: Entries)
    requires CanCreate(c.mgr) && CanAllocate(c.mgr.pool) && RefInBounds(c.payloads)
    ensures
      var id, recs := NextId(c.mgr.pool), WithBlock(c, cand, tier, now, index).mgr.recs;
      && id < |recs| == |c.mgr.recs| && recs[id].lastAccess == now && recs[id].accessCount == 1
      && recs[id].tier == tier
      && forall s | 0 <= s < |recs| && s != id :: recs[s] == c.mgr.recs[s]
  {
  }

  /** An admitted block has been accessed once, at the time of its admission; the others keep what they had. */
  lemma AdmissionRenews(c: Cache, cand: Candidate, now: nat, pol: Policies, r: AdmitResult)
    requires BaseInv(c) && Admits(c, cand, now, pol, r)
    ensures |r.cache.mgr.recs| == |c.mgr.recs|
    ensures r.handle.Some? ==>
      && r.handle.value < |r.cache.mgr.recs|
      && r.cache.mgr.recs[r.handle.value].lastAccess == now && r.cache.mgr.recs[r.handle.value].accessCount == 1
    ensures forall s: nat | s < |c.mgr.recs| && r.handle != Some(s) ::
      && r.cache.mgr.recs[s].lastAccess == c.mgr.recs[s].lastAccess
      && r.cache.mgr.recs[s].accessCount == c.mgr.recs[s].accessCount
  {
    hide BaseInv;
    hide Admits;
    hide Evicts;
    hide Refusal;
    hide Ancestors;
    hide InsertChain;
    hide WithBlock;
    AdmitKeepsBase(c, cand, now, pol, r);
    if r.status == Admitted {
      var tier, vs, mid, index := AdmitsShape(c, cand, now, pol, r);
      EvictionRenewsNone(c, tier, vs, mid);
      NewRecordIs(mid, cand, tier, now, index);
    }
  }

  // ---------- what LRU makes of it ----------

  /** LRU takes a block only after all the others that were accessed less recently: where every eligible block
      outside `recent` was last accessed before every one inside, a victim in `recent` comes after all of the
      others. */
  lemma RecentGoLast(c: Cache, recent: set<BlockId>, needed: nat, tier: Tier, now: nat)
    requires BaseInv(c)
    requires forall s, t | s in EligibleSlots(c.mgr.recs, tier) && t in EligibleSlots(c.mgr.recs, tier) ::
      s !in recent && t in recent ==> c.mgr.recs[s].lastAccess < c.mgr.recs[t].lastAccess
    ensures
      var vs := Victims(c, needed, tier, now, LruVictim);
      forall i, s | 0 <= i < |vs| && vs[i] in recent && s in EligibleSlots(c.mgr.recs, tier) && s !in recent ::
        s in vs[..i]
  {
    hide BaseInv;
    hide Victims;
    hide EligibleSlots;
    LruMakeSpace(c, 0, needed, tier, now);
    var vs, eligible := Victims(c, needed, tier, now, LruVictim), EligibleSlots(c.mgr.recs, tier);
    forall i, s | 0 <= i < |vs| && vs[i] in recent && s in eligible && s !in recent ensures s in vs[..i] {
      LaterVictim(c.mgr.recs, eligible, vs, i, s);
    }
  }

  lemma LaterVictim(recs: seq<BlockRecord>, eligible: set<BlockId>, vs: seq<BlockId>, i: nat, s: BlockId)
    requires OldestFirst(recs, eligible, vs) && i < |vs| && s in eligible
    requires recs[s].lastAccess < recs[vs[i]].lastAccess
    ensures s in vs[..i]
  {
    if s in vs {
      var j :| 0 <= j < |vs| && vs[j] == s;
      assert j < i ==> vs[..i][j] == s;
    }
  }

  /** Handles have been given out or have ended since; everything else is as it was. */
  ghost predicate HandlesDiffer(a: seq<BlockRecord>, b: seq<BlockRecord>) {
    |b| == |a| && forall s | 0 <= s < |a| :: b[s] == a[s].(refcount := b[s].refcount)
  }

  /** A looked-up prefix is safe from LRU for as long as there is anything else: if the lookup came later than every
      access before, then whatever handles have ended since, makeSpace takes none of its blocks before all other
      eligible blocks of the tier are gone. */
  lemma LookupProtects(c: Cache, h: Hasher, ctx: ContextHash, tokens: seq<Token>, at: nat, c': Cache, needed: nat,
                       tier: Tier, now: nat)
    requires CacheInv(c, h) && BaseInv(c')
    requires forall s | 0 <= s < |c.mgr.recs| :: c.mgr.recs[s].lastAccess < at
    requires HandlesDiffer(LookupPrefix(c, ctx, tokens, at).cache.mgr.recs, c'.mgr.recs)
    ensures
      var hits, vs := LookupPrefix(c, ctx, tokens, at).handles, Victims(c', needed, tier, now, LruVictim);
      forall i, s | 0 <= i < |vs| && vs[i] in hits && s in EligibleSlots(c'.mgr.recs, tier) && s !in hits ::
        s in vs[..i]
  {
    hide CacheInv;
    hide BaseInv;
    hide LookupPrefix;
    hide Victims;
    InvBase(c, h);
    LookupRenews(c, h, ctx, tokens, at);
    var r := LookupPrefix(c, ctx, tokens, at);
    var hits := set s | s in r.handles;
    var eligible := EligibleSlots(c'.mgr.recs, tier);
    forall s, t | s in eligible && t in eligible && s !in hits && t in hits
      ensures c'.mgr.recs[s].lastAccess < c'.mgr.recs[t].lastAccess
    {
    }
    RecentGoLast(c', hits, needed, tier, now);
  }
}
