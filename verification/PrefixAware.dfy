/** What eviction policies are shown of a block, and what policies that look at the prefix tree make of it
    (src/policy/feature_builders.cc, src/policy/policies/prefix_aware_eviction.cc): stated on records and stored
    keys. */
module PrefixAware {
  import opened Types
  import opened PrefixMap
  import opened BlockLifecycle
  import opened TierModel
  import opened CacheModel
  import opened CacheTheory

  // ---------- what a policy is shown ----------

  /** k' lies exactly one block below k. */
  predicate OneBlockBelow(k': Key, k: Key, bs: nat) {
    k'.ctx == k.ctx && k.tokens < k'.tokens && |k'.tokens| == |k.tokens| + bs
  }

  predicate SomewhereBelow(k': Key, k: Key) {
    k'.ctx == k.ctx && k.tokens < k'.tokens
  }

  /** Nothing is stored one block below the block. */
  ghost predicate IsLeaf(m: Entries, bs: nat, id: BlockId) {
    forall k, k' | k in m && m[k] == id && k' in m :: !OneBlockBelow(k', k, bs)
  }

  ghost predicate ShownTrue(r: BlockRecord, id: BlockId, now: nat, f: Features) {
    && f.id == id && f.hash == r.hash && f.tier == r.tier && f.depthBlocks == r.blockIndex
    && f.lastAccess == r.lastAccess && f.accessCount == r.accessCount
    && (if now < r.lastAccess then f.age == 0 else f.age + r.lastAccess == now)
  }

  lemma RecordIsShown(recs: seq<BlockRecord>, m: Entries, bs: nat, id: BlockId, now: nat)
    requires id < |recs|
    ensures ShownTrue(recs[id], id, now, BuildFeatures(recs, m, bs, id, now))
  {
  }

  /** Where no id is stored twice: the counts are the numbers of stored keys one block below, and anywhere below, the
      key of the block, and the block is shown as shared exactly if some key is stored one block below. */
  lemma CountsAreShown(recs: seq<BlockRecord>, m: Entries, bs: nat, id: BlockId, now: nat)
    requires id < |recs| && Injective(m)
    ensures
      var f := BuildFeatures(recs, m, bs, id, now);
      && (f.isSharedPrefix <==> !IsLeaf(m, bs, id))
      && (forall k | k in m && m[k] == id ::
            && f.childCount == |set k' | k' in m.Keys && OneBlockBelow(k', k, bs)|
            && f.descendantCount == |set k' | k' in m.Keys && SomewhereBelow(k', k)|)
      && (id !in m.Values ==> f.childCount == 0 && f.descendantCount == 0)
  {
    if id in m.Values {
      var k := KeyOf(m, id);
      assert OneBelow(m, bs, k) == set k' | k' in m.Keys && OneBlockBelow(k', k, bs);
      assert Below(m, k) == set k' | k' in m.Keys && SomewhereBelow(k', k);
      if !IsLeaf(m, bs, id) {
        var k' :| k' in m && OneBlockBelow(k', k, bs);
        assert k' in OneBelow(m, bs, k);
      } else {
        assert forall k' | k' in m.Keys :: !OneBlockBelow(k', k, bs);
        assert OneBelow(m, bs, k) == {};
      }
    }
  }

  // ---------- policies that prefer unshared blocks ----------

  ghost predicate Unshared(offer: seq<Features>) {
    exists i :: 0 <= i < |offer| && !offer[i].isSharedPrefix
  }

  ghost predicate NamesUnshared(offer: seq<Features>, id: BlockId) {
    exists i :: 0 <= i < |offer| && offer[i].id == id && !offer[i].isSharedPrefix
  }

  /** Whenever an unshared block is offered, the policy takes one of these. */
  ghost predicate PrefersUnshared(policy: EvictionPolicy) {
    forall ctx: EvictionContext, offer: seq<Features> :: Unshared(offer) ==>
      policy(ctx, offer).Some? && NamesUnshared(offer, policy(ctx, offer).value)
  }

  ghost predicate HasEligibleLeaf(c: Cache, tier: Tier) {
    exists e :: e in EligibleSlots(c.mgr.recs, tier) && IsLeaf(c.index, c.bs, e)
  }

  lemma OfferShows(c: Cache, now: nat, ids: seq<BlockId>, i: nat)
    requires InBounds(c.mgr.recs, ids) && Injective(c.index) && i < |ids|
    ensures
      var offer := OfferFeatures(c.mgr.recs, c.index, c.bs, now, ids);
      && |offer| == |ids| && offer[i].id == ids[i]
      && (offer[i].isSharedPrefix <==> !IsLeaf(c.index, c.bs, ids[i]))
  {
    RecordIsShown(c.mgr.recs, c.index, c.bs, ids[i], now);
    CountsAreShown(c.mgr.recs, c.index, c.bs, ids[i], now);
  }

  /** Such a policy takes an eligible leaf of the index whenever there is one. */
  lemma ChoosesLeaf(c: Cache, tier: Tier, now: nat, policy: EvictionPolicy)
    requires BaseInv(c) && Injective(c.index) && PrefersUnshared(policy) && HasEligibleLeaf(c, tier)
    ensures
      var v := Victim(c, tier, now, policy);
      v.Some? && v.value in EligibleSlots(c.mgr.recs, tier) && IsLeaf(c.index, c.bs, v.value)
  {
    hide BaseInv;
    hide OfferFeatures;
    hide Offer;
    hide EligibleSlots;
    hide IsLeaf;
    hide Injective;
    OfferOfBase(c, tier);
    var ids := Offer(c.mgr.recs, tier);
    var offer := OfferFeatures(c.mgr.recs, c.index, c.bs, now, ids);
    forall i | 0 <= i < |ids|
      ensures |offer| == |ids| && offer[i].id == ids[i]
      ensures offer[i].isSharedPrefix <==> !IsLeaf(c.index, c.bs, ids[i])
    {
      OfferShows(c, now, ids, i);
    }
    var e :| e in EligibleSlots(c.mgr.recs, tier) && IsLeaf(c.index, c.bs, e);
    assert e in ids;
    var i :| 0 <= i < |ids| && ids[i] == e;
    assert Unshared(offer);
    var v := policy(EvictionContext(tier, now), offer);
    var j :| 0 <= j < |offer| && offer[j].id == v.value && !offer[j].isSharedPrefix;
    assert ids[j] in ids;
  }

  /** Each of the victims, in the cache that the ones before have left, is a leaf if any eligible block is. */
  ghost predicate LeavesFirst(c: Cache, tier: Tier, vs: seq<BlockId>)
    decreases |vs|
  {
    vs != [] ==>
      && (HasEligibleLeaf(c, tier) ==> IsLeaf(c.index, c.bs, vs[0]))
      && vs[0] < |c.mgr.recs| && LeavesFirst(Evicted(c, vs[0]), tier, vs[1..])
  }

  lemma {:induction false} MakeSpaceLeavesFirst(c: Cache, needed: nat, tier: Tier, now: nat, policy: EvictionPolicy)
    requires BaseInv(c) && Injective(c.index) && PicksFromOffer(policy) && PrefersUnshared(policy)
    ensures LeavesFirst(c, tier, Victims(c, needed, tier, now, policy))
    decreases needed
  {
    hide BaseInv;
    hide EligibleSlots;
    hide PicksFromOffer;
    hide PrefersUnshared;
    hide Victim;
    hide Evicted;
    hide LostBlocks;
    hide Injective;
    hide IsLeaf;
    hide HasEligibleLeaf;
    if needed > 0 {
      VictimOk(c, tier, now, policy);
      if HasEligibleLeaf(c, tier) {
        ChoosesLeaf(c, tier, now, policy);
      }
      var v := Victim(c, tier, now, policy);
      if v.Some? {
        LostFirst(c, tier, v.value);
        EvictedInjective(c, v.value);
        MakeSpaceLeavesFirst(Evicted(c, v.value), needed - 1, tier, now, policy);
      }
    }
  }

  lemma EvictedInjective(c: Cache, id: BlockId)
    requires id < |c.mgr.recs| && Injective(c.index)
    ensures Evicted(c, id).index == RemoveId(c.index, id) && Injective(Evicted(c, id).index)
  {
    hide Transitioned;
    hide RemovedState;
  }

  // ---------- which evictions strand a block ----------

  /** Every stored block has all blocks before it stored. */
  ghost predicate Unbroken(m: Entries, bs: nat) {
    forall k | k in m && |k.tokens| > bs :: Key(k.ctx, k.tokens[..|k.tokens| - bs]) in m
  }

  /** Then a lookup finds every stored block, with everything before it. */
  lemma {:induction false} UnbrokenIsFound(m: Entries, bs: nat, k: Key, n: nat)
    requires bs > 0 && Unbroken(m, bs) && k in m && n > 0 && |k.tokens| == n * bs
    ensures forall j | 1 <= j <= n :: BlockKey(bs, k.ctx, k.tokens, j) in m
    ensures |Chain(m, bs, k.ctx, k.tokens)| == n
    decreases n
  {
    assert k.tokens[..n * bs] == k.tokens;
    if n > 1 {
      assert n * bs == (n - 1) * bs + bs && (n - 1) * bs >= bs;
      var p := Key(k.ctx, k.tokens[..(n - 1) * bs]);
      assert p in m;
      UnbrokenIsFound(m, bs, p, n - 1);
      forall j | 1 <= j < n ensures BlockKey(bs, k.ctx, k.tokens, j) in m {
        FitsMono(bs, p.tokens, j, n - 1);
        assert p.tokens[..j * bs] == k.tokens[..j * bs];
        assert BlockKey(bs, k.ctx, p.tokens, j) in m;
      }
    }
    WholeChain(m, bs, k, n);
  }

  lemma WholeChain(m: Entries, bs: nat, k: Key, n: nat)
    requires bs > 0 && |k.tokens| == n * bs && forall j | 1 <= j <= n :: BlockKey(bs, k.ctx, k.tokens, j) in m
    ensures |Chain(m, bs, k.ctx, k.tokens)| == n
  {
    hide ChainFrom;
    hide BlockKey;
    var ids := Chain(m, bs, k.ctx, k.tokens);
    assert (n + 1) * bs == n * bs + bs;
    if |ids| > n {
      FitsMono(bs, k.tokens, n + 1, |ids|);
    } else if |ids| < n {
      FitsMono(bs, k.tokens, |ids| + 1, n);
    }
  }

  /** Evicting a block leaves every other stored block with all that comes before it if and only if the block is a
      leaf. */
  lemma EvictionKeepsUnbrokenIff(m: Entries, bs: nat, id: BlockId)
    requires bs > 0 && Injective(m) && Unbroken(m, bs) && forall k | k in m :: |k.tokens| >= bs
    ensures Unbroken(RemoveId(m, id), bs) <==> IsLeaf(m, bs, id)
  {
    if IsLeaf(m, bs, id) {
      LeafLeaves(m, bs, id);
    } else {
      var k, k' :| k in m && m[k] == id && k' in m && OneBlockBelow(k', k, bs);
      ChildStrands(m, bs, id, k, k');
    }
  }

  lemma LeafLeaves(m: Entries, bs: nat, id: BlockId)
    requires bs > 0 && Unbroken(m, bs) && IsLeaf(m, bs, id)
    ensures Unbroken(RemoveId(m, id), bs)
  {
    var m' := RemoveId(m, id);
    forall k | k in m' && |k.tokens| > bs ensures Key(k.ctx, k.tokens[..|k.tokens| - bs]) in m' {
      var p := Key(k.ctx, k.tokens[..|k.tokens| - bs]);
      assert p in m && OneBlockBelow(k, p, bs);
    }
  }

  lemma ChildStrands(m: Entries, bs: nat, id: BlockId, k: Key, k': Key)
    requires bs > 0 && Injective(m) && k in m && m[k] == id && k' in m && OneBlockBelow(k', k, bs) && |k.tokens| >= bs
    ensures !Unbroken(RemoveId(m, id), bs)
  {
    assert k'.tokens[..|k'.tokens| - bs] == k.tokens;
    assert k' != k;
    var m' := RemoveId(m, id);
    assert k' in m' && |k'.tokens| > bs;
    assert Key(k'.ctx, k'.tokens[..|k'.tokens| - bs]) == k && k !in m';
  }

  // ---------- the prefix-aware policy ----------

  const NS_PER_SEC := 1000000000.0

  /** PrefixAwareEvictionPolicy::score, over the reals. */
  function Score(f: Features): real {
    f.accessCount as real + 2.0 * f.childCount as real + 4.0 * (if f.isSharedPrefix then 1.0 else 0.0)
    + 2.0 * f.descendantCount as real - f.age as real / NS_PER_SEC
  }

  /** The first with the lowest score. */
  function LowestIndex(offer: seq<Features>, n: nat): (i: nat)
    requires 0 < n <= |offer|
    ensures i < n
    ensures forall j | 0 <= j < n :: Score(offer[i]) <= Score(offer[j])
    ensures forall j | 0 <= j < i :: Score(offer[i]) < Score(offer[j])
  {
    if n == 1 then 0
    else
      var i := LowestIndex(offer, n - 1);
      if Score(offer[n - 1]) < Score(offer[i]) then n - 1 else i
  }

  /** PrefixAwareEvictionPolicy::chooseVictim. */
  function PrefixAwareVictim(ctx: EvictionContext, offer: seq<Features>): Option<BlockId> {
    if offer == [] then None else Some(offer[LowestIndex(offer, |offer|)].id)
  }

  method ChooseVictim(ctx: EvictionContext, candidates: seq<Features>) returns (victim: Option<BlockId>)
    ensures victim == PrefixAwareVictim(ctx, candidates)
  {
    if candidates == [] {
      return None;
    }
    var best, bestScore := candidates[0], Score(candidates[0]);
    for i := 1 to |candidates|
      invariant best == candidates[LowestIndex(candidates, i)] && bestScore == Score(best)
    {
      var s := Score(candidates[i]);
      if s < bestScore {
        best, bestScore := candidates[i], s;
      }
    }
    victim := Some(best.id);
  }

  lemma PrefixAwarePicksFromOffer()
    ensures PicksFromOffer(PrefixAwareVictim)
  {
    forall ctx: EvictionContext, offer: seq<Features> | PrefixAwareVictim(ctx, offer).Some?
      ensures exists i :: 0 <= i < |offer| && offer[i].id == PrefixAwareVictim(ctx, offer).value
    {
      assert offer[LowestIndex(offer, |offer|)].id == PrefixAwareVictim(ctx, offer).value;
    }
  }

  ghost function ScoreOf(c: Cache, id: BlockId, now: nat): real
    requires id < |c.mgr.recs|
  {
    Score(BuildFeatures(c.mgr.recs, c.index, c.bs, id, now))
  }

  /** The victim is an eligible block with the lowest score, the lowest slot of these. */
  lemma PrefixAwareIsLowest(c: Cache, tier: Tier, now: nat)
    requires BaseInv(c)
    ensures
      var v := Victim(c, tier, now, PrefixAwareVictim);
      && (v == None <==> EligibleSlots(c.mgr.recs, tier) == {})
      && (v.Some? ==>
            && v.value in EligibleSlots(c.mgr.recs, tier) && v.value < |c.mgr.recs|
            && forall e | e in EligibleSlots(c.mgr.recs, tier) && e != v.value ::
                 && e < |c.mgr.recs|
                 && (ScoreOf(c, v.value, now) < ScoreOf(c, e, now)
                     || (ScoreOf(c, v.value, now) == ScoreOf(c, e, now) && v.value < e)))
  {
    hide BaseInv;
    hide Offer;
    hide EligibleSlots;
    hide Score;
    hide BuildFeatures;
    OfferOfBase(c, tier);
    var ids := Offer(c.mgr.recs, tier);
    if ids == [] {
      assert forall s: nat :: s !in EligibleSlots(c.mgr.recs, tier);
    } else {
      var offer := OfferFeatures(c.mgr.recs, c.index, c.bs, now, ids);
      var i := LowestIndex(offer, |offer|);
      RecordIsShown(c.mgr.recs, c.index, c.bs, ids[i], now);
      assert Victim(c, tier, now, PrefixAwareVictim) == Some(ids[i]) && ids[i] in ids;
      forall e | e in EligibleSlots(c.mgr.recs, tier) && e != ids[i]
        ensures e < |c.mgr.recs|
        ensures ScoreOf(c, ids[i], now) < ScoreOf(c, e, now)
          || (ScoreOf(c, ids[i], now) == ScoreOf(c, e, now) && ids[i] < e)
      {
        assert e in ids;
        var j :| 0 <= j < |ids| && ids[j] == e;
        assert Score(offer[j]) == ScoreOf(c, e, now);
      }
    }
  }

  /** A block with something stored one block below it is worth eight accesses more than a block with nothing below:
      it is not evicted while such a block is eligible that was last accessed no later and has been accessed less
      than eight times more often. */
  lemma PrefixAwareSpares(c: Cache, tier: Tier, now: nat, a: BlockId, b: BlockId)
    requires BaseInv(c) && Injective(c.index)
    requires a in EligibleSlots(c.mgr.recs, tier) && b in EligibleSlots(c.mgr.recs, tier)
    requires !IsLeaf(c.index, c.bs, a)
    requires forall k, k' | k in c.index && c.index[k] == b && k' in c.index :: !SomewhereBelow(k', k)
    requires c.mgr.recs[b].lastAccess <= c.mgr.recs[a].lastAccess <= now
    requires c.mgr.recs[b].accessCount < c.mgr.recs[a].accessCount + 8
    ensures Victim(c, tier, now, PrefixAwareVictim).Some? && Victim(c, tier, now, PrefixAwareVictim).value != a
  {
    hide BaseInv;
    hide Victim;
    hide BuildFeatures;
    PrefixAwareIsLowest(c, tier, now);
    RecordIsShown(c.mgr.recs, c.index, c.bs, a, now);
    RecordIsShown(c.mgr.recs, c.index, c.bs, b, now);
    SharedCounts(c.mgr.recs, c.index, c.bs, a, now);
    BareCounts(c.mgr.recs, c.index, c.bs, b, now);
    var fa := BuildFeatures(c.mgr.recs, c.index, c.bs, a, now);
    var fb := BuildFeatures(c.mgr.recs, c.index, c.bs, b, now);
    Outscores(fa, fb);
  }

  lemma SharedCounts(recs: seq<BlockRecord>, m: Entries, bs: nat, id: BlockId, now: nat)
    requires id < |recs| && Injective(m) && !IsLeaf(m, bs, id)
    ensures
      var f := BuildFeatures(recs, m, bs, id, now);
      f.isSharedPrefix && f.childCount >= 1 && f.descendantCount >= 1
  {
    CountsAreShown(recs, m, bs, id, now);
    var k, child :| k in m && m[k] == id && child in m && OneBlockBelow(child, k, bs);
    var children := set k' | k' in m.Keys && OneBlockBelow(k', k, bs);
    var below := set k' | k' in m.Keys && SomewhereBelow(k', k);
    assert child in children && child in below;
  }

  lemma BareCounts(recs: seq<BlockRecord>, m: Entries, bs: nat, id: BlockId, now: nat)
    requires id < |recs| && Injective(m)
    requires forall k, k' | k in m && m[k] == id && k' in m :: !SomewhereBelow(k', k)
    ensures
      var f := BuildFeatures(recs, m, bs, id, now);
      !f.isSharedPrefix && f.childCount == 0 && f.descendantCount == 0
  {
    CountsAreShown(recs, m, bs, id, now);
    if id in m.Values {
      var k := KeyOf(m, id);
      assert (set k' | k' in m.Keys && OneBlockBelow(k', k, bs)) == {};
      assert (set k' | k' in m.Keys && SomewhereBelow(k', k)) == {};
    }
  }

  lemma Outscores(a: Features, b: Features)
    requires a.isSharedPrefix && a.childCount >= 1 && a.descendantCount >= 1
    requires !b.isSharedPrefix && b.childCount == 0 && b.descendantCount == 0
    requires a.age <= b.age && b.accessCount < a.accessCount + 8
    ensures Score(b) < Score(a)
  {
    assert a.age as real / NS_PER_SEC <= b.age as real / NS_PER_SEC;
  }
}
