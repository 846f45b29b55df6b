/** A block manager's records beside those that the tier manager writes into.  Only the payload references may
    differ; nothing but reading a block's bytes looks at them. */
module TwoStores {
  import opened Types
  import opened BlockLifecycle
  import opened TierModel
  import opened CacheModel
  import opened CacheTheory
  import opened CacheOps
  import opened PrefixMap

  function Refs(recs: seq<BlockRecord>): seq<Option<nat>> {
    seq(|recs|, s requires 0 <= s < |recs| => recs[s].payload)
  }

  /** The manager's records with the tier manager's references. */
  function WithRefs(own: seq<BlockRecord>, refs: seq<Option<nat>>): (r: seq<BlockRecord>)
    ensures |r| == |own|
    ensures forall s | 0 <= s < |own| :: r[s] == if s < |refs| then own[s].(payload := refs[s]) else own[s]
  {
    seq(|own|, s requires 0 <= s < |own| => if s < |refs| then own[s].(payload := refs[s]) else own[s])
  }

  function Seen(m: Manager, refs: seq<Option<nat>>): Manager {
    m.(recs := WithRefs(m.recs, refs))
  }

  lemma SeenFields(m: Manager, refs: seq<Option<nat>>)
    ensures Seen(m, refs).pool == m.pool && |Seen(m, refs).recs| == |m.recs|
    ensures forall s | 0 <= s < |m.recs| :: Seen(m, refs).recs[s].state == m.recs[s].state
    ensures forall s | 0 <= s < |m.recs| :: Seen(m, refs).recs[s].generation == m.recs[s].generation
    ensures forall s | 0 <= s < |m.recs| :: Seen(m, refs).recs[s].refcount == m.recs[s].refcount
  {
  }

  lemma OwnRefs(own: seq<BlockRecord>)
    ensures WithRefs(own, Refs(own)) == own
  {
  }

  /** Tiers and references are the same, so the tier manager sees the same. */
  ghost predicate SamePlaces(a: seq<BlockRecord>, b: seq<BlockRecord>) {
    |a| == |b| && forall s | 0 <= s < |a| :: a[s].tier == b[s].tier && a[s].payload == b[s].payload
  }

  lemma SamePlacesKeep(t: TierState, recs: seq<BlockRecord>)
    requires TierInv(t) && SamePlaces(t.recs, recs)
    ensures TierInv(t.(recs := recs)) && Refs(recs) == Refs(t.recs)
  {
    TierIgnoresRest(t, recs);
  }

  /** Where the stores are one and the same, a change of its records that keeps tiers and references leaves the
      tier manager in order; and in any case its references stay. */
  lemma TiersStay(t: TierState, recs: seq<BlockRecord>)
    requires TierInv(t) && (recs == t.recs || SamePlaces(t.recs, recs))
    ensures TierInv(t.(recs := recs)) && Refs(recs) == Refs(t.recs)
  {
    if recs != t.recs {
      SamePlacesKeep(t, recs);
    } else {
      assert t.(recs := recs) == t;
    }
  }

  /** The tier manager has a record for every slot, and the manager's own records have no references. */
  ghost predicate RefsApart(own: seq<BlockRecord>, far: seq<BlockRecord>) {
    |own| <= |far| && forall s | 0 <= s < |own| :: own[s].payload == None
  }

  lemma EnoughRecords(own: seq<BlockRecord>, far: seq<BlockRecord>)
    requires own == far || RefsApart(own, far)
    ensures |own| <= |far|
  {
  }

  lemma RefsStayApart(own: seq<BlockRecord>, own': seq<BlockRecord>, far: seq<BlockRecord>)
    requires SamePlaces(own, own')
    ensures RefsApart(own, far) ==> RefsApart(own', far)
  {
  }

  // ---------- the manager does not look at references ----------

  lemma SeenManager(m: Manager, refs: seq<Option<nat>>)
    ensures ManagerInv(Seen(m, refs)) <==> ManagerInv(m)
  {
    if ManagerInv(m) {
      forall s | 0 <= s < |m.recs| ensures SlotInv(Seen(m, refs), s) {
        assert SlotInv(m, s);
      }
    }
    if ManagerInv(Seen(m, refs)) {
      forall s | 0 <= s < |m.recs| ensures SlotInv(m, s) {
        assert SlotInv(Seen(m, refs), s);
      }
    }
  }

  lemma SeenTransition(m: Manager, refs: seq<Option<nat>>, id: BlockId, from: BlockState, to: BlockState)
    ensures Transitioned(Seen(m, refs), id, from, to) == Seen(Transitioned(m, id, from, to), refs)
  {
    var a, b := Transitioned(Seen(m, refs), id, from, to), Seen(Transitioned(m, id, from, to), refs);
    assert a.pool == b.pool && |a.recs| == |b.recs|;
    assert forall s | 0 <= s < |a.recs| :: a.recs[s] == b.recs[s];
  }

  lemma TransitionPlaces(m: Manager, id: BlockId, from: BlockState, to: BlockState)
    ensures SamePlaces(m.recs, Transitioned(m, id, from, to).recs)
    ensures |Transitioned(m, id, from, to).recs| == |m.recs|
  {
  }

  lemma SeenAcquired(recs: seq<BlockRecord>, refs: seq<Option<nat>>, id: BlockId, now: nat)
    ensures CanAcquire(WithRefs(recs, refs), id) <==> CanAcquire(recs, id)
    ensures id < |recs| ==>
      && Acquired(WithRefs(recs, refs), id, now) == WithRefs(Acquired(recs, id, now), refs)
      && SamePlaces(recs, Acquired(recs, id, now))
  {
    if id < |recs| {
      var a, b := Acquired(WithRefs(recs, refs), id, now), WithRefs(Acquired(recs, id, now), refs);
      assert forall s | 0 <= s < |a| :: a[s] == b[s];
    }
  }

  lemma SeenReleased(recs: seq<BlockRecord>, refs: seq<Option<nat>>, id: BlockId)
    requires id < |recs| && recs[id].refcount > 0
    ensures Released(WithRefs(recs, refs), id) == WithRefs(Released(recs, id), refs)
    ensures SamePlaces(recs, Released(recs, id))
  {
    var a, b := Released(WithRefs(recs, refs), id), WithRefs(Released(recs, id), refs);
    assert forall s | 0 <= s < |a| :: a[s] == b[s];
  }

  lemma SeenFetch(recs: seq<BlockRecord>, refs: seq<Option<nat>>, id: BlockId, generation: nat)
    ensures FetchLocalStatus(WithRefs(recs, refs), id, generation) == FetchLocalStatus(recs, id, generation)
  {
  }

  // ---------- nor do the candidates and what policies are shown ----------

  lemma {:induction false} SeenSafe(recs: seq<BlockRecord>, refs: seq<Option<nat>>, n: nat)
    requires n <= |recs|
    ensures SafeUpTo(WithRefs(recs, refs), n) == SafeUpTo(recs, n)
  {
    if n > 0 {
      SeenSafe(recs, refs, n - 1);
    }
  }

  lemma {:induction false} SeenTier(recs: seq<BlockRecord>, refs: seq<Option<nat>>, tier: Tier, ids: seq<BlockId>)
    ensures FilterTier(WithRefs(recs, refs), tier, ids) == FilterTier(recs, tier, ids)
    decreases |ids|
  {
    if ids != [] {
      SeenTier(recs, refs, tier, ids[..|ids| - 1]);
    }
  }

  lemma SeenOffer(recs: seq<BlockRecord>, refs: seq<Option<nat>>, tier: Tier)
    ensures SafeCandidates(WithRefs(recs, refs)) == SafeCandidates(recs)
    ensures FilterTier(WithRefs(recs, refs), tier, SafeCandidates(recs)) == FilterTier(recs, tier, SafeCandidates(recs))
    ensures Offer(WithRefs(recs, refs), tier) == FilterTier(recs, tier, SafeCandidates(recs))
  {
    SeenSafe(recs, refs, |recs|);
    SeenTier(recs, refs, tier, SafeCandidates(recs));
  }

  lemma SeenOfferFeatures(recs: seq<BlockRecord>, refs: seq<Option<nat>>, index: Entries, bs: nat, now: nat,
                          ids: seq<BlockId>)
    requires InBounds(recs, ids)
    ensures OfferFeatures(WithRefs(recs, refs), index, bs, now, ids) == OfferFeatures(recs, index, bs, now, ids)
  {
  }

  // ---------- removal from the tiers follows the reference ----------

  lemma RemovedByRef(t: TierState, recs: seq<BlockRecord>, id: BlockId)
    requires id < |t.recs| && id < |recs| && recs[id].payload == t.recs[id].payload
    ensures RemovedState(t.(recs := recs), id) == RemovedState(t, id).(recs := recs)
  {
  }

  // ---------- pinning and counting ----------

  lemma {:induction false} SeenPins(c: Cache, m: Manager, refs: seq<Option<nat>>, ids: seq<BlockId>, bs: nat, now: nat)
    requires c.mgr == Seen(m, refs)
    ensures
      var r, own := PinAll(c, ids, bs, now), PinAll(c.(mgr := m), ids, bs, now);
      && r.handles == own.handles && r.cache == c.(mgr := Seen(own.cache.mgr, refs))
      && SamePlaces(m.recs, own.cache.mgr.recs)
    decreases |ids|
  {
    hide SamePlaces;
    PlacesRefl(m.recs);
    if ids != [] {
      SeenAcquired(m.recs, refs, ids[0], now);
      if CanAcquire(m.recs, ids[0]) {
        var recs := Acquired(m.recs, ids[0], now);
        SeenReleased(recs, refs, ids[0]);
        PlacesTrans(m.recs, recs, Released(recs, ids[0]));
        var m1 := m.(recs := recs);
        var c1 := c.(mgr := Seen(m1, refs));
        assert c.(mgr := c.mgr.(recs := Acquired(c.mgr.recs, ids[0], now))) == c1;
        assert c.(mgr := m).(mgr := m1) == c1.(mgr := m1);
        SeenPins(c1, m1, refs, ids[1..], bs, now);
        PlacesTrans(m.recs, recs, PinAll(c1.(mgr := m1), ids[1..], bs, now).cache.mgr.recs);
      }
    }
  }

  lemma PlacesRefl(a: seq<BlockRecord>)
    ensures SamePlaces(a, a)
  {
  }

  lemma PlacesTrans(a: seq<BlockRecord>, b: seq<BlockRecord>, c: seq<BlockRecord>)
    requires SamePlaces(a, b) && SamePlaces(b, c)
    ensures SamePlaces(a, c)
  {
  }

  lemma SeenCounts(recs: seq<BlockRecord>, refs: seq<Option<nat>>)
    ensures SlotsWhere(WithRefs(recs, refs), IsUsed) == SlotsWhere(recs, IsUsed)
    ensures SlotsWhere(WithRefs(recs, refs), IsReady) == SlotsWhere(recs, IsReady)
  {
  }
}
