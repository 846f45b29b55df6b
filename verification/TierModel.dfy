/** Tier sets, payload slots and the record fields that go with them, as values: what place, promote,
    demote and remove of src/tier/tier_manager.cc do, over the slot store of src/tier/payload_store.cc. */
module TierModel {
  import opened Types
  import opened BlockLifecycle

  datatype TierSet = TierSet(capacity: nat, ids: set<BlockId>) {
    predicate HasCapacity() {
      |ids| < capacity
    }
  }

  datatype Tiers = Tiers(gpu: TierSet, host: TierSet) {
    function At(tier: Tier): TierSet {
      if tier == GpuSim then gpu else host
    }

    function With(tier: Tier, s: TierSet): Tiers {
      if tier == GpuSim then Tiers(s, host) else Tiers(gpu, s)
    }

    function Add(tier: Tier, id: BlockId): Tiers {
      With(tier, TierSet(At(tier).capacity, At(tier).ids + {id}))
    }

    function Drop(tier: Tier, id: BlockId): Tiers {
      With(tier, TierSet(At(tier).capacity, At(tier).ids - {id}))
    }

    function Placed(): set<BlockId> {
      gpu.ids + host.ids
    }
  }

  /** Fixed-size buffers and the list of the free ones; no buffers at all in metadata-only mode, where a
      block has zero bytes. */
  datatype Payloads = Payloads(bytesPerBlock: nat, buffers: seq<seq<Byte>>, freeList: seq<nat>)

  function InitPayloads(maxBlocks: nat, bytesPerBlock: nat): Payloads {
    if bytesPerBlock == 0 then Payloads(0, [], [])
    else Payloads(bytesPerBlock, seq(maxBlocks, _ => seq(bytesPerBlock, _ => 0)), CountDown(maxBlocks))
  }

  function Min(a: nat, b: nat): nat {
    if a < b then a else b
  }

  /** bytes copied over the front of a buffer; the tail keeps what it held. */
  function Overlay(bytes: seq<Byte>, buffer: seq<Byte>): (r: seq<Byte>)
    ensures |r| == |buffer|
    ensures r[..Min(|bytes|, |buffer|)] == bytes[..Min(|bytes|, |buffer|)]
    ensures r[Min(|bytes|, |buffer|)..] == buffer[Min(|bytes|, |buffer|)..]
  {
    bytes[..Min(|bytes|, |buffer|)] + buffer[Min(|bytes|, |buffer|)..]
  }

  predicate PutThrows(p: Payloads) {
    p.bytesPerBlock > 0 && p.freeList == []
  }

  /** The slot that put takes. */
  function PutRef(p: Payloads): Option<nat> {
    if p.bytesPerBlock == 0 || p.freeList == [] then None else Some(p.freeList[|p.freeList| - 1])
  }

  function AfterPut(p: Payloads, bytes: seq<Byte>): Payloads
    requires RefInBounds(p)
  {
    if PutRef(p) == None then p
    else
      var slot := PutRef(p).value;
      Payloads(
        p.bytesPerBlock,
        p.buffers[slot := Overlay(bytes, p.buffers[slot])],
        p.freeList[..|p.freeList| - 1])
  }

  predicate RefThrows(p: Payloads, ref: Option<nat>) {
    ref.Some? && p.bytesPerBlock > 0 && ref.value >= |p.buffers|
  }

  function GetBytes(p: Payloads, ref: Option<nat>): seq<Byte>
    requires !RefThrows(p, ref)
  {
    if ref == None || p.bytesPerBlock == 0 then [] else p.buffers[ref.value]
  }

  function AfterRemove(p: Payloads, ref: Option<nat>): Payloads {
    if ref == None || p.bytesPerBlock == 0 || RefThrows(p, ref) then p
    else Payloads(p.bytesPerBlock, p.buffers, p.freeList + [ref.value])
  }

  /** Everything the tier manager reads and writes. */
  datatype TierState = TierState(tiers: Tiers, payloads: Payloads, recs: seq<BlockRecord>)

  datatype TierStatus = Success | CapacityExceeded | BlockNotFound

  predicate CanPlace(t: TierState, tier: Tier) {
    t.tiers.At(tier).HasCapacity() && !PutThrows(t.payloads)
  }

  predicate RefInBounds(p: Payloads) {
    PutRef(p).Some? ==> PutRef(p).value < |p.buffers|
  }

  function PlacedState(t: TierState, id: BlockId, tier: Tier, bytes: seq<Byte>): TierState
    requires id < |t.recs| && RefInBounds(t.payloads)
  {
    TierState(
      t.tiers.Add(tier, id),
      AfterPut(t.payloads, bytes),
      t.recs[id := t.recs[id].(tier := tier, payload := PutRef(t.payloads))])
  }

  /** place of a block that has no record throws only after it has taken a payload slot and a place in the
      tier. */
  function HalfPlaced(t: TierState, id: BlockId, tier: Tier, bytes: seq<Byte>): TierState
    requires RefInBounds(t.payloads)
  {
    TierState(t.tiers.Add(tier, id), AfterPut(t.payloads, bytes), t.recs)
  }

  /** How place ends. */
  function PlaceResult(t: TierState, id: BlockId, tier: Tier): Outcome<TierStatus> {
    if !t.tiers.At(tier).HasCapacity() then Returned(CapacityExceeded)
    else if PutThrows(t.payloads) || id >= |t.recs| then Threw
    else Returned(Success)
  }

  /** promote and demote: the same move, in either direction. */
  function MoveStatus(t: TierState, id: BlockId, target: Tier): TierStatus
    requires id < |t.recs|
  {
    if id !in t.tiers.At(t.recs[id].tier).ids then BlockNotFound
    else if !t.tiers.At(target).HasCapacity() then CapacityExceeded
    else Success
  }

  function MovedState(t: TierState, id: BlockId, target: Tier): TierState
    requires id < |t.recs|
  {
    t.(
      tiers := t.tiers.Drop(t.recs[id].tier, id).Add(target, id),
      recs := t.recs[id := t.recs[id].(tier := target)])
  }

  /** The tier that remove finds the block in. */
  function TierOf(t: TierState, id: BlockId): Option<Tier> {
    if id in t.tiers.gpu.ids then Some(GpuSim) else if id in t.tiers.host.ids then Some(Host) else None
  }

  function RemovedState(t: TierState, id: BlockId): TierState
    requires id < |t.recs|
  {
    if TierOf(t, id) == None then t
    else if RefThrows(t.payloads, t.recs[id].payload) then t
    else
      t.(
        tiers := t.tiers.Drop(TierOf(t, id).value, id),
        payloads := AfterRemove(t.payloads, t.recs[id].payload))
  }

  // ---------- the invariant ----------

  /** The tier sets are disjoint and within capacity, and a placed block's record names its tier. */
  ghost predicate SetsInv(tiers: Tiers, recs: seq<BlockRecord>) {
    && tiers.gpu.ids !! tiers.host.ids
    && |tiers.gpu.ids| <= tiers.gpu.capacity
    && |tiers.host.ids| <= tiers.host.capacity
    && (forall id | id in tiers.Placed() :: id < |recs| && id in tiers.At(recs[id].tier).ids)
  }

  /** Every placed block owns one slot, no two the same; the rest of the slots are on the free list, once
      each. */
  ghost predicate SlotsInv(placed: set<BlockId>, p: Payloads, recs: seq<BlockRecord>) {
    && NoDup(p.freeList)
    && (forall slot | slot in p.freeList :: slot < |p.buffers|)
    && (forall id | id in placed :: id < |recs|)
    && (if p.bytesPerBlock == 0 then
          && p.buffers == [] && p.freeList == []
          && forall id | id in placed :: recs[id].payload == None
        else
          && |p.freeList| + |placed| == |p.buffers|
          && (forall slot | 0 <= slot < |p.buffers| :: |p.buffers[slot]| == p.bytesPerBlock)
          && (forall id | id in placed :: Owned(p, recs[id]))
          && (forall id, id' | id in placed && id' in placed && recs[id].payload == recs[id'].payload :: id == id'))
  }

  ghost predicate Owned(p: Payloads, r: BlockRecord) {
    r.payload.Some? && r.payload.value < |p.buffers| && r.payload.value !in p.freeList
  }

  ghost predicate TierInv(t: TierState) {
    SetsInv(t.tiers, t.recs) && SlotsInv(t.tiers.Placed(), t.payloads, t.recs)
  }

  lemma InitTierInv(gpu: nat, host: nat, maxBlocks: nat, bytesPerBlock: nat, recs: seq<BlockRecord>)
    ensures TierInv(TierState(Tiers(TierSet(gpu, {}), TierSet(host, {})), InitPayloads(maxBlocks, bytesPerBlock), recs))
  {
    var p := InitPayloads(maxBlocks, bytesPerBlock);
    var t := TierState(Tiers(TierSet(gpu, {}), TierSet(host, {})), p, recs);
    assert t.tiers.Placed() == {};
    assert NoDup(p.freeList);
  }

  /** What a reader of the block sees: the whole buffer of its slot. */
  ghost function ContentOf(t: TierState, id: BlockId): seq<Byte>
    requires TierInv(t) && id in t.tiers.Placed()
  {
    GetBytes(t.payloads, t.recs[id].payload)
  }

  // ---------- slots ----------

  lemma PutSlots(placed: set<BlockId>, p: Payloads, recs: seq<BlockRecord>, id: BlockId, bytes: seq<Byte>,
                 r: BlockRecord)
    requires SlotsInv(placed, p, recs) && !PutThrows(p) && id < |recs| && id !in placed
    requires r.payload == PutRef(p)
    ensures RefInBounds(p)
    ensures SlotsInv(placed + {id}, AfterPut(p, bytes), recs[id := r])
  {
    if p.bytesPerBlock > 0 {
      var slot := PutRef(p).value;
      assert slot in p.freeList;
      var p' := AfterPut(p, bytes);
      assert slot !in p'.freeList;
      assert forall x | x in p'.freeList :: x in p.freeList;
    }
  }

  lemma DropSlots(placed: set<BlockId>, p: Payloads, recs: seq<BlockRecord>, id: BlockId)
    requires SlotsInv(placed, p, recs) && id in placed
    ensures !RefThrows(p, recs[id].payload)
    ensures SlotsInv(placed - {id}, AfterRemove(p, recs[id].payload), recs)
  {
    if p.bytesPerBlock > 0 {
      assert Owned(p, recs[id]);
      var slot := recs[id].payload.value;
      var p' := AfterRemove(p, recs[id].payload);
      forall other | other in placed - {id} ensures Owned(p', recs[other]) {
        assert Owned(p, recs[other]);
      }
    }
  }

  // ---------- sets ----------

  lemma AddSets(tiers: Tiers, recs: seq<BlockRecord>, id: BlockId, tier: Tier, r: BlockRecord)
    requires SetsInv(tiers, recs) && tiers.At(tier).HasCapacity() && id < |recs| && id !in tiers.Placed()
    requires r.tier == tier
    ensures tiers.Add(tier, id).Placed() == tiers.Placed() + {id}
    ensures SetsInv(tiers.Add(tier, id), recs[id := r])
  {
    var tiers', recs' := tiers.Add(tier, id), recs[id := r];
    assert tiers'.Placed() == tiers.Placed() + {id};
    assert id !in tiers.gpu.ids && id !in tiers.host.ids;
    assert |tiers.At(tier).ids + {id}| == |tiers.At(tier).ids| + 1;
    forall x | x in tiers'.Placed() ensures x < |recs'| && x in tiers'.At(recs'[x].tier).ids {
      if x != id {
        assert x in tiers.Placed();
      }
    }
  }

  lemma DropSets(tiers: Tiers, recs: seq<BlockRecord>, id: BlockId)
    requires SetsInv(tiers, recs) && id in tiers.Placed()
    ensures id < |recs| && id in tiers.At(recs[id].tier).ids
    ensures tiers.Drop(recs[id].tier, id).Placed() == tiers.Placed() - {id}
    ensures SetsInv(tiers.Drop(recs[id].tier, id), recs)
  {
    assert tiers.Drop(recs[id].tier, id).Placed() == tiers.Placed() - {id};
  }

  // ---------- place ----------

  /** put and then get: the bytes written come back, on top of what the buffer held, and the slots that
      were taken before read as before. */
  lemma PutThenGet(p: Payloads, bytes: seq<Byte>, r: BlockRecord)
    requires !PutThrows(p) && (PutRef(p).Some? ==> PutRef(p).value < |p.buffers| && PutRef(p).value in p.freeList)
    requires p.bytesPerBlock > 0 ==> forall slot | 0 <= slot < |p.buffers| :: |p.buffers[slot]| == p.bytesPerBlock
    ensures
      var p' := AfterPut(p, bytes);
      var n := Min(|bytes|, p.bytesPerBlock);
      && |GetBytes(p', PutRef(p))| == p.bytesPerBlock
      && GetBytes(p', PutRef(p))[..n] == bytes[..n]
      && (Owned(p, r) ==> GetBytes(p', r.payload) == GetBytes(p, r.payload))
      && GetBytes(p', None) == GetBytes(p, None)
  {
  }

  /** The buffer that was freed last is the next one written, and its old tail shows behind a shorter payload. */
  lemma RemovedIsNext(p: Payloads, slot: nat, bytes: seq<Byte>)
    requires p.bytesPerBlock > 0 && slot < |p.buffers| && |bytes| <= |p.buffers[slot]|
    ensures
      var p' := AfterRemove(p, Some(slot));
      && PutRef(p') == Some(slot) && RefInBounds(p')
      && AfterPut(p', bytes).freeList == p.freeList
      && GetBytes(AfterPut(p', bytes), Some(slot)) == bytes + p.buffers[slot][|bytes|..]
  {
  }

  /** Placing a block that is not placed, where there is room: the invariant is kept, the block reads back
      as written (as far as both the bytes and the buffer go), and no other block's bytes change. */
  lemma PlaceOk(t: TierState, id: BlockId, tier: Tier, bytes: seq<Byte>)
    requires TierInv(t) && CanPlace(t, tier) && id < |t.recs| && id !in t.tiers.Placed()
    ensures RefInBounds(t.payloads)
    ensures
      var t' := PlacedState(t, id, tier, bytes);
      var n := Min(|bytes|, t.payloads.bytesPerBlock);
      && TierInv(t')
      && t'.tiers.Placed() == t.tiers.Placed() + {id}
      && |ContentOf(t', id)| == t.payloads.bytesPerBlock
      && ContentOf(t', id)[..n] == bytes[..n]
      && forall other | other in t.tiers.Placed() :: ContentOf(t', other) == ContentOf(t, other)
  {
    var r := t.recs[id].(tier := tier, payload := PutRef(t.payloads));
    PutSlots(t.tiers.Placed(), t.payloads, t.recs, id, bytes, r);
    AddSets(t.tiers, t.recs, id, tier, r);
    var t' := PlacedState(t, id, tier, bytes);
    assert TierInv(t');
    PlaceContents(t, id, tier, bytes);
  }

  lemma PlaceContents(t: TierState, id: BlockId, tier: Tier, bytes: seq<Byte>)
    requires TierInv(t) && CanPlace(t, tier) && id < |t.recs| && id !in t.tiers.Placed()
    requires RefInBounds(t.payloads)
    requires TierInv(PlacedState(t, id, tier, bytes))
    requires PlacedState(t, id, tier, bytes).tiers.Placed() == t.tiers.Placed() + {id}
    ensures
      var t' := PlacedState(t, id, tier, bytes);
      var n := Min(|bytes|, t.payloads.bytesPerBlock);
      && |ContentOf(t', id)| == t.payloads.bytesPerBlock
      && ContentOf(t', id)[..n] == bytes[..n]
      && forall other | other in t.tiers.Placed() :: ContentOf(t', other) == ContentOf(t, other)
  {
    hide SetsInv;
    hide AfterPut;
    PutThenGet(t.payloads, bytes, t.recs[id]);
    forall other | other in t.tiers.Placed()
      ensures ContentOf(PlacedState(t, id, tier, bytes), other) == ContentOf(t, other)
    {
      PutThenGet(t.payloads, bytes, t.recs[other]);
    }
  }

  /** Placing keeps the invariant exactly when no tier holds the block yet; a block that is placed again in its
      own tier does no harm only where no bytes are stored.  Otherwise its old payload slot is never freed, or
      two tiers hold it. */
  lemma PlaceKeepsInvIff(t: TierState, id: BlockId, tier: Tier, bytes: seq<Byte>)
    requires TierInv(t) && CanPlace(t, tier) && id < |t.recs| && RefInBounds(t.payloads)
    ensures TierInv(PlacedState(t, id, tier, bytes)) <==> PlaceAllowed(t, id, tier)
  {
    if id !in t.tiers.Placed() {
      hide TierInv;
      PlaceOk(t, id, tier, bytes);
    } else {
      PlaceAgain(t, id, tier, bytes);
    }
  }

  predicate PlaceAllowed(t: TierState, id: BlockId, tier: Tier) {
    id !in t.tiers.Placed() || (t.payloads.bytesPerBlock == 0 && id in t.tiers.At(tier).ids)
  }

  lemma PlaceAgain(t: TierState, id: BlockId, tier: Tier, bytes: seq<Byte>)
    requires TierInv(t) && CanPlace(t, tier) && id < |t.recs| && RefInBounds(t.payloads) && id in t.tiers.Placed()
    ensures TierInv(PlacedState(t, id, tier, bytes)) <==> t.payloads.bytesPerBlock == 0 && id in t.tiers.At(tier).ids
  {
    hide TierInv;
    if t.payloads.bytesPerBlock > 0 {
      AgainLeaks(t, id, tier, bytes);
    } else if id in t.tiers.At(tier).ids {
      AgainInTier(t, id, tier, bytes);
    } else {
      AgainInTwo(t, id, tier, bytes);
    }
  }

  lemma AgainLeaks(t: TierState, id: BlockId, tier: Tier, bytes: seq<Byte>)
    requires TierInv(t) && CanPlace(t, tier) && id < |t.recs| && RefInBounds(t.payloads) && id in t.tiers.Placed()
    requires t.payloads.bytesPerBlock > 0
    ensures !TierInv(PlacedState(t, id, tier, bytes))
  {
    hide SetsInv;
    var t' := PlacedState(t, id, tier, bytes);
    assert t'.tiers.Placed() == t.tiers.Placed();
    assert |t'.payloads.freeList| == |t.payloads.freeList| - 1 && |t'.payloads.buffers| == |t.payloads.buffers|;
  }

  lemma AgainInTier(t: TierState, id: BlockId, tier: Tier, bytes: seq<Byte>)
    requires TierInv(t) && CanPlace(t, tier) && id < |t.recs| && RefInBounds(t.payloads)
    requires t.payloads.bytesPerBlock == 0 && id in t.tiers.At(tier).ids
    ensures TierInv(PlacedState(t, id, tier, bytes))
  {
    assert t.tiers.At(tier).ids + {id} == t.tiers.At(tier).ids;
    assert t.tiers.Add(tier, id) == t.tiers;
  }

  lemma AgainInTwo(t: TierState, id: BlockId, tier: Tier, bytes: seq<Byte>)
    requires CanPlace(t, tier) && id < |t.recs| && RefInBounds(t.payloads)
    requires id in t.tiers.Placed() && id !in t.tiers.At(tier).ids
    ensures !TierInv(PlacedState(t, id, tier, bytes))
  {
    var t' := PlacedState(t, id, tier, bytes);
    assert id in t'.tiers.gpu.ids && id in t'.tiers.host.ids;
  }

  // ---------- move ----------

  /** Moving a block between tiers keeps the invariant, the set of placed blocks and everyone's bytes. */
  lemma MoveOk(t: TierState, id: BlockId, target: Tier)
    requires TierInv(t) && id < |t.recs| && MoveStatus(t, id, target) == Success
    ensures
      var t' := MovedState(t, id, target);
      && TierInv(t')
      && t'.tiers.Placed() == t.tiers.Placed()
      && forall other | other in t.tiers.Placed() :: ContentOf(t', other) == ContentOf(t, other)
  {
    MoveInv(t, id, target);
    hide SetsInv;
    hide MovedState;
    var t' := MovedState(t, id, target);
    assert t'.payloads == t.payloads && forall x | 0 <= x < |t.recs| :: t'.recs[x].payload == t.recs[x].payload by {
      MovePayloads(t, id, target);
    }
  }

  lemma MovePayloads(t: TierState, id: BlockId, target: Tier)
    requires id < |t.recs|
    ensures MovedState(t, id, target).payloads == t.payloads
    ensures |MovedState(t, id, target).recs| == |t.recs|
    ensures forall x | 0 <= x < |t.recs| :: MovedState(t, id, target).recs[x].payload == t.recs[x].payload
  {
  }

  lemma MoveInv(t: TierState, id: BlockId, target: Tier)
    requires TierInv(t) && id < |t.recs| && MoveStatus(t, id, target) == Success
    ensures TierInv(MovedState(t, id, target)) && MovedState(t, id, target).tiers.Placed() == t.tiers.Placed()
  {
    hide SetsInv;
    hide SlotsInv;
    hide MovedState;
    MoveSets(t, id, target);
    MovePayloads(t, id, target);
    SamePayloads(t.tiers.Placed(), t.payloads, t.recs, MovedState(t, id, target).recs);
  }

  lemma MoveSets(t: TierState, id: BlockId, target: Tier)
    requires SetsInv(t.tiers, t.recs) && id < |t.recs| && MoveStatus(t, id, target) == Success
    ensures SetsInv(MovedState(t, id, target).tiers, MovedState(t, id, target).recs)
    ensures MovedState(t, id, target).tiers.Placed() == t.tiers.Placed()
  {
    hide SetsInv;
    var source := t.recs[id].tier;
    assert id in t.tiers.Placed();
    DropSets(t.tiers, t.recs, id);
    RoomStays(t.tiers, source, target, id);
    AddSets(t.tiers.Drop(source, id), t.recs, id, target, t.recs[id].(tier := target));
    assert t.tiers.Placed() - {id} + {id} == t.tiers.Placed();
  }

  lemma RoomStays(tiers: Tiers, source: Tier, target: Tier, id: BlockId)
    requires tiers.At(target).HasCapacity()
    ensures tiers.Drop(source, id).At(target).HasCapacity()
  {
  }

  lemma SamePayloads(placed: set<BlockId>, p: Payloads, recs: seq<BlockRecord>, recs': seq<BlockRecord>)
    requires SlotsInv(placed, p, recs) && |recs'| == |recs|
    requires forall id | 0 <= id < |recs| :: recs'[id].payload == recs[id].payload
    ensures SlotsInv(placed, p, recs')
  {
    if p.bytesPerBlock > 0 {
      forall id | id in placed ensures Owned(p, recs'[id]) {
        assert Owned(p, recs[id]);
      }
    }
  }

  /** promote and demote find exactly the placed blocks, in whichever tier, and move them where the target has room. */
  lemma MoveStatusIs(t: TierState, id: BlockId, target: Tier)
    requires TierInv(t) && id < |t.recs|
    ensures MoveStatus(t, id, target) ==
      if id !in t.tiers.gpu.ids && id !in t.tiers.host.ids then BlockNotFound
      else if |t.tiers.At(target).ids| >= t.tiers.At(target).capacity then CapacityExceeded
      else Success
  {
    assert id in t.tiers.Placed() ==> id in t.tiers.At(t.recs[id].tier).ids;
  }

  // ---------- remove ----------

  /** Removing a placed block frees its slot, which was not free before, and touches no other block. */
  lemma RemoveOk(t: TierState, id: BlockId)
    requires TierInv(t) && id in t.tiers.Placed()
    ensures id < |t.recs| && TierOf(t, id) == Some(t.recs[id].tier) && !RefThrows(t.payloads, t.recs[id].payload)
    ensures
      var t' := RemovedState(t, id);
      && TierInv(t')
      && t'.tiers.Placed() == t.tiers.Placed() - {id}
      && forall other | other in t'.tiers.Placed() :: ContentOf(t', other) == ContentOf(t, other)
  {
    DropSets(t.tiers, t.recs, id);
    DropSlots(t.tiers.Placed(), t.payloads, t.recs, id);
  }

  /** A payload store with one slot per pool slot never runs out for a block that is not placed yet. */
  lemma PutNeverThrows(t: TierState, id: BlockId)
    requires TierInv(t) && id < |t.recs| && id !in t.tiers.Placed()
    requires t.payloads.bytesPerBlock > 0 ==> |t.recs| <= |t.payloads.buffers|
    ensures !PutThrows(t.payloads)
  {
    var placed := t.tiers.Placed();
    assert placed <= Upto(|t.recs|) - {id};
    SubsetSize(placed, Upto(|t.recs|) - {id});
  }

  /** So a block that is not placed yet is refused where the tier is full, and placed where it is not. */
  lemma PlaceStatusIs(t: TierState, id: BlockId, tier: Tier)
    requires TierInv(t) && id < |t.recs| && id !in t.tiers.Placed()
    requires t.payloads.bytesPerBlock > 0 ==> |t.recs| <= |t.payloads.buffers|
    ensures PlaceResult(t, id, tier)
      == Returned(if |t.tiers.At(tier).ids| >= t.tiers.At(tier).capacity then CapacityExceeded else Success)
  {
    PutNeverThrows(t, id);
  }

  lemma {:induction false} SubsetSize(a: set<nat>, b: set<nat>)
    requires a <= b
    ensures |a| <= |b|
  {
    if a != {} {
      SomeElement(a);
      var x :| x in a;
      SubsetSize(a - {x}, b - {x});
    }
  }

  /** bytesUsed: the slots that are not on the free list, out of as many as there are buffers. */
  function BytesUsed(p: Payloads, maxBlocks: nat): int {
    if p.bytesPerBlock == 0 then 0 else (maxBlocks - |p.freeList|) * p.bytesPerBlock
  }

  /** A payload store that stores bytes has as many buffers as it was made with. */
  predicate Sized(p: Payloads, maxBlocks: nat) {
    p.bytesPerBlock > 0 ==> |p.buffers| == maxBlocks
  }

  /** That is one buffer for each placed block. */
  lemma BytesUsedIsPlaced(t: TierState, maxBlocks: nat)
    requires TierInv(t) && Sized(t.payloads, maxBlocks)
    ensures BytesUsed(t.payloads, maxBlocks) == |t.tiers.Placed()| * t.payloads.bytesPerBlock
  {
  }
}
