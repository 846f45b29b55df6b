/** src/tier/payload_store.cc, tier_store.cc and tier_manager.cc as objects, each method proved against
    the functions of TierModel. */
module Tiering {
  import opened Types
  import opened BlockLifecycle
  import opened TierModel
  import opened Blocks

  class PayloadStore {
    const maxBlocks: nat
    const bytesPerBlock: nat
    var buffers: seq<seq<Byte>>
    var freeList: seq<nat>

    function P(): Payloads
      reads this
    {
      Payloads(bytesPerBlock, buffers, freeList)
    }

    constructor (maxBlocks: nat, bytesPerBlock: nat)
      ensures this.maxBlocks == maxBlocks && P() == InitPayloads(maxBlocks, bytesPerBlock)
      ensures Sized(P(), this.maxBlocks)
    {
      this.maxBlocks, this.bytesPerBlock := maxBlocks, bytesPerBlock;
      buffers, freeList := [], [];
      new;
      if bytesPerBlock > 0 {
        buffers := seq(maxBlocks, _ => seq(bytesPerBlock, _ => 0));
        var i := 0;
        while i < maxBlocks
          invariant 0 <= i <= maxBlocks && freeList == CountDown(maxBlocks)[..i]
          invariant buffers == seq(maxBlocks, _ => seq(bytesPerBlock, _ => 0))
        {
          freeList := freeList + [maxBlocks - 1 - i];
          i := i + 1;
        }
      }
    }

    method Put(bytes: seq<Byte>) returns (r: Outcome<Option<nat>>)
      requires PutRef(P()).Some? ==>
        PutRef(P()).value < |buffers| && |buffers[PutRef(P()).value]| == bytesPerBlock
      modifies this
      ensures r.Threw? <==> PutThrows(old(P()))
      ensures r.Returned? ==> r.value == PutRef(old(P()))
      ensures P() == AfterPut(old(P()), bytes)
    {
      if bytesPerBlock == 0 {
        return Returned(None);
      }
      if freeList == [] {
        return Threw;
      }
      var slot := freeList[|freeList| - 1];
      freeList := freeList[..|freeList| - 1];
      var copyLen := Min(|bytes|, bytesPerBlock);
      if copyLen > 0 {
        buffers := buffers[slot := bytes[..copyLen] + buffers[slot][copyLen..]];
      }
      r := Returned(Some(slot));
    }

    method Get(ref: Option<nat>) returns (r: Outcome<seq<Byte>>)
      ensures r.Threw? <==> RefThrows(P(), ref)
      ensures r.Returned? ==> r.value == GetBytes(P(), ref)
    {
      if ref == None || bytesPerBlock == 0 {
        return Returned([]);
      }
      if ref.value >= |buffers| {
        return Threw;
      }
      r := Returned(buffers[ref.value]);
    }

    method Remove(ref: Option<nat>) returns (r: Outcome<()>)
      modifies this
      ensures r.Threw? <==> RefThrows(old(P()), ref)
      ensures P() == AfterRemove(old(P()), ref)
    {
      if ref == None || bytesPerBlock == 0 {
        return Returned(());
      }
      if ref.value >= |buffers| {
        return Threw;
      }
      freeList := freeList + [ref.value];
      r := Returned(());
    }

    /** With `placed` blocks in the tiers, every other slot is on the free list. */
    function BytesInUse(ghost placed: set<BlockId>, ghost recs: seq<BlockRecord>): (r: int)
      reads this
      ensures Sized(P(), maxBlocks) && SlotsInv(placed, P(), recs) ==> r == |placed| * bytesPerBlock
    {
      if bytesPerBlock == 0 then 0 else (maxBlocks - |freeList|) * bytesPerBlock
    }
  }

  class TierStore {
    const capacity: nat
    var ids: set<BlockId>

    function S(): TierSet
      reads this
    {
      TierSet(capacity, ids)
    }

    constructor (capacity: nat)
      ensures S() == TierSet(capacity, {})
    {
      this.capacity := capacity;
      ids := {};
    }

    predicate HasCapacity()
      reads this
    {
      |ids| < capacity
    }

    method Add(id: BlockId) returns (r: Outcome<()>)
      modifies this
      ensures r.Threw? <==> !old(HasCapacity())
      ensures ids == if r.Threw? then old(ids) else old(ids) + {id}
    {
      if !HasCapacity() {
        return Threw;
      }
      ids := ids + {id};
      r := Returned(());
    }

    method Remove(id: BlockId)
      modifies this
      ensures ids == old(ids) - {id}
    {
      ids := ids - {id};
    }
  }

  /** What removing a block comes to, tier by tier. */
  lemma RemovedFrom(t: TierState, id: BlockId)
    requires TierInv(t) && id < |t.recs|
    ensures TierInv(RemovedState(t, id))
    ensures id in t.tiers.Placed() ==> !RefThrows(t.payloads, t.recs[id].payload)
    ensures id !in t.tiers.Placed() ==> RemovedState(t, id) == t
    ensures
      var p := AfterRemove(t.payloads, t.recs[id].payload);
      && (id in t.tiers.gpu.ids ==> RemovedState(t, id) == TierState(t.tiers.Drop(GpuSim, id), p, t.recs))
      && (id in t.tiers.host.ids ==> RemovedState(t, id) == TierState(t.tiers.Drop(Host, id), p, t.recs))
  {
    if id in t.tiers.Placed() {
      RemoveOk(t, id);
    }
  }

  lemma PlacedHasRecord(t: TierState, id: BlockId)
    requires TierInv(t)
    ensures id >= |t.recs| ==> id !in t.tiers.Placed()
  {
  }

  lemma HalfPlacedBreaks(t: TierState, id: BlockId, tier: Tier, bytes: seq<Byte>)
    requires RefInBounds(t.payloads)
    ensures id >= |t.recs| ==> !TierInv(HalfPlaced(t, id, tier, bytes))
  {
    assert id in t.tiers.Add(tier, id).Placed();
  }

  /** Both tiers exist.  The record store may be a block manager's, or one that no block manager has. */
  class TierManager {
    const gpu: TierStore
    const host: TierStore
    const payloadStore: PayloadStore
    const blockStore: BlockStore

    constructor (gpu: TierStore, host: TierStore, payloadStore: PayloadStore, blockStore: BlockStore)
      requires gpu != host && blockStore.Valid()
      ensures this.gpu == gpu && this.host == host
      ensures this.payloadStore == payloadStore && this.blockStore == blockStore
    {
      this.gpu, this.host, this.payloadStore, this.blockStore := gpu, host, payloadStore, blockStore;
    }

    ghost function Footprint(): set<object> {
      {this, gpu, host, payloadStore, blockStore, blockStore.records}
    }

    function TS(): TierState
      reads this, gpu, host, payloadStore, blockStore.records
    {
      TierState(Tiers(gpu.S(), host.S()), payloadStore.P(), blockStore.Recs())
    }

    ghost predicate Valid()
      reads this, gpu, host, payloadStore, blockStore, blockStore.records
    {
      gpu != host && blockStore.Valid() && TierInv(TS()) && Sized(payloadStore.P(), payloadStore.maxBlocks)
    }

    function StoreOf(tier: Tier): (r: TierStore)
      reads this
      ensures r == if tier == GpuSim then gpu else host
    {
      if tier == GpuSim then gpu else host
    }

    /** Places a block; whether the tiers stay in order depends on whether one of them holds it already, and on
        whether it has a record at all. */
    method Place(id: BlockId, target: Tier, bytes: seq<Byte>) returns (r: Outcome<TierStatus>)
      requires Valid()
      modifies gpu, host, payloadStore, blockStore.records
      ensures r == PlaceResult(old(TS()), id, target)
      ensures !CanPlace(old(TS()), target) ==> Valid() && TS() == old(TS())
      ensures CanPlace(old(TS()), target) ==> RefInBounds(old(TS()).payloads)
      ensures r == Returned(Success) ==>
        TS() == PlacedState(old(TS()), id, target, bytes) && (Valid() <==> PlaceAllowed(old(TS()), id, target))
      ensures CanPlace(old(TS()), target) && r.Threw? ==>
        TS() == HalfPlaced(old(TS()), id, target, bytes) && !Valid()
    {
      hide TierInv;
      hide PlaceAllowed;
      ghost var t := TS();
      PutInBounds(t);
      if CanPlace(t, target) {
        HalfPlacedBreaks(t, id, target, bytes);
        if id < |t.recs| {
          PlaceKeepsInvIff(t, id, target, bytes);
        }
      }
      var tierStore := StoreOf(target);
      if !tierStore.HasCapacity() {
        return Returned(CapacityExceeded);
      }
      var ref := payloadStore.Put(bytes);
      if ref.Threw? {
        return Threw;
      }
      var recorded := RecordPlacement(id, target, ref.value);
      if recorded.Threw? {
        return Threw;
      }
      r := Returned(Success);
    }

    method RecordPlacement(id: BlockId, target: Tier, ref: Option<nat>) returns (r: Outcome<()>)
      requires gpu != host && blockStore.Valid() && HasCapacity(target)
      modifies gpu, host, blockStore.records
      ensures r.Threw? <==> id >= |old(TS()).recs|
      ensures TS().tiers == old(TS()).tiers.Add(target, id)
      ensures TS().payloads == old(TS()).payloads
      ensures TS().recs ==
        if id < |old(TS()).recs| then old(TS()).recs[id := old(TS()).recs[id].(tier := target, payload := ref)]
        else old(TS()).recs
    {
      var tierStore := StoreOf(target);
      var added := tierStore.Add(id);
      r := blockStore.SetTier(id, target);
      if r.Threw? {
        return;
      }
      r := blockStore.SetPayload(id, ref);
    }

    static lemma PutInBounds(t: TierState)
      requires TierInv(t)
      ensures PutRef(t.payloads).Some? ==>
        RefInBounds(t.payloads) && |t.payloads.buffers[PutRef(t.payloads).value]| == t.payloads.bytesPerBlock
    {
      if PutRef(t.payloads).Some? {
        assert PutRef(t.payloads).value in t.payloads.freeList;
      }
    }

    /** promote; demote has the same body. */
    method Promote(id: BlockId, target: Tier) returns (status: TierStatus)
      requires Valid() && id < blockStore.capacity
      modifies gpu, host, blockStore.records
      ensures Valid()
      ensures status == MoveStatus(old(TS()), id, target)
      ensures TS() == if status == Success then MovedState(old(TS()), id, target) else old(TS())
    {
      hide TierInv;
      hide ContentOf;
      ghost var t := TS();
      if MoveStatus(t, id, target) == Success {
        MoveOk(t, id, target);
      }
      var rec := blockStore.Get(id);
      var source := rec.value.tier;
      if id !in StoreOf(source).ids {
        return BlockNotFound;
      }
      if !StoreOf(target).HasCapacity() {
        return CapacityExceeded;
      }
      RecordMove(id, source, target);
      status := Success;
    }

    method RecordMove(id: BlockId, source: Tier, target: Tier)
      requires gpu != host && blockStore.Valid() && id < blockStore.capacity && HasCapacity(target)
      modifies gpu, host, blockStore.records
      ensures TS().tiers == old(TS()).tiers.Drop(source, id).Add(target, id)
      ensures TS().payloads == old(TS()).payloads
      ensures TS().recs == old(TS()).recs[id := old(TS()).recs[id].(tier := target)]
    {
      var sourceStore := StoreOf(source);
      var targetStore := StoreOf(target);
      sourceStore.Remove(id);
      SmallerSet(old(sourceStore.ids), id);
      var added := targetStore.Add(id);
      var done := blockStore.SetTier(id, target);
    }

    static lemma SmallerSet(s: set<BlockId>, id: BlockId)
      ensures |s - {id}| <= |s|
    {
    }

    method Demote(id: BlockId, target: Tier) returns (status: TierStatus)
      requires Valid() && id < blockStore.capacity
      modifies gpu, host, blockStore.records
      ensures Valid()
      ensures status == MoveStatus(old(TS()), id, target)
      ensures TS() == if status == Success then MovedState(old(TS()), id, target) else old(TS())
    {
      status := Promote(id, target);
    }

    /** Under the invariant a block without a record is in no tier. */
    method Remove(id: BlockId) returns (status: TierStatus)
      requires Valid()
      modifies gpu, host, payloadStore
      ensures Valid()
      ensures status == if id in old(TS()).tiers.Placed() then Success else BlockNotFound
      ensures TS() == if id < |old(TS()).recs| then RemovedState(old(TS()), id) else old(TS())
    {
      hide TierInv;
      hide RemovedState;
      hide ContentOf;
      ghost var t := TS();
      PlacedHasRecord(t, id);
      if id < |t.recs| {
        RemovedFrom(t, id);
      }
      var order := [gpu, host];
      var i := 0;
      while i < 2
        invariant 0 <= i <= 2 && TS() == t
        invariant i > 0 ==> id !in gpu.ids
        invariant i > 1 ==> id !in host.ids
      {
        if id in order[i].ids {
          var rec := blockStore.Get(id);
          var removed := payloadStore.Remove(rec.value.payload);
          order[i].Remove(id);
          return Success;
        }
        i := i + 1;
      }
      status := BlockNotFound;
    }

    predicate HasCapacity(tier: Tier)
      reads this, gpu, host
    {
      StoreOf(tier).HasCapacity()
    }

    method GetPayload(ref: Option<nat>) returns (r: Outcome<seq<Byte>>)
      ensures r.Threw? <==> RefThrows(payloadStore.P(), ref)
      ensures r.Returned? ==> r.value == GetBytes(payloadStore.P(), ref)
    {
      r := payloadStore.Get(ref);
    }
  }
}
