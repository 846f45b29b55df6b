/** src/core/block_pool.cc, block_store.cc, block_handle.cc and block_manager.cc as objects, each method
    proved against the functions of BlockLifecycle. */
module Blocks {
  import opened Types
  import opened BlockLifecycle

  class BlockPool {
    const capacity: nat
    var generations: seq<nat>
    var inUse: seq<bool>
    var freeList: seq<BlockId>

    function P(): Pool
      reads this
    {
      Pool(generations, inUse, freeList)
    }

    constructor (capacity: nat)
      ensures this.capacity == capacity && P() == InitPool(capacity)
    {
      this.capacity := capacity;
      generations := seq(capacity, _ => 0);
      inUse := seq(capacity, _ => false);
      freeList := [];
      new;
      var i := capacity;
      while i > 0
        invariant i <= capacity && freeList == CountDown(capacity)[..capacity - i]
        invariant generations == seq(capacity, _ => 0) && inUse == seq(capacity, _ => false)
      {
        freeList := freeList + [i - 1];
        i := i - 1;
      }
    }

    method Allocate() returns (r: Option<(BlockId, nat)>)
      requires PoolInv(P())
      modifies this
      ensures PoolInv(P())
      ensures old(freeList) == [] ==> r == None && P() == old(P())
      ensures old(freeList) != [] ==>
        CanAllocate(old(P())) && r == Some((NextId(old(P())), NextGeneration(old(P()))))
        && P() == Allocated(old(P()))
    {
      if freeList == [] {
        return None;
      }
      AllocatedInv(P());
      var id := freeList[|freeList| - 1];
      freeList := freeList[..|freeList| - 1];
      if generations[id] == 0 {
        generations := generations[id := 1];
      }
      inUse := inUse[id := true];
      r := Some((id, generations[id]));
    }

    method Free(id: BlockId) returns (r: Outcome<()>)
      requires |generations| == |inUse| == capacity
      modifies this
      ensures r.Threw? <==> !CanFree(old(P()), id)
      ensures P() == if CanFree(old(P()), id) then Freed(old(P()), id) else old(P())
    {
      if id >= capacity || !inUse[id] {
        return Threw;
      }
      inUse := inUse[id := false];
      generations := generations[id := generations[id] + 1];
      freeList := freeList + [id];
      r := Returned(());
    }

    function Available(): nat
      reads this
    {
      |freeList|
    }
  }

  type Placement = map<BlockHandle, Option<nat>>

  /** Which record of this array each handle of hs is on. */
  ghost function PlacementOf(hs: set<BlockHandle>, a: array<BlockRecord>): Placement
    reads hs
  {
    map h | h in hs && h.records == a :: h.record
  }

  ghost function Holders(p: Placement, s: nat): set<BlockHandle> {
    set h | h in p && p[h] == Some(s)
  }

  /** hs are the live handles of this record array: each record's refcount is the number of handles on
      it. */
  ghost predicate Counted(hs: set<BlockHandle>, a: array<BlockRecord>)
    reads hs, a
  {
    && (forall s: nat | s < a.Length :: a[s].refcount == |Holders(PlacementOf(hs, a), s)|)
    && (forall h | h in hs && h.records == a && h.record.Some? :: h.record.value < a.Length)
  }

  /** A new handle is one more on its record. */
  lemma HolderAdded(p: Placement, h: BlockHandle, r: Option<nat>, s: nat)
    requires h !in p
    ensures |Holders(p[h := r], s)| == |Holders(p, s)| + if r == Some(s) then 1 else 0
  {
    assert Holders(p[h := r], s) == Holders(p, s) + if r == Some(s) then {h} else {};
  }

  lemma HolderGone(p: Placement, h: BlockHandle, s: nat)
    requires h in p
    ensures |Holders(p, s)| == |Holders(p - {h}, s)| + if p[h] == Some(s) then 1 else 0
  {
    assert Holders(p - {h}, s) == Holders(p, s) - {h};
  }

  /** Handles that are empty do not count. */
  lemma EmptyUncounted(hs: set<BlockHandle>, gone: set<BlockHandle>, a: array<BlockRecord>)
    requires Counted(hs, a) && forall h | h in gone :: h.record == None
    ensures Counted(hs - gone, a)
  {
    forall s: nat | s < a.Length ensures Holders(PlacementOf(hs - gone, a), s) == Holders(PlacementOf(hs, a), s) {
    }
  }

  /** Nor do handles on another array. */
  lemma OthersUncounted(hs: set<BlockHandle>, more: set<BlockHandle>, a: array<BlockRecord>)
    requires forall h | h in more :: h.records != a
    ensures Counted(hs + more, a) <==> Counted(hs, a)
  {
    assert PlacementOf(hs + more, a) == PlacementOf(hs, a);
  }

  /** A counted handle is on a slot that exists. */
  lemma CountedInRange(hs: set<BlockHandle>, h: BlockHandle, a: array<BlockRecord>)
    requires Counted(hs, a) && h in hs && h.records == a && h.record.Some?
    ensures h.record.value < a.Length
  {
  }

  /** A move assignment takes one handle off the record that its target was on, and no other. */
  lemma HolderMoved(p: Placement, h: BlockHandle, other: BlockHandle, s: nat)
    requires h in p && other in p && h != other
    ensures
      |Holders(p, s)| == |Holders(p[h := p[other]][other := None], s)| + if p[h] == Some(s) then 1 else 0
  {
    var rest := p - {h} - {other};
    HolderGone(p, h, s);
    HolderGone(p - {h}, other, s);
    HolderAdded(rest, h, p[other], s);
    HolderAdded(rest[h := p[other]], other, None, s);
    assert p[h := p[other]][other := None] == rest[h := p[other]][other := None];
  }

  function WithRefcount(r: BlockRecord, n: nat): BlockRecord {
    r.(refcount := n)
  }

  /** A counted reference to one record; None once it has been moved from. */
  class BlockHandle {
    var records: array<BlockRecord>
    var record: Option<nat>

    constructor (records: array<BlockRecord>, record: Option<nat>, ghost hs: set<BlockHandle>)
      requires record.Some? ==> record.value < records.Length
      modifies records
      ensures this.records == records && this.record == record
      ensures record == None ==> records[..] == old(records[..])
      ensures record.Some? ==>
        var r := old(records[record.value]);
        records[..] == old(records[..])[record.value := WithRefcount(r, r.refcount + 1)]
      ensures old(Counted(hs, records)) ==> Counted(hs + {this}, records)
    {
      this.records := records;
      this.record := record;
      new;
      ghost var p := PlacementOf(hs, records);
      if record.Some? {
        var r := records[record.value];
        records[record.value] := WithRefcount(r, r.refcount + 1);
      }
      forall s: nat
        ensures |Holders(p[this := record], s)| == |Holders(p, s)| + if record == Some(s) then 1 else 0
      {
        HolderAdded(p, this, record, s);
      }
      assert PlacementOf(hs + {this}, records) == p[this := record];
    }

    /** The destructor: the handle is live before, and no longer after. */
    method Destroy(ghost hs: set<BlockHandle>)
      requires this in hs && Counted(hs, records)
      modifies records
      ensures Counted(hs - {this}, records)
      ensures record == None ==> records[..] == old(records[..])
      ensures record.Some? ==>
        var r := old(records[record.value]);
        r.refcount > 0 && records[..] == old(records[..])[record.value := WithRefcount(r, r.refcount - 1)]
    {
      ghost var p := PlacementOf(hs, records);
      forall s: nat
        ensures |Holders(p, s)| == |Holders(p - {this}, s)| + if p[this] == Some(s) then 1 else 0
      {
        HolderGone(p, this, s);
      }
      if record.Some? {
        var r := records[record.value];
        records[record.value] := WithRefcount(r, r.refcount - 1);
      }
      assert PlacementOf(hs - {this}, records) == p - {this};
    }

    /** Move construction: the new handle takes over, the old one is empty, and nothing is counted. */
    constructor MoveFrom(other: BlockHandle, ghost hs: set<BlockHandle>)
      requires other in hs && Counted(hs, other.records)
      modifies other`record
      ensures records == other.records && record == old(other.record) && other.record == None
      ensures Counted(hs + {this}, records)
    {
      records := other.records;
      record := other.record;
      new;
      other.record := None;
      ghost var p := old(PlacementOf(hs, other.records));
      forall s: nat ensures |Holders(p[this := p[other]][other := None], s)| == |Holders(p, s)| {
        HolderAdded(p, this, None, s);
        HolderMoved(p[this := None], this, other, s);
        assert p[this := None][this := p[other]][other := None] == p[this := p[other]][other := None];
      }
      assert PlacementOf(hs + {this}, records) == p[this := p[other]][other := None];
    }

    method TakeOver(other: BlockHandle)
      requires other != this
      modifies this, other
      ensures records == old(other.records) && record == old(other.record)
      ensures other.records == old(other.records) && other.record == None
    {
      records := other.records;
      record := other.record;
      other.record := None;
    }

    /** Move assignment, within one store or from another: the record held before loses a handle, the other
        one's is taken over, and the handles of both stores still are counted; self-assignment changes
        nothing. */
    method MoveAssign(other: BlockHandle, ghost hs: set<BlockHandle>)
      requires this in hs && other in hs && Counted(hs, records) && Counted(hs, other.records)
      modifies this, other, records
      ensures records == old(other.records) && other.records == old(other.records)
      ensures record == old(other.record)
      ensures Counted(hs, old(records)) && Counted(hs, records)
      ensures other != this ==> other.record == None
      ensures other == this || old(record) == None ==> old(records)[..] == old(records[..])
      ensures other != this && old(record).Some? ==>
        var r := old(records[record.value]);
        r.refcount > 0 && old(records)[..] == old(records[..])[old(record).value := WithRefcount(r, r.refcount - 1)]
    {
      hide Counted;
      hide CountsAre;
      hide Holders;
      CountedIs(hs, records);
      CountedIs(hs, other.records);
      if this != other {
        ghost var from, to := records, other.records;
        ghost var p, q := PlacementOf(hs, from), PlacementOf(hs, to);
        CountsLeave(from[..], p, this, other, from == to);
        if from != to {
          CountsTake(to[..], q, this, other);
        }
        if record.Some? {
          var r := records[record.value];
          records[record.value] := WithRefcount(r, r.refcount - 1);
        }
        TakeOver(other);
        CountedIs(hs, from);
        if from == to {
          assert PlacementOf(hs, from) == AfterLeave(p, this, other, true);
        } else {
          assert PlacementOf(hs, from) == AfterLeave(p, this, other, false);
          assert PlacementOf(hs, to) == AfterTake(q, this, other);
          CountedIs(hs, to);
        }
      }
    }
  }

  ghost predicate CountsAre(recs: seq<BlockRecord>, p: Placement) {
    && (forall s: nat | s < |recs| :: recs[s].refcount == |Holders(p, s)|)
    && (forall h | h in p && p[h].Some? :: p[h].value < |recs|)
  }

  lemma CountedIs(hs: set<BlockHandle>, a: array<BlockRecord>)
    ensures Counted(hs, a) <==> CountsAre(a[..], PlacementOf(hs, a))
  {
    var p := PlacementOf(hs, a);
    assert forall h :: h in p <==> h in hs && h.records == a;
    assert forall h | h in p :: p[h] == h.record;
    assert forall s: nat | s < a.Length :: a[..][s] == a[s];
  }

  /** Where the handles of a store are once h has left it for other's place; or, within one store, has moved
      to other's place. */
  ghost function AfterLeave(p: Placement, h: BlockHandle, other: BlockHandle, same: bool): Placement
    requires same ==> other in p
  {
    if same then p[h := p[other]][other := None] else p - {h}
  }

  function OneLess(recs: seq<BlockRecord>, r: Option<nat>): seq<BlockRecord>
    requires r.Some? ==> r.value < |recs| && recs[r.value].refcount > 0
  {
    if r == None then recs else recs[r.value := WithRefcount(recs[r.value], recs[r.value].refcount - 1)]
  }

  lemma CountsLeave(recs: seq<BlockRecord>, p: Placement, h: BlockHandle, other: BlockHandle, same: bool)
    requires CountsAre(recs, p) && h in p && h != other && (same ==> other in p)
    ensures p[h].Some? ==> p[h].value < |recs| && recs[p[h].value].refcount > 0
    ensures CountsAre(OneLess(recs, p[h]), AfterLeave(p, h, other, same))
  {
    var p' := AfterLeave(p, h, other, same);
    forall s: nat ensures |Holders(p, s)| == |Holders(p', s)| + if p[h] == Some(s) then 1 else 0 {
      if same {
        HolderMoved(p, h, other, s);
      } else {
        HolderGone(p, h, s);
      }
    }
    hide Holders;
  }

  ghost function AfterTake(q: Placement, h: BlockHandle, other: BlockHandle): Placement
    requires other in q
  {
    q[h := q[other]][other := None]
  }

  lemma CountsTake(recs: seq<BlockRecord>, q: Placement, h: BlockHandle, other: BlockHandle)
    requires CountsAre(recs, q) && h !in q && other in q
    ensures CountsAre(recs, AfterTake(q, h, other))
  {
    forall s: nat ensures |Holders(q, s)| == |Holders(AfterTake(q, h, other), s)| {
      HolderAdded(q, h, None, s);
      HolderMoved(q[h := None], h, other, s);
      assert q[h := None][h := q[other]][other := None] == q[h := q[other]][other := None];
    }
  }

  class BlockStore {
    const capacity: nat
    const records: array<BlockRecord>

    ghost predicate Valid()
      reads this
    {
      records.Length == capacity
    }

    function Recs(): seq<BlockRecord>
      reads records
    {
      records[..]
    }

    constructor (capacity: nat)
      ensures Valid() && this.capacity == capacity && fresh(records)
      ensures Recs() == seq(capacity, _ => EMPTY_RECORD)
    {
      this.capacity := capacity;
      records := new BlockRecord[capacity](_ => EMPTY_RECORD);
    }

    /** Whether this generation of the slot still is the one in the record.  A fetch under it is never
        reported stale, and a fetch under one that does not exist is never served. */
    function Exists(id: BlockId, generation: nat): (r: bool)
      requires Valid()
      reads this, records
      ensures r ==> FetchLocalStatus(Recs(), id, generation) != StaleGeneration
      ensures !r ==> FetchLocalStatus(Recs(), id, generation) != Hit
      ensures !r && id < |Recs()| && Recs()[id].generation > 0 ==>
        FetchLocalStatus(Recs(), id, generation) == StaleGeneration
    {
      if id >= capacity then false else records[id].generation == generation
    }

    method Get(id: BlockId) returns (r: Outcome<BlockRecord>)
      requires Valid()
      ensures r == if id < |Recs()| then Returned(Recs()[id]) else Threw
    {
      if id >= capacity {
        return Threw;
      }
      r := Returned(records[id]);
    }

    method Initialize(id: BlockId, generation: nat, hash: ContentHash, blockIndex: nat, tokenCount: nat, tier: Tier,
                      initialState: BlockState) returns (r: Outcome<()>)
      requires Valid()
      modifies records
      ensures r.Threw? <==> id >= capacity
      ensures Recs() ==
        if r.Threw? then old(Recs())
        else old(Recs())[id := BlockRecord(id, generation, hash, blockIndex, tokenCount, tier, 0, 0, 0, None,
                                           initialState)]
    {
      if id >= capacity {
        return Threw;
      }
      records[id] := BlockRecord(id, generation, hash, blockIndex, tokenCount, tier, 0, 0, 0, None, initialState);
      r := Returned(());
    }

    method SetState(id: BlockId, state: BlockState) returns (r: Outcome<()>)
      requires Valid()
      modifies records
      ensures r.Threw? <==> id >= capacity
      ensures Recs() == if r.Threw? then old(Recs()) else old(Recs())[id := old(Recs())[id].(state := state)]
    {
      if id >= capacity {
        return Threw;
      }
      records[id] := records[id].(state := state);
      r := Returned(());
    }

    method SetTier(id: BlockId, tier: Tier) returns (r: Outcome<()>)
      requires Valid()
      modifies records
      ensures r.Threw? <==> id >= capacity
      ensures Recs() == if r.Threw? then old(Recs()) else old(Recs())[id := old(Recs())[id].(tier := tier)]
    {
      if id >= capacity {
        return Threw;
      }
      records[id] := records[id].(tier := tier);
      r := Returned(());
    }

    method SetPayload(id: BlockId, payload: Option<nat>) returns (r: Outcome<()>)
      requires Valid()
      modifies records
      ensures r.Threw? <==> id >= capacity
      ensures Recs() == if r.Threw? then old(Recs()) else old(Recs())[id := old(Recs())[id].(payload := payload)]
    {
      if id >= capacity {
        return Threw;
      }
      records[id] := records[id].(payload := payload);
      r := Returned(());
    }

    method MarkAccessed(id: BlockId, now: nat) returns (r: Outcome<()>)
      requires Valid()
      modifies records
      ensures r.Threw? <==> id >= capacity
      ensures r.Threw? ==> Recs() == old(Recs())
      ensures r.Returned? ==>
        var rec := old(Recs())[id];
        Recs() == old(Recs())[id := rec.(lastAccess := now, accessCount := rec.accessCount + 1)]
    {
      if id >= capacity {
        return Threw;
      }
      records[id] := records[id].(lastAccess := now, accessCount := records[id].accessCount + 1);
      r := Returned(());
    }

    method CreateHandle(id: BlockId, ghost hs: set<BlockHandle>) returns (r: Outcome<BlockHandle>)
      requires Valid()
      modifies records
      ensures r.Threw? <==> id >= capacity
      ensures r.Threw? ==> Recs() == old(Recs())
      ensures r.Returned? ==>
        && fresh(r.value) && r.value.records == records && r.value.record == Some(id)
        && Recs() == old(Recs())[id := WithRefcount(old(Recs())[id], old(Recs())[id].refcount + 1)]
        && (old(Counted(hs, records)) ==> Counted(hs + {r.value}, records))
    {
      if id >= capacity {
        return Threw;
      }
      var h := new BlockHandle(records, Some(id), hs);
      r := Returned(h);
    }
  }

  datatype FetchResult = FetchResult(status: FetchStatus, handle: Option<BlockHandle>)

  class BlockManager {
    const pool: BlockPool
    const store: BlockStore

    ghost predicate Valid()
      reads this, pool, store, store.records
    {
      && store.Valid()
      && pool.capacity == store.capacity
      && ManagerInv(View())
    }

    function View(): Manager
      reads this, pool, store, store.records
    {
      Manager(pool.P(), store.Recs())
    }

    constructor (capacity: nat)
      ensures Valid() && View() == InitManager(capacity) && fresh(pool) && fresh(store) && fresh(store.records)
    {
      InitManagerInv(capacity);
      pool := new BlockPool(capacity);
      store := new BlockStore(capacity);
    }

    method CreateBlock(hash: ContentHash, blockIndex: nat, tokenCount: nat, tier: Tier)
      returns (r: Option<(BlockId, nat)>)
      requires Valid()
      modifies pool, store.records
      ensures Valid()
      ensures r.None? <==> old(pool.freeList) == []
      ensures r.None? ==> View() == old(View())
      ensures r.Some? ==>
        && CanCreate(old(View()))
        && r == Some((NextId(old(pool.P())), NextGeneration(old(pool.P()))))
        && View() == Created(old(View()), hash, blockIndex, tokenCount, tier)
    {
      if pool.freeList != [] {
        CreatedInv(View(), hash, blockIndex, tokenCount, tier);
      }
      r := pool.Allocate();
      if r == None {
        return;
      }
      var (id, generation) := r.value;
      var done := store.Initialize(id, generation, hash, blockIndex, tokenCount, tier, Admitting);
    }

    method Acquire(id: BlockId, now: nat, ghost hs: set<BlockHandle>) returns (r: Option<BlockHandle>)
      requires Valid()
      modifies store.records
      ensures Valid()
      ensures r.Some? <==> CanAcquire(old(store.Recs()), id)
      ensures r.None? ==> View() == old(View())
      ensures r.Some? ==>
        && fresh(r.value) && r.value.records == store.records && r.value.record == Some(id)
        && store.Recs() == Acquired(old(store.Recs()), id, now) && pool.P() == old(pool.P())
        && (old(Counted(hs, store.records)) ==> Counted(hs + {r.value}, store.records))
      ensures r.Some? ==>
        var rec := old(store.Recs())[id];
        store.Recs() == old(store.Recs())[id :=
          rec.(lastAccess := now, accessCount := rec.accessCount + 1, refcount := rec.refcount + 1)]
    {
      if id >= pool.capacity {
        return None;
      }
      var rec := store.Get(id);
      if rec.value.generation == 0 || rec.value.state != Ready {
        return None;
      }
      AcquiredInv(View(), id, now);
      var done := store.MarkAccessed(id, now);
      var h := store.CreateHandle(id, hs);
      assert store.Recs() == Acquired(old(store.Recs()), id, now);
      assert View() == old(View()).(recs := Acquired(old(store.Recs()), id, now));
      r := Some(h.value);
    }

    method FetchLocal(id: BlockId, generation: nat, now: nat, ghost hs: set<BlockHandle>) returns (r: FetchResult)
      requires Valid()
      modifies store.records
      ensures Valid()
      ensures r.status == FetchLocalStatus(old(store.Recs()), id, generation)
      ensures r.status == Hit <==> r.handle.Some?
      ensures r.status != Hit ==> View() == old(View())
      ensures r.status == Hit ==>
        && fresh(r.handle.value) && r.handle.value.records == store.records && r.handle.value.record == Some(id)
        && store.Recs() == Acquired(old(store.Recs()), id, now) && pool.P() == old(pool.P())
        && (old(Counted(hs, store.records)) ==> Counted(hs + {r.handle.value}, store.records))
    {
      if id >= pool.capacity {
        return FetchResult(NotFound, None);
      }
      var rec := store.Get(id);
      if rec.value.generation == 0 {
        return FetchResult(NotFound, None);
      }
      if rec.value.generation != generation {
        return FetchResult(StaleGeneration, None);
      }
      if rec.value.state != Ready {
        return FetchResult(NotFound, None);
      }
      AcquiredInv(View(), id, now);
      var done := store.MarkAccessed(id, now);
      var h := store.CreateHandle(id, hs);
      assert store.Recs() == Acquired(old(store.Recs()), id, now);
      assert View() == old(View()).(recs := Acquired(old(store.Recs()), id, now));
      r := FetchResult(Hit, Some(h.value));
    }

    /** Throws as the source does; a transition out of Free is the one that may leave the manager
        invalid. */
    method TransitionState(id: BlockId, from: BlockState, to: BlockState) returns (r: Outcome<()>)
      requires Valid()
      modifies pool, store.records
      ensures View() == Transitioned(old(View()), id, from, to)
      ensures r.Threw? <==> TransitionThrows(old(View()), id, from, to)
      ensures from != Free || r.Threw? ==> Valid()
    {
      ghost var m := View();
      if !TransitionThrows(m, id, from, to) {
        TransitionKeepsInvIff(m, id, from, to);
      } else if !TransitionRefused(m.recs, id, from, to) {
        FreeNeverThrows(m, id, from);
      }
      var rec := store.Get(id);
      if rec.Threw? {
        return Threw;
      }
      if rec.value.state != from {
        return Threw;
      }
      if !IsLegalTransition(from, to) {
        return Threw;
      }
      if from == Ready && to == Evicting {
        if rec.value.refcount > 0 {
          return Threw;
        }
      }
      var done := store.SetState(id, to);
      r := Returned(());
      if to == Free {
        r := pool.Free(id);
      }
    }

    method FreeBlock(id: BlockId) returns (r: Outcome<()>)
      requires Valid()
      modifies pool, store.records
      ensures Valid()
      ensures View() == Transitioned(old(View()), id, Evicting, Free)
      ensures r.Threw? <==> TransitionThrows(old(View()), id, Evicting, Free)
    {
      r := TransitionState(id, Evicting, Free);
    }

    function Available(): nat
      reads pool
    {
      pool.Available()
    }
  }
}
