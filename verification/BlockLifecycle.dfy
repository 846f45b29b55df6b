/** The block pool, the record store and the state machine over them, as values: what each operation of
    src/core/block_pool.cc, block_store.cc and block_manager.cc does, and what every run keeps. */
module BlockLifecycle {
  import opened Types

  // ---------- the pool ----------

  datatype Pool = Pool(generations: seq<nat>, inUse: seq<bool>, freeList: seq<BlockId>)

  ghost predicate NoDup(s: seq<nat>) {
    forall i, j | 0 <= i < j < |s| :: s[i] != s[j]
  }

  /** The free list holds each slot that is not in use, once. */
  ghost predicate PoolInv(p: Pool) {
    && |p.generations| == |p.inUse|
    && NoDup(p.freeList)
    && forall s: nat :: s in p.freeList <==> s < |p.inUse| && !p.inUse[s]
  }

  /** The list size-1, ..., 1, 0, whose back is 0. */
  function CountDown(size: nat): (r: seq<nat>)
    ensures |r| == size && forall i | 0 <= i < size :: r[i] == size - 1 - i
  {
    seq(size, i requires 0 <= i < size => size - 1 - i)
  }

  function InitPool(capacity: nat): Pool {
    Pool(seq(capacity, _ => 0), seq(capacity, _ => false), CountDown(capacity))
  }

  lemma InitPoolInv(capacity: nat)
    ensures PoolInv(InitPool(capacity))
  {
    var p := InitPool(capacity);
    forall s: nat | s < capacity ensures s in p.freeList {
      assert p.freeList[capacity - 1 - s] == s;
    }
  }

  /** The slot that allocate takes, with the generation it gives it. */
  function NextId(p: Pool): BlockId
    requires p.freeList != []
  {
    p.freeList[|p.freeList| - 1]
  }

  function NextGeneration(p: Pool): nat
    requires p.freeList != [] && NextId(p) < |p.generations|
  {
    if p.generations[NextId(p)] == 0 then 1 else p.generations[NextId(p)]
  }

  predicate CanAllocate(p: Pool) {
    p.freeList != [] && NextId(p) < |p.generations| == |p.inUse|
  }

  function Allocated(p: Pool): Pool
    requires CanAllocate(p)
  {
    Pool(
      p.generations[NextId(p) := NextGeneration(p)],
      p.inUse[NextId(p) := true],
      p.freeList[..|p.freeList| - 1])
  }

  predicate CanFree(p: Pool, id: BlockId) {
    id < |p.generations| == |p.inUse| && p.inUse[id]
  }

  function Freed(p: Pool, id: BlockId): Pool
    requires CanFree(p, id)
  {
    Pool(p.generations[id := p.generations[id] + 1], p.inUse[id := false], p.freeList + [id])
  }

  lemma AllocatedInv(p: Pool)
    requires PoolInv(p) && p.freeList != []
    ensures CanAllocate(p) && !p.inUse[NextId(p)] && PoolInv(Allocated(p))
  {
    var id := NextId(p);
    assert id in p.freeList;
    var p' := Allocated(p);
    forall s: nat ensures s in p'.freeList <==> s < |p'.inUse| && !p'.inUse[s] {
      if s in p.freeList && s != id {
        var i :| 0 <= i < |p.freeList| && p.freeList[i] == s;
        assert p'.freeList[i] == s;
      }
    }
  }

  lemma FreedInv(p: Pool, id: BlockId)
    requires PoolInv(p) && CanFree(p, id)
    ensures PoolInv(Freed(p, id))
  {
    assert id !in p.freeList;
    var p' := Freed(p, id);
    forall s: nat ensures s in p'.freeList <==> s < |p'.inUse| && !p'.inUse[s] {
      assert s in p'.freeList <==> s in p.freeList || s == id;
    }
  }

  /** The slot that was freed last is the next one taken, under a newer generation. */
  lemma FreedIsNext(p: Pool, id: BlockId)
    requires CanFree(p, id)
    ensures
      var p' := Freed(p, id);
      && CanAllocate(p') && NextId(p') == id && NextGeneration(p') == p.generations[id] + 1
      && Allocated(p').freeList == p.freeList
  {
  }

  /** The pool after n allocations. */
  function Taken(capacity: nat, n: nat): Pool {
    if n == 0 then InitPool(capacity)
    else if CanAllocate(Taken(capacity, n - 1)) then Allocated(Taken(capacity, n - 1)) else Taken(capacity, n - 1)
  }

  /** A fresh pool hands out slot 0, 1, 2, ..., each under generation 1, until there are none left. */
  lemma {:induction false} SlotsInOrder(capacity: nat, n: nat)
    requires n <= capacity
    ensures
      var p := Taken(capacity, n);
      && p.freeList == CountDown(capacity)[..capacity - n] && |p.generations| == |p.inUse| == capacity
      && (forall s | n <= s < capacity :: p.generations[s] == 0)
      && (n < capacity ==> CanAllocate(p) && NextId(p) == n && NextGeneration(p) == 1)
      && (n == capacity ==> !CanAllocate(p))
  {
    if n > 0 {
      SlotsInOrder(capacity, n - 1);
    }
  }

  ghost function InUseSlots(p: Pool): set<nat> {
    set s | s in Upto(|p.inUse|) && p.inUse[s]
  }

  lemma {:induction false} NoDupSize(s: seq<nat>, all: set<nat>)
    requires NoDup(s) && forall x: nat :: x in s <==> x in all
    ensures |s| == |all|
  {
    if s == [] {
      assert all == {};
    } else {
      var last := s[|s| - 1];
      var front := s[..|s| - 1];
      forall x: nat ensures x in front <==> x in all - {last} {
        if x in all - {last} {
          var i :| 0 <= i < |s| && s[i] == x;
          assert front[i] == x;
        }
      }
      NoDupSize(front, all - {last});
    }
  }

  /** Free and in-use slots add up to the capacity. */
  lemma PoolConserves(p: Pool)
    requires PoolInv(p)
    ensures |p.freeList| + |InUseSlots(p)| == |p.inUse|
  {
    var all := Upto(|p.inUse|);
    NoDupSize(p.freeList, all - InUseSlots(p));
    assert InUseSlots(p) <= all;
  }

  // ---------- records and the block manager ----------

  datatype BlockRecord = BlockRecord(
    id: BlockId,
    generation: nat,
    hash: ContentHash,
    blockIndex: nat,
    tokenCount: nat,
    tier: Tier,
    refcount: nat,
    lastAccess: nat,
    accessCount: nat,
    payload: Option<nat>,
    state: BlockState)

  const EMPTY_RECORD: BlockRecord :=
    BlockRecord(0, 0, ContentHash(0, 0), 0, 0, GpuSim, 0, 0, 0, None, Free)

  /** The pool and the record array, slot by slot. */
  datatype Manager = Manager(pool: Pool, recs: seq<BlockRecord>)

  function InitManager(capacity: nat): Manager {
    Manager(InitPool(capacity), seq(capacity, _ => EMPTY_RECORD))
  }

  predicate IsLegalTransition(from: BlockState, to: BlockState) {
    match from
    case Free => to == Admitting || to == Fetching
    case Admitting => to == Ready || to == Free
    case Fetching => to == Ready || to == Free
    case Ready => to == Migrating || to == Evicting
    case Migrating => to == Ready
    case Evicting => to == Free
  }

  /** What pool and record agree on for one slot: a record is Free exactly when its slot is not in use, a
      used slot carries the pool's generation, an unused one is behind it (or was never used), and only
      Ready or Migrating blocks have handles. */
  ghost predicate SlotInv(m: Manager, s: nat)
    requires s < |m.recs| == |m.pool.inUse| == |m.pool.generations|
  {
    var r := m.recs[s];
    && (r.state == Free <==> !m.pool.inUse[s])
    && (m.pool.inUse[s] ==> r.generation == m.pool.generations[s] && r.generation > 0 && r.id == s)
    && (!m.pool.inUse[s] ==>
          m.pool.generations[s] == if r.generation == 0 then 0 else r.generation + 1)
    && (r.refcount > 0 ==> r.state == Ready || r.state == Migrating)
  }

  ghost predicate ManagerInv(m: Manager) {
    && PoolInv(m.pool)
    && |m.recs| == |m.pool.inUse|
    && forall s | 0 <= s < |m.recs| :: SlotInv(m, s)
  }

  lemma InitManagerInv(capacity: nat)
    ensures ManagerInv(InitManager(capacity))
  {
    InitPoolInv(capacity);
  }

  /** createBlock: a fresh record in state Admitting, or no block when the pool is empty. */
  function Created(m: Manager, hash: ContentHash, blockIndex: nat, tokenCount: nat, tier: Tier): (m': Manager)
    requires m.pool.freeList != [] && NextId(m.pool) < |m.recs| == |m.pool.generations| == |m.pool.inUse|
  {
    var id, g := NextId(m.pool), NextGeneration(m.pool);
    Manager(
      Allocated(m.pool),
      m.recs[id := BlockRecord(id, g, hash, blockIndex, tokenCount, tier, 0, 0, 0, None, Admitting)])
  }

  lemma CreatedInv(m: Manager, hash: ContentHash, blockIndex: nat, tokenCount: nat, tier: Tier)
    requires ManagerInv(m) && m.pool.freeList != []
    ensures NextId(m.pool) < |m.recs| && m.recs[NextId(m.pool)].state == Free
    ensures ManagerInv(Created(m, hash, blockIndex, tokenCount, tier))
  {
    AllocatedInv(m.pool);
    assert SlotInv(m, NextId(m.pool));
    var m' := Created(m, hash, blockIndex, tokenCount, tier);
    forall s | 0 <= s < |m'.recs| ensures SlotInv(m', s) {
      assert SlotInv(m, s);
    }
  }

  predicate CanAcquire(recs: seq<BlockRecord>, id: BlockId) {
    id < |recs| && recs[id].generation != 0 && recs[id].state == Ready
  }

  function Touched(r: BlockRecord, now: nat): BlockRecord {
    r.(lastAccess := now, accessCount := r.accessCount + 1)
  }

  /** acquire on an available block: marked as accessed, and one handle more. */
  function Acquired(recs: seq<BlockRecord>, id: BlockId, now: nat): seq<BlockRecord>
    requires id < |recs|
  {
    recs[id := Touched(recs[id], now).(refcount := recs[id].refcount + 1)]
  }

  /** The end of a handle. */
  function Released(recs: seq<BlockRecord>, id: BlockId): seq<BlockRecord>
    requires id < |recs| && recs[id].refcount > 0
  {
    recs[id := recs[id].(refcount := recs[id].refcount - 1)]
  }

  datatype FetchStatus = Hit | NotFound | StaleGeneration

  function FetchLocalStatus(recs: seq<BlockRecord>, id: BlockId, generation: nat): FetchStatus {
    if id >= |recs| then NotFound
    else if recs[id].generation == 0 then NotFound
    else if recs[id].generation != generation then StaleGeneration
    else if recs[id].state != Ready then NotFound
    else Hit
  }

  /** transitionState refuses: wrong current state, illegal step, or an eviction under a live handle. */
  predicate TransitionRefused(recs: seq<BlockRecord>, id: BlockId, from: BlockState, to: BlockState) {
    || id >= |recs|
    || recs[id].state != from
    || !IsLegalTransition(from, to)
    || (from == Ready && to == Evicting && recs[id].refcount > 0)
  }

  /** The state after transitionState.  When the pool refuses the free, the record is already changed. */
  function Transitioned(m: Manager, id: BlockId, from: BlockState, to: BlockState): Manager {
    if TransitionRefused(m.recs, id, from, to) then m
    else
      var m' := m.(recs := m.recs[id := m.recs[id].(state := to)]);
      if to == Free && CanFree(m.pool, id) then m'.(pool := Freed(m.pool, id)) else m'
  }

  predicate TransitionThrows(m: Manager, id: BlockId, from: BlockState, to: BlockState) {
    TransitionRefused(m.recs, id, from, to) || (to == Free && !CanFree(m.pool, id))
  }

  /** The one hole of the transition table: it lets a Free record become Admitting or Fetching behind the
      pool's back.  Otherwise every transition that does not throw keeps pool and records in agreement. */
  lemma TransitionKeepsInvIff(m: Manager, id: BlockId, from: BlockState, to: BlockState)
    requires ManagerInv(m) && !TransitionThrows(m, id, from, to)
    ensures ManagerInv(Transitioned(m, id, from, to)) <==> from != Free
  {
    var m' := Transitioned(m, id, from, to);
    assert SlotInv(m, id);
    if from == Free {
      assert !SlotInv(m', id);
    } else {
      if to == Free {
        FreedInv(m.pool, id);
      }
      forall s | 0 <= s < |m'.recs| ensures SlotInv(m', s) {
        assert SlotInv(m, s);
      }
    }
  }

  /** The hole at its smallest: one slot, never used; the step is legal, does not throw, and leaves a record
      in use whose slot the pool still counts as free. */
  lemma FreeSlotEscapes()
    ensures
      var m := InitManager(1);
      var m' := Transitioned(m, 0, Free, Admitting);
      && ManagerInv(m) && !TransitionThrows(m, 0, Free, Admitting)
      && !ManagerInv(m') && m'.recs[0].state == Admitting && m'.pool.freeList == [0]
  {
    InitManagerInv(1);
    var m := InitManager(1);
    assert m.pool.freeList[0] == 0;
    TransitionKeepsInvIff(m, 0, Free, Admitting);
  }

  // The lives of a block: computed here, or fetched and then moved between tiers; or given up halfway.
  const COMPUTED: seq<BlockState> := [Free, Admitting, Ready, Evicting, Free]
  const FETCHED: seq<BlockState> := [Free, Fetching, Ready, Migrating, Ready]
  const COMPUTED_IN_VAIN: seq<BlockState> := [Free, Admitting, Free]
  const FETCHED_IN_VAIN: seq<BlockState> := [Free, Fetching, Free]

  predicate StepOf(life: seq<BlockState>, from: BlockState, to: BlockState) {
    |life| >= 2 && ((life[0] == from && life[1] == to) || StepOf(life[1..], from, to))
  }

  lemma FirstStep(a: BlockState, rest: seq<BlockState>, life: seq<BlockState>, from: BlockState, to: BlockState)
    requires life == [a] + rest
    ensures StepOf(life, from, to) <==> (rest != [] && from == a && to == rest[0]) || StepOf(rest, from, to)
  {
    assert life[1..] == rest;
  }

  /** The legal transitions are the steps of these lives, and no others. */
  lemma LegalSteps(from: BlockState, to: BlockState)
    ensures IsLegalTransition(from, to) <==>
      || StepOf(COMPUTED, from, to) || StepOf(FETCHED, from, to)
      || StepOf(COMPUTED_IN_VAIN, from, to) || StepOf(FETCHED_IN_VAIN, from, to)
  {
    hide StepOf;
    LastStep(Free, from, to);
    LastStep(Ready, from, to);
    FirstStep(Evicting, [Free], [Evicting, Free], from, to);
    FirstStep(Ready, [Evicting, Free], [Ready, Evicting, Free], from, to);
    FirstStep(Admitting, [Ready, Evicting, Free], [Admitting, Ready, Evicting, Free], from, to);
    FirstStep(Free, [Admitting, Ready, Evicting, Free], COMPUTED, from, to);
    FirstStep(Migrating, [Ready], [Migrating, Ready], from, to);
    FirstStep(Ready, [Migrating, Ready], [Ready, Migrating, Ready], from, to);
    FirstStep(Fetching, [Ready, Migrating, Ready], [Fetching, Ready, Migrating, Ready], from, to);
    FirstStep(Free, [Fetching, Ready, Migrating, Ready], FETCHED, from, to);
    FirstStep(Admitting, [Free], [Admitting, Free], from, to);
    FirstStep(Free, [Admitting, Free], COMPUTED_IN_VAIN, from, to);
    FirstStep(Fetching, [Free], [Fetching, Free], from, to);
    FirstStep(Free, [Fetching, Free], FETCHED_IN_VAIN, from, to);
  }

  lemma LastStep(a: BlockState, from: BlockState, to: BlockState)
    ensures !StepOf([a], from, to)
  {
  }

  /** With pool and records in agreement the pool never refuses a free: the double-free throw of
      BlockPool::free cannot happen. */
  lemma FreeNeverThrows(m: Manager, id: BlockId, from: BlockState)
    requires ManagerInv(m) && !TransitionRefused(m.recs, id, from, Free)
    ensures !TransitionThrows(m, id, from, Free)
  {
    assert SlotInv(m, id);
  }

  /** With pool and records in agreement a transition goes through exactly where the block is in the state it is said to
      be in, the step is legal, and it is not an eviction of a block with handles; and then it changes the state of
      that record, and nothing else of any. */
  lemma TransitionSucceedsIff(m: Manager, id: BlockId, from: BlockState, to: BlockState)
    requires ManagerInv(m)
    ensures !TransitionThrows(m, id, from, to) <==>
      && id < |m.recs| && m.recs[id].state == from && IsLegalTransition(from, to)
      && (to == Evicting ==> m.recs[id].refcount == 0)
    ensures !TransitionThrows(m, id, from, to) ==>
      Transitioned(m, id, from, to).recs == m.recs[id := m.recs[id].(state := to)]
  {
    if !TransitionRefused(m.recs, id, from, to) && to == Free {
      FreeNeverThrows(m, id, from);
    }
  }

  lemma AcquiredInv(m: Manager, id: BlockId, now: nat)
    requires ManagerInv(m) && CanAcquire(m.recs, id)
    ensures ManagerInv(m.(recs := Acquired(m.recs, id, now)))
  {
    var m' := m.(recs := Acquired(m.recs, id, now));
    forall s | 0 <= s < |m'.recs| ensures SlotInv(m', s) {
      assert SlotInv(m, s);
    }
  }

  lemma ReleasedInv(m: Manager, id: BlockId)
    requires ManagerInv(m) && id < |m.recs| && m.recs[id].refcount > 0
    ensures ManagerInv(m.(recs := Released(m.recs, id)))
  {
    var m' := m.(recs := Released(m.recs, id));
    forall s | 0 <= s < |m'.recs| ensures SlotInv(m', s) {
      assert SlotInv(m, s);
    }
  }

  // ---------- runs ----------

  /** One call of the manager's interface, or the end of a handle. */
  datatype Op =
    | OpCreate(hash: ContentHash, blockIndex: nat, tokenCount: nat, tier: Tier)
    | OpAcquire(id: BlockId, now: nat)
    | OpFetch(id: BlockId, generation: nat, now: nat)
    | OpTransition(id: BlockId, from: BlockState, to: BlockState)
    | OpRelease(id: BlockId)

  /** What callers owe: no transition out of Free, and a handle ends only if there is one. */
  predicate Allowed(m: Manager, op: Op) {
    match op
    case OpTransition(_, from, _) => from != Free
    case OpRelease(id) => id < |m.recs| && m.recs[id].refcount > 0
    case _ => true
  }

  function Step(m: Manager, op: Op): (m': Manager)
    requires Allowed(m, op)
  {
    match op
    case OpCreate(hash, blockIndex, tokenCount, tier) =>
      if CanCreate(m) then Created(m, hash, blockIndex, tokenCount, tier) else m
    case OpAcquire(id, now) =>
      if CanAcquire(m.recs, id) then m.(recs := Acquired(m.recs, id, now)) else m
    case OpFetch(id, generation, now) =>
      if FetchLocalStatus(m.recs, id, generation) == Hit then m.(recs := Acquired(m.recs, id, now)) else m
    case OpTransition(id, from, to) => Transitioned(m, id, from, to)
    case OpRelease(id) => m.(recs := Released(m.recs, id))
  }

  lemma StepInv(m: Manager, op: Op)
    requires ManagerInv(m) && Allowed(m, op)
    ensures ManagerInv(Step(m, op)) && |Step(m, op).recs| == |m.recs|
  {
    match op
    case OpCreate(hash, blockIndex, tokenCount, tier) =>
      if m.pool.freeList != [] {
        CreatedInv(m, hash, blockIndex, tokenCount, tier);
      }
    case OpAcquire(id, now) =>
      if CanAcquire(m.recs, id) {
        AcquiredInv(m, id, now);
      }
    case OpFetch(id, generation, now) =>
      if FetchLocalStatus(m.recs, id, generation) == Hit {
        AcquiredInv(m, id, now);
      }
    case OpTransition(id, from, to) =>
      if !TransitionRefused(m.recs, id, from, to) {
        if to == Free {
          FreeNeverThrows(m, id, from);
        }
        TransitionKeepsInvIff(m, id, from, to);
      }
    case OpRelease(id) =>
      ReleasedInv(m, id);
  }

  predicate CanCreate(m: Manager) {
    m.pool.freeList != [] && NextId(m.pool) < |m.recs| == |m.pool.generations| == |m.pool.inUse|
  }

  /** The (slot, generation) pair that this call issues, if it issues one. */
  function Issues(m: Manager, op: Op): seq<(BlockId, nat)> {
    if op.OpCreate? && CanCreate(m) then [(NextId(m.pool), NextGeneration(m.pool))] else []
  }

  /** Every pair issued so far is of an earlier generation of its slot, or of the one in use. */
  ghost predicate Spent(m: Manager, issued: set<(BlockId, nat)>)
    requires ManagerInv(m)
  {
    forall p | p in issued ::
      && p.0 < |m.recs|
      && p.1 > 0
      && (p.1 < m.pool.generations[p.0] || (p.1 == m.pool.generations[p.0] && m.pool.inUse[p.0]))
  }

  lemma StepIssuesFresh(m: Manager, op: Op, issued: set<(BlockId, nat)>)
    requires ManagerInv(m) && Allowed(m, op) && Spent(m, issued)
    ensures ManagerInv(Step(m, op))
    ensures forall p | p in Issues(m, op) :: p !in issued
    ensures Spent(Step(m, op), issued + set p | p in Issues(m, op))
  {
    StepInv(m, op);
    var m' := Step(m, op);
    if op.OpCreate? && m.pool.freeList != [] {
      AllocatedInv(m.pool);
    }
    forall p | p in issued
      ensures p.1 < m'.pool.generations[p.0] || (p.1 == m'.pool.generations[p.0] && m'.pool.inUse[p.0])
    {
      assert SlotInv(m, p.0) && SlotInv(m', p.0);
    }
  }

  /** A run: each call is allowed in the state that the calls before it lead to. */
  predicate IsRun(m: Manager, ops: seq<Op>)
    decreases |ops|
  {
    ops == [] || (Allowed(m, ops[0]) && IsRun(Step(m, ops[0]), ops[1..]))
  }

  function RunEnd(m: Manager, ops: seq<Op>): Manager
    requires IsRun(m, ops)
    decreases |ops|
  {
    if ops == [] then m else RunEnd(Step(m, ops[0]), ops[1..])
  }

  /** The pairs that a run issues, in order. */
  function RunIssues(m: Manager, ops: seq<Op>): seq<(BlockId, nat)>
    requires IsRun(m, ops)
    decreases |ops|
  {
    if ops == [] then [] else Issues(m, ops[0]) + RunIssues(Step(m, ops[0]), ops[1..])
  }

  predicate AllDifferent(s: seq<(BlockId, nat)>) {
    forall i, j | 0 <= i < j < |s| :: s[i] != s[j]
  }

  lemma {:induction false} RunIssuesFresh(m: Manager, ops: seq<Op>, before: set<(BlockId, nat)>)
    requires ManagerInv(m) && Spent(m, before) && IsRun(m, ops)
    ensures ManagerInv(RunEnd(m, ops)) && |RunEnd(m, ops).recs| == |m.recs|
    ensures forall p | p in RunIssues(m, ops) :: p !in before
    ensures AllDifferent(RunIssues(m, ops))
    decreases |ops|
  {
    if ops != [] {
      var now := Issues(m, ops[0]);
      StepIssuesFresh(m, ops[0], before);
      StepInv(m, ops[0]);
      var after := before + set p | p in now;
      RunIssuesFresh(Step(m, ops[0]), ops[1..], after);
      var rest := RunIssues(Step(m, ops[0]), ops[1..]);
      assert forall p | p in rest :: p !in now;
      PairsConcat(now, rest);
    }
  }

  lemma PairsConcat(a: seq<(BlockId, nat)>, b: seq<(BlockId, nat)>)
    requires |a| <= 1 && forall p | p in b :: p !in a
    requires AllDifferent(b)
    ensures AllDifferent(a + b)
  {
    forall i, j | 0 <= i < j < |a + b| ensures (a + b)[i] != (a + b)[j] {
      assert (a + b)[j] == b[j - |a|];
      assert b[j - |a|] in b;
      if i < |a| {
        assert a[i] in a;
      }
    }
  }

  /** In every run from the initial state pool and records agree, and no (slot, generation) pair is
      issued twice: a generation that was handed out never comes to name another block. */
  lemma NoPairIssuedTwice(capacity: nat, ops: seq<Op>)
    requires IsRun(InitManager(capacity), ops)
    ensures
      var m := RunEnd(InitManager(capacity), ops);
      var issued := RunIssues(InitManager(capacity), ops);
      && ManagerInv(m) && |m.recs| == capacity
      && |m.pool.freeList| + |InUseSlots(m.pool)| == capacity
      && AllDifferent(issued)
  {
    InitManagerInv(capacity);
    RunIssuesFresh(InitManager(capacity), ops, {});
    PoolConserves(RunEnd(InitManager(capacity), ops).pool);
  }

  // ---------- pinned blocks ----------

  /** What a handle's holder relies on: which block it is. */
  ghost predicate SameBlock(r: BlockRecord, r': BlockRecord) {
    && r'.id == r.id
    && r'.generation == r.generation
    && r'.hash == r.hash
    && r'.blockIndex == r.blockIndex
    && r'.tokenCount == r.tokenCount
  }

  /** No call changes the block under a live handle, whatever the call does. */
  lemma PinnedStep(m: Manager, op: Op, s: nat)
    requires ManagerInv(m) && Allowed(m, op) && s < |m.recs| && m.recs[s].refcount > 0
    ensures |Step(m, op).recs| == |m.recs|
    ensures SameBlock(m.recs[s], Step(m, op).recs[s])
    ensures Step(m, op).recs[s].state == Ready || Step(m, op).recs[s].state == Migrating
  {
    assert SlotInv(m, s);
    StepInv(m, op);
    if op.OpCreate? && m.pool.freeList != [] {
      AllocatedInv(m.pool);
      assert SlotInv(m, NextId(m.pool));
    }
  }

  /** Through every state of the run there is a handle on slot s. */
  predicate PinnedThroughout(m: Manager, ops: seq<Op>, s: nat)
    requires IsRun(m, ops)
    decreases |ops|
  {
    && s < |m.recs| && m.recs[s].refcount > 0
    && (ops != [] ==> PinnedThroughout(Step(m, ops[0]), ops[1..], s))
  }

  /** A block is the same block, and available, for as long as some handle pins it. */
  lemma {:induction false} PinnedNeverRecycled(m: Manager, ops: seq<Op>, s: nat)
    requires ManagerInv(m) && IsRun(m, ops) && PinnedThroughout(m, ops, s)
    ensures
      var m' := RunEnd(m, ops);
      && |m'.recs| == |m.recs| && SameBlock(m.recs[s], m'.recs[s])
      && (m'.recs[s].state == Ready || m'.recs[s].state == Migrating)
    decreases |ops|
  {
    assert SlotInv(m, s);
    if ops != [] {
      PinnedStep(m, ops[0], s);
      StepInv(m, ops[0]);
      PinnedNeverRecycled(Step(m, ops[0]), ops[1..], s);
    }
  }

  // ---------- handles ----------

  /** How one call changes the collection of live handles, each counted under its slot. */
  function PinsStep(m: Manager, op: Op, pins: multiset<BlockId>): multiset<BlockId> {
    match op
    case OpAcquire(id, _) => if CanAcquire(m.recs, id) then pins + multiset{id} else pins
    case OpFetch(id, generation, _) =>
      if FetchLocalStatus(m.recs, id, generation) == Hit then pins + multiset{id} else pins
    case OpRelease(id) => pins - multiset{id}
    case _ => pins
  }

  function RunPins(m: Manager, ops: seq<Op>, pins: multiset<BlockId>): multiset<BlockId>
    requires IsRun(m, ops)
    decreases |ops|
  {
    if ops == [] then pins else RunPins(Step(m, ops[0]), ops[1..], PinsStep(m, ops[0], pins))
  }

  ghost predicate RefcountsAre(recs: seq<BlockRecord>, pins: multiset<BlockId>) {
    forall s | 0 <= s < |recs| :: recs[s].refcount == pins[s]
  }

  lemma PinsStepCounts(m: Manager, op: Op, pins: multiset<BlockId>)
    requires ManagerInv(m) && Allowed(m, op) && RefcountsAre(m.recs, pins)
    ensures RefcountsAre(Step(m, op).recs, PinsStep(m, op, pins))
  {
    if op.OpCreate? && CanCreate(m) {
      AllocatedInv(m.pool);
      assert SlotInv(m, NextId(m.pool));
    }
  }

  /** In every run the refcount of a slot is the number of its live handles, so a slot has a handle only
      while it is Ready or Migrating. */
  lemma {:induction false} RefcountCountsHandles(m: Manager, ops: seq<Op>, pins: multiset<BlockId>)
    requires ManagerInv(m) && IsRun(m, ops) && RefcountsAre(m.recs, pins)
    ensures
      var m' := RunEnd(m, ops);
      && RefcountsAre(m'.recs, RunPins(m, ops, pins))
      && forall s | 0 <= s < |m'.recs| && s in RunPins(m, ops, pins) ::
        m'.recs[s].state == Ready || m'.recs[s].state == Migrating
    decreases |ops|
  {
    if ops != [] {
      PinsStepCounts(m, ops[0], pins);
      StepInv(m, ops[0]);
      RefcountCountsHandles(Step(m, ops[0]), ops[1..], PinsStep(m, ops[0], pins));
    } else {
      forall s | 0 <= s < |m.recs| && s in pins ensures m.recs[s].state == Ready || m.recs[s].state == Migrating {
        assert SlotInv(m, s);
      }
    }
  }
}
