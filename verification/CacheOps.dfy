/** The remaining operations of one worker's cache: pinned lookup (src/prefix/prefix_lookup_engine.cc,
    src/core/local_cache.cc), serving a block to a peer, the end of a handle; and what all operations
    together do to the identity and the bytes of a block. */
module CacheOps {
  import opened Types
  import opened PrefixMap
  import opened BlockLifecycle
  import opened TierModel
  import opened CacheModel
  import opened CacheTheory
  import opened AdmitTheory

  // ---------- pinned lookup ----------

  datatype LookupResult = LookupResult(cache: Cache, handles: seq<BlockId>)

  /** Pins the ids one by one; stops at the first that cannot be acquired or has another token count (that
      handle is dropped again). */
  ghost function PinAll(c: Cache, ids: seq<BlockId>, bs: nat, now: nat): LookupResult
    decreases |ids|
  {
    if ids == [] || !CanAcquire(c.mgr.recs, ids[0]) then LookupResult(c, [])
    else if c.mgr.recs[ids[0]].tokenCount != Truncated16(bs) then
      LookupResult(c.(mgr := c.mgr.(recs := Released(Acquired(c.mgr.recs, ids[0], now), ids[0]))), [])
    else
      var r := PinAll(c.(mgr := c.mgr.(recs := Acquired(c.mgr.recs, ids[0], now))), ids[1..], bs, now);
      LookupResult(r.cache, [ids[0]] + r.handles)
  }

  ghost function LookupPrefix(c: Cache, ctx: ContextHash, tokens: seq<Token>, now: nat): LookupResult
    requires c.bs > 0
  {
    PinAll(c, Chain(c.index, c.bs, ctx, tokens), c.bs, now)
  }

  /** Changing only reference counts and access data keeps the invariant, as long as only Ready blocks
      have handles. */
  ghost predicate OnlyCountsDiffer(a: seq<BlockRecord>, b: seq<BlockRecord>) {
    && |a| == |b|
    && forall s | 0 <= s < |a| ::
      && b[s] == a[s].(refcount := b[s].refcount, lastAccess := b[s].lastAccess, accessCount := b[s].accessCount)
      && (b[s].refcount > 0 ==> a[s].refcount > 0 || a[s].state == Ready)
  }

  lemma CountsKeepBase(c: Cache, recs: seq<BlockRecord>)
    requires BaseInv(c) && OnlyCountsDiffer(c.mgr.recs, recs)
    ensures BaseInv(c.(mgr := c.mgr.(recs := recs)))
  {
    hide OnlyCountsDiffer;
    hide ManagerInv;
    hide TierInv;
    hide PlacementInv;
    CountsManager(c.mgr, recs);
    CountsTiers(c.TS(), recs);
    CountsPlacement(c, recs);
    assert c.(mgr := c.mgr.(recs := recs)).TS() == c.TS().(recs := recs);
  }

  lemma CountsKeepInv(c: Cache, h: Hasher, recs: seq<BlockRecord>)
    requires CacheInv(c, h) && OnlyCountsDiffer(c.mgr.recs, recs)
    ensures CacheInv(c.(mgr := c.mgr.(recs := recs)), h)
  {
    hide OnlyCountsDiffer;
    hide BaseInv;
    hide IndexInv;
    CountsKeepBase(c, recs);
    CountsIndex(c, h, recs);
  }

  lemma CountsManager(m: Manager, recs: seq<BlockRecord>)
    requires ManagerInv(m) && OnlyCountsDiffer(m.recs, recs)
    ensures ManagerInv(m.(recs := recs))
  {
    forall s | 0 <= s < |recs| ensures SlotInv(m.(recs := recs), s) {
      assert SlotInv(m, s);
    }
  }

  lemma CountsTiers(t: TierState, recs: seq<BlockRecord>)
    requires TierInv(t) && OnlyCountsDiffer(t.recs, recs)
    ensures TierInv(t.(recs := recs))
  {
    hide TierInv;
    TierIgnoresRest(t, recs);
  }

  lemma CountsPlacement(c: Cache, recs: seq<BlockRecord>)
    requires PlacementInv(c) && OnlyCountsDiffer(c.mgr.recs, recs)
    ensures PlacementInv(c.(mgr := c.mgr.(recs := recs)))
  {
  }

  lemma CountsIndex(c: Cache, h: Hasher, recs: seq<BlockRecord>)
    requires IndexInv(c, h) && OnlyCountsDiffer(c.mgr.recs, recs)
    ensures IndexInv(c.(mgr := c.mgr.(recs := recs)), h)
  {
    forall k | k in c.index ensures EntryOk(c.(mgr := c.mgr.(recs := recs)), h, k) {
      assert EntryOk(c, h, k);
    }
  }

  /** The records after every one of ids has been pinned once. */
  ghost predicate PinnedOnce(a: seq<BlockRecord>, ids: seq<BlockId>, b: seq<BlockRecord>) {
    && OnlyCountsDiffer(a, b)
    && forall s | 0 <= s < |a| :: b[s].refcount == a[s].refcount + if s in ids then 1 else 0
  }

  lemma PinnedThen(a: seq<BlockRecord>, id: BlockId, now: nat, rest: seq<BlockId>, b: seq<BlockRecord>)
    requires id < |a| && a[id].state == Ready && id !in rest && PinnedOnce(Acquired(a, id, now), rest, b)
    ensures PinnedOnce(a, [id] + rest, b)
  {
    var a1 := Acquired(a, id, now);
    assert forall s: nat :: s in [id] + rest <==> s == id || s in rest;
    forall s | 0 <= s < |a|
      ensures b[s] == a[s].(refcount := b[s].refcount, lastAccess := b[s].lastAccess, accessCount := b[s].accessCount)
    {
      assert b[s] == a1[s].(refcount := b[s].refcount, lastAccess := b[s].lastAccess, accessCount := b[s].accessCount);
    }
  }

  predicate CanPin(recs: seq<BlockRecord>, id: BlockId, bs: nat) {
    CanAcquire(recs, id) && recs[id].tokenCount == Truncated16(bs)
  }

  lemma {:induction false} PinAllOk(c: Cache, h: Hasher, ids: seq<BlockId>, now: nat)
    requires CacheInv(c, h) && NoDup(ids) && forall i | 0 <= i < |ids| :: CanPin(c.mgr.recs, ids[i], c.bs)
    ensures
      var r := PinAll(c, ids, c.bs, now);
      && r.handles == ids
      && PinnedOnce(c.mgr.recs, ids, r.cache.mgr.recs)
      && r.cache == c.(mgr := c.mgr.(recs := r.cache.mgr.recs))
      && CacheInv(r.cache, h)
    decreases |ids|
  {
    hide CacheInv;
    if ids != [] {
      assert CanPin(c.mgr.recs, ids[0], c.bs);
      var recs := Acquired(c.mgr.recs, ids[0], now);
      var c1 := c.(mgr := c.mgr.(recs := recs));
      CountsKeepInv(c, h, recs);
      forall i | 0 <= i < |ids[1..]| ensures CanPin(c1.mgr.recs, ids[1..][i], c.bs) {
        assert CanPin(c.mgr.recs, ids[i + 1], c.bs);
      }
      PinAllOk(c1, h, ids[1..], now);
      PinnedThen(c.mgr.recs, ids[0], now, ids[1..], PinAll(c1, ids[1..], c.bs, now).cache.mgr.recs);
      assert [ids[0]] + ids[1..] == ids;
    }
  }

  /** id is the i-th block of the tokens: its record has the position, size and content hash of that
      block. */
  ghost predicate IsBlockOf(recs: seq<BlockRecord>, bs: nat, h: Hasher, ctx: ContextHash, tokens: seq<Token>,
                            id: BlockId, i: nat) {
    && id < |recs|
    && recs[id].blockIndex == i
    && recs[id].tokenCount == Truncated16(bs)
    && i * bs <= (i + 1) * bs <= |tokens|
    && recs[id].hash == h(ctx, i, Truncated16(bs), tokens[i * bs..(i + 1) * bs])
  }

  /** Under the invariant a chain consists of distinct available blocks, the i-th being the i-th block of
      the tokens. */
  lemma ChainAvailable(c: Cache, h: Hasher, ctx: ContextHash, tokens: seq<Token>, ids: seq<BlockId>)
    requires CacheInv(c, h) && IsChain(c.index, c.bs, ctx, tokens, ids)
    ensures NoDup(ids)
    ensures forall i | 0 <= i < |ids| ::
      CanAcquire(c.mgr.recs, ids[i]) && IsBlockOf(c.mgr.recs, c.bs, h, ctx, tokens, ids[i], i)
  {
    forall i | 0 <= i < |ids|
      ensures CanAcquire(c.mgr.recs, ids[i]) && IsBlockOf(c.mgr.recs, c.bs, h, ctx, tokens, ids[i], i)
    {
      ChainEntry(c, h, ctx, tokens, ids, i);
    }
    forall i, j | 0 <= i < j < |ids| ensures ids[i] != ids[j] {
      assert IsBlockOf(c.mgr.recs, c.bs, h, ctx, tokens, ids[i], i);
      assert IsBlockOf(c.mgr.recs, c.bs, h, ctx, tokens, ids[j], j);
    }
  }

  lemma ChainEntry(c: Cache, h: Hasher, ctx: ContextHash, tokens: seq<Token>, ids: seq<BlockId>, i: nat)
    requires CacheInv(c, h) && IsChain(c.index, c.bs, ctx, tokens, ids) && i < |ids|
    ensures CanAcquire(c.mgr.recs, ids[i]) && IsBlockOf(c.mgr.recs, c.bs, h, ctx, tokens, ids[i], i)
  {
    hide BlockKey;
    hide Fits;
    hide CacheInv;
    var k := BlockKey(c.bs, ctx, tokens, i + 1);
    assert k in c.index && c.index[k] == ids[i];
    StoredEntry(c, h, k);
    FitsMono(c.bs, tokens, i + 1, |ids|);
    KeyTail(c.bs, ctx, tokens, i);
    SameMultiple(c.mgr.recs[ids[i]].blockIndex + 1, i + 1, c.bs);
  }

  lemma StoredEntry(c: Cache, h: Hasher, k: Key)
    requires CacheInv(c, h) && k in c.index
    ensures EntryOk(c, h, k) && c.bs > 0 && c.mgr.recs[c.index[k]].generation > 0
  {
    assert EntryOk(c, h, k);
    assert SlotInv(c.mgr, c.index[k]);
  }

  /** The last block of a block prefix. */
  lemma KeyTail(bs: nat, ctx: ContextHash, tokens: seq<Token>, i: nat)
    requires Fits(bs, tokens, i + 1)
    ensures
      var k := BlockKey(bs, ctx, tokens, i + 1);
      && k.ctx == ctx
      && i * bs <= (i + 1) * bs <= |tokens|
      && |k.tokens| == (i + 1) * bs && bs <= |k.tokens|
      && k.tokens[|k.tokens| - bs..] == tokens[i * bs..(i + 1) * bs]
  {
    assert (i + 1) * bs == i * bs + bs;
  }

  lemma SameMultiple(a: nat, b: nat, n: nat)
    requires n > 0 && a * n == b * n
    ensures a == b
  {
    assert (a - b) * n == 0;
  }

  /** The pinned lookup never stops early: it returns one handle for each hit of the index, in order,
      raises the refcount of each hit by one and of no other block, and the i-th handle is on the block
      whose hash is that of the request's i-th block. */
  lemma LookupOk(c: Cache, h: Hasher, ctx: ContextHash, tokens: seq<Token>, now: nat)
    requires CacheInv(c, h)
    ensures
      var r := LookupPrefix(c, ctx, tokens, now);
      && IsLongestChain(c.index, c.bs, ctx, tokens, r.handles)
      && PinnedOnce(c.mgr.recs, r.handles, r.cache.mgr.recs)
      && r.cache == c.(mgr := c.mgr.(recs := r.cache.mgr.recs))
      && CacheInv(r.cache, h)
      && NoDup(r.handles)
      && (forall i | 0 <= i < |r.handles| ::
            IsBlockOf(c.mgr.recs, c.bs, h, ctx, tokens, r.handles[i], i))
  {
    var ids := Chain(c.index, c.bs, ctx, tokens);
    ChainAvailable(c, h, ctx, tokens, ids);
    forall i | 0 <= i < |ids| ensures CanPin(c.mgr.recs, ids[i], c.bs) {
      assert IsBlockOf(c.mgr.recs, c.bs, h, ctx, tokens, ids[i], i);
    }
    PinAllOk(c, h, ids, now);
  }

  // ---------- the end of a handle ----------

  ghost function ReleaseHandle(c: Cache, id: BlockId): Cache
    requires id < |c.mgr.recs| && c.mgr.recs[id].refcount > 0
  {
    c.(mgr := c.mgr.(recs := Released(c.mgr.recs, id)))
  }

  lemma ReleaseOk(c: Cache, h: Hasher, id: BlockId)
    requires CacheInv(c, h) && id < |c.mgr.recs| && c.mgr.recs[id].refcount > 0
    ensures CacheInv(ReleaseHandle(c, id), h)
  {
    hide CacheInv;
    CountsKeepInv(c, h, Released(c.mgr.recs, id));
  }

  // ---------- serving a peer ----------

  datatype ServeStatus = ServeOk | ServeNotFound | ServeStale

  datatype ServeResult = ServeResult(cache: Cache, status: ServeStatus, payload: seq<Byte>, hash: ContentHash,
                                     generation: nat)

  /** The bytes of a slot, as a reader of its record gets them. */
  ghost function SlotBytes(c: Cache, s: nat): seq<Byte>
    requires s < |c.mgr.recs|
  {
    if RefThrows(c.payloads, c.mgr.recs[s].payload) then [] else GetBytes(c.payloads, c.mgr.recs[s].payload)
  }

  /** serveBlockFetch follows the reference in the block manager's own record. */
  ghost function ServedBytes(c: Cache, s: nat): seq<Byte>
    requires s < |c.mgr.recs|
  {
    if c.shared then SlotBytes(c, s) else []
  }

  /** serveBlockFetch: a handle is held while the payload is read, and dropped on return. */
  ghost function Serve(c: Cache, id: BlockId, generation: nat, now: nat): ServeResult {
    match FetchLocalStatus(c.mgr.recs, id, generation)
    case NotFound => ServeResult(c, ServeNotFound, [], ContentHash(0, 0), 0)
    case StaleGeneration => ServeResult(c, ServeStale, [], ContentHash(0, 0), 0)
    case Hit =>
      var recs := Released(Acquired(c.mgr.recs, id, now), id);
      ServeResult(c.(mgr := c.mgr.(recs := recs)), ServeOk, ServedBytes(c, id), c.mgr.recs[id].hash,
                  c.mgr.recs[id].generation)
  }

  /** Serving keeps the invariant and leaves every refcount, entry and byte as it was. */
  lemma ServeKeeps(c: Cache, h: Hasher, id: BlockId, generation: nat, now: nat)
    requires CacheInv(c, h)
    ensures
      var c' := Serve(c, id, generation, now).cache;
      && CacheInv(c', h)
      && OnlyCountsDiffer(c.mgr.recs, c'.mgr.recs)
      && (forall s | 0 <= s < |c.mgr.recs| :: c'.mgr.recs[s].refcount == c.mgr.recs[s].refcount)
      && c' == c.(mgr := c.mgr.(recs := c'.mgr.recs))
  {
    hide CacheInv;
    hide SlotBytes;
    var c' := Serve(c, id, generation, now).cache;
    CountsKeepInv(c, h, c'.mgr.recs);
  }

  // ---------- what operations do to a block's identity ----------

  /** Slot s in a later state: either it has been given a newer generation, or it still is (or still was
      last) the same block; and if that block is available now it was so before, with the same bytes. */
  ghost predicate SlotLater(c: Cache, c': Cache, s: nat)
    requires s < |c.mgr.recs| == |c'.mgr.recs|
  {
    var r, r' := c.mgr.recs[s], c'.mgr.recs[s];
    || r'.generation > r.generation
    || (&& r'.generation == r.generation
        && r'.hash == r.hash
        && (r'.state == Ready ==> r.state == Ready && SlotBytes(c', s) == SlotBytes(c, s)))
  }

  /** The payload came back, as far as it fits the buffers. */
  predicate CameBack(payload: seq<Byte>, bytes: seq<Byte>, bytesPerBlock: nat) {
    var n := Min(|payload|, bytesPerBlock);
    n <= |bytes| && bytes[..n] == payload[..n]
  }

  /** What a worker serves of a payload that it admitted: a buffer, if its tier manager shares its records, and no
      bytes otherwise; so the payload comes back if and only if they are shared or there is nothing to copy. */
  predicate ServedAs(c: Cache, payload: seq<Byte>, bytes: seq<Byte>) {
    var size := c.payloads.bytesPerBlock;
    && |bytes| == (if c.shared then size else 0)
    && (CameBack(payload, bytes, size) <==> (c.shared || Min(|payload|, size) == 0))
  }

  ghost predicate Later(c: Cache, c': Cache) {
    && |c'.mgr.recs| == |c.mgr.recs|
    && c'.payloads.bytesPerBlock == c.payloads.bytesPerBlock && c'.shared == c.shared
    && forall s: nat | s < |c.mgr.recs| :: SlotLater(c, c', s)
  }

  lemma LaterRefl(c: Cache)
    ensures Later(c, c)
  {
  }

  lemma LaterTrans(a: Cache, b: Cache, c: Cache)
    requires Later(a, b) && Later(b, c)
    ensures Later(a, c)
  {
    forall s: nat | s < |a.mgr.recs| ensures SlotLater(a, c, s) {
      assert SlotLater(a, b, s) && SlotLater(b, c, s);
    }
  }

  lemma LaterSize(c: Cache, c': Cache)
    requires Later(c, c')
    ensures |c'.mgr.recs| == |c.mgr.recs|
  {
  }

  lemma LaterCounts(c: Cache, recs: seq<BlockRecord>)
    requires OnlyCountsDiffer(c.mgr.recs, recs)
    ensures Later(c, c.(mgr := c.mgr.(recs := recs)))
  {
  }

  /** For a placed block the bytes of its slot are its content. */
  lemma SlotBytesAre(c: Cache, s: nat)
    requires TierInv(c.TS()) && s in c.tiers.Placed()
    ensures s < |c.mgr.recs| && SlotBytes(c, s) == ContentOf(c.TS(), s)
  {
    if c.payloads.bytesPerBlock > 0 {
      assert Owned(c.payloads, c.mgr.recs[s]);
    }
  }

  lemma InvGivesTiers(c: Cache)
    requires BaseInv(c)
    ensures TierInv(c.TS())
    ensures forall s: nat :: s in c.tiers.Placed() <==> s < |c.mgr.recs| && c.mgr.recs[s].state == Ready
  {
  }

  lemma LaterEvicted(c: Cache, id: BlockId)
    requires BaseInv(c) && id < |c.mgr.recs| && Evictable(c.mgr.recs[id])
    ensures Later(c, Evicted(c, id))
  {
    hide BaseInv;
    hide TierInv;
    hide Evicted;
    hide SlotBytes;
    hide ContentOf;
    EvictedBase(c, id);
    var c' := WithoutBlock(c, id);
    InvGivesTiers(c);
    InvGivesTiers(c');
    forall s: nat | s < |c.mgr.recs| ensures SlotLater(c, c', s) {
      if s != id && c.mgr.recs[s].state == Ready {
        SlotBytesAre(c, s);
        SlotBytesAre(c', s);
      }
    }
  }

  lemma LaterWithBlock(c: Cache, cand: Candidate, tier: Tier, now: nat, index: Entries)
    requires BaseInv(c) && CanCreate(c.mgr) && c.tiers.At(tier).HasCapacity()
    requires CanAllocate(c.mgr.pool) && RefInBounds(c.payloads)
    ensures Later(c, WithBlock(c, cand, tier, now, index))
    ensures
      var c' := WithBlock(c, cand, tier, now, index);
      var id := NextId(c.mgr.pool);
      var n := Min(|cand.payload|, c.payloads.bytesPerBlock);
      && id < |c'.mgr.recs| && |SlotBytes(c', id)| == c.payloads.bytesPerBlock
      && SlotBytes(c', id)[..n] == cand.payload[..n]
  {
    hide BaseInv;
    hide TierInv;
    hide SlotBytes;
    hide ContentOf;
    hide Allocated;
    NextSlotFacts(c);
    WithBlockTiers(c, cand, tier, now, index);
    InvGivesTiers(c);
    var c', id := WithBlock(c, cand, tier, now, index), NextId(c.mgr.pool);
    SlotBytesAre(c', id);
    forall s: nat | s < |c.mgr.recs| ensures SlotLater(c, c', s) {
      if s != id && c.mgr.recs[s].state == Ready {
        SlotBytesAre(c, s);
        SlotBytesAre(c', s);
      }
    }
  }

  lemma {:induction false} LaterEvictAll(c: Cache, tier: Tier, vs: seq<BlockId>)
    requires BaseInv(c) && NoDup(vs) && AllIn(vs, EligibleSlots(c.mgr.recs, tier))
    ensures Later(c, EvictAll(c, vs))
    decreases |vs|
  {
    hide BaseInv;
    hide Later;
    hide Evicted;
    hide EligibleSlots;
    LaterRefl(c);
    if vs != [] {
      assert vs[0] in EligibleSlots(c.mgr.recs, tier);
      EligibleFacts(c, tier, vs[0]);
      LostFirst(c, tier, vs[0]);
      LaterEvicted(c, vs[0]);
      var c1, rest := Evicted(c, vs[0]), vs[1..];
      forall i | 0 <= i < |rest| ensures rest[i] in EligibleSlots(c1.mgr.recs, tier) {
        assert rest[i] == vs[i + 1] && vs[i + 1] in EligibleSlots(c.mgr.recs, tier) && vs[0] != vs[i + 1];
      }
      LaterEvictAll(c1, tier, rest);
      LaterTrans(c, c1, EvictAll(c1, rest));
    }
  }

  lemma LaterIgnoresIndex(c: Cache, c': Cache, m: Entries)
    requires Later(c, c')
    ensures Later(c, c'.(index := m))
  {
    forall s: nat | s < |c.mgr.recs| ensures SlotLater(c, c'.(index := m), s) {
      assert SlotLater(c, c', s);
    }
  }

  /** Whichever eligible blocks are evicted, and whatever that leaves of the index, an old generation names the
      same block as before, with the same bytes. */
  lemma LaterEvicts(c: Cache, tier: Tier, vs: seq<BlockId>, c': Cache)
    requires BaseInv(c) && Evicts(c, tier, vs, c')
    ensures Later(c, c')
  {
    hide BaseInv;
    hide Later;
    hide EvictAll;
    LaterEvictAll(c, tier, vs);
    LaterIgnoresIndex(c, EvictAll(c, vs), c'.index);
  }

  /** A pinned block is Ready. */
  lemma PinnedIsReady(c: Cache, id: BlockId)
    requires BaseInv(c) && id < |c.mgr.recs| && c.mgr.recs[id].refcount > 0
    ensures c.mgr.recs[id].state == Ready && CanAcquire(c.mgr.recs, id)
  {
    assert SlotInv(c.mgr, id);
  }

  /** Eviction leaves the record of a pinned block as it is, whichever eligible blocks it takes. */
  lemma PinnedNotEvicted(c: Cache, tier: Tier, vs: seq<BlockId>, c': Cache, id: BlockId)
    requires BaseInv(c) && Evicts(c, tier, vs, c') && id < |c.mgr.recs| && c.mgr.recs[id].refcount > 0
    ensures id < |c'.mgr.recs| && c'.mgr.recs[id] == c.mgr.recs[id]
  {
    hide BaseInv;
    hide EvictAll;
    EvictsBase(c, tier, vs, c');
    forall i | 0 <= i < |vs| ensures vs[i] != id {
      assert vs[i] in EligibleSlots(c.mgr.recs, tier);
    }
  }

  /** And so does admission: the new block goes to a slot that was free. */
  lemma PinnedNotTouched(c: Cache, cand: Candidate, now: nat, pol: Policies, r: AdmitResult, id: BlockId)
    requires BaseInv(c) && Admits(c, cand, now, pol, r) && id < |c.mgr.recs| && c.mgr.recs[id].refcount > 0
    ensures id < |r.cache.mgr.recs| && r.cache.mgr.recs[id] == c.mgr.recs[id]
  {
    hide BaseInv;
    hide Admits;
    hide Evicts;
    hide Refusal;
    hide Ancestors;
    hide InsertChain;
    AdmitKeepsBase(c, cand, now, pol, r);
    if r.status == Admitted {
      var tier, vs, mid, index := AdmitsShape(c, cand, now, pol, r);
      PinnedIsReady(c, id);
      PinnedNotEvicted(c, tier, vs, mid, id);
      NextSlotFacts(mid);
    }
  }

  /** The new block: its record, its generation and its bytes. */
  ghost predicate AdmittedAs(c: Cache, cand: Candidate, id: BlockId) {
    && id < |c.mgr.recs|
    && c.mgr.recs[id].generation > 0
    && c.mgr.recs[id].hash == cand.hash
    && c.mgr.recs[id].blockIndex == cand.blockIndex
    && c.mgr.recs[id].state == Ready
    && c.mgr.recs[id].refcount == 1
    && |SlotBytes(c, id)| == c.payloads.bytesPerBlock
    && var n := Min(|cand.payload|, c.payloads.bytesPerBlock);
       SlotBytes(c, id)[..n] == cand.payload[..n]
  }

  lemma NewBlockIs(c: Cache, cand: Candidate, tier: Tier, now: nat, index: Entries)
    requires BaseInv(c) && CanCreate(c.mgr) && c.tiers.At(tier).HasCapacity()
    requires CanAllocate(c.mgr.pool) && RefInBounds(c.payloads)
    ensures AdmittedAs(WithBlock(c, cand, tier, now, index), cand, NextId(c.mgr.pool))
  {
    hide BaseInv;
    hide SlotBytes;
    hide Later;
    NextSlotFacts(c);
    LaterWithBlock(c, cand, tier, now, index);
  }

  /** Admission never changes which block an old generation names, nor its bytes; and an admitted block
      carries the candidate's hash and payload. */
  lemma AdmitLater(c: Cache, cand: Candidate, now: nat, pol: Policies, r: AdmitResult)
    requires BaseInv(c) && Admits(c, cand, now, pol, r)
    ensures Later(c, r.cache)
    ensures r.status == Admitted ==> r.handle.Some? && AdmittedAs(r.cache, cand, r.handle.value)
  {
    hide Admits;
    hide Evicts;
    hide Refusal;
    hide BaseInv;
    hide WithBlock;
    hide Later;
    hide AdmittedAs;
    LaterRefl(c);
    AdmitKeepsBase(c, cand, now, pol, r);
    if r.status == Admitted {
      var tier, vs, mid, index := AdmitsShape(c, cand, now, pol, r);
      LaterEvicts(c, tier, vs, mid);
      LaterWithBlock(mid, cand, tier, now, index);
      LaterTrans(c, mid, WithBlock(mid, cand, tier, now, index));
      NewBlockIs(mid, cand, tier, now, index);
    }
  }

  lemma LookupLater(c: Cache, ctx: ContextHash, tokens: seq<Token>, now: nat)
    requires BaseInv(c)
    ensures BaseInv(LookupPrefix(c, ctx, tokens, now).cache) && Later(c, LookupPrefix(c, ctx, tokens, now).cache)
  {
    PinAllBase(c, Chain(c.index, c.bs, ctx, tokens), c.bs, now);
  }

  /** Pinning, complete or not, only counts handles and accesses. */
  lemma {:induction false} PinAllBase(c: Cache, ids: seq<BlockId>, bs: nat, now: nat)
    requires BaseInv(c)
    ensures BaseInv(PinAll(c, ids, bs, now).cache) && Later(c, PinAll(c, ids, bs, now).cache)
    decreases |ids|
  {
    hide BaseInv;
    hide Later;
    LaterRefl(c);
    if ids != [] && CanAcquire(c.mgr.recs, ids[0]) {
      var recs := Acquired(c.mgr.recs, ids[0], now);
      var touched := Released(recs, ids[0]);
      CountsKeepBase(c, recs);
      LaterCounts(c, recs);
      CountsKeepBase(c, touched);
      LaterCounts(c, touched);
      var c1 := c.(mgr := c.mgr.(recs := recs));
      PinAllBase(c1, ids[1..], bs, now);
      LaterTrans(c, c1, PinAll(c1, ids[1..], bs, now).cache);
    }
  }

  lemma ServeLater(c: Cache, id: BlockId, generation: nat, now: nat)
    requires BaseInv(c)
    ensures BaseInv(Serve(c, id, generation, now).cache) && Later(c, Serve(c, id, generation, now).cache)
  {
    hide BaseInv;
    hide Later;
    hide SlotBytes;
    LaterRefl(c);
    var c' := Serve(c, id, generation, now).cache;
    if FetchLocalStatus(c.mgr.recs, id, generation) == Hit {
      CountsKeepBase(c, c'.mgr.recs);
      LaterCounts(c, c'.mgr.recs);
    }
  }

  lemma ReleaseLater(c: Cache, id: BlockId)
    requires BaseInv(c) && id < |c.mgr.recs| && c.mgr.recs[id].refcount > 0
    ensures BaseInv(ReleaseHandle(c, id)) && Later(c, ReleaseHandle(c, id))
  {
    hide BaseInv;
    hide Later;
    CountsKeepBase(c, Released(c.mgr.recs, id));
    LaterCounts(c, Released(c.mgr.recs, id));
  }

  // ---------- tier moves ----------

  /** promote or demote; a block that cannot move stays. */
  ghost function MoveBlock(c: Cache, id: BlockId, target: Tier): Cache {
    if id < |c.mgr.recs| && MoveStatus(c.TS(), id, target) == Success then
      c.WithTS(MovedState(c.TS(), id, target))
    else c
  }

  /** Only the tier fields differ. */
  ghost predicate OnlyTiersDiffer(a: seq<BlockRecord>, b: seq<BlockRecord>) {
    |a| == |b| && forall s | 0 <= s < |a| :: b[s] == a[s].(tier := b[s].tier)
  }

  lemma MoveOnlyTiers(t: TierState, id: BlockId, target: Tier)
    requires id < |t.recs|
    ensures OnlyTiersDiffer(t.recs, MovedState(t, id, target).recs)
    ensures MovedState(t, id, target).payloads == t.payloads
  {
  }

  lemma TiersManager(m: Manager, recs: seq<BlockRecord>)
    requires ManagerInv(m) && OnlyTiersDiffer(m.recs, recs)
    ensures ManagerInv(m.(recs := recs))
  {
    forall s | 0 <= s < |recs| ensures SlotInv(m.(recs := recs), s) {
      assert SlotInv(m, s);
    }
  }

  lemma TiersPlacement(c: Cache, t: TierState)
    requires PlacementInv(c) && OnlyTiersDiffer(c.mgr.recs, t.recs)
    requires t.payloads == c.payloads && t.tiers.Placed() == c.tiers.Placed()
    ensures PlacementInv(c.WithTS(t)) && Later(c, c.WithTS(t))
  {
  }

  lemma TiersEntry(c: Cache, h: Hasher, t: TierState, k: Key)
    requires k in c.index && EntryOk(c, h, k) && OnlyTiersDiffer(c.mgr.recs, t.recs)
    ensures EntryOk(c.WithTS(t), h, k)
  {
  }

  lemma TiersIndex(c: Cache, h: Hasher, t: TierState)
    requires IndexInv(c, h) && OnlyTiersDiffer(c.mgr.recs, t.recs)
    ensures IndexInv(c.WithTS(t), h)
  {
    hide EntryOk;
    hide Injective;
    forall k | k in c.index ensures EntryOk(c.WithTS(t), h, k) {
      TiersEntry(c, h, t, k);
    }
  }

  /** A move keeps pool, records, tiers and payloads in agreement, and every block's identity and
      bytes. */
  lemma MoveKeepsBase(c: Cache, id: BlockId, target: Tier)
    requires BaseInv(c)
    ensures BaseInv(MoveBlock(c, id, target)) && Later(c, MoveBlock(c, id, target))
  {
    hide ManagerInv;
    hide TierInv;
    hide PlacementInv;
    hide Later;
    hide MovedState;
    hide OnlyTiersDiffer;
    hide ContentOf;
    LaterRefl(c);
    if id < |c.mgr.recs| && MoveStatus(c.TS(), id, target) == Success {
      var t := MovedState(c.TS(), id, target);
      MoveOk(c.TS(), id, target);
      MoveOnlyTiers(c.TS(), id, target);
      TiersManager(c.mgr, t.recs);
      TiersPlacement(c, t);
      assert c.WithTS(t).TS() == t;
    }
  }

  lemma MoveKeepsInv(c: Cache, h: Hasher, id: BlockId, target: Tier)
    requires CacheInv(c, h)
    ensures CacheInv(MoveBlock(c, id, target), h)
  {
    hide BaseInv;
    hide IndexInv;
    hide MovedState;
    hide OnlyTiersDiffer;
    MoveKeepsBase(c, id, target);
    if id < |c.mgr.recs| {
      MoveOnlyTiers(c.TS(), id, target);
      TiersIndex(c, h, MovedState(c.TS(), id, target));
    }
  }

  // ---------- the initial cache ----------

  /** A worker's cache as its constructor leaves it is not shared; parts wired by hand may be. */
  ghost function InitCache(capacity: nat, bs: nat, gpu: nat, host: nat, maxBlocks: nat, bytesPerBlock: nat,
                           shared: bool): Cache
  {
    Cache(bs, InitManager(capacity), map[], Tiers(TierSet(gpu, {}), TierSet(host, {})),
          InitPayloads(maxBlocks, bytesPerBlock), shared)
  }

  /** A fresh cache satisfies the whole-cache invariant exactly when blocks have a size and, if bytes are
      stored, there is a payload slot for every pool slot. */
  lemma InitCacheInv(capacity: nat, bs: nat, gpu: nat, host: nat, maxBlocks: nat, bytesPerBlock: nat, shared: bool,
                     h: Hasher)
    ensures CacheInv(InitCache(capacity, bs, gpu, host, maxBlocks, bytesPerBlock, shared), h)
      <==> bs > 0 && (bytesPerBlock > 0 ==> capacity <= maxBlocks)
  {
    InitManagerInv(capacity);
    InitTierInv(gpu, host, maxBlocks, bytesPerBlock, InitManager(capacity).recs);
  }

  // ---------- counts ----------

  ghost function SlotsWhere(recs: seq<BlockRecord>, want: BlockRecord -> bool): set<nat> {
    set s | s in Upto(|recs|) && want(recs[s])
  }

  predicate IsReady(r: BlockRecord) {
    r.state == BlockState.Ready
  }

  predicate IsUsed(r: BlockRecord) {
    r.generation > 0 && r.state != Free
  }

  ghost function SlotsWhereUpTo(recs: seq<BlockRecord>, want: BlockRecord -> bool, n: nat): set<nat>
    requires n <= |recs|
  {
    set s | s in Upto(n) && want(recs[s])
  }

  lemma OneSlotMore(recs: seq<BlockRecord>, want: BlockRecord -> bool, n: nat)
    requires n < |recs|
    ensures |SlotsWhereUpTo(recs, want, n + 1)| == |SlotsWhereUpTo(recs, want, n)| + if want(recs[n]) then 1 else 0
  {
    assert SlotsWhereUpTo(recs, want, n + 1) == SlotsWhereUpTo(recs, want, n) + if want(recs[n]) then {n} else {};
  }

  /** An injective map has as many keys as values. */
  lemma {:induction false} InjectiveSize(m: Entries, ids: set<BlockId>)
    requires Injective(m) && forall s: nat :: s in ids <==> s in m.Values
    ensures |m| == |ids|
    decreases |ids|
  {
    assert forall k | k in m :: m[k] in m.Values;
    if ids != {} {
      SomeElement(ids);
      var s :| s in ids;
      var k := KeyOf(m, s);
      var m' := m - {k};
      assert |m'| == |m| - 1 by {
        assert m'.Keys == m.Keys - {k};
      }
      forall x: nat ensures x in ids - {s} <==> x in m'.Values {
        if x in ids - {s} {
          var kx := KeyOf(m, x);
          assert kx in m' && m'[kx] == x;
        }
        if x in m'.Values {
          var kx := KeyOf(m', x);
          assert m[kx] == x && kx != k;
        }
      }
      InjectiveSize(m', ids - {s});
    }
  }

  lemma ReadyAreIndexed(c: Cache, h: Hasher)
    requires CacheInv(c, h)
    ensures forall s: nat :: s in SlotsWhere(c.mgr.recs, IsReady) <==> s in c.index.Values
  {
    forall s: nat | s in c.index.Values ensures s in SlotsWhere(c.mgr.recs, IsReady) {
      assert EntryOk(c, h, KeyOf(c.index, s));
    }
  }

  lemma UsedAreInUse(c: Cache)
    requires BaseInv(c)
    ensures SlotsWhere(c.mgr.recs, IsUsed) == InUseSlots(c.mgr.pool)
    ensures SlotsWhere(c.mgr.recs, IsUsed) == SlotsWhere(c.mgr.recs, IsReady)
  {
    forall s: nat | s < |c.mgr.recs|
      ensures IsUsed(c.mgr.recs[s]) == c.mgr.pool.inUse[s] && IsUsed(c.mgr.recs[s]) == IsReady(c.mgr.recs[s])
    {
      assert SlotInv(c.mgr, s);
    }
  }

  /** Between operations the index holds as many blocks as are Ready, which are those in use, and the rest
      of the pool is free: so never more blocks than the capacity. */
  lemma SnapshotAgrees(c: Cache, h: Hasher)
    requires CacheInv(c, h)
    ensures |c.index| == |SlotsWhere(c.mgr.recs, IsReady)| == |SlotsWhere(c.mgr.recs, IsUsed)|
    ensures |c.index| + |c.mgr.pool.freeList| == |c.mgr.recs|
  {
    hide SlotsWhere;
    hide EntryOk;
    ReadyAreIndexed(c, h);
    UsedAreInUse(c);
    InjectiveSize(c.index, SlotsWhere(c.mgr.recs, IsReady));
    PoolConserves(c.mgr.pool);
  }
}
