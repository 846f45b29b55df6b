/** N workers and a coordinator whose directory may be behind: every interleaving of admissions, lookups,
    serves, handle ends, tier moves, (late) announcements, invalidations, node departures and returns, as steps
    on values.  What a ref was announced for is what a fetch of it returns, or the fetch fails. */
module Distributed {
  import opened Types
  import opened TierModel
  import opened CacheModel
  import opened CacheTheory
  import opened AdmitTheory
  import opened CacheOps
  import opened Coordinator

  /** One successful admission: the hash and payload it was made with, and where the block went. */
  datatype Issue = Issue(hash: ContentHash, ref: Ref, payload: seq<Byte>)

  /** The workers, the directory, and every admission so far: any of these may be announced at any later
      time, any number of times.  A node that leaves is cleaned out of the directory; its cache goes on
      answering, as the in-process transport lets it. */
  datatype System = System(workers: map<NodeId, Cache>, dir: Directory, issued: set<Issue>)

  datatype Event =
    | EvAdmit(node: NodeId, cand: Candidate, now: nat, pol: Policies, r: AdmitResult)
    | EvLookup(node: NodeId, ctx: ContextHash, tokens: seq<Token>, now: nat)
    | EvServe(node: NodeId, block: BlockId, generation: nat, now: nat)
    | EvRelease(node: NodeId, block: BlockId)
    | EvMove(node: NodeId, block: BlockId, target: Tier)
    | EvEvict(node: NodeId, tier: Tier, vs: seq<BlockId>, c: Cache)
    | EvAnnounce(issue: Issue)
    | EvInvalidate(ref: Ref)
    | EvLeave(node: NodeId)
    | EvRegister(node: NodeId, c: Cache)

  /** Events a run may contain: on existing workers, handles that exist, and announcements of blocks that were
      admitted.  An admission or an eviction comes with its outcome: which eligible blocks it takes and what it
      leaves of the index is open, so a run may go on after an admission has evicted its own ancestor.  A node
      may register again, with any cache; what its old cache admitted is announced no more then. */
  ghost predicate Enabled(s: System, e: Event) {
    match e
    case EvAdmit(node, cand, now, pol, r) => node in s.workers && Admits(s.workers[node], cand, now, pol, r)
    case EvLookup(node, _, _, _) => node in s.workers && s.workers[node].bs > 0
    case EvServe(node, _, _, _) => node in s.workers
    case EvRelease(node, block) =>
      node in s.workers && block < |s.workers[node].mgr.recs| && s.workers[node].mgr.recs[block].refcount > 0
    case EvMove(node, _, _) => node in s.workers && s.workers[node].shared
    case EvEvict(node, tier, vs, c) => node in s.workers && Evicts(s.workers[node], tier, vs, c)
    case EvAnnounce(issue) => issue in s.issued
    case EvInvalidate(_) => true
    case EvLeave(_) => true
    case EvRegister(_, c) => BaseInv(c)
  }

  /** The admission that this event makes, if it makes one. */
  ghost function IssueOf(r: AdmitResult, node: NodeId, cand: Candidate): set<Issue> {
    if r.status == Admitted && r.handle.Some? && r.handle.value < |r.cache.mgr.recs| then
      {Issue(cand.hash, Ref(node, r.handle.value, r.cache.mgr.recs[r.handle.value].generation), cand.payload)}
    else {}
  }

  ghost function OtherIssues(issued: set<Issue>, node: NodeId): set<Issue> {
    set i | i in issued && i.ref.node != node
  }

  ghost function Next(s: System, e: Event): System
    requires Enabled(s, e)
  {
    match e
    case EvAdmit(node, cand, _, _, r) =>
      s.(workers := s.workers[node := r.cache], issued := s.issued + IssueOf(r, node, cand))
    case EvLookup(node, ctx, tokens, now) =>
      s.(workers := s.workers[node := LookupPrefix(s.workers[node], ctx, tokens, now).cache])
    case EvServe(node, block, generation, now) =>
      s.(workers := s.workers[node := Serve(s.workers[node], block, generation, now).cache])
    case EvRelease(node, block) =>
      s.(workers := s.workers[node := ReleaseHandle(s.workers[node], block)])
    case EvMove(node, block, target) =>
      s.(workers := s.workers[node := MoveBlock(s.workers[node], block, target)])
    case EvEvict(node, _, _, c) => s.(workers := s.workers[node := c])
    case EvAnnounce(issue) => s.(dir := Announced(s.dir, issue.hash, issue.ref))
    case EvInvalidate(ref) => s.(dir := Cleaned(s.dir, Is(ref)))
    case EvLeave(node) => s.(dir := Cleaned(s.dir, OnNode(node)))
    case EvRegister(node, c) => s.(workers := s.workers[node := c], issued := OtherIssues(s.issued, node))
  }

  // ---------- the invariant ----------

  /** The slot that an admission went to has moved on to a newer generation, or still is that block: same
      hash, and if available, the same bytes. */
  ghost predicate IssueOk(s: System, i: Issue) {
    && i.ref.node in s.workers
    && i.ref.generation > 0
    && var c := s.workers[i.ref.node];
      && i.ref.block < |c.mgr.recs|
      && var r := c.mgr.recs[i.ref.block];
        || r.generation > i.ref.generation
        || (&& r.generation == i.ref.generation
            && r.hash == i.hash
            && (r.state == Ready ==> BytesOf(c, i.ref.block, i.payload)))
  }

  /** The slot's bytes begin with the payload, as far as both go. */
  ghost predicate BytesOf(c: Cache, s: nat, payload: seq<Byte>)
    requires s < |c.mgr.recs|
  {
    && |SlotBytes(c, s)| == c.payloads.bytesPerBlock
    && var n := Min(|payload|, c.payloads.bytesPerBlock);
       SlotBytes(c, s)[..n] == payload[..n]
  }

  /** Every directory entry stems from an admission with that hash. */
  ghost predicate Stems(s: System, hash: ContentHash, ref: Ref) {
    exists i :: i in s.issued && i.hash == hash && i.ref == ref
  }

  ghost predicate SystemInv(s: System) {
    && (forall n | n in s.workers :: BaseInv(s.workers[n]))
    && DirectoryInv(s.dir)
    && (forall i | i in s.issued :: IssueOk(s, i))
    && (forall h, r | Listed(s.dir, h, r) :: Stems(s, h, r))
  }

  /** Fresh workers and an empty directory. */
  ghost predicate SystemInit(s: System) {
    (forall n | n in s.workers :: BaseInv(s.workers[n])) && s.dir == map[] && s.issued == {}
  }

  lemma InitInv(s: System)
    requires SystemInit(s)
    ensures SystemInv(s)
  {
  }

  lemma IssueLater(s: System, i: Issue, c': Cache, node: NodeId)
    requires IssueOk(s, i) && node in s.workers && Later(s.workers[node], c')
    ensures IssueOk(s.(workers := s.workers[node := c']), i)
  {
    if i.ref.node == node {
      assert SlotLater(s.workers[node], c', i.ref.block);
    }
  }

  /** A step of one worker that is Later than before keeps the invariant. */
  lemma WorkerStep(s: System, node: NodeId, c': Cache)
    requires SystemInv(s) && node in s.workers && BaseInv(c') && Later(s.workers[node], c')
    ensures SystemInv(s.(workers := s.workers[node := c']))
  {
    hide BaseInv;
    hide Later;
    hide IssueOk;
    var s' := s.(workers := s.workers[node := c']);
    forall i | i in s'.issued ensures IssueOk(s', i) {
      IssueLater(s, i, c', node);
    }
    forall h, r | Listed(s'.dir, h, r) ensures Stems(s', h, r) {
      assert Stems(s, h, r);
    }
  }

  lemma WithIssues(s: System, more: set<Issue>)
    requires SystemInv(s) && forall i | i in more :: IssueOk(s, i)
    ensures SystemInv(s.(issued := s.issued + more))
  {
    hide BaseInv;
    var s' := s.(issued := s.issued + more);
    assert forall i :: IssueOk(s', i) == IssueOk(s, i);
    forall h, r | Listed(s'.dir, h, r) ensures Stems(s', h, r) {
      var i :| i in s.issued && i.hash == h && i.ref == r;
      assert i in s'.issued;
    }
  }

  lemma AdmitStep(s: System, node: NodeId, cand: Candidate, now: nat, pol: Policies, r: AdmitResult)
    requires SystemInv(s) && Enabled(s, EvAdmit(node, cand, now, pol, r))
    ensures SystemInv(Next(s, EvAdmit(node, cand, now, pol, r)))
  {
    hide BaseInv;
    hide Later;
    hide Admits;
    AdmitKeepsBase(s.workers[node], cand, now, pol, r);
    AdmitLater(s.workers[node], cand, now, pol, r);
    WorkerStep(s, node, r.cache);
    WithIssues(s.(workers := s.workers[node := r.cache]), IssueOf(r, node, cand));
  }

  lemma DirectoryStep(s: System, dir: Directory)
    requires SystemInv(s) && DirectoryInv(dir)
    requires forall h, r | Listed(dir, h, r) :: Stems(s, h, r)
    ensures SystemInv(s.(dir := dir))
  {
    hide BaseInv;
    var s' := s.(dir := dir);
    assert forall i :: IssueOk(s', i) == IssueOk(s, i);
    forall h, r | Listed(s'.dir, h, r) ensures Stems(s', h, r) {
      assert Stems(s, h, r);
      var i :| i in s.issued && i.hash == h && i.ref == r;
      assert i in s'.issued;
    }
  }

  /** A node that registers again was cleaned out of the directory before. */
  ghost predicate Cleanly(s: System, e: Event) {
    e.EvRegister? ==> forall h, r | Listed(s.dir, h, r) :: r.node != e.node
  }

  lemma RegisterStep(s: System, node: NodeId, c: Cache)
    requires SystemInv(s) && BaseInv(c)
    ensures SystemInv(Next(s, EvRegister(node, c))) <==> Cleanly(s, EvRegister(node, c))
  {
    hide BaseInv;
    var s' := Next(s, EvRegister(node, c));
    forall i | i in s'.issued ensures IssueOk(s', i) {
      assert IssueOk(s, i);
    }
    if Cleanly(s, EvRegister(node, c)) {
      forall h, r | Listed(s'.dir, h, r) ensures Stems(s', h, r) {
        var i :| i in s.issued && i.hash == h && i.ref == r;
        assert i in s'.issued;
      }
    }
  }

  /** Every step keeps the invariant, but for a node that registers again while the directory still lists it:
      that never does. */
  lemma NextInvIff(s: System, e: Event)
    requires SystemInv(s) && Enabled(s, e)
    ensures SystemInv(Next(s, e)) <==> Cleanly(s, e)
  {
    hide SystemInv;
    hide Next;
    if e.EvRegister? {
      RegisterStep(s, e.node, e.c);
    } else {
      NextInv(s, e);
    }
  }

  lemma NextInv(s: System, e: Event)
    requires SystemInv(s) && Enabled(s, e) && Cleanly(s, e)
    ensures SystemInv(Next(s, e))
  {
    hide BaseInv;
    hide Later;
    hide IssueOk;
    hide Admits;
    hide Evicts;
    hide EvictAll;
    hide LostBlocks;
    hide Serve;
    hide LookupPrefix;
    hide MoveBlock;
    match e
    case EvAdmit(node, cand, now, pol, r) => AdmitStep(s, node, cand, now, pol, r);
    case EvLookup(node, ctx, tokens, now) =>
      LookupLater(s.workers[node], ctx, tokens, now);
      WorkerStep(s, node, LookupPrefix(s.workers[node], ctx, tokens, now).cache);
    case EvServe(node, block, generation, now) =>
      ServeLater(s.workers[node], block, generation, now);
      WorkerStep(s, node, Serve(s.workers[node], block, generation, now).cache);
    case EvRelease(node, block) =>
      ReleaseLater(s.workers[node], block);
      WorkerStep(s, node, ReleaseHandle(s.workers[node], block));
    case EvMove(node, block, target) =>
      MoveKeepsBase(s.workers[node], block, target);
      WorkerStep(s, node, MoveBlock(s.workers[node], block, target));
    case EvEvict(node, tier, vs, c) =>
      EvictsBase(s.workers[node], tier, vs, c);
      LaterEvicts(s.workers[node], tier, vs, c);
      WorkerStep(s, node, c);
    case EvAnnounce(issue) =>
      AnnounceIs(s.dir, issue.hash, issue.ref);
      var dir := Announced(s.dir, issue.hash, issue.ref);
      forall h, r | Listed(dir, h, r) ensures Stems(s, h, r) {
      }
      DirectoryStep(s, dir);
    case EvInvalidate(ref) =>
      CleanIs(s.dir, Is(ref));
      DirectoryStep(s, Cleaned(s.dir, Is(ref)));
    case EvLeave(node) =>
      CleanIs(s.dir, OnNode(node));
      DirectoryStep(s, Cleaned(s.dir, OnNode(node)));
    case EvRegister(node, c) => RegisterStep(s, node, c);
  }

  // ---------- fetching ----------

  datatype FetchStatus = FetchOk | FetchNotFound | FetchStale | FetchHashMismatch | FetchTransportError

  datatype FetchResult = FetchResult(status: FetchStatus, payload: seq<Byte>, hash: ContentHash)

  /** RemoteBlockFetcher::fetch over the in-process transport: a node that is not there is a transport
      error, and what comes back is compared with the hash asked for. */
  ghost function Fetch(workers: map<NodeId, Cache>, ref: Ref, expected: ContentHash, now: nat): FetchResult {
    if ref.node !in workers then FetchResult(FetchTransportError, [], ContentHash(0, 0))
    else
      var r := Serve(workers[ref.node], ref.block, ref.generation, now);
      match r.status
      case ServeNotFound => FetchResult(FetchNotFound, [], ContentHash(0, 0))
      case ServeStale => FetchResult(FetchStale, [], ContentHash(0, 0))
      case ServeOk =>
        if r.hash != expected then FetchResult(FetchHashMismatch, [], ContentHash(0, 0))
        else FetchResult(FetchOk, r.payload, r.hash)
  }

  /** What the fetch leaves behind at the worker that served it. */
  ghost function AfterFetch(workers: map<NodeId, Cache>, ref: Ref, now: nat): map<NodeId, Cache> {
    if ref.node !in workers then workers
    else workers[ref.node := Serve(workers[ref.node], ref.block, ref.generation, now).cache]
  }

  // ---------- runs ----------

  ghost predicate IsSystemRun(s: System, events: seq<Event>)
    decreases |events|
  {
    events == [] || (Enabled(s, events[0]) && IsSystemRun(Next(s, events[0]), events[1..]))
  }

  ghost function SystemEnd(s: System, events: seq<Event>): System
    requires IsSystemRun(s, events)
    decreases |events|
  {
    if events == [] then s else SystemEnd(Next(s, events[0]), events[1..])
  }

  ghost predicate CleanRun(s: System, events: seq<Event>)
    requires IsSystemRun(s, events)
    decreases |events|
  {
    events == [] || (Cleanly(s, events[0]) && CleanRun(Next(s, events[0]), events[1..]))
  }

  ghost predicate InvInEveryState(s: System, events: seq<Event>)
    requires IsSystemRun(s, events)
    decreases |events|
  {
    SystemInv(s) && (events != [] ==> InvInEveryState(Next(s, events[0]), events[1..]))
  }

  lemma InvNow(s: System, events: seq<Event>)
    requires IsSystemRun(s, events) && InvInEveryState(s, events)
    ensures SystemInv(s)
  {
  }

  /** A run keeps the invariant in all its states if and only if every node that registers again was cleaned out
      of the directory before. */
  lemma {:induction false} RunInvIff(s: System, events: seq<Event>)
    requires SystemInv(s) && IsSystemRun(s, events)
    ensures InvInEveryState(s, events) <==> CleanRun(s, events)
    decreases |events|
  {
    hide SystemInv;
    hide Next;
    hide Cleanly;
    hide Enabled;
    if events != [] {
      NextInvIff(s, events[0]);
      var s' := Next(s, events[0]);
      if SystemInv(s') {
        RunInvIff(s', events[1..]);
      } else if InvInEveryState(s', events[1..]) {
        InvNow(s', events[1..]);
      }
    }
  }

  lemma {:induction false} RunInv(s: System, events: seq<Event>)
    requires SystemInv(s) && IsSystemRun(s, events) && CleanRun(s, events)
    ensures SystemInv(SystemEnd(s, events))
    decreases |events|
  {
    hide SystemInv;
    hide Next;
    if events != [] {
      NextInvIff(s, events[0]);
      RunInv(Next(s, events[0]), events[1..]);
    }
  }

  /** What the payload of a fetched block is: where the worker's tier manager shares its records, the bytes that
      some admission of this very ref under this very hash wrote; elsewhere nothing, so that the payload came
      back only if there was none to copy. */
  ghost predicate Delivers(s: System, ref: Ref, hash: ContentHash, bytes: seq<Byte>) {
    && ref.node in s.workers
    && exists i :: i in s.issued && i.hash == hash && i.ref == ref && ServedAs(s.workers[ref.node], i.payload, bytes)
  }

  /** In every run of N workers and a coordinator, however late announcements and invalidations are and
      however often slots are reused, as long as nodes that register again were cleaned out before: fetching
      a ref for a hash under which its node, as registered now, ever admitted it never yields a hash mismatch;
      if it succeeds, it returns that hash, with the bytes that were admitted under it exactly where the
      worker's tier manager shares its records or there were none. */
  lemma FetchIsSafe(s0: System, events: seq<Event>, hash: ContentHash, ref: Ref, now: nat)
    requires SystemInit(s0) && IsSystemRun(s0, events) && CleanRun(s0, events)
    requires Stems(SystemEnd(s0, events), hash, ref)
    ensures
      var s := SystemEnd(s0, events);
      var r := Fetch(s.workers, ref, hash, now);
      && r.status != FetchHashMismatch
      && (r.status == FetchOk ==> r.hash == hash && Delivers(s, ref, hash, r.payload))
  {
    InitInv(s0);
    RunInv(s0, events);
    IssueFetch(SystemEnd(s0, events), hash, ref, now);
  }

  lemma IssueFetch(s: System, hash: ContentHash, ref: Ref, now: nat)
    requires SystemInv(s) && Stems(s, hash, ref)
    ensures Fetch(s.workers, ref, hash, now).status != FetchHashMismatch
    ensures Fetch(s.workers, ref, hash, now).status == FetchOk ==>
      Fetch(s.workers, ref, hash, now).hash == hash && Delivers(s, ref, hash, Fetch(s.workers, ref, hash, now).payload)
  {
    hide BaseInv;
    hide SlotBytes;
    var i :| i in s.issued && i.hash == hash && i.ref == ref;
    assert IssueOk(s, i);
  }

  /** Whatever the directory lists in a reachable state was announced from an admission with that hash, so
      the previous result covers every ref that a query returns. */
  lemma QueriedRefsStem(s0: System, events: seq<Event>, hash: ContentHash, ref: Ref)
    requires SystemInit(s0) && IsSystemRun(s0, events) && CleanRun(s0, events)
    requires ref in Query(SystemEnd(s0, events).dir, hash)
    ensures Stems(SystemEnd(s0, events), hash, ref)
  {
    InitInv(s0);
    RunInv(s0, events);
    assert Listed(SystemEnd(s0, events).dir, hash, ref);
  }
}
