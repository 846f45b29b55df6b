# A verified model of the KV block cache

The program caches the key/value blocks of token sequences, so that requests with a common prefix need not
recompute them.  Each worker has a fixed pool of slots; a slot holds one block, named by its slot number and a
generation.  A radix tree finds the blocks of a request's prefix, handles pin them, an eviction policy makes room,
two tiers and a payload store hold the bytes.  A coordinator keeps a directory, which may be behind, of which worker
holds which content hash, and a request that misses locally fetches blocks from other workers and admits them.

This project models that in Dafny and proves what the parts promise each other.

## How it is built

The lower modules are values and functions on them; the classes beside them have the fields, loops and branches of the
source and are proved to compute those functions, so the theorems about the functions hold of the classes.

One state needs more than functions.  After an admission has evicted an ancestor of its own candidate, an id is stored
under two keys while the reverse index knows one of them, so a later eviction deletes only that one, and what policies
are shown of the index is off.  A map does not say which key that is.  The classes go on working in that state, and
what they do there is one of the outcomes of the relations `Evicts`, `Admits`, `Follows` and `IsRequestRun`, which leave
open which eligible block is evicted and what that leaves of the index.  The theorems that hold of every run, careless
or not (`RunIsLater`, `ServedAsAdmitted`, `NextInv`, `FetchIsSafe`, `RequestSystem`), are stated over these relations;
`AdmitIsAdmits`, `AfterFollows` and `AdmitAllIsRun` say that the functions are instances.  As long as no id is stored
twice the classes compute the functions exactly.

| module | what it is |
|---|---|
| `Types`, `PrefixMap`, `PrefixTree` | identifiers; what an index means (a map from block-aligned prefixes to ids); the radix tree over an arena and its invariant |
| `PrefixIndices` | the class `PrefixIndex`: lookup, insert with edge splits, remove with pruning, the two counting walks |
| `BlockLifecycle`, `Blocks` | pool, records, state machine and their runs; the classes `BlockPool`, `BlockHandle`, `BlockStore`, `BlockManager` |
| `TierModel`, `Tiering` | tier sets and payload slots; the classes `PayloadStore`, `TierStore`, `TierManager` |
| `CacheModel`, `CacheTheory`, `AdmitTheory`, `CacheOps`, `CacheRuns` | one worker's cache as a value: eviction, admission, lookup, serving; what each keeps; whole runs |
| `Recency`, `PrefixAware`, `Decisions` | what an access does and what LRU makes of it; what eviction policies are shown and the prefix-aware one; placement and the answers of admission |
| `Untiered` | a worker without a tier manager, as an instance of one with tiers |
| `TwoStores` | a block manager and a tier manager with record stores of their own, seen as one |
| `Controllers`, `Admission`, `LocalCaches`, `Scans` | the classes that tie one worker together, up to `LocalCache` and the promotion and demotion scans |
| `Coordinator`, `Distributed` | the directory and its class; N workers and a coordinator as a transition system |
| `PipelineModel`, `ResolutionTheory`, `PipelineTheory`, `Pipeline` | one request: plan, resolution, chain admission, result; how far a resolution gets; the other theorems; the classes |
| `StrandedTheory`, `Contiguity` | requests that fetch a block which is stored already: exactly when the result is contiguous and its hits are backed by handles |
| `Rigs` | two workers put together with the constructors, and requests that run on them one after the other |
| `Counterexample`, `StrandedExamples` | concrete runs: admission breaks the index; a payload is not served; a node returns and a fetch meets a mismatch; the result of a request skips a block |

There are two ways to wire a worker with tiers.  The constructor of `LocalCache` is given a tier manager that works on
some record store already, and builds its block manager, private, after that: the two stores are never the same
(src/core/local_cache.cc:41-58).  Wired by hand, both can work on one store, as in
tests/test_scenario_phase3.cc:59-92.  The classes up to `AdmissionController` are proved for either; `LocalCache` is
built over a tier manager with records of its own; the scans need one store.  Where there are two, each keeps what the
other does not: the block manager the state, the tier manager the reference to the bytes.  The cache that both hold
together has the block manager's records with the tier manager's references (`TwoStores`, `ViewOf`), so the theorems
about values cover both wirings, and its flag `shared` says which it is.

The whole-cache invariant `CacheInv` is that pool, records, tiers and payloads agree (`BaseInv`), and that the index
holds exactly the Ready blocks, each once, each under a key whose length, token count and content hash are those in
its record.

## What holds, and what does not

* The index implements its map: lookup is the longest chain, insert is "first wins", remove is one key, the counters
  count; and its reverse index stays exact exactly when the ids written are fresh and distinct.
* Admission is all or nothing, its two throwing paths are unreachable, and it keeps the whole-cache invariant **except
  in one case**: it looks up the ancestors of the candidate before it evicts and inserts them again after.  If the
  victim is one of these ancestors, the pool hands its slot straight to the new block, and one id ends up under two
  keys.  `AdmitKeepsInvIff` says that this is the only case, `RunKeepsInvIff` says so of whole runs,
  `AncestorCanBeLost` exhibits it, and `PinnedAdmit` says that pinning the ancestors rules it out.
* The transition table lets a Free record become Admitting or Fetching without the pool knowing (`FreeSlotEscapes`).
  Every run without such a step keeps pool and records in agreement (`TransitionKeepsInvIff`, `NoPairIssuedTwice`).
* The result of a request **need not be contiguous**.  When a block that is fetched is stored already (its ancestor was
  evicted and is fetched again), admission reports it as present and hands out no handle, yet it counts as a hit, and
  the handles behind it are off by one.  `ResultSkipsABlock` exhibits this: two matched tokens of which only the first
  is covered in order, and three hits.  If none of the fetched blocks is stored the result is an unbroken, pinned
  prefix, under any policy and any capacity (`RequestIsContiguous`).  With room for the fetched blocks, under any
  policy, each handle is on its own block if and only if no stored block is followed by one that is not, up to the
  first block that is missing and rejected (`ContiguousIff`); `RoomIsNeeded` shows that without room the chain can evict
  the very blocks it is about to need.  In general the outcomes of the admissions tell, again under any policy and any
  capacity: the result is contiguous if and only if nothing found present came before something admitted
  (`ContiguousByStatus`), and its hits are backed by handles if and only if nothing was found present
  (`BackedByStatus`; `HitsBackedIff` says when, before the call).
* A block that was admitted and is served under its generation comes back with its hash, but **with its bytes if and
  only if the tier manager shares the block manager's records**, or there is nothing to copy (`ServedAsAdmitted`).
  `serveBlockFetch` reads the reference in the block manager's record, while `place` writes it into the tier manager's,
  so a worker built with its own constructor answers Ok and sends no bytes (`NoBytesServed`, `ServeBlockFetch`).
* A lookup renews what it pins, so LRU takes none of it before everything else that it may take (`LookupProtects`).  A
  policy that prefers unshared blocks takes leaves of the index first, and evicting leaves is exactly what leaves every
  other stored block reachable (`MakeSpaceLeavesFirst`, `EvictionKeepsUnbrokenIff`).  The prefix-aware policy does not
  always: it weighs a stored continuation like eight accesses (`PrefixAwareSpares`).
* Fetching never returns another block than the one announced, however stale the directory (`FetchIsSafe`), as long as
  a node that registers again with a fresh cache was cleaned out of the directory before.  That is exactly the
  condition under which the system invariant is kept (`NextInvIff`, `RunInvIff`); without it the slots and generations
  of the new cache can repeat those of the old one, and a fetch can end in a hash mismatch (`MismatchAfterReturn`).
* A stale ref is removed when it is met, so retries are bounded by the directory's size; a block that is merely not
  found stays listed, and no progress is claimed for it.  A resolution gets exactly to the first planned block that
  is not listed, is declined or cannot be served (`ResolveWalks`).

## Assumptions

* The block size is positive and the same for the cache and for its requests.
* Generations, counters, timestamps and lengths are unbounded numbers; only the block size's truncation to a 16-bit
  token count is modelled.
* The content hash is an arbitrary function of context, position, token count and the block's own tokens, and the
  context is identified with its hash.  Candidates are honest (their hash is that of their last block) where a theorem
  says so, since admission does not check it.
* A tier manager starts without blocks, its record store has at least a record per pool slot and, where bytes are
  stored, its payload store a slot per pool slot; `InitCacheInv` and the constructor of `LocalCache` say that a cache
  is in order exactly then.
* Admission, placement, promotion and demotion policies are arbitrary functions of all that they are shown (context
  hash, time, features); eviction and replica policies are arbitrary functions that choose from what they are offered.
* What an old cache of a node admitted is not announced any more once the node has registered again.
* Each operation takes the time of its clock as a parameter; within one request every admission has its own time, and
  lookups and fetches share one.
* `Features` and the contexts shown to policies leave out the fields that the program sets to constants.

## Model

| member | source | states |
|---|---|---|
| `PrefixMap.LongestChainUnique` | src/prefix/prefix_index.cc:27-85 | there is exactly one longest unbroken chain of stored block prefixes, so a lookup result is determined by the map alone, however edges have been split |
| `PrefixMap.InsertUpToIs` | src/prefix/prefix_index.cc:87-181 | "add the missing keys, first wins": old entries are untouched, each missing block prefix gets its id, and no other key appears |
| `PrefixMap.InsertInjectiveIff` | src/prefix/prefix_index.cc:110-143 | an insertion into a map that names every block once keeps it so if and only if the newly written ids are fresh and distinct |
| `PrefixTree.NothingBeyond` | src/prefix/prefix_index.cc:43-67 | a stored continuation of a path always goes through the child for its next token, whose whole edge follows the path: where the walk cannot step on, nothing further is stored |
| `PrefixTree.AddLeafOk` | src/prefix/prefix_index.cc:104-119 | a new leaf keeps the tree invariant (edges non-empty and inside one block, links, terminals at block ends, no bare leaf) and adds exactly one entry |
| `PrefixTree.SplitOk` | src/prefix/prefix_index.cc:147-178 | cutting an edge keeps the tree invariant and changes no entry of the map |
| `PrefixTree.ClearTerminalOk` | src/prefix/prefix_index.cc:183-192 | clearing a terminal deletes exactly the one key of that id and leaves a hole only at that node |
| `PrefixTree.PruneOk` | src/prefix/prefix_index.cc:194-208 | cutting off an empty leaf keeps the invariant and the map, and moves the only possible hole to the parent |
| `PrefixTree.ExactIff` | src/prefix/prefix_index.h:45-48 | the reverse index is the exact inverse of the stored terminals if and only if every stored id is in it and no id is stored twice |
| `PrefixTree.WalkSawAll` | src/prefix/prefix_index.cc:249-270 | a walk that has nothing waiting has seen every node in range below its start |
| `PrefixIndices.PrefixIndex.constructor` | src/prefix/prefix_index.cc:10 | an empty, well-formed index |
| `PrefixIndices.PrefixIndex.NewNode` | src/prefix/prefix_index.cc:12-15 | appends one blank node to the arena |
| `PrefixIndices.PrefixIndex.GetOrCreateRoot` | src/prefix/prefix_index.cc:17-25 | returns the root of the context, creating it if missing; the map does not change |
| `PrefixIndices.PrefixIndex.EdgeMismatch` | src/prefix/prefix_index.cc:58-64 | compares a whole edge with the request |
| `PrefixIndices.PrefixIndex.Descend` | src/prefix/prefix_index.cc:44-67 | finds the child whose whole edge follows the request, exactly when the walk can step on |
| `PrefixIndices.PrefixIndex.Lookup` | src/prefix/prefix_index.cc:27-85 | returns the longest unbroken chain of stored block prefixes, and matched tokens are its length in blocks times the block size |
| `PrefixIndices.PrefixIndex.CreateLeaf` | src/prefix/prefix_index.cc:104-119 | the missing rest of a block becomes a leaf: one new entry, one new node |
| `PrefixIndices.PrefixIndex.CommonPrefix` | src/prefix/prefix_index.cc:126-132 | the exact length of agreement of edge and request |
| `PrefixIndices.PrefixIndex.ReparentChildren` | src/prefix/prefix_index.cc:162-164 | exactly the moved children get the new parent, whatever the iteration order |
| `PrefixIndices.PrefixIndex.Split` | src/prefix/prefix_index.cc:147-178 | one edge cut: terminal, children and back-links move to the lower half, the reverse index follows |
| `PrefixIndices.PrefixIndex.MarkTerminal` | src/prefix/prefix_index.cc:139-143 | stores the id at the end of a block unless one is stored there already |
| `PrefixIndices.PrefixIndex.FollowEdge` | src/prefix/prefix_index.cc:121-178 | one round of the inner loop: descend a fully matching edge or cut it where it leaves the path |
| `PrefixIndices.PrefixIndex.InsertBlock` | src/prefix/prefix_index.cc:96-179 | the path of one block: the map gains the key if it was missing |
| `PrefixIndices.PrefixIndex.Insert` | src/prefix/prefix_index.cc:87-181 | refines "add the missing keys, first wins" for every tree and input; the reverse index stays exact if and only if the new ids are fresh and distinct; at most one edge is cut and at most one node per block plus one is added |
| `PrefixIndices.PrefixIndex.PruneIfEmpty` | src/prefix/prefix_index.cc:194-208 | terminates, changes no entry, and restores "every live leaf but a root carries a terminal" |
| `PrefixIndices.PrefixIndex.Remove` | src/prefix/prefix_index.cc:183-192 | deletes exactly the one key of the id; every other entry, descendants included, is unchanged; an exact reverse index stays exact |
| `PrefixIndices.PrefixIndex.BlockDescendantCount` | src/prefix/prefix_index.cc:249-270 | terminates and returns the number of stored keys strictly extending the key of the block |
| `PrefixIndices.PrefixIndex.BlockChildCount` | src/prefix/prefix_index.cc:210-247 | terminates and returns the number of stored keys extending the key of the block by exactly one block |
| `BlockLifecycle.PoolConserves` | src/core/block_pool.cc:13-45 | free and in-use slots add up to the capacity |
| `BlockLifecycle.FreedIsNext` | src/core/block_pool.cc:21-45 | the slot that was freed last is the next one taken, under the next generation |
| `BlockLifecycle.SlotsInOrder` | src/core/block_pool.cc:13-34 | a fresh pool hands out slot 0, 1, 2 and so on, each under generation 1, until none is left |
| `BlockLifecycle.CreatedInv` | src/core/block_manager.cc:32-43 | createBlock takes a Free slot and keeps pool and records in agreement, slot by slot |
| `BlockLifecycle.TransitionKeepsInvIff` | src/core/block_manager.cc:82-100 | a transition that does not throw keeps pool and records in agreement if and only if it does not start from Free |
| `BlockLifecycle.FreeSlotEscapes` | src/core/block_manager.cc:82-100 | the smallest case: in a fresh manager with one slot the step from Free to Admitting does not throw and leaves a record in use whose slot the pool counts as free |
| `BlockLifecycle.LegalSteps` | src/core/block_manager.cc:9-25 | the legal transitions are exactly the steps of four lives of a block: computed, ready and evicted; fetched, ready and moved between tiers; and either given up halfway |
| `BlockLifecycle.TransitionSucceedsIff` | src/core/block_manager.cc:82-100 | a transition goes through if and only if the block is in the state it is said to be in, the step is legal and it is not the eviction of a block with handles; and then it changes the state of that record and nothing else |
| `BlockLifecycle.FreeNeverThrows` | src/core/block_manager.cc:96-99 | with pool and records in agreement the pool never refuses a free, so the double-free throw cannot happen |
| `BlockLifecycle.StepInv` | src/core/block_manager.cc:32-104 | every call of the manager keeps pool and records in agreement |
| `BlockLifecycle.NoPairIssuedTwice` | src/core/block_pool.cc:21-45 | in every run from the initial state no (slot, generation) pair is issued twice, and free plus in-use equals capacity |
| `BlockLifecycle.PinnedStep` | src/core/block_manager.cc:82-100 | no call changes id, generation, hash, position or size of a block under a live handle, which stays Ready or Migrating |
| `BlockLifecycle.PinnedNeverRecycled` | src/core/block_handle.cc:5-30 | in every run, for as long as some handle pins a slot it holds the same available block |
| `BlockLifecycle.RefcountCountsHandles` | src/core/block_handle.cc:5-30 | in every run the refcount of a slot is the number of its live handles |
| `Blocks.BlockPool.constructor` | src/core/block_pool.cc:13-19 | all slots free, slot 0 at the back of the list |
| `Blocks.BlockPool.Allocate` | src/core/block_pool.cc:21-34 | takes the back of the free list, or nothing when it is empty; a slot that was never used starts at generation 1 |
| `Blocks.BlockPool.Free` | src/core/block_pool.cc:36-45 | throws exactly on a slot that is not in use; otherwise bumps the generation and appends to the free list |
| `Blocks.BlockHandle.constructor` | src/core/block_handle.cc:5-9 | one handle more on its record, and the refcounts still count the live handles |
| `Blocks.BlockHandle.Destroy` | src/core/block_handle.cc:11-15 | one handle less on its record |
| `Blocks.BlockHandle.MoveFrom` | src/core/block_handle.cc:17-19 | the new handle takes over, the old one is empty, and no count changes |
| `Blocks.BlockHandle.MoveAssign` | src/core/block_handle.cc:21-30 | the record held before loses a handle and the other is taken over, whether or not both are of one store; self-assignment changes nothing |
| `Blocks.BlockStore.constructor` | src/core/block_store.cc:15-16 | all records empty |
| `Blocks.BlockStore.Exists` | src/core/block_store.cc:18-24 | a fetch under a generation that exists is never reported stale, one under a generation that does not is never served, and is stale if the slot was ever used |
| `Blocks.BlockStore.Get` | src/core/block_store.cc:26-32 | the record of the slot, or a throw out of range |
| `Blocks.BlockStore.Initialize` | src/core/block_store.cc:38-57 | a fresh record without handles, accesses or payload; a throw out of range changes nothing |
| `Blocks.BlockStore.SetState` | src/core/block_store.cc:59-65 | the state of one record changes, or a throw and nothing |
| `Blocks.BlockStore.SetTier` | src/core/block_store.cc:67-73 | the tier of one record changes, or a throw and nothing |
| `Blocks.BlockStore.SetPayload` | src/core/block_store.cc:75-81 | the payload reference of one record changes, or a throw and nothing |
| `Blocks.BlockStore.MarkAccessed` | src/core/block_store.cc:83-91 | the last access of one record becomes the given time and its access count goes up by one, or a throw and nothing |
| `Blocks.BlockStore.CreateHandle` | src/core/block_store.cc:93-99 | a new handle on the record, counted |
| `Blocks.BlockManager.constructor` | src/core/block_manager.cc:29-30 | an empty pool and empty records in agreement |
| `Blocks.BlockManager.CreateBlock` | src/core/block_manager.cc:32-43 | fails exactly when the pool is empty, and then changes nothing |
| `Blocks.BlockManager.Acquire` | src/core/block_manager.cc:45-57 | a counted handle exactly on a Ready block with a generation, whose last access becomes the given time and whose access count goes up by one |
| `Blocks.BlockManager.FetchLocal` | src/core/block_manager.cc:59-76 | not found, stale or hit by slot, generation and state; a handle only on a hit |
| `Blocks.BlockManager.TransitionState` | src/core/block_manager.cc:82-100 | throws exactly where the source does; the only transitions that may leave it invalid start from Free |
| `Blocks.BlockManager.FreeBlock` | src/core/block_manager.cc:102-104 | Evicting to Free, slot back in the pool |
| `TierModel.PutThenGet` | src/tier/payload_store.cc:20-45 | the first min(length, buffer) bytes written come back, and every slot taken before reads as before |
| `TierModel.RemovedIsNext` | src/tier/payload_store.cc:20-56 | the buffer that was freed last is the next one written, and its old tail shows behind a shorter payload |
| `TierModel.PlaceOk` | src/tier/tier_manager.cc:15-32 | placing a block keeps tier sets, records and payload slots in step, and changes no other block's bytes |
| `TierModel.PlaceKeepsInvIff` | src/tier/tier_manager.cc:15-32 | placing keeps the invariant if and only if no tier holds the block yet, or its own tier does and no bytes are stored: a block placed again leaks its payload slot or ends up in two tiers |
| `TierModel.MoveOk` | src/tier/tier_manager.cc:34-80 | a move keeps the invariant, the set of placed blocks and everyone's bytes |
| `TierModel.MoveStatusIs` | src/tier/tier_manager.cc:34-56 | promote and demote answer block not found exactly for a block in no tier, then capacity exceeded exactly where the target is full, and move it otherwise |
| `TierModel.RemoveOk` | src/tier/tier_manager.cc:82-94 | removing frees the block's slot, which was not free before, and touches no other block |
| `TierModel.PutNeverThrows` | src/tier/payload_store.cc:24-26 | with a payload slot per pool slot, "no free slots" cannot happen for a block that is not placed |
| `TierModel.PlaceStatusIs` | src/tier/tier_manager.cc:15-32 | so place of a block in no tier is refused exactly where the tier is full |
| `TierModel.BytesUsedIsPlaced` | src/tier/payload_store.cc:58-64 | with a buffer for each of max_blocks, the bytes used are the number of placed blocks times the bytes per block |
| `Tiering.PayloadStore.constructor` | src/tier/payload_store.cc:8-18 | zeroed buffers, all free; none at all in metadata-only mode |
| `Tiering.PayloadStore.Put` | src/tier/payload_store.cc:20-34 | takes the back of the free list, overwrites the front of the buffer, throws exactly when full |
| `Tiering.PayloadStore.Get` | src/tier/payload_store.cc:36-45 | the whole buffer of the slot; nothing without a slot; throws exactly out of range |
| `Tiering.PayloadStore.Remove` | src/tier/payload_store.cc:47-56 | appends the slot to the free list; throws exactly out of range |
| `Tiering.PayloadStore.BytesInUse` | src/tier/payload_store.cc:58-64 | bytesUsed is the number of placed blocks times the bytes per block |
| `Tiering.TierStore.Add` | src/tier/tier_store.cc:15-20 | throws exactly when full, otherwise adds the id |
| `Tiering.TierStore.Remove` | src/tier/tier_store.cc:22 | removes the id |
| `Tiering.TierManager.Place` | src/tier/tier_manager.cc:15-32 | capacity exceeded, throw or success, as the source decides, for every id and also for a block that is placed already; a refusal for lack of room changes nothing; a placement keeps the manager in order exactly when it was allowed; an id beyond the records throws after a payload slot and a place in the tier are taken, and always leaves the manager out of order |
| `Tiering.TierManager.Promote` | src/tier/tier_manager.cc:34-56 | block not found, capacity exceeded or the move |
| `Tiering.TierManager.Demote` | src/tier/tier_manager.cc:58-80 | the same in the other direction |
| `Tiering.TierManager.Remove` | src/tier/tier_manager.cc:82-94 | finds the block in whichever tier holds it and frees its payload, for every id; block not found, and nothing changes, where no tier does; keeps the tier invariant |
| `Tiering.TierManager.GetPayload` | src/tier/tier_manager.cc:120-122 | the bytes of the payload slot |
| `CacheModel.OfferIs` | src/controller/safe_candidate_finder.cc:7-16 | the offer lists exactly the Ready, unpinned slots of the tier, in slot order |
| `CacheTheory.EvictedBase` | src/controller/eviction_controller.cc:77-84 | no step of an eviction throws; pool, records, tiers and payloads stay in agreement, the slot goes to the back of the free list, and no other block's bytes change |
| `CacheTheory.EvictedOk` | src/controller/eviction_controller.cc:77-84 | an eviction keeps the whole-cache invariant |
| `CacheTheory.MakeSpaceBase` | src/controller/eviction_controller.cc:39-96 | under any policy that picks from its offer, makeSpace evicts distinct eligible blocks of the requested tier and nothing else, appends their slots to the free list in order, reports their number, and succeeds exactly when it is the number asked for |
| `CacheTheory.MakeSpaceOk` | src/controller/eviction_controller.cc:39-96 | makeSpace keeps the whole-cache invariant |
| `CacheTheory.LruIndex` | src/policy/policies/lru_eviction.cc:12-17 | the first index among those with the least last access |
| `CacheTheory.LruMakeSpace` | src/policy/policies/lru_eviction.cc:7-18 | under LRU, makeSpace for k blocks evicts the k oldest eligible blocks by (last access, slot), oldest first, or all of them and reports failure |
| `Recency.PinAllAccesses` | src/prefix/prefix_lookup_engine.cc:10-30 | whatever the state of records and index, the pinned lookup stops at the first hit that is not available or has another size, and up to there each hit gets the time of the lookup as its last access and one access more for each time it is listed; refcounts go up by the handles returned, and nothing else changes |
| `Recency.LookupRenews` | src/core/block_manager.cc:45-57 | under the invariant a lookup renews exactly the blocks on which it returns handles: last access at its time, one access more; every other record keeps both |
| `Recency.ServeRenews` | src/core/block_manager.cc:59-76 | a serve renews the block it serves and no other, and changes nothing where it fails |
| `Recency.AdmissionRenews` | src/controller/admission_controller.cc:112-143 | an admitted block has been accessed once, at the time of its admission; no other block is |
| `Recency.RecentGoLast` | src/policy/policies/lru_eviction.cc:7-18 | LRU makeSpace takes a block of a set that was accessed after all others only when every other eligible block of the tier has gone before it |
| `Recency.LookupProtects` | src/policy/policies/lru_eviction.cc:7-18 | after a lookup later than every access before, and whatever handles have ended since, LRU makeSpace takes none of its blocks before all other eligible blocks of the tier |
| `PrefixAware.RecordIsShown` | src/policy/feature_builders.cc:9-31 | a policy is shown identity, tier, position, last access and access count of the record, and an age that with the last access adds up to the time, or is zero where the last access is later |
| `PrefixAware.CountsAreShown` | src/policy/feature_builders.cc:9-31 | where no id is stored twice, the two counts are the numbers of stored keys one block below, and anywhere below, the key of the block, and it is shown as shared if and only if some key is stored one block below |
| `PrefixAware.ChoosesLeaf` | src/controller/eviction_controller.cc:48-74 | a policy that prefers unshared blocks takes an eligible leaf of the index whenever there is one |
| `PrefixAware.MakeSpaceLeavesFirst` | src/controller/eviction_controller.cc:39-96 | so does every round of makeSpace, in the cache that the rounds before have left |
| `PrefixAware.UnbrokenIsFound` | src/prefix/prefix_index.cc:27-85 | where every stored block has the blocks before it stored, a lookup finds every stored block with everything before it |
| `PrefixAware.EvictionKeepsUnbrokenIff` | src/controller/eviction_controller.cc:77-84 | evicting a block leaves every other stored block with all that comes before it if and only if nothing is stored one block below it |
| `PrefixAware.ChooseVictim` | src/policy/policies/prefix_aware_eviction.cc:17-32 | the loop finds the first block with the lowest score |
| `PrefixAware.PrefixAwarePicksFromOffer` | src/policy/policies/prefix_aware_eviction.cc:17-32 | it picks from its offer, so all theorems about such policies hold of it |
| `PrefixAware.PrefixAwareIsLowest` | src/policy/policies/prefix_aware_eviction.cc:9-32 | under the prefix-aware policy the victim is an eligible block of the tier with the lowest score, and the lowest slot of these |
| `PrefixAware.PrefixAwareSpares` | src/policy/policies/prefix_aware_eviction.cc:9-15 | a block with something stored one block below it is not the victim while a block with nothing below it is eligible that was last accessed no later and has been accessed less than eight times more often |
| `Decisions.GuardedEviction` | src/controller/eviction_controller.cc:66-72 | an eviction policy is told the tier and the time: one that spares a tier and waits until some time evicts nothing there or before, and otherwise as much as is asked for or is there |
| `AdmitTheory.AcceptedChain` | src/controller/admission_controller.cc:45-64 | past the checks the ancestors are a complete chain and the candidate's own key is missing |
| `AdmitTheory.PreparedHasRoom` | src/controller/admission_controller.cc:101-115 | when makeSpace succeeds, createBlock and place both succeed |
| `AdmitTheory.EvictionMakesRoom` | src/controller/admission_controller.cc:101-115 | so they do whichever eligible block is evicted and whatever that leaves of the index |
| `AdmitTheory.AdmitIsAtomic` | src/controller/admission_controller.cc:43-144 | no exception leaves admit, and every outcome other than Admitted leaves pool, records, index, tiers and payloads as they were; in particular the clean-up after a failed placement is never reached |
| `Decisions.RefusalIs` | src/controller/admission_controller.cc:45-84 | which answer each failed check gives: wrong number of tokens or a gap before the own block, invalid; all blocks stored, present; only then the policy is asked, with context hash, time, hash, position, token count, payload size and origin, and what it does not admit is rejected |
| `Decisions.AdmissionIsFullIff` | src/controller/admission_controller.cc:101-110 | past the checks, under an eviction policy that chooses whenever it can, admission answers Full if and only if the pool or the chosen tier is full and no block of that tier can be evicted, and succeeds otherwise |
| `Decisions.AdmissionReplaces` | src/controller/admission_controller.cc:86-136 | an admitted block goes to the tier that the placement policy names when told how full both tiers are; what leaves for it is one evictable block of that tier if the tier or the pool was full, and nothing otherwise; all other records, tier places and, if nothing leaves, index entries stay |
| `Decisions.GpuFirstPlaces` | src/policy/policies/gpu_first_placement.cc:5-9 | under gpu-first an admitted block is in GpuSim if and only if GpuSim had room before the call, and in Host otherwise; with a free pool slot and room in the tier so chosen no stored block leaves or moves |
| `AdmitTheory.AdmittedShape` | src/controller/admission_controller.cc:101-143 | what an admission does, in one equation: the victims leave, the block arrives |
| `AdmitTheory.SurvivingIndex` | src/controller/admission_controller.cc:132-136 | if the ancestors survive the eviction, the insertion adds exactly the candidate's key |
| `AdmitTheory.LostAncestorIndex` | src/controller/admission_controller.cc:59-62 | if the victim is an ancestor, its slot is reused at once and its id is stored under two keys |
| `AdmitTheory.AdmitKeepsInvIff` | src/controller/admission_controller.cc:43-144 | a successful admission of an honest candidate keeps the whole-cache invariant if and only if the block evicted for it is not one of its ancestors |
| `AdmitTheory.AdmitIsAdmits` | src/controller/admission_controller.cc:43-144 | what admission computes is one of the outcomes of the relation Admits, in which the victim and what its eviction leaves of the index are open |
| `AdmitTheory.AdmitKeepsBase` | src/controller/admission_controller.cc:43-144 | pool, records, tiers and payloads stay in agreement through every such outcome, careless or not |
| `AdmitTheory.PinnedSurvive` | src/controller/eviction_controller.cc:42-52 | pinned ancestors are never the victim |
| `AdmitTheory.PinnedAdmit` | src/controller/admission_controller.cc:43-144 | with its ancestors pinned, an admission keeps the whole-cache invariant whatever its outcome |
| `Untiered.UntieredAdmit` | src/controller/admission_controller.cc:43-144 | admission of a worker without a tier manager has the outcome, handle, pool, records and index of one with a single tier that has a place for every slot and stores no bytes |
| `Counterexample.AncestorCanBeLost` | src/controller/admission_controller.cc:59-62 | a run from a fresh worker and an honest candidate for which admission breaks the index, for every content hash and all tokens: a lookup of the two blocks then hands out two handles on one, which is the wrong block for the first |
| `Counterexample.NoBytesServed` | src/core/local_cache.cc:121-125 | one slot, one block of one byte: served at once the byte comes back where the tier manager shares the records, and not in a worker as its constructor builds it |
| `Counterexample.MismatchAfterReturn` | src/transport/inproc_transport.cc:7-9 | a run in which a node registers again without being cleaned out: a ref that a query returns then leads to a hash mismatch |
| `CacheOps.LookupOk` | src/prefix/prefix_lookup_engine.cc:10-30 | under the invariant the pinned lookup never stops early: one handle per hit, in order, each hit's refcount up by one and no other, handle i on the block with the hash of the request's i-th block |
| `CacheOps.ServeKeeps` | src/core/local_cache.cc:113-128 | serving a peer keeps the invariant and leaves every refcount, entry and byte as it was |
| `CacheOps.ReleaseOk` | src/core/block_handle.cc:11-15 | the end of a handle keeps the whole-cache invariant |
| `CacheOps.AdmitLater` | src/controller/admission_controller.cc:43-144 | no outcome of admission changes which block an old generation names, nor its bytes; the admitted block carries the candidate's hash and payload |
| `CacheOps.LaterEvicts` | src/controller/eviction_controller.cc:39-96 | neither does eviction, whichever eligible blocks it takes and whatever it leaves of the index |
| `CacheOps.MoveKeepsInv` | src/tier/tier_manager.cc:34-80 | promotion and demotion keep the whole-cache invariant |
| `CacheRuns.StepKeepsInvIff` | src/core/local_cache.cc:60-128 | each operation keeps the whole-cache invariant, an admission exactly when it is careful about its ancestors |
| `CacheRuns.RunKeepsInvIff` | src/core/local_cache.cc:60-128 | a whole run keeps the invariant in every state if and only if no successful admission in it evicts an ancestor of its own candidate |
| `CacheRuns.CarefulRunEnds` | src/core/local_cache.cc:41-128 | a careful run from a fresh worker ends with the invariant: as many index entries as Ready blocks as blocks in use, and with the free slots that is the capacity |
| `CacheRuns.AfterFollows` | src/core/local_cache.cc:60-128 | what the operations compute is one of the steps of the relation Follows, over which the next two theorems range |
| `CacheRuns.RunIsLater` | src/core/local_cache.cc:60-128 | through every run, also after an admission that evicted its own ancestor, pool, records, tiers and payloads agree, and an old generation keeps its identity and bytes or has been replaced by a newer one |
| `CacheRuns.ServedAsAdmitted` | src/core/local_cache.cc:113-128 | a block admitted and, after any such run, served under its id and generation comes back with its hash, or the serve fails; its first min(length, buffer) bytes come with it if and only if the tier manager shares the worker's records or there is nothing to copy, and otherwise no bytes do |
| `CacheRuns.PinnedIsServed` | src/core/block_handle.cc:5-30 | along every such run a slot that is pinned throughout keeps id, generation, hash, position and bytes, and a serve under its generation then succeeds, with its hash |
| `CacheOps.InitCacheInv` | src/core/local_cache.cc:41-58 | a fresh cache, over shared records or not, satisfies the whole-cache invariant if and only if blocks have a size and, where bytes are stored, every pool slot has a payload slot |
| `CacheOps.SnapshotAgrees` | src/core/local_cache.cc:130-143 | the index holds as many blocks as are Ready, which are those in use, and with the free slots that is the capacity |
| `TwoStores.SeenManager` | src/core/block_manager.cc:32-104 | whatever references records hold, pool and records agree or do not: the block manager does not look at them |
| `TwoStores.SeenTransition` | src/core/block_manager.cc:82-100 | a state transition does the same whichever references the records hold, and leaves them |
| `TwoStores.SeenOffer` | src/controller/safe_candidate_finder.cc:7-16 | nor do the candidates for eviction depend on them |
| `TwoStores.SeenPins` | src/prefix/prefix_lookup_engine.cc:10-30 | nor does the pinned lookup: on the block manager's records it does what it does on these records with the tier manager's references |
| `Controllers.SafeCandidateFinder.Find` | src/controller/safe_candidate_finder.cc:7-16 | the ids of all Ready records without handles, in slot order |
| `Controllers.BlockFeatureBuilder.Build` | src/policy/feature_builders.cc:9-31 | record fields, age, and the counts of stored keys below the key the reverse index has; where no id is stored twice these are the counts of the map |
| `Controllers.PrefixLookupEngine.RawLookupBlocks` | src/prefix/prefix_lookup_engine.cc:32-35 | the longest chain |
| `Controllers.PrefixLookupEngine.Lookup` | src/prefix/prefix_lookup_engine.cc:10-30 | turns hits into counted handles in order; stops at the first block that cannot be acquired or has another token count, whose handle is dropped again |
| `Controllers.PrefixLookupEngine.InsertFullBlocks` | src/prefix/prefix_lookup_engine.cc:37-41 | inserts the chain into the map |
| `Controllers.PrefixLookupEngine.RemoveBlock` | src/prefix/prefix_lookup_engine.cc:43 | deletes the one key that the reverse index has for the id; where no id is stored twice that removes the id from the map |
| `Controllers.EvictionController.EvictBlock` | src/controller/eviction_controller.cc:77-84 | the four steps on manager, index and tiers together are one eviction, up to the key left behind by a block that is stored twice, and keep all parts in agreement |
| `Controllers.EvictionController.EvictOne` | src/controller/eviction_controller.cc:42-84 | one round: the victim is an eligible block of the tier, the policy's choice |
| `Controllers.EvictionController.GiveBack` | src/controller/eviction_controller.cc:80-84 | the last two steps of an eviction: the tier manager drops the block by its own reference, the block manager frees the slot, and whether or not their stores are the same both stay in order |
| `Controllers.EvictedSeen` | src/controller/eviction_controller.cc:77-84 | a block manager and a tier manager that evict on records of their own together do what one eviction does on records that both share |
| `Controllers.EvictionController.MakeSpace` | src/controller/eviction_controller.cc:39-96 | the loop evicts distinct eligible blocks and keeps all parts in agreement, whatever the state of the reverse index; with an exact one it computes makeSpace on the cache they hold together |
| `Admission.AdmissionController.Check` | src/controller/admission_controller.cc:45-84 | the refusals, in the order of the source, before anything changes; the policy is shown context hash, time and features |
| `Admission.AdmissionController.MakeRoom` | src/controller/admission_controller.cc:87-110 | tier choice and eviction, if pool or tier are full |
| `Admission.AdmissionController.InstallBlock` | src/controller/admission_controller.cc:112-143 | create, place, index, mark Ready, acquire; the failure branches are dead, also where placement writes to records of the tier manager's own |
| `Admission.PlaceSeen` | src/tier/tier_manager.cc:15-32 | a placement that records tier and payload at the tier manager is, seen with its references, the placement on shared records |
| `Admission.AdmissionController.Admit` | src/controller/admission_controller.cc:43-144 | the objects stay usable, and together do one of the things that admission may do to the cache they hold; with an exact reverse index it is the one that Admit computes, and the index stays exact if and only if it names no block twice |
| `LocalCaches.LocalCache.constructor` | src/core/local_cache.cc:41-58 | over a tier manager that was built before: everything else is new, the record store too, so the two stores are never the same; the cache is in order exactly when the tier manager is, holds no block, and has a record and, where bytes are stored, a payload slot for every pool slot; no handle is counted yet |
| `LocalCaches.LocalCache.LookupPrefix` | src/core/local_cache.cc:60-75 | the pinned lookup on the assembled cache; matched tokens and miss offset are the number of handles in tokens |
| `LocalCaches.LocalCache.AdmitBlock` | src/core/local_cache.cc:77-107 | admission on the assembled cache, whose tier manager records tier and payload in its own store; the cache stays usable; below a pinned chain and with an honest hash the whole-cache invariant is kept |
| `LocalCaches.LocalCache.GetBlock` | src/core/local_cache.cc:109-111 | fetch by id and generation, with a handle on a hit only |
| `LocalCaches.LocalCache.ServeBlockFetch` | src/core/local_cache.cc:113-128 | hash and generation of the block, read under a handle that ends with the call, and never any bytes: the reference that is read is the block manager's own, which placement does not set |
| `ResolutionTheory.ServeStatusIs` | src/core/local_cache.cc:113-128 | a serve succeeds if and only if the slot holds the generation asked for and the block is Ready, is stale if and only if the slot was used and holds another generation, and finds nothing otherwise |
| `LocalCaches.LocalCache.EndHandle` | src/core/block_handle.cc:11-15 | a handle on the cache ends: its count, and nothing else, goes down, and the cache stays in order |
| `LocalCaches.LocalCache.Snapshot` | src/core/local_cache.cc:130-143 | capacity, used and ready counts |
| `LocalCaches.StartIs` | src/core/local_cache.cc:41-58 | the cache over a given tier manager has pool, records, tiers and payloads in agreement if and only if the tier manager holds no block and its records and payload slots are enough |
| `LocalCaches.StartIsInit` | src/core/local_cache.cc:41-58 | over a tier manager that is new it is the initial cache, not sharing records, from which runs start |
| `Scans.ScanConserves` | src/controller/promotion_controller.cc:19-47 | a scan conserves the placed blocks; the target grows by exactly the moved ones and stays within capacity |
| `Scans.GuardedScan` | src/controller/promotion_controller.cc:22-24 | what a scan policy is told: one that moves blocks from some time on while at most half of GpuSim is used moves nothing where more is used or the time has not come, and everything that fits otherwise |
| `Scans.TierScanner.Scan` | src/controller/promotion_controller.cc:24-44 | moves only blocks that the policy accepts as the cache was before the scan, exactly as many as reported, and ends with all accepted ones moved or the target full; no identity, byte or index entry changes |
| `Scans.PromotionController.RunScan` | src/controller/promotion_controller.cc:19-47 | that scan from Host to GpuSim |
| `Scans.DemotionController.RunScan` | src/controller/demotion_controller.cc:18-46 | that scan from GpuSim to Host |
| `Coordinator.CountOverAny` | src/coordinator/global_index.cc:43-49 | the entry count does not depend on the iteration order |
| `Coordinator.AnnounceIs` | src/coordinator/global_index.cc:7-16 | announcing adds the one entry if it was missing and never repeats one |
| `Coordinator.CleanIs` | src/coordinator/global_index.cc:24-41 | cleaning removes exactly the matching entries |
| `Coordinator.InvalidateLowers` | src/coordinator/global_index.cc:24-33 | invalidating a listed ref strictly lowers the entry count |
| `Coordinator.GlobalIndex.Announce` | src/coordinator/global_index.cc:7-16 | appends the ref unless it is listed |
| `Coordinator.QueryIsStanding` | src/coordinator/global_index.cc:7-41 | after any run of announcements and clean-ups, a query returns exactly the refs announced under its hash and not cleared since, each once |
| `Coordinator.SinceIs` | src/coordinator/global_index.cc:7-16 | a ref that stands has stood since one announcement: the first that nothing has cleared |
| `Coordinator.QueryInOrder` | src/coordinator/global_index.cc:7-41 | and a query lists the refs in the order of these announcements, the one that has stood longest first |
| `Coordinator.GlobalIndex.Invalidate` | src/coordinator/global_index.cc:24-33 | drops one ref under every hash |
| `Coordinator.GlobalIndex.RemoveNode` | src/coordinator/global_index.cc:35-41 | drops every ref of the node |
| `Coordinator.GlobalIndex.CountEntries` | src/coordinator/global_index.cc:43-49 | the total length of all lists |
| `Coordinator.StaleReferenceCleaner.ReportStaleFetch` | src/coordinator/stale_reference_cleaner.cc:7-10 | drops the reported ref |
| `Coordinator.StaleReferenceCleaner.CleanDeadNode` | src/coordinator/stale_reference_cleaner.cc:12 | drops every ref of the node |
| `Distributed.NextInv` | src/core/local_cache.cc:113-128 | every step of workers and coordinator, careless admissions included, keeps the system invariant: each admitted (node, slot, generation) still is that block with that hash and those bytes, or has been replaced by a newer generation |
| `Distributed.NextInvIff` | src/transport/inproc_transport.cc:7-9 | the only step that breaks it is a node that registers again while the directory still lists it, and that one always does |
| `Distributed.RunInvIff` | src/coordinator/stale_reference_cleaner.cc:12 | a whole run keeps the system invariant in every state if and only if every node that registers again was cleaned out of the directory before |
| `Distributed.FetchIsSafe` | src/pipeline/remote_block_fetcher.cc:13-49 | in every such run, with announcements and invalidations arbitrarily late and slots reused arbitrarily often, fetching a ref under a hash with which its node, as registered now, admitted it never yields a hash mismatch, and a success returns that hash, and those bytes if and only if the node's tier manager shares its records or there was nothing to copy |
| `ResolutionTheory.FetchStatusIs` | src/pipeline/remote_block_fetcher.cc:13-49 | each answer of a fetch, on the records of the worker: transport error if and only if the node is unknown, stale if and only if the slot has moved on, hash mismatch or success by the hash if it holds the block, not found otherwise |
| `ResolutionTheory.IssuedRefStatus` | src/pipeline/remote_block_fetcher.cc:13-49 | in every clean run, fetching a ref under the hash it was issued with is stale if and only if the slot holds a newer generation, and succeeds if and only if the block is still there and Ready |
| `Distributed.QueriedRefsStem` | src/coordinator/global_index.cc:18-22 | every ref that a query returns in a reachable state is such a ref |
| `PipelineModel.PlanIs` | src/pipeline/missing_block_planner.cc:7-28 | the plan lists exactly the full blocks of the request from the first missing one on, with position and content hash |
| `PipelineModel.FetchedAreNextBlocks` | src/pipeline/remote_resolution_stage.cc:26-57 | whatever directory and workers hold, the fetched candidates are the request's blocks from the first local miss on, without a gap, with all tokens up to their end |
| `ResolutionTheory.ResolveWalks` | src/pipeline/remote_resolution_stage.cc:26-57 | for every directory, block size and replica policy the walk gets exactly to the first planned block whose list is empty, whose choice is declined or whose fetch does not succeed, judged on workers and directory before the walk; each block before it comes with hash and bytes of the worker tried; and exactly a ref whose fetch is stale leaves the directory |
| `ResolutionTheory.ResolveRenews` | src/pipeline/remote_resolution_stage.cc:35-44 | a resolution renews every block that it fetches, at its worker, and accesses blocks at its own time only |
| `ResolutionTheory.EverythingFetched` | src/pipeline/remote_resolution_stage.cc:26-57 | if every planned hash is listed, the policy takes one of the refs and every listed ref can be served, all planned blocks are fetched |
| `ResolutionTheory.OutdatedIsTakenOut` | src/pipeline/remote_resolution_stage.cc:37-43 | in every clean run a resolution that gets to a ref whose slot has moved to a newer generation ends stale there and takes this ref, and no other, out of the directory |
| `PipelineModel.StaleLowersEntries` | src/pipeline/remote_resolution_stage.cc:37-43 | a resolution reports at most one stale ref, and reporting one strictly lowers the entry count; otherwise the directory is unchanged |
| `PipelineModel.RetriesAreBounded` | src/pipeline/remote_resolution_stage.cc:18-60 | without new announcements at most as many attempts end at a stale ref as the directory has entries |
| `PipelineTheory.AfterGap` | src/controller/admission_controller.cc:59-64 | a candidate behind a gap is refused as invalid and changes nothing |
| `PipelineTheory.NextCandidate` | src/controller/admission_controller.cc:45-64 | the next candidate of a pinned chain finds its ancestors complete and pinned, and itself missing |
| `PipelineTheory.NextAdmitted` | src/pipeline/admission_stage.cc:11-18 | admitting it keeps the chain unbroken and pinned, one longer, and the whole-cache invariant |
| `PipelineTheory.ChainAdmission` | src/pipeline/admission_stage.cc:7-23 | of the fetched blocks a first part is admitted, each with a handle, and everything after is refused; at every call the ancestors are pinned |
| `PipelineTheory.RequestIsContiguous` | src/pipeline/request_pipeline.cc:12-20 | if none of the fetched blocks is stored, then under any policy and capacity the reusable handles are on blocks 0..n-1 in order, pinned, with the right hashes; local plus remote hits is n, matched tokens n blocks, and the invariant is kept |
| `PipelineTheory.RequestIsUsable` | src/pipeline/request_pipeline.cc:12-20 | under the same condition the index names no block twice before and after every admission of the request |
| `StrandedTheory.NextPresent` | src/controller/admission_controller.cc:50-54 | a fetched block that is stored already is reported present, without a handle |
| `StrandedTheory.AdmitWithRoom` | src/controller/admission_controller.cc:101-143 | with room, an accepted candidate is admitted and only its own key is added |
| `StrandedTheory.ReachIs` | src/controller/admission_controller.cc:70-84 | how far a chain goes, known before the call: up to the first fetched block that is not stored and that the policy rejects at its time |
| `StrandedTheory.ChainWithRoom` | src/pipeline/admission_stage.cc:7-23 | with room, under any policy, the fetched blocks up to there are hits, the stored ones without a handle and each of the others with a handle on its own block, and everything behind is refused; the index names no block twice at any call |
| `StrandedTheory.RequestWithRoom` | src/pipeline/request_pipeline.cc:12-20 | with room, under any policy, the same of a whole request: which handles it returns, on which blocks, and the index names no block twice at any call, so that the objects compute exactly this |
| `StrandedTheory.ConsecutiveIff` | src/pipeline/admission_stage.cc:11-18 | the missing blocks among the fetched ones come one after the other if and only if no stored one comes before one of them |
| `StrandedTheory.ContiguousIff` | src/pipeline/result_assembler.cc:8-24 | every reusable handle is on its own block: under any policy and capacity if none of the fetched blocks is stored; with room, under any policy, if and only if, as far as the chain goes, no stored one is followed by one that is not |
| `StrandedTheory.HitsBackedIff` | src/pipeline/result_assembler.cc:8-24 | the hits reported are backed by handles: under any policy and capacity if none of the fetched blocks is stored; with room, under any policy, if and only if none is stored as far as the chain goes |
| `Contiguity.ContiguousByStatus` | src/pipeline/result_assembler.cc:8-24 | under any policy and any capacity, in every run of the request, every reusable handle is on its own block if and only if no candidate that was found present came before one that was admitted |
| `Contiguity.BackedByStatus` | src/pipeline/result_assembler.cc:8-24 | under any policy and any capacity, in every run of the request and any state of the index, the hits reported are backed by handles if and only if no candidate was found present |
| `Contiguity.ChainPins` | src/pipeline/admission_stage.cc:7-23 | through every run of a chain of admissions pinned blocks stay as they are, and without an admission nothing changes |
| `Contiguity.NextPinned` | src/controller/admission_controller.cc:43-144 | admitting the next block of a pinned chain, whatever is evicted for it and whatever that leaves of the index, keeps the chain unbroken, pinned and on its own blocks, one longer |
| `StrandedExamples.ResultSkipsABlock` | src/pipeline/admission_stage.cc:12-17 | a cache reached from a fresh one and a request whose second handle is on its third block, with two matched tokens and three hits for two handles |
| `StrandedExamples.RoomIsNeeded` | src/controller/admission_controller.cc:101-115 | without room it is not enough that no stored block is followed by one that is not: a full cache whose chain admission evicts the blocks it is about to need |
| `PipelineTheory.ResolveSystem` | src/pipeline/remote_resolution_stage.cc:18-60 | no resolution ever meets a hash mismatch, every fetched payload was admitted somewhere under its hash, and the system invariant is kept |
| `PipelineTheory.RequestSystem` | src/pipeline/request_pipeline.cc:12-20 | a whole request, however its admissions turn out, is a run of the system and keeps its invariant |
| `PipelineTheory.ChainSystem` | src/pipeline/admission_stage.cc:7-23 | chain admission is a run of the system and keeps its invariant |
| `PipelineTheory.AdmitAllIsRun` | src/pipeline/admission_stage.cc:7-23 | the chain admission that AdmitAll computes is one of the runs of admission outcomes that the previous theorems range over |
| `Pipeline.MissingBlockPlanner.FindMissing` | src/pipeline/missing_block_planner.cc:7-28 | computes the plan |
| `Pipeline.InprocTransport.RegisterWorker` | src/transport/inproc_transport.cc:7-9 | adds or replaces the worker of a node; peers that share no records stay in order |
| `Pipeline.InprocTransport.FetchBlock` | src/transport/inproc_transport.cc:11-29 | transport error for an unknown node, otherwise the serve of that worker and of no other |
| `Pipeline.RemoteBlockFetcher.FetchRemote` | src/pipeline/remote_block_fetcher.cc:13-49 | maps the statuses one to one and compares the hash |
| `Pipeline.RemoteResolutionStage.Obtain` | src/pipeline/remote_resolution_stage.cc:26-44 | query, choice, fetch and, for a stale ref, the report |
| `Pipeline.RemoteResolutionStage.Run` | src/pipeline/remote_resolution_stage.cc:18-60 | the walk over the missing blocks with its early ends, on workers and directory together |
| `Pipeline.AdmissionStage.AdmitOne` | src/pipeline/admission_stage.cc:11-21 | one candidate: one of the outcomes of admission, and its handle, if it brings one, at the end of the list |
| `Pipeline.AdmissionStage.AdmitBlocks` | src/pipeline/admission_stage.cc:7-41 | chain admission over objects is a run of admission outcomes: counts, handles, and what is left of the cache; while the index names no block twice it is the one that AdmitAll computes |
| `Pipeline.ResultAssembler.Assemble` | src/pipeline/result_assembler.cc:5-25 | moves the handles over without changing a count; tokens are handles times the block size |
| `Pipeline.RequestPipeline.Run` | src/pipeline/request_pipeline.cc:12-20 | the stages in sequence, on cache, peers and directory, are one run of the request; while the index names no block twice it is the one that RunRequest computes; the handles it returns are new, distinct and counted, and cache and peers are in order for the next request |
| `Rigs.TwoWorkers` | tests/test_request_pipeline.cc:83-119 | two workers built with the constructors, each of which reaches the other, and one coordinator meet everything that requests ask for |
| `Rigs.EndAll` | src/core/block_handle.cc:11-15 | the handles that a request returned can all be ended, and the cache stays in order |
| `Rigs.ServeAll` | src/pipeline/request_pipeline.cc:12-20 | any number of requests run one after the other, the handles of each ended before the next; in the end every refcount is zero |

## Left out

- Threads and memory orders: workers are single-threaded in the source; refcounts are plain counters.
- Latency values, clocks, event sinks and decision logs: they do not affect the state.
- Hash algorithms and byte serialisation: the hash is a parameter.
- Rounding of the prefix-aware score: it is computed over the reals, where the source uses doubles.
- Configuration, policy registry, routing, the worker directory, the benchmark and its tools: no cache state.
- Promotion and demotion of a worker whose tier manager has records of its own: the scan controllers take the block manager, which is private in such a worker; a move made directly at its tier manager would leave the block manager's tier behind, and is not modelled.
- A tier manager with fewer records than the pool has slots: an admission can then throw after it has taken a slot; the cache counts as not in order (`CanStart`).
- The constructors without a tier manager as objects: such a worker is modelled as a value and is an instance of one with tiers, as `UntieredAdmit` states.
- Prefix identity of remote hits: the content hash covers only context, position and the block's own tokens, so a fetched block is known to have the right hash, not the right preceding tokens.
- Bytes beyond a short payload: the tail of the buffer keeps what it held; round trips are stated for the first min(length, buffer) bytes.
- Invalidation of refs that are not found: the source does not do it, so only stale generations make progress.
- An unavailable coordinator: it ends a resolution just like an empty answer.
- Tiering.TierManager.Demote: shares the body of `Promote`, as the two are the same text in the source.
- Pipeline.AdmissionStage.AdmitBlocks: stands for the admission of remote and of computed blocks, which are the same loop.
- Scans.TierScanner.Scan: stands for the two scans, whose loops are the same but for source, target and policy.
- Which key of a block that is stored twice an eviction deletes: the classes and the tree say so, the relations on values leave it open.
- PrefixIndices.PrefixIndex.Insert: for token sequences at least as long as the blocks, as the source reads them without a check.
