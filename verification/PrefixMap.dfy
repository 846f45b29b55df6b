/** What a prefix index means, without any tree: a finite map from keys (context, block-aligned token
    prefix) to block ids, and the operations of the index on that map. */
module PrefixMap {
  import opened Types

  type Entries = map<Key, BlockId>

  ghost predicate Injective(m: Entries) {
    forall k, k' | k in m && k' in m && m[k] == m[k'] :: k == k'
  }

  /** The first i blocks of the tokens exist. */
  predicate Fits(bs: nat, tokens: seq<Token>, i: nat) {
    i * bs <= |tokens|
  }

  /** The key of the first i blocks of a token sequence. */
  function BlockKey(bs: nat, ctx: ContextHash, tokens: seq<Token>, i: nat): Key {
    Key(ctx, if Fits(bs, tokens, i) then tokens[..i * bs] else tokens)
  }

  lemma FitsMono(bs: nat, tokens: seq<Token>, i: nat, j: nat)
    requires i <= j && Fits(bs, tokens, j)
    ensures Fits(bs, tokens, i) && i * bs <= j * bs
  {
  }

  /** Block prefixes of different lengths are different keys. */
  lemma BlockKeyLength(bs: nat, ctx: ContextHash, tokens: seq<Token>, i: nat, j: nat)
    requires bs > 0 && i < j && Fits(bs, tokens, j)
    ensures BlockKey(bs, ctx, tokens, i) != BlockKey(bs, ctx, tokens, j)
    ensures Extends(BlockKey(bs, ctx, tokens, j), BlockKey(bs, ctx, tokens, i))
  {
    FitsMono(bs, tokens, i + 1, j);
    assert i * bs < (i + 1) * bs <= j * bs;
    assert |BlockKey(bs, ctx, tokens, i).tokens| == i * bs;
    assert |BlockKey(bs, ctx, tokens, j).tokens| == j * bs;
  }

  // ---------- lookup ----------

  /** ids[j-1] is stored under the first j blocks of tokens, for j from 1 to |ids|. */
  ghost predicate IsChain(m: Entries, bs: nat, ctx: ContextHash, tokens: seq<Token>, ids: seq<BlockId>) {
    && Fits(bs, tokens, |ids|)
    && forall j | 1 <= j <= |ids| ::
      BlockKey(bs, ctx, tokens, j) in m && m[BlockKey(bs, ctx, tokens, j)] == ids[j - 1]
  }

  /** ids is the longest unbroken chain of block prefixes of tokens. */
  ghost predicate IsLongestChain(m: Entries, bs: nat, ctx: ContextHash, tokens: seq<Token>, ids: seq<BlockId>) {
    && IsChain(m, bs, ctx, tokens, ids)
    && (Fits(bs, tokens, |ids| + 1) ==> BlockKey(bs, ctx, tokens, |ids| + 1) !in m)
  }

  ghost function ChainFrom(m: Entries, bs: nat, ctx: ContextHash, tokens: seq<Token>,
                           ids: seq<BlockId>): (r: seq<BlockId>)
    requires bs > 0 && IsChain(m, bs, ctx, tokens, ids)
    ensures IsLongestChain(m, bs, ctx, tokens, r)
    decreases |tokens| - |ids| * bs
  {
    var j := |ids| + 1;
    assert j * bs == |ids| * bs + bs;
    if Fits(bs, tokens, j) && BlockKey(bs, ctx, tokens, j) in m then
      ChainFrom(m, bs, ctx, tokens, ids + [m[BlockKey(bs, ctx, tokens, j)]])
    else ids
  }

  /** The longest chain, computed block by block. */
  ghost function Chain(m: Entries, bs: nat, ctx: ContextHash, tokens: seq<Token>): (r: seq<BlockId>)
    requires bs > 0
    ensures IsLongestChain(m, bs, ctx, tokens, r)
  {
    ChainFrom(m, bs, ctx, tokens, [])
  }

  /** There is only one longest chain. */
  lemma LongestChainUnique(m: Entries, bs: nat, ctx: ContextHash, tokens: seq<Token>, a: seq<BlockId>, b: seq<BlockId>)
    requires IsLongestChain(m, bs, ctx, tokens, a) && IsLongestChain(m, bs, ctx, tokens, b)
    ensures a == b
  {
    if |a| < |b| {
      FitsMono(bs, tokens, |a| + 1, |b|);
      assert false;
    }
    if |b| < |a| {
      FitsMono(bs, tokens, |b| + 1, |a|);
      assert false;
    }
    forall i | 0 <= i < |a| ensures a[i] == b[i] {
      assert BlockKey(bs, ctx, tokens, i + 1) in m;
    }
  }

  // ---------- insert ----------

  /** Adds the first n block prefixes; a key that is already there keeps its id. */
  ghost function InsertUpTo(m: Entries, bs: nat, ctx: ContextHash, tokens: seq<Token>, ids: seq<BlockId>,
                            n: nat): Entries
    requires n <= |ids|
  {
    if n == 0 then m
    else
      var m' := InsertUpTo(m, bs, ctx, tokens, ids, n - 1);
      var k := BlockKey(bs, ctx, tokens, n);
      if k in m' then m' else m'[k := ids[n - 1]]
  }

  ghost function InsertChain(m: Entries, bs: nat, ctx: ContextHash, tokens: seq<Token>, ids: seq<BlockId>): Entries {
    InsertUpTo(m, bs, ctx, tokens, ids, |ids|)
  }

  lemma InsertUpToNext(m: Entries, bs: nat, ctx: ContextHash, tokens: seq<Token>, ids: seq<BlockId>, n: nat)
    requires n < |ids|
    ensures InsertUpTo(m, bs, ctx, tokens, ids, 0) == m
    ensures
      var m', k := InsertUpTo(m, bs, ctx, tokens, ids, n), BlockKey(bs, ctx, tokens, n + 1);
      InsertUpTo(m, bs, ctx, tokens, ids, n + 1) == if k in m' then m' else m'[k := ids[n]]
  {
  }

  /** k is one of the first n block prefixes. */
  ghost predicate OnPath(bs: nat, ctx: ContextHash, tokens: seq<Token>, n: nat, k: Key) {
    exists j :: 1 <= j <= n && k == BlockKey(bs, ctx, tokens, j)
  }

  /** "Add the missing keys, first wins": nothing that was there changes, the j-th block prefix maps to
      ids[j-1] when it was missing, and no other key appears. */
  lemma {:induction false} InsertUpToIs(m: Entries, bs: nat, ctx: ContextHash, tokens: seq<Token>, ids: seq<BlockId>,
                                        n: nat)
    requires bs > 0 && n <= |ids| && Fits(bs, tokens, |ids|)
    ensures
      var m' := InsertUpTo(m, bs, ctx, tokens, ids, n);
      && (forall k | k in m :: k in m' && m'[k] == m[k])
      && (forall j | 1 <= j <= n ::
            BlockKey(bs, ctx, tokens, j) in m'
            && (BlockKey(bs, ctx, tokens, j) !in m ==> m'[BlockKey(bs, ctx, tokens, j)] == ids[j - 1]))
      && (forall k | k in m' :: k in m || OnPath(bs, ctx, tokens, n, k))
  {
    hide BlockKey;
    if n > 0 {
      InsertUpToIs(m, bs, ctx, tokens, ids, n - 1);
      FitsMono(bs, tokens, n, |ids|);
      var m0 := InsertUpTo(m, bs, ctx, tokens, ids, n - 1);
      var m' := InsertUpTo(m, bs, ctx, tokens, ids, n);
      var k0 := BlockKey(bs, ctx, tokens, n);
      forall j | 1 <= j < n ensures k0 != BlockKey(bs, ctx, tokens, j) {
        BlockKeyLength(bs, ctx, tokens, j, n);
      }
      assert k0 in m0 ==> k0 in m;
      forall k | k in m' ensures k in m || OnPath(bs, ctx, tokens, n, k) {
        if k !in m && k != k0 {
          var j :| 1 <= j <= n - 1 && k == BlockKey(bs, ctx, tokens, j);
        }
      }
    }
  }

  predicate Writes(m: Entries, bs: nat, ctx: ContextHash, tokens: seq<Token>, j: nat) {
    BlockKey(bs, ctx, tokens, j) !in m
  }

  /** The ids that the insertion writes are new to the map, and all different. */
  ghost predicate NewIdsFresh(m: Entries, bs: nat, ctx: ContextHash, tokens: seq<Token>, ids: seq<BlockId>) {
    && (forall j, k | 1 <= j <= |ids| && Writes(m, bs, ctx, tokens, j) && k in m :: m[k] != ids[j - 1])
    && (forall j, j' | 1 <= j < j' <= |ids| && Writes(m, bs, ctx, tokens, j) && Writes(m, bs, ctx, tokens, j') ::
          ids[j - 1] != ids[j' - 1])
  }

  /** Inserting into an injective map keeps it injective exactly when the newly written ids are fresh and
      distinct. */
  lemma InsertInjectiveIff(m: Entries, bs: nat, ctx: ContextHash, tokens: seq<Token>, ids: seq<BlockId>)
    requires bs > 0 && Fits(bs, tokens, |ids|) && Injective(m)
    ensures Injective(InsertChain(m, bs, ctx, tokens, ids)) <==> NewIdsFresh(m, bs, ctx, tokens, ids)
  {
    hide InsertUpTo;
    hide BlockKey;
    InsertUpToIs(m, bs, ctx, tokens, ids, |ids|);
    var m' := InsertChain(m, bs, ctx, tokens, ids);
    if NewIdsFresh(m, bs, ctx, tokens, ids) {
      forall k, k' | k in m' && k' in m' && m'[k] == m'[k'] ensures k == k' {
        FreshKeys(m, bs, ctx, tokens, ids, m', k, k');
      }
    }
    if Injective(m') {
      forall j, k | 1 <= j <= |ids| && Writes(m, bs, ctx, tokens, j) && k in m ensures m[k] != ids[j - 1] {
        assert BlockKey(bs, ctx, tokens, j) in m' && k in m';
      }
      forall j, j' | 1 <= j < j' <= |ids| && Writes(m, bs, ctx, tokens, j) && Writes(m, bs, ctx, tokens, j')
        ensures ids[j - 1] != ids[j' - 1]
      {
        FitsMono(bs, tokens, j', |ids|);
        BlockKeyLength(bs, ctx, tokens, j, j');
        assert BlockKey(bs, ctx, tokens, j) in m' && BlockKey(bs, ctx, tokens, j') in m';
      }
    }
  }

  lemma FreshKeys(m: Entries, bs: nat, ctx: ContextHash, tokens: seq<Token>, ids: seq<BlockId>, m': Entries, k: Key,
                  k': Key)
    requires Injective(m) && NewIdsFresh(m, bs, ctx, tokens, ids) && k in m' && k' in m' && m'[k] == m'[k']
    requires forall k | k in m :: k in m' && m'[k] == m[k]
    requires forall j | 1 <= j <= |ids| && Writes(m, bs, ctx, tokens, j) ::
      BlockKey(bs, ctx, tokens, j) in m' && m'[BlockKey(bs, ctx, tokens, j)] == ids[j - 1]
    requires forall k | k in m' :: k in m || OnPath(bs, ctx, tokens, |ids|, k)
    ensures k == k'
  {
    if k !in m {
      var j :| 1 <= j <= |ids| && k == BlockKey(bs, ctx, tokens, j);
      assert Writes(m, bs, ctx, tokens, j);
      if k' !in m {
        var j' :| 1 <= j' <= |ids| && k' == BlockKey(bs, ctx, tokens, j');
        assert Writes(m, bs, ctx, tokens, j');
      }
    } else if k' !in m {
      var j' :| 1 <= j' <= |ids| && k' == BlockKey(bs, ctx, tokens, j');
      assert Writes(m, bs, ctx, tokens, j');
    }
  }

  // ---------- remove ----------

  /** Deletes every key that maps to id (one key at most when the map is injective). */
  ghost function RemoveId(m: Entries, id: BlockId): Entries {
    map k | k in m && m[k] != id :: m[k]
  }

  // ---------- counts ----------

  ghost predicate Extends(k: Key, base: Key) {
    k.ctx == base.ctx && base.tokens < k.tokens
  }

  /** Keys strictly below a key. */
  ghost function Below(m: Entries, base: Key): set<Key> {
    set k | k in m.Keys && Extends(k, base)
  }

  /** Keys exactly one block below a key. */
  ghost function OneBelow(m: Entries, bs: nat, base: Key): set<Key> {
    set k | k in m.Keys && Extends(k, base) && |k.tokens| == |base.tokens| + bs
  }

  /** The key of an id, for an id in the range of the map. */
  ghost function KeyOf(m: Entries, id: BlockId): (k: Key)
    requires id in m.Values
    ensures k in m && m[k] == id
  {
    var k :| k in m && m[k] == id;
    k
  }

  ghost function ChildCount(m: Entries, bs: nat, id: BlockId): nat {
    if id in m.Values then |OneBelow(m, bs, KeyOf(m, id))| else 0
  }

  ghost function DescendantCount(m: Entries, id: BlockId): nat {
    if id in m.Values then |Below(m, KeyOf(m, id))| else 0
  }
}
