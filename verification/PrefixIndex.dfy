/** src/prefix/prefix_index.cc: the index as the source has it, an arena of nodes mutated in place, shown
    to implement the map operations of PrefixMap. */
module PrefixIndices {
  import opened Types
  import opened PrefixTree
  import opened PrefixMap

  datatype Work = Work(node: nat, remaining: nat)

  /** Each work item has the room left from its node to the limit. */
  ghost predicate WorkFor(t: Tree, limit: nat, work: seq<Work>, front: seq<nat>) {
    && |work| == |front|
    && forall i | 0 <= i < |work| ::
      work[i].node == front[i] && front[i] < |t.keys| && |t.keys[front[i]].tokens| + work[i].remaining == limit
  }

  /** The queue walk of blockChildCount: a counting walk whose waiting nodes are the work items. */
  ghost predicate QueueWalk(bs: nat, t: Tree, start: nat, limit: nat, done: set<nat>, queue: seq<Work>,
                            front: seq<nat>, seen: set<Key>, count: nat)
  {
    Counting(bs, t, start, Some(limit), done, front, seen, count) && WorkFor(t, limit, queue, front)
  }

  lemma QueueStart(bs: nat, t: Tree, start: nat, limit: nat, queue: seq<Work>, front: seq<nat>)
    requires Wf(bs, t) && Live(t, start)
    requires IsKidList(t, start, start, Some(limit), front) && WorkFor(t, limit, queue, front)
    ensures QueueWalk(bs, t, start, limit, {}, queue, front, {}, 0)
  {
    CountStart(bs, t, start, Some(limit), front);
  }

  lemma QueueFront(bs: nat, t: Tree, start: nat, limit: nat, done: set<nat>, queue: seq<Work>, front: seq<nat>,
                   seen: set<Key>, count: nat)
    requires QueueWalk(bs, t, start, limit, done, queue, front, seen, count) && queue != []
    ensures Live(t, start) && front != [] && queue[0].node == front[0] && Live(t, front[0])
    ensures InRange(t, start, Some(limit), queue[0].node)
    ensures |t.keys[queue[0].node].tokens| + queue[0].remaining == limit
  {
    CountTake(bs, t, start, Some(limit), done, front, seen, count, 0);
  }

  lemma QueueStep(bs: nat, t: Tree, start: nat, limit: nat, done: set<nat>, queue: seq<Work>, front: seq<nat>,
                  seen: set<Key>, count: nat, more: seq<Work>, kids: seq<nat>)
    requires QueueWalk(bs, t, start, limit, done, queue, front, seen, count) && queue != []
    requires Live(t, start) && Live(t, queue[0].node)
    requires IsKidList(t, queue[0].node, start, Some(limit), kids) && WorkFor(t, limit, more, kids)
    ensures QueueWalk(bs, t, start, limit, done + {queue[0].node}, queue[1..] + more, front[1..] + kids,
                      SeenWith(t, seen, queue[0].node),
                      count + if t.nodes[queue[0].node].terminal.Some? then 1 else 0)
    ensures |Upto(|t.nodes|) - (done + {queue[0].node})| < |Upto(|t.nodes|) - done|
  {
    hide Counting;
    hide IsKidList;
    CountDequeue(bs, t, start, Some(limit), done, front, seen, count, kids);
  }

  lemma QueueEnd(bs: nat, t: Tree, start: nat, limit: nat, done: set<nat>, front: seq<nat>, seen: set<Key>, count: nat)
    requires bs > 0 && Live(t, start) && limit == |t.keys[start].tokens| + bs && |t.keys[start].tokens| % bs == 0
    requires QueueWalk(bs, t, start, limit, done, [], front, seen, count)
    ensures count == |OneBelow(Contents(t), bs, t.keys[start])|
  {
    assert front == [];
    CountOneBelow(bs, t, start, done, seen, count);
  }

  class PrefixIndex {
    const blockSize: nat
    var nodes: seq<Node>
    var roots: map<ContextHash, nat>
    var blockNode: map<BlockId, nat>
    ghost var keys: seq<Key>
    ghost var at: map<Key, nat>
    ghost var splits: nat  // how many edges have been cut so far

    ghost function T(): Tree
      reads this
    {
      Tree(nodes, roots, blockNode, keys, at)
    }

    ghost predicate Valid()
      reads this
    {
      Wf(blockSize, T())
    }

    /** The map the index stands for. */
    ghost function M(): Entries
      reads this
    {
      Contents(T())
    }

    constructor (blockSize: nat)
      requires blockSize > 0
      ensures Valid() && this.blockSize == blockSize && M() == map[] && Covered(T())
    {
      this.blockSize := blockSize;
      nodes, roots, blockNode, keys, at, splits := [], map[], map[], [], map[], 0;
    }

    /** The stored keys exactly one block below the key that the reverse index has for this id. */
    ghost function ChildrenOf(id: BlockId): nat
      requires Valid()
      reads this
    {
      if id in blockNode then |OneBelow(M(), blockSize, keys[blockNode[id]])| else 0
    }

    /** The stored keys strictly below it. */
    ghost function DescendantsOf(id: BlockId): nat
      requires Valid()
      reads this
    {
      if id in blockNode then |Below(M(), keys[blockNode[id]])| else 0
    }

    /** When no block is stored twice they are the counts of the map. */
    lemma CountsWhenExact(id: BlockId)
      requires Valid() && Exact(T())
      ensures ChildrenOf(id) == ChildCount(M(), blockSize, id) && DescendantsOf(id) == DescendantCount(M(), id)
    {
      ExactKeyOf(blockSize, T(), id);
    }

    lemma BlockSizeIsPositive()
      requires Valid()
      ensures blockSize > 0
    {
    }

    method NewNode(ghost k: Key) returns (idx: nat)
      modifies this`nodes, this`keys, this`at
      ensures idx == |old(nodes)|
      ensures nodes == old(nodes) + [Node([], None, map[], None, 0)]
      ensures keys == old(keys) + [k] && at == old(at)[k := idx]
    {
      idx := |nodes|;
      nodes := nodes + [Node([], None, map[], None, 0)];
      keys, at := keys + [k], at[k := idx];
    }

    method GetOrCreateRoot(ctx: ContextHash) returns (root: nat)
      requires Valid()
      modifies this`nodes, this`roots, this`keys, this`at
      ensures Valid() && M() == old(M())
      ensures Live(T(), root) && keys[root] == Key(ctx, [])
      ensures old(Covered(T())) ==> Covered(T())
      ensures if ctx in old(roots) then T() == old(T()) else T() == AddRoot(old(T()), ctx) && root == |old(nodes)|
    {
      hide NodeOk;
      hide IndexOk;
      hide Contents;
      hide NoBareLeaf;
      hide Covered;
      if ctx in roots {
        root := roots[ctx];
      } else {
        AddRootOk(blockSize, T(), ctx);
        root := NewNode(Key(ctx, []));
        roots := roots[ctx := root];
        assert T() == AddRoot(old(T()), ctx);
      }
    }

    /** The token-by-token comparison of an edge with the request. */
    static method EdgeMismatch(tokens: seq<Token>, pos: nat, edge: seq<Token>) returns (mismatch: bool)
      requires pos + |edge| <= |tokens|
      ensures mismatch <==> tokens[pos..pos + |edge|] != edge
    {
      mismatch := false;
      var i := 0;
      while i < |edge|
        invariant 0 <= i <= |edge|
        invariant !mismatch && tokens[pos..pos + i] == edge[..i]
      {
        if tokens[pos + i] != edge[i] {
          assert tokens[pos..pos + |edge|][i] != edge[i];
          mismatch := true;
          break;
        }
        i := i + 1;
      }
    }

    /** The child whose whole edge follows the request from pos on, if there is one. */
    method Descend(node: nat, tokens: seq<Token>, pos: nat) returns (r: Option<nat>)
      requires Valid() && Live(T(), node) && pos < |tokens|
      ensures r.Some? <==> CanStep(T(), node, tokens, pos)
      ensures r.Some? ==> r.value == nodes[node].children[tokens[pos]]
    {
      var first := tokens[pos];
      if first !in nodes[node].children {
        return None;
      }
      assert NodeOk(blockSize, T(), node);
      var child := nodes[node].children[first];
      assert Live(T(), child);
      var edge := nodes[child].edge;
      if |tokens| - pos < |edge| {
        return None;
      }
      var mismatch := EdgeMismatch(tokens, pos, edge);
      if mismatch {
        return None;
      }
      return Some(child);
    }

    /** A walk starts at the root of the context; without one nothing is stored for it. */
    lemma StartOfPath(ctx: ContextHash, tokens: seq<Token>)
      requires Valid()
      ensures blockSize > 0
      ensures ctx in roots ==> OnNode(T(), roots[ctx], ctx, tokens, 0)
      ensures tokens == [] || ctx !in roots ==> IsLongestChain(M(), blockSize, ctx, tokens, [])
    {
    }

    method Lookup(ctx: ContextHash, tokens: seq<Token>) returns (blocks: seq<BlockId>, matched: nat)
      requires Valid()
      ensures IsLongestChain(M(), blockSize, ctx, tokens, blocks)
      ensures matched == |blocks| * blockSize
    {
      hide Wf;
      hide Contents;
      hide Covered;
      StartOfPath(ctx, tokens);
      blocks, matched := [], 0;
      if tokens == [] {
        return;
      }
      if ctx !in roots {
        return;
      }
      var node := roots[ctx];
      var pos := 0;
      while pos < |tokens|
        invariant OnNode(T(), node, ctx, tokens, pos)
        invariant |blocks| * blockSize <= pos < |blocks| * blockSize + blockSize
        invariant IsChain(M(), blockSize, ctx, tokens, blocks)
      {
        var child := Descend(node, tokens, pos);
        if child == None {
          NextMissing(blockSize, T(), node, ctx, tokens, pos, |blocks|);
          break;
        }
        ChildStep(blockSize, T(), node, ctx, tokens, pos, |blocks|);
        node := child.value;
        pos := pos + |nodes[node].edge|;
        if pos % blockSize == 0 {
          BlockBoundary(blockSize, T(), node, ctx, tokens, blocks);
          if nodes[node].terminal.Some? {
            blocks := blocks + [nodes[node].terminal.value];
          } else {
            break;
          }
        }
      }
      matched := |blocks| * blockSize;
    }
  
    /** Appends a leaf below node that takes the rest of block i of the request. */
    method CreateLeaf(ctx: ContextHash, tokens: seq<Token>, node: nat, pos: nat, i: nat, block: BlockId)
      returns (leaf: nat)
      requires Valid() && OnNode(T(), node, ctx, tokens, pos) && Fits(blockSize, tokens, i + 1)
      requires i * blockSize <= pos < (i + 1) * blockSize && tokens[pos] !in nodes[node].children
      modifies this`nodes, this`blockNode, this`keys, this`at
      ensures Valid() && OnNode(T(), leaf, ctx, tokens, (i + 1) * blockSize)
      ensures BlockKey(blockSize, ctx, tokens, i + 1) !in old(M())
      ensures M() == old(M())[BlockKey(blockSize, ctx, tokens, i + 1) := block]
      ensures old(Covered(T())) ==> Covered(T())
      ensures |nodes| == |old(nodes)| + 1 && nodes[leaf].children == map[]
    {
      hide Wf;
      hide Contents;
      hide Covered;
      LeafOnPath(blockSize, T(), node, ctx, tokens, pos, i, block);
      var edge := tokens[pos..(i + 1) * blockSize];
      leaf := NewNode(Key(keys[node].ctx, keys[node].tokens + edge));
      nodes := nodes[leaf := nodes[leaf].(edge := edge)];
      nodes := nodes[leaf := nodes[leaf].(terminal := Some(block))];
      nodes := nodes[leaf := nodes[leaf].(parent := Some(node))];
      nodes := nodes[leaf := nodes[leaf].(first := edge[0])];
      blockNode := blockNode[block := leaf];
      nodes := nodes[node := nodes[node].(children := nodes[node].children[edge[0] := leaf])];
      assert T() == AddLeaf(old(T()), node, edge, block);
    }

    /** Gives the children of an old node a new parent. */
    method ReparentChildren(kids: map<Token, nat>, parent: nat)
      requires forall tok | tok in kids :: kids[tok] < |nodes|
      modifies this`nodes
      ensures nodes == Reparent(old(nodes), kids, parent)
    {
      var todo := kids.Keys;
      ghost var done: set<Token> := {};
      while todo != {}
        invariant todo <= kids.Keys && done == kids.Keys - todo && |nodes| == |old(nodes)|
        invariant forall i | 0 <= i < |nodes| ::
          nodes[i] == if (exists tok :: tok in done && kids[tok] == i) then old(nodes)[i].(parent := Some(parent))
                      else old(nodes)[i]
        decreases |todo|
      {
        var tok := AnyOf(todo);
        nodes := nodes[kids[tok] := nodes[kids[tok]].(parent := Some(parent))];
        todo, done := todo - {tok}, done + {tok};
      }
      assert done == kids.Keys;
    }

    /** Cuts the edge of child after its first lcp tokens. */
    method Split(child: nat, lcp: nat)
      requires child < |nodes| == |keys| && 0 < lcp < |nodes[child].edge| <= |keys[child].tokens|
      requires forall tok | tok in nodes[child].children :: child != nodes[child].children[tok] < |nodes|
      modifies this
      ensures T() == SplitEdge(old(T()), child, lcp) && splits == old(splits) + 1
    {
      var edge := nodes[child].edge;
      var splitTerminal := nodes[child].terminal;
      var splitEdge := edge[lcp..];
      ghost var oldKey := keys[child];
      ghost var mid := Key(oldKey.ctx, oldKey.tokens[..|oldKey.tokens| - |edge| + lcp]);
      var split := NewNode(oldKey);
      keys, at := keys[child := mid], at[mid := child];
      nodes := nodes[split := Node(splitEdge, splitTerminal, nodes[child].children, Some(child), splitEdge[0])];
      ghost var kids := nodes[child].children;
      ghost var low := nodes[split];
      assert !IsKid(kids, split);
      ReparentChildren(nodes[split].children, split);
      assert nodes[split] == low;
      if splitTerminal.Some? {
        blockNode := blockNode[splitTerminal.value := split];
      }
      var rest := nodes[child].(edge := edge[..lcp], terminal := None, children := map[]);
      nodes := nodes[child := rest.(children := rest.children[splitEdge[0] := split])];
      SplitNodes(old(T()), child, lcp, nodes);
      splits := splits + 1;
    }
  
    static lemma SplitNodes(t: Tree, c: nat, l: nat, r: seq<Node>)
      requires c < |t.nodes| == |t.keys| && 0 < l < |t.nodes[c].edge| <= |t.keys[c].tokens|
      requires
        var o := t.nodes[c];
        var s := |t.nodes|;
        && |r| == s + 1
        && r[s] == Node(o.edge[l..], o.terminal, o.children, Some(c), o.edge[l])
        && r[c] == o.(edge := o.edge[..l], terminal := None, children := map[o.edge[l] := s])
        && (forall i | 0 <= i < s && i != c :: r[i] == Reparent(t.nodes, o.children, s)[i])
      ensures r == SplitEdge(t, c, l).nodes
    {
    }
  
    /** The number of tokens from pos on that agree with the edge. */
    static method CommonPrefix(tokens: seq<Token>, pos: nat, edge: seq<Token>) returns (lcp: nat)
      requires pos + |edge| <= |tokens|
      ensures lcp <= |edge| && tokens[pos..pos + lcp] == edge[..lcp]
      ensures lcp < |edge| ==> tokens[pos + lcp] != edge[lcp]
    {
      lcp := 0;
      while lcp < |edge| && tokens[pos + lcp] == edge[lcp]
        invariant lcp <= |edge| && tokens[pos..pos + lcp] == edge[..lcp]
      {
        lcp := lcp + 1;
      }
    }

    /** Stores block under the end of block i of the request, unless something is stored there. */
    method MarkTerminal(ctx: ContextHash, tokens: seq<Token>, child: nat, i: nat, block: BlockId)
      requires Valid() && Fits(blockSize, tokens, i + 1) && OnNode(T(), child, ctx, tokens, (i + 1) * blockSize)
      requires nodes[child].parent.Some?
      modifies this`nodes, this`blockNode
      ensures Valid() && OnNode(T(), child, ctx, tokens, (i + 1) * blockSize)
      ensures
        var k := BlockKey(blockSize, ctx, tokens, i + 1);
        M() == if k in old(M()) then old(M()) else old(M())[k := block]
      ensures old(Covered(T())) ==> Covered(T())
      ensures |nodes| == |old(nodes)|
    {
      hide Wf;
      hide Contents;
      hide Covered;
      TerminalOnPath(blockSize, T(), child, ctx, tokens, i, block);
      if nodes[child].terminal == None {
        nodes := nodes[child := nodes[child].(terminal := Some(block))];
        blockNode := blockNode[block := child];
        assert T() == SetTerminal(old(T()), child, block);
      }
    }

    method SplitForPath(ctx: ContextHash, tokens: seq<Token>, child: nat, lcp: nat, pos: nat)
      requires Valid() && Live(T(), child) && nodes[child].parent.Some? && 0 < lcp < |nodes[child].edge|
      requires forall tok | tok in nodes[child].children :: child != nodes[child].children[tok] < |nodes|
      requires pos + lcp < |tokens| && keys[child] == Key(ctx, tokens[..pos] + nodes[child].edge)
      requires tokens[pos..pos + lcp] == nodes[child].edge[..lcp] && tokens[pos + lcp] != nodes[child].edge[lcp]
      modifies this
      ensures Valid() && OnNode(T(), child, ctx, tokens, pos + lcp)
      ensures M() == old(M()) && (old(Covered(T())) ==> Covered(T()))
      ensures |nodes| == |old(nodes)| + 1 && tokens[pos + lcp] !in nodes[child].children
      ensures splits == old(splits) + 1
    {
      assert CanSplit(blockSize, T(), child, lcp);
      hide Wf;
      hide Contents;
      hide Covered;
      SplitOk(blockSize, T(), child, lcp);
      SplitOnPath(blockSize, T(), child, lcp, ctx, tokens, pos);
      Split(child, lcp);
    }

    /** One round of the inner loop where a child starts with the next token: descends a fully matching
        edge (and ends the block there, if it does end), or cuts the edge where it leaves the path. */
    method FollowEdge(ctx: ContextHash, tokens: seq<Token>, node: nat, pos: nat, i: nat, block: BlockId)
      returns (node': nat, pos': nat)
      requires Valid() && Fits(blockSize, tokens, i + 1) && OnNode(T(), node, ctx, tokens, pos)
      requires i * blockSize <= pos < (i + 1) * blockSize && tokens[pos] in nodes[node].children
      modifies this
      ensures Valid() && OnNode(T(), node', ctx, tokens, pos') && pos < pos' <= (i + 1) * blockSize
      ensures old(Covered(T())) ==> Covered(T())
      ensures pos' < (i + 1) * blockSize ==> M() == old(M())
      ensures pos' == (i + 1) * blockSize ==>
        var k := BlockKey(blockSize, ctx, tokens, i + 1);
        M() == if k in old(M()) then old(M()) else old(M())[k := block]
      ensures |nodes| - |old(nodes)| == splits - old(splits)
      ensures |nodes| == |old(nodes)|
        || (|nodes| == |old(nodes)| + 1 && pos' < (i + 1) * blockSize && tokens[pos'] !in nodes[node'].children)
    {
      hide Wf;
      hide Contents;
      hide Covered;
      BlockSizeIsPositive();
      EdgeInBlock(blockSize, T(), node, ctx, tokens, pos, i);
      var child := nodes[node].children[tokens[pos]];
      var edge := nodes[child].edge;
      var lcp := CommonPrefix(tokens, pos, edge);
      node', pos' := child, pos + lcp;
      if lcp == |edge| {
        ChildStep(blockSize, T(), node, ctx, tokens, pos, i);
        if pos' == (i + 1) * blockSize {
          MarkTerminal(ctx, tokens, child, i, block);
        }
      } else {
        SplitForPath(ctx, tokens, child, lcp, pos);
      }
    }

    /** The inner loop of insert: walks and, where needed, builds the path of one block, starting at the
        end of block i. */
    method InsertBlock(ctx: ContextHash, tokens: seq<Token>, start: nat, i: nat, block: BlockId) returns (node: nat)
      requires Valid() && Fits(blockSize, tokens, i + 1)
      requires i * blockSize <= |tokens| && OnNode(T(), start, ctx, tokens, i * blockSize)
      modifies this
      ensures Valid() && OnNode(T(), node, ctx, tokens, (i + 1) * blockSize)
      ensures
        var k := BlockKey(blockSize, ctx, tokens, i + 1);
        M() == if k in old(M()) then old(M()) else old(M())[k := block]
      ensures old(Covered(T())) ==> Covered(T())
      ensures |old(nodes)| <= |nodes| <= |old(nodes)| + 2
      ensures old(splits) <= splits <= old(splits) + 1
      ensures splits == old(splits) || |nodes| == |old(nodes)| + 2
      ensures old(nodes[start].children) == map[] ==> |nodes| == |old(nodes)| + 1
      ensures |nodes| > |old(nodes)| ==> nodes[node].children == map[]
    {
      hide Wf;
      hide Contents;
      hide Covered;
      BlockSizeIsPositive();
      node := start;
      var pos := i * blockSize;
      var segmentEnd := (i + 1) * blockSize;
      while pos < segmentEnd
        invariant Valid() && OnNode(T(), node, ctx, tokens, pos)
        invariant i * blockSize <= pos <= segmentEnd
        invariant old(Covered(T())) ==> Covered(T())
        invariant
          var k := BlockKey(blockSize, ctx, tokens, i + 1);
          M() == if pos < segmentEnd || k in old(M()) then old(M()) else old(M())[k := block]
        invariant splits - old(splits) == |nodes| - |old(nodes)|
        invariant |nodes| == |old(nodes)|
          || (|nodes| == |old(nodes)| + 1 && pos < segmentEnd && tokens[pos] !in nodes[node].children)
        invariant old(nodes[start].children) == map[] ==>
          |nodes| == |old(nodes)| && pos < segmentEnd && nodes[node].children == map[]
      {
        if tokens[pos] !in nodes[node].children {
          node := CreateLeaf(ctx, tokens, node, pos, i, block);
          pos := segmentEnd;
          break;
        }
        node, pos := FollowEdge(ctx, tokens, node, pos, i, block);
      }
    }

    method Insert(ctx: ContextHash, tokens: seq<Token>, blocks: seq<BlockId>)
      requires Valid() && Fits(blockSize, tokens, |blocks|)
      modifies this
      ensures Valid()
      ensures M() == InsertChain(old(M()), blockSize, ctx, tokens, blocks)
      ensures old(Covered(T())) ==> Covered(T())
      ensures old(Exact(T())) ==> (Exact(T()) <==> NewIdsFresh(old(M()), blockSize, ctx, tokens, blocks))
      ensures |old(nodes)| <= |nodes| <= |old(nodes)| + |blocks| + 1
      ensures splits <= old(splits) + 1
    {
      hide Wf;
      hide Contents;
      hide Covered;
      hide Exact;
      hide NewIdsFresh;
      hide InsertUpTo;
      hide BlockKey;
      hide Fits;
      ghost var t0 := T();
      BlockSizeIsPositive();
      if Exact(t0) {
        ExactWasCovered(blockSize, t0);
      }
      if blocks == [] {
        NothingInserted(M(), blockSize, ctx, tokens, blocks);
        if Exact(t0) {
          InsertExact(blockSize, t0, T(), ctx, tokens, blocks);
        }
        return;
      }
      var node := GetOrCreateRoot(ctx);
      var counter := 0;
      InsertUpToNext(M(), blockSize, ctx, tokens, blocks, 0);
      FitsMono(blockSize, tokens, 0, |blocks|);
      while counter < |blocks|
        invariant 0 <= counter <= |blocks|
        invariant Valid() && Fits(blockSize, tokens, counter)
        invariant OnNode(T(), node, ctx, tokens, counter * blockSize)
        invariant M() == InsertUpTo(old(M()), blockSize, ctx, tokens, blocks, counter)
        invariant old(Covered(T())) ==> Covered(T())
        invariant |old(nodes)| <= |nodes| <= |old(nodes)| + counter + 1
        invariant splits == old(splits) || (splits == old(splits) + 1 && |nodes| > |old(nodes)|)
        invariant |nodes| > |old(nodes)| ==> nodes[node].children == map[]
      {
        FitsMono(blockSize, tokens, counter + 1, |blocks|);
        FitsIs(blockSize, tokens, counter + 1);
        InsertUpToNext(old(M()), blockSize, ctx, tokens, blocks, counter);
        node := InsertBlock(ctx, tokens, node, counter, blocks[counter]);
        counter := counter + 1;
      }
      if Exact(t0) {
        InsertExact(blockSize, t0, T(), ctx, tokens, blocks);
      }
    }

    static lemma NothingInserted(m: Entries, bs: nat, ctx: ContextHash, tokens: seq<Token>, blocks: seq<BlockId>)
      requires blocks == []
      ensures InsertChain(m, bs, ctx, tokens, blocks) == m
    {
    }

    static lemma FitsIs(bs: nat, tokens: seq<Token>, i: nat)
      requires Fits(bs, tokens, i)
      ensures i * bs <= |tokens|
    {
    }

    static lemma ExactWasCovered(bs: nat, t: Tree)
      requires Wf(bs, t) && Exact(t)
      ensures Covered(t)
    {
      ExactIff(bs, t);
    }

    /** The reverse index stays exact exactly when the newly written ids are fresh and distinct. */
    static lemma InsertExact(bs: nat, t0: Tree, t: Tree, ctx: ContextHash, tokens: seq<Token>, blocks: seq<BlockId>)
      requires Wf(bs, t0) && Exact(t0) && Wf(bs, t) && Covered(t) && Fits(bs, tokens, |blocks|)
      requires Contents(t) == InsertChain(Contents(t0), bs, ctx, tokens, blocks)
      ensures Exact(t) <==> NewIdsFresh(Contents(t0), bs, ctx, tokens, blocks)
    {
      hide Contents;
      hide Exact;
      hide Covered;
      hide NewIdsFresh;
      hide InsertChain;
      hide Injective;
      ExactIff(bs, t0);
      ExactIff(bs, t);
      InsertInjectiveIff(Contents(t0), bs, ctx, tokens, blocks);
    }
  
    method PruneIfEmpty(start: nat)
      requires Core(blockSize, T()) && NoBareLeaf(T(), {start}) && Live(T(), start)
      modifies this`nodes, this`at
      ensures Valid() && M() == old(M()) && (old(Covered(T())) ==> Covered(T()))
    {
      hide Contents;
      hide RootsOk;
      hide IndexOk;
      var node := start;
      while true
        invariant Core(blockSize, T()) && NoBareLeaf(T(), {node}) && Live(T(), node)
        invariant M() == old(M())
        decreases |keys[node].tokens|
      {
        assert NodeOk(blockSize, T(), node);
        if nodes[node].children != map[] || nodes[node].terminal.Some? {
          break;
        }
        if nodes[node].parent == None {
          break;
        }
        var parent := nodes[node].parent.value;
        PruneOk(blockSize, T(), node);
        ghost var t := Prune(T(), node);
        at := at - {keys[node]};
        nodes := nodes[parent := nodes[parent].(children := nodes[parent].children - {nodes[node].first})];
        assert T() == t;
        node := parent;
      }
    }

    method Remove(id: BlockId)
      requires Valid()
      modifies this`nodes, this`blockNode, this`at
      ensures Valid()
      ensures id !in old(blockNode) ==> M() == old(M())
      ensures id in old(blockNode) ==>
        var k := old(keys[blockNode[id]]);
        k in old(M()) && old(M())[k] == id && M() == old(M()) - {k}
      ensures old(Exact(T())) ==> M() == RemoveId(old(M()), id) && Exact(T())
    {
      hide Contents;
      hide Covered;
      hide Exact;
      hide Injective;
      hide RemoveId;
      ghost var t0 := T();
      if id !in blockNode {
        if Exact(t0) {
          NothingToRemove(blockSize, t0, id);
        }
        return;
      }
      ClearTerminalOk(blockSize, t0, id);
      hide Wf;
      hide Core;
      hide NoBareLeaf;
      var node := blockNode[id];
      blockNode := blockNode - {id};
      nodes := nodes[node := nodes[node].(terminal := None)];
      assert T() == ClearTerminal(t0, id);
      PruneIfEmpty(node);
      if Exact(t0) {
        ExactAfter(blockSize, T());
      }
    }

    static lemma ExactAfter(bs: nat, t: Tree)
      requires Wf(bs, t) && Covered(t) && Injective(Contents(t))
      ensures Exact(t)
    {
      ExactIff(bs, t);
    }
  
    /** The children of n whose edge is no longer than room, in the order in which the map happens to
        list them. */
    method KidList(n: nat, room: Option<nat>, ghost start: nat, ghost limit: Option<nat>) returns (kids: seq<nat>)
      requires Valid() && Live(T(), n) && Live(T(), start)
      requires n == start || Extends(keys[n], keys[start])
      requires room == None ==> limit == None
      requires room.Some? ==> limit == Some(|keys[n].tokens| + room.value)
      ensures IsKidList(T(), n, start, limit, kids)
    {
      hide Wf;
      hide Live;
      hide InRange;
      LiveInArena(n);
      kids := [];
      var children := nodes[n].children;
      var todo := children.Keys;
      ghost var from: seq<Token> := [];
      while todo != {}
        invariant todo <= children.Keys && Distinct(kids) && |from| == |kids|
        invariant forall i | 0 <= i < |kids| ::
          from[i] in children && from[i] !in todo && children[from[i]] == kids[i] && InRange(T(), start, limit, kids[i])
        invariant forall tok | tok in children && tok !in todo ::
          InRange(T(), start, limit, children[tok]) ==> children[tok] in kids
        decreases |todo|
      {
        var tok := AnyOf(todo);
        KidIs(n, tok, room, start, limit);
        todo := todo - {tok};
        var child := children[tok];
        if room == None || |nodes[child].edge| <= room.value {
          forall i | 0 <= i < |kids| ensures kids[i] != child {
            KidIs(n, from[i], room, start, limit);
          }
          kids, from := kids + [child], from + [tok];
        }
      }
      forall c | c in kids ensures ChildOf(T(), n, c) && InRange(T(), start, limit, c) {
        var i :| 0 <= i < |kids| && kids[i] == c;
        KidWitness(children, from[i]);
      }
    }

    lemma LiveInArena(n: nat)
      requires Live(T(), n)
      ensures n < |nodes|
    {
    }

    /** A child is in range exactly when its edge is no longer than the room; and the token that leads to it
        is its own. */
    lemma KidIs(n: nat, tok: Token, room: Option<nat>, start: nat, limit: Option<nat>)
      requires Valid() && Live(T(), n) && Live(T(), start) && tok in nodes[n].children
      requires n == start || Extends(keys[n], keys[start])
      requires room == None ==> limit == None
      requires room.Some? ==> limit == Some(|keys[n].tokens| + room.value)
      ensures
        var child := nodes[n].children[tok];
        && child < |nodes| && nodes[child].first == tok
        && (InRange(T(), start, limit, child) <==> room == None || |nodes[child].edge| <= room.value)
    {
      assert NodeOk(blockSize, T(), n);
      KidWitness(nodes[n].children, tok);
      ChildParent(blockSize, T(), n, nodes[n].children[tok]);
    }

    /** The stack walk: how many stored keys lie strictly below the key of this id. */
    method BlockDescendantCount(id: BlockId) returns (count: nat)
      requires Valid()
      ensures count == DescendantsOf(id)
      ensures Exact(T()) ==> count == DescendantCount(M(), id)
    {
      count := 0;
      if Exact(T()) {
        ExactKeyOf(blockSize, T(), id);
      }
      if id !in blockNode {
        return;
      }
      count := CountBelowNode(blockNode[id]);
    }

    method CountBelowNode(start: nat) returns (count: nat)
      requires Valid() && Live(T(), start)
      ensures count == |Below(M(), keys[start])|
    {
      hide Wf;
      hide Contents;
      hide Below;
      hide IsKidList;
      count := 0;
      var stack := KidList(start, None, start, None);
      ghost var done: set<nat>, seen: set<Key> := {}, {};
      CountStart(blockSize, T(), start, None, stack);
      hide Counting;
      while stack != []
        invariant Counting(blockSize, T(), start, None, done, stack, seen, count)
        decreases |Upto(|nodes|) - done|
      {
        var last := |stack| - 1;
        var n := stack[last];
        CountTake(blockSize, T(), start, None, done, stack, seen, count, last);
        var kids := KidList(n, None, start, None);
        CountPop(blockSize, T(), start, None, done, stack, seen, count, kids);
        stack := stack[..last] + kids;
        if nodes[n].terminal.Some? {
          count := count + 1;
        }
        done, seen := done + {n}, SeenWith(T(), seen, n);
      }
      CountBelow(blockSize, T(), start, done, seen, count);
    }
  
    /** The queue walk: how many stored keys lie exactly one block below the key of this id. */
    method BlockChildCount(id: BlockId) returns (count: nat)
      requires Valid()
      ensures count == ChildrenOf(id)
      ensures Exact(T()) ==> count == ChildCount(M(), blockSize, id)
    {
      count := 0;
      if Exact(T()) {
        ExactKeyOf(blockSize, T(), id);
      }
      if id !in blockNode {
        return;
      }
      IndexedAligned(blockSize, T(), id);
      count := CountOneBelowNode(blockNode[id]);
    }

    /** The work items for the children of n, each with what is left of the room after its edge. */
    method WorkList(n: nat, room: nat, ghost start: nat, ghost limit: nat)
      returns (work: seq<Work>, ghost kids: seq<nat>)
      requires Valid() && Live(T(), n) && Live(T(), start)
      requires n == start || Extends(keys[n], keys[start])
      requires limit == |keys[n].tokens| + room
      ensures IsKidList(T(), n, start, Some(limit), kids)
      ensures WorkFor(T(), limit, work, kids)
    {
      var list := KidList(n, Some(room), start, Some(limit));
      kids := list;
      work := [];
      var i := 0;
      while i < |list|
        invariant 0 <= i <= |list| && WorkFor(T(), limit, work, list[..i])
      {
        assert list[i] in list;
        ChildParent(blockSize, T(), n, list[i]);
        work := work + [Work(list[i], room - |nodes[list[i]].edge|)];
        i := i + 1;
      }
      assert list[..i] == list;
    }

    /** One work item: at the end of the block a terminal counts; before it the children wait. */
    method Expand(item: Work, ghost start: nat, ghost limit: nat)
      returns (hit: bool, more: seq<Work>, ghost kids: seq<nat>)
      requires Valid() && Live(T(), start) && |keys[start].tokens| % blockSize == 0
      requires limit == |keys[start].tokens| + blockSize && InRange(T(), start, Some(limit), item.node)
      requires |keys[item.node].tokens| + item.remaining == limit
      ensures hit <==> nodes[item.node].terminal.Some?
      ensures IsKidList(T(), item.node, start, Some(limit), kids)
      ensures WorkFor(T(), limit, more, kids)
    {
      hit, more, kids := false, [], [];
      if nodes[item.node].terminal.Some? {
        TerminalAtEnd(blockSize, T(), start, item.node);
      }
      if item.remaining == 0 {
        NoKidsAtLimit(blockSize, T(), start, item.node);
        hit := nodes[item.node].terminal.Some?;
      } else {
        more, kids := WorkList(item.node, item.remaining, start, limit);
      }
    }

    method CountOneBelowNode(start: nat) returns (count: nat)
      requires Valid() && Live(T(), start) && |keys[start].tokens| % blockSize == 0
      ensures count == |OneBelow(M(), blockSize, keys[start])|
    {
      hide Wf;
      hide Contents;
      hide OneBelow;
      hide IsKidList;
      hide QueueWalk;
      hide WorkFor;
      hide InRange;
      hide Upto;
      BlockSizeIsPositive();
      count := 0;
      ghost var limit := |keys[start].tokens| + blockSize;
      ghost var front: seq<nat>, done: set<nat>, seen: set<Key>;
      var queue: seq<Work>;
      queue, front := WorkList(start, blockSize, start, limit);
      done, seen := {}, {};
      QueueStart(blockSize, T(), start, limit, queue, front);
      while queue != []
        invariant QueueWalk(blockSize, T(), start, limit, done, queue, front, seen, count)
        decreases |Upto(|nodes|) - done|
      {
        var item := queue[0];
        QueueFront(blockSize, T(), start, limit, done, queue, front, seen, count);
        ghost var kids;
        var hit, more;
        hit, more, kids := Expand(item, start, limit);
        QueueStep(blockSize, T(), start, limit, done, queue, front, seen, count, more, kids);
        if hit {
          count := count + 1;
        }
        queue := queue[1..] + more;
        done, seen, front := done + {item.node}, SeenWith(T(), seen, item.node), front[1..] + kids;
      }
      QueueEnd(blockSize, T(), start, limit, done, front, seen, count);
    }
  }
}
