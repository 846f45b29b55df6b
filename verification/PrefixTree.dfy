/** The radix tree behind PrefixIndex, as a value: the node arena, the namespace roots and the reverse
    index of the source, plus the two relations the proofs need: the key each node stands for, and the
    node (if any) that a key is stored at.  A node is live when these two agree; pruned nodes stay in
    the arena and are not live. */
module PrefixTree {
  import opened Types
  import opened PrefixMap

  datatype Node = Node(
    edge: seq<Token>,
    terminal: Option<BlockId>,
    children: map<Token, nat>,
    parent: Option<nat>,
    first: Token)

  datatype Tree = Tree(
    nodes: seq<Node>,
    roots: map<ContextHash, nat>,
    blockNode: map<BlockId, nat>,
    keys: seq<Key>,
    at: map<Key, nat>)

  ghost predicate Live(t: Tree, n: nat) {
    n < |t.nodes| == |t.keys| && t.keys[n] in t.at && t.at[t.keys[n]] == n
  }

  /** What holds of one live node: its link to the parent and to its children, its key, and that
      neither its edge nor its terminal offends against block boundaries. */
  ghost predicate ParentOk(bs: nat, t: Tree, n: nat)
    requires bs > 0 && n < |t.nodes| == |t.keys|
  {
    var node := t.nodes[n];
    match node.parent
    case None => t.keys[n].tokens == [] && node.terminal == None
    case Some(p) =>
      && Live(t, p)
      && node.edge != []
      && node.first == node.edge[0]
      && node.first in t.nodes[p].children
      && t.nodes[p].children[node.first] == n
      && t.keys[n] == Key(t.keys[p].ctx, t.keys[p].tokens + node.edge)
      && |t.keys[p].tokens| % bs + |node.edge| <= bs
  }

  ghost predicate ChildrenOk(t: Tree, n: nat)
    requires n < |t.nodes| == |t.keys|
  {
    forall tok | tok in t.nodes[n].children ::
      var c := t.nodes[n].children[tok];
      Live(t, c) && t.nodes[c].parent == Some(n) && t.nodes[c].first == tok
  }

  ghost predicate NodeOk(bs: nat, t: Tree, n: nat)
    requires bs > 0 && n < |t.nodes| == |t.keys|
  {
    && ParentOk(bs, t, n)
    && ChildrenOk(t, n)
    && (t.nodes[n].terminal.Some? ==> |t.keys[n].tokens| % bs == 0)
  }

  ghost predicate RootsOk(t: Tree) {
    && (forall c | c in t.roots :: Key(c, []) in t.at && t.at[Key(c, [])] == t.roots[c])
    && (forall k | k in t.at :: k.ctx in t.roots)
  }

  /** The reverse index names, for each id in it, a live node that carries this id. */
  ghost predicate IndexOk(t: Tree) {
    forall b | b in t.blockNode :: Live(t, t.blockNode[b]) && t.nodes[t.blockNode[b]].terminal == Some(b)
  }

  ghost predicate Core(bs: nat, t: Tree) {
    && bs > 0
    && |t.nodes| == |t.keys|
    && (forall k | k in t.at :: t.at[k] < |t.keys| && t.keys[t.at[k]] == k)
    && (forall n: nat {:trigger NodeOk(bs, t, n)} | Live(t, n) :: NodeOk(bs, t, n))
    && RootsOk(t)
    && IndexOk(t)
  }

  /** No live node other than a root, and other than those in `hole`, is a leaf without a terminal. */
  ghost predicate NoBareLeaf(t: Tree, hole: set<nat>) {
    forall n: nat | Live(t, n) && n !in hole && t.nodes[n].parent.Some? && t.nodes[n].children == map[] ::
      t.nodes[n].terminal.Some?
  }

  ghost predicate Wf(bs: nat, t: Tree) {
    Core(bs, t) && NoBareLeaf(t, {})
  }

  /** The map that the tree stands for: which id is stored under which key. */
  ghost function Contents(t: Tree): map<Key, BlockId> {
    map k | k in t.at && TerminalAt(t, k).Some? :: TerminalAt(t, k).value
  }

  ghost function TerminalAt(t: Tree, k: Key): Option<BlockId> {
    if k in t.at && t.at[k] < |t.nodes| then t.nodes[t.at[k]].terminal else None
  }

  lemma SameContents(t: Tree, t': Tree)
    requires forall k :: TerminalAt(t, k) == TerminalAt(t', k)
    ensures Contents(t) == Contents(t')
  {
    assert forall k :: k in Contents(t) <==> TerminalAt(t, k).Some?;
    assert forall k :: k in Contents(t') <==> TerminalAt(t', k).Some?;
  }

  lemma PlusContents(t: Tree, t': Tree, k: Key, b: BlockId)
    requires TerminalAt(t', k) == Some(b)
    requires forall k' :: k' != k ==> TerminalAt(t, k') == TerminalAt(t', k')
    ensures Contents(t') == Contents(t)[k := b]
  {
    assert forall k :: k in Contents(t) <==> TerminalAt(t, k).Some?;
    assert forall k :: k in Contents(t') <==> TerminalAt(t', k).Some?;
  }

  lemma MinusContents(t: Tree, t': Tree, k: Key)
    requires TerminalAt(t', k) == None
    requires forall k' :: k' != k ==> TerminalAt(t, k') == TerminalAt(t', k')
    ensures Contents(t') == Contents(t) - {k}
  {
    assert forall k :: k in Contents(t) <==> TerminalAt(t, k).Some?;
    assert forall k :: k in Contents(t') <==> TerminalAt(t', k).Some?;
  }

  /** Every stored id is in the reverse index. */
  ghost predicate Covered(t: Tree) {
    forall k | k in Contents(t) :: Contents(t)[k] in t.blockNode
  }

  /** The reverse index is the exact inverse of the stored terminals. */
  ghost predicate Exact(t: Tree) {
    && t.blockNode.Keys == Contents(t).Values
    && forall k | k in Contents(t) ::
      Contents(t)[k] in t.blockNode && t.blockNode[Contents(t)[k]] == t.at[k]
  }

  // ---------- the radix property ----------

  /** Descending along a token path never misses: if live node m extends live node n, then n has a
      child on the path to m and the child's edge ends no later than m. */
  lemma {:induction false} PathChild(bs: nat, t: Tree, n: nat, m: nat)
    requires Core(bs, t) && Live(t, n) && Live(t, m)
    requires t.keys[n].ctx == t.keys[m].ctx && t.keys[n].tokens < t.keys[m].tokens
    ensures
      var tok := t.keys[m].tokens[|t.keys[n].tokens|];
      && tok in t.nodes[n].children
      && Live(t, t.nodes[n].children[tok])
      && t.keys[t.nodes[n].children[tok]].tokens <= t.keys[m].tokens
    decreases |t.keys[n].tokens| + |t.keys[m].tokens|
  {
    var kn, km := t.keys[n].tokens, t.keys[m].tokens;
    assert NodeOk(bs, t, m);
    assert NodeOk(bs, t, n);
    var p := t.nodes[m].parent.value;
    var kp := t.keys[p].tokens;
    assert km == kp + t.nodes[m].edge;
    if kp == kn {
      assert t.keys[p] == t.keys[n];
    } else if |kn| <= |kp| {
      assert kn == km[..|kn|] == kp[..|kn|];
      PathChild(bs, t, n, p);
    } else {
      assert kp == km[..|kp|] == kn[..|kp|];
      PathChild(bs, t, p, n);
    }
  }

  /** Where a node has no child for the next token, or its child's edge leaves the path, no key of the
      tree continues along the path. */
  lemma NothingBeyond(bs: nat, t: Tree, n: nat, path: seq<Token>, k: Key)
    requires Core(bs, t) && Live(t, n)
    requires t.keys[n].tokens < path && k == Key(t.keys[n].ctx, path) && k in t.at
    ensures
      var tok := path[|t.keys[n].tokens|];
      && tok in t.nodes[n].children
      && Live(t, t.nodes[n].children[tok])
      && t.keys[t.nodes[n].children[tok]] == Key(k.ctx, t.keys[n].tokens + t.nodes[t.nodes[n].children[tok]].edge)
      && t.keys[t.nodes[n].children[tok]].tokens <= path
  {
    var m := t.at[k];
    assert Live(t, m);
    PathChild(bs, t, n, m);
    var tok := path[|t.keys[n].tokens|];
    assert NodeOk(bs, t, n) && NodeOk(bs, t, t.nodes[n].children[tok]);
  }

  // ---------- adding a leaf ----------

  function AddLeaf(t: Tree, n: nat, edge: seq<Token>, b: BlockId): Tree
    requires n < |t.nodes| == |t.keys| && edge != []
  {
    var k := Key(t.keys[n].ctx, t.keys[n].tokens + edge);
    var leaf := |t.nodes|;
    var parent := t.nodes[n].(children := t.nodes[n].children[edge[0] := leaf]);
    Tree(
      t.nodes[n := parent] + [Node(edge, Some(b), map[], Some(n), edge[0])],
      t.roots,
      t.blockNode[b := leaf],
      t.keys + [k],
      t.at[k := leaf])
  }

  lemma AddLeafFresh(bs: nat, t: Tree, n: nat, edge: seq<Token>)
    requires Core(bs, t) && Live(t, n) && edge != [] && edge[0] !in t.nodes[n].children
    ensures Key(t.keys[n].ctx, t.keys[n].tokens + edge) !in t.at
  {
    var k := Key(t.keys[n].ctx, t.keys[n].tokens + edge);
    if k in t.at {
      NothingBeyond(bs, t, n, k.tokens, k);
      assert false;
    }
  }

  lemma AddLeafLive(bs: nat, t: Tree, n: nat, edge: seq<Token>, b: BlockId)
    requires Core(bs, t) && Live(t, n) && edge != [] && edge[0] !in t.nodes[n].children
    ensures forall x: nat :: Live(AddLeaf(t, n, edge, b), x) <==> Live(t, x) || x == |t.nodes|
  {
    AddLeafFresh(bs, t, n, edge);
  }

  lemma AddLeafNode(bs: nat, t: Tree, n: nat, edge: seq<Token>, b: BlockId, x: nat)
    requires Core(bs, t) && Live(t, n) && edge != [] && edge[0] !in t.nodes[n].children
    requires |t.keys[n].tokens| % bs + |edge| == bs
    requires Live(t, x) || x == |t.nodes|
    ensures NodeOk(bs, AddLeaf(t, n, edge, b), x)
  {
    AddLeafLive(bs, t, n, edge, b);
    if x < |t.nodes| {
      assert NodeOk(bs, t, x);
    } else {
      AlignedSum(bs, |t.keys[n].tokens|, |edge|);
    }
  }

  lemma AddLeafContents(bs: nat, t: Tree, n: nat, edge: seq<Token>, b: BlockId)
    requires Core(bs, t) && Live(t, n) && edge != [] && edge[0] !in t.nodes[n].children
    ensures
      var k := Key(t.keys[n].ctx, t.keys[n].tokens + edge);
      Contents(AddLeaf(t, n, edge, b)) == Contents(t)[k := b]
  {
    AddLeafFresh(bs, t, n, edge);
    PlusContents(t, AddLeaf(t, n, edge, b), Key(t.keys[n].ctx, t.keys[n].tokens + edge), b);
  }

  lemma AddLeafCore(bs: nat, t: Tree, n: nat, edge: seq<Token>, b: BlockId)
    requires Core(bs, t) && Live(t, n) && edge != [] && edge[0] !in t.nodes[n].children
    requires |t.keys[n].tokens| % bs + |edge| == bs
    ensures Core(bs, AddLeaf(t, n, edge, b))
  {
    hide NodeOk;
    hide RootsOk;
    hide IndexOk;
    var t' := AddLeaf(t, n, edge, b);
    AddLeafFresh(bs, t, n, edge);
    AddLeafTables(bs, t, n, edge, b);
    forall x: nat | Live(t', x) ensures NodeOk(bs, t', x) {
      AddLeafLive(bs, t, n, edge, b);
      AddLeafNode(bs, t, n, edge, b, x);
    }
  }

  lemma AddLeafTables(bs: nat, t: Tree, n: nat, edge: seq<Token>, b: BlockId)
    requires Core(bs, t) && Live(t, n) && edge != [] && edge[0] !in t.nodes[n].children
    ensures RootsOk(AddLeaf(t, n, edge, b)) && IndexOk(AddLeaf(t, n, edge, b))
  {
    hide Core;
    CoreTables(bs, t);
    AddLeafFresh(bs, t, n, edge);
    AddLeafRoots(t, n, edge, b);
    AddLeafIndex(t, n, edge, b);
  }

  lemma CoreTables(bs: nat, t: Tree)
    requires Core(bs, t)
    ensures RootsOk(t) && IndexOk(t) && |t.nodes| == |t.keys|
    ensures forall k | k in t.at :: t.at[k] < |t.keys|
  {
  }

  lemma AddLeafRoots(t: Tree, n: nat, edge: seq<Token>, b: BlockId)
    requires RootsOk(t) && Live(t, n) && edge != [] && Key(t.keys[n].ctx, t.keys[n].tokens + edge) !in t.at
    ensures RootsOk(AddLeaf(t, n, edge, b))
  {
  }

  lemma AddLeafIndex(t: Tree, n: nat, edge: seq<Token>, b: BlockId)
    requires IndexOk(t) && |t.nodes| == |t.keys| && (forall k | k in t.at :: t.at[k] < |t.keys|)
    requires Live(t, n) && edge != [] && Key(t.keys[n].ctx, t.keys[n].tokens + edge) !in t.at
    ensures IndexOk(AddLeaf(t, n, edge, b))
  {
  }

  lemma AddLeafNoBare(bs: nat, t: Tree, n: nat, edge: seq<Token>, b: BlockId)
    requires Wf(bs, t) && Live(t, n) && edge != [] && edge[0] !in t.nodes[n].children
    ensures NoBareLeaf(AddLeaf(t, n, edge, b), {})
  {
    AddLeafLive(bs, t, n, edge, b);
  }

  lemma AddLeafOk(bs: nat, t: Tree, n: nat, edge: seq<Token>, b: BlockId)
    requires Wf(bs, t) && Live(t, n) && edge != [] && edge[0] !in t.nodes[n].children
    requires |t.keys[n].tokens| % bs + |edge| == bs
    ensures
      var k := Key(t.keys[n].ctx, t.keys[n].tokens + edge);
      var t' := AddLeaf(t, n, edge, b);
      && Wf(bs, t')
      && k !in t.at
      && Live(t', |t.nodes|) && t'.keys[|t.nodes|] == k
      && k !in Contents(t) && Contents(t') == Contents(t)[k := b]
      && (Covered(t) ==> Covered(t'))
  {
    AddLeafFresh(bs, t, n, edge);
    AddLeafContents(bs, t, n, edge, b);
    AddLeafCore(bs, t, n, edge, b);
    AddLeafNoBare(bs, t, n, edge, b);
  }

  /** Completing a partial block brings the length to a multiple of the block size. */
  lemma AlignedSum(bs: nat, a: nat, e: nat)
    requires bs > 0 && a % bs + e == bs
    ensures (a + e) % bs == 0
  {
    var q := a / bs;
    assert a + e == (q + 1) * bs;
    ModUnique(bs, q + 1, 0);
  }

  lemma ModUnique(bs: nat, q: int, r: nat)
    requires 0 <= r < bs
    ensures (q * bs + r) % bs == r
  {
    var n := q * bs + r;
    var q' := n / bs;
    assert n == q' * bs + n % bs;
    assert (q - q') * bs == n % bs - r;
    if q > q' { assert (q - q') * bs >= bs by { MulMono(1, q - q', bs); } }
    if q < q' { assert (q' - q) * bs >= bs by { MulMono(1, q' - q, bs); } }
  }

  lemma MulMono(a: int, b: int, c: nat)
    requires a <= b
    ensures a * c <= b * c
  {
  }

  // ---------- a namespace root ----------

  function AddRoot(t: Tree, ctx: ContextHash): Tree {
    var root := |t.nodes|;
    Tree(
      t.nodes + [Node([], None, map[], None, 0)],
      t.roots[ctx := root],
      t.blockNode,
      t.keys + [Key(ctx, [])],
      t.at[Key(ctx, []) := root])
  }

  lemma AddRootLive(bs: nat, t: Tree, ctx: ContextHash)
    requires Core(bs, t) && ctx !in t.roots
    ensures Key(ctx, []) !in t.at
    ensures forall x: nat :: Live(AddRoot(t, ctx), x) <==> Live(t, x) || x == |t.nodes|
  {
  }

  lemma AddRootNode(bs: nat, t: Tree, ctx: ContextHash, x: nat)
    requires Core(bs, t) && ctx !in t.roots
    requires Live(t, x) || x == |t.nodes|
    ensures NodeOk(bs, AddRoot(t, ctx), x)
  {
    AddRootLive(bs, t, ctx);
    if x < |t.nodes| {
      assert NodeOk(bs, t, x);
    }
  }

  lemma AddRootOk(bs: nat, t: Tree, ctx: ContextHash)
    requires Wf(bs, t) && ctx !in t.roots
    ensures Wf(bs, AddRoot(t, ctx)) && Live(AddRoot(t, ctx), |t.nodes|)
    ensures Contents(AddRoot(t, ctx)) == Contents(t)
    ensures Covered(t) ==> Covered(AddRoot(t, ctx))
  {
    hide NodeOk;
    hide Contents;
    hide IndexOk;
    var t' := AddRoot(t, ctx);
    AddRootLive(bs, t, ctx);
    forall x: nat | Live(t', x) ensures NodeOk(bs, t', x) {
      AddRootNode(bs, t, ctx, x);
    }
    AddRootContents(bs, t, ctx);
  }

  lemma AddRootContents(bs: nat, t: Tree, ctx: ContextHash)
    requires Core(bs, t) && ctx !in t.roots
    ensures Contents(AddRoot(t, ctx)) == Contents(t) && IndexOk(AddRoot(t, ctx))
  {
    hide NodeOk;
    AddRootLive(bs, t, ctx);
    SameContents(t, AddRoot(t, ctx));
  }

  // ---------- a terminal on an existing node ----------

  function SetTerminal(t: Tree, n: nat, b: BlockId): Tree
    requires n < |t.nodes|
  {
    t.(nodes := t.nodes[n := t.nodes[n].(terminal := Some(b))], blockNode := t.blockNode[b := n])
  }

  lemma SetTerminalNode(bs: nat, t: Tree, n: nat, b: BlockId, x: nat)
    requires Core(bs, t) && Live(t, n) && t.nodes[n].terminal == None && t.nodes[n].parent.Some?
    requires |t.keys[n].tokens| % bs == 0 && Live(t, x)
    ensures NodeOk(bs, SetTerminal(t, n, b), x)
  {
    assert NodeOk(bs, t, x);
  }

  lemma SetTerminalCore(bs: nat, t: Tree, n: nat, b: BlockId)
    requires Core(bs, t) && Live(t, n) && t.nodes[n].terminal == None && t.nodes[n].parent.Some?
    requires |t.keys[n].tokens| % bs == 0
    ensures Core(bs, SetTerminal(t, n, b))
  {
    hide NodeOk;
    var t' := SetTerminal(t, n, b);
    forall x: nat | Live(t', x) ensures NodeOk(bs, t', x) {
      SetTerminalNode(bs, t, n, b, x);
    }
  }

  lemma SetTerminalContents(bs: nat, t: Tree, n: nat, b: BlockId)
    requires Core(bs, t) && Live(t, n) && t.nodes[n].terminal == None
    ensures Contents(SetTerminal(t, n, b)) == Contents(t)[t.keys[n] := b]
    ensures t.keys[n] !in Contents(t)
  {
    PlusContents(t, SetTerminal(t, n, b), t.keys[n], b);
  }

  /** One terminal more makes no leaf bare, and its id is indexed. */
  lemma SetTerminalRest(t: Tree, n: nat, b: BlockId)
    requires n < |t.nodes| == |t.keys| && t.nodes[n].terminal == None
    requires Contents(SetTerminal(t, n, b)) == Contents(t)[t.keys[n] := b]
    ensures NoBareLeaf(t, {}) ==> NoBareLeaf(SetTerminal(t, n, b), {})
    ensures Covered(t) ==> Covered(SetTerminal(t, n, b))
  {
    hide Contents;
  }

  lemma SetTerminalOk(bs: nat, t: Tree, n: nat, b: BlockId)
    requires Wf(bs, t) && Live(t, n) && t.nodes[n].terminal == None && t.nodes[n].parent.Some?
    requires |t.keys[n].tokens| % bs == 0
    ensures
      var t' := SetTerminal(t, n, b);
      && Wf(bs, t')
      && t.keys[n] !in Contents(t)
      && Contents(t') == Contents(t)[t.keys[n] := b]
      && (Covered(t) ==> Covered(t'))
  {
    hide NodeOk;
    hide IndexOk;
    hide RootsOk;
    hide Contents;
    hide NoBareLeaf;
    hide Covered;
    SetTerminalCore(bs, t, n, b);
    SetTerminalContents(bs, t, n, b);
    SetTerminalRest(t, n, b);
  }

  // ---------- splitting an edge ----------

  ghost predicate IsKid(kids: map<Token, nat>, i: nat) {
    exists tok :: tok in kids && kids[tok] == i
  }

  lemma KidWitness(kids: map<Token, nat>, tok: Token)
    requires tok in kids
    ensures IsKid(kids, kids[tok])
  {
  }

  ghost function Reparent(nodes: seq<Node>, kids: map<Token, nat>, p: nat): (r: seq<Node>)
    ensures |r| == |nodes|
    ensures forall i :: 0 <= i < |nodes| ==>
      r[i] == if IsKid(kids, i) then nodes[i].(parent := Some(p)) else nodes[i]
  {
    seq(|nodes|, i requires 0 <= i < |nodes| => if IsKid(kids, i) then nodes[i].(parent := Some(p)) else nodes[i])
  }

  /** Node c keeps the first l tokens of its edge; a new node takes the rest, the terminal and the
      children. */
  ghost function SplitEdge(t: Tree, c: nat, l: nat): Tree
    requires c < |t.nodes| == |t.keys| && 0 < l < |t.nodes[c].edge| <= |t.keys[c].tokens|
  {
    var cut := t.nodes[c];
    var s := |t.nodes|;
    var low := Node(cut.edge[l..], cut.terminal, cut.children, Some(c), cut.edge[l]);
    var top := cut.(edge := cut.edge[..l], terminal := None, children := map[cut.edge[l] := s]);
    var mid := Key(t.keys[c].ctx, t.keys[c].tokens[..|t.keys[c].tokens| - |cut.edge| + l]);
    Tree(
      Reparent(t.nodes, cut.children, s)[c := top] + [low],
      t.roots,
      if cut.terminal.Some? then t.blockNode[cut.terminal.value := s] else t.blockNode,
      t.keys[c := mid] + [t.keys[c]],
      t.at[t.keys[c] := s][mid := c])
  }

  ghost predicate CanSplit(bs: nat, t: Tree, c: nat, l: nat) {
    Core(bs, t) && Live(t, c) && t.nodes[c].parent.Some? && 0 < l < |t.nodes[c].edge| <= |t.keys[c].tokens|
  }

  lemma SplitFresh(bs: nat, t: Tree, c: nat, l: nat)
    requires CanSplit(bs, t, c, l)
    ensures Key(t.keys[c].ctx, t.keys[c].tokens[..|t.keys[c].tokens| - |t.nodes[c].edge| + l]) !in t.at
  {
    assert NodeOk(bs, t, c);
    var p := t.nodes[c].parent.value;
    var kc := t.keys[c].tokens;
    var mid := Key(t.keys[c].ctx, kc[..|kc| - |t.nodes[c].edge| + l]);
    assert t.keys[p].tokens == kc[..|t.keys[p].tokens|];
    if mid in t.at {
      assert mid.tokens[|t.keys[p].tokens|] == t.nodes[c].edge[0];
      NothingBeyond(bs, t, p, mid.tokens, mid);
      assert false;
    }
  }

  lemma SplitLive(bs: nat, t: Tree, c: nat, l: nat)
    requires CanSplit(bs, t, c, l)
    ensures forall x: nat :: Live(SplitEdge(t, c, l), x) <==> Live(t, x) || x == |t.nodes|
  {
    SplitFresh(bs, t, c, l);
  }

  /** Every node other than the two halves keeps its record, except that a child of c now has the new
      node as its parent. */
  lemma SplitOther(bs: nat, t: Tree, c: nat, l: nat, x: nat)
    requires CanSplit(bs, t, c, l) && Live(t, x) && x != c
    ensures
      var t' := SplitEdge(t, c, l);
      && t'.keys[x] == t.keys[x]
      && t'.nodes[x] == if t.nodes[x].parent == Some(c) then t.nodes[x].(parent := Some(|t.nodes|)) else t.nodes[x]
  {
    assert NodeOk(bs, t, x);
    assert NodeOk(bs, t, c);
    if t.nodes[x].parent == Some(c) {
      assert t.nodes[c].children[t.nodes[x].first] == x;
    }
  }

  lemma SplitNode(bs: nat, t: Tree, c: nat, l: nat, x: nat)
    requires CanSplit(bs, t, c, l) && Live(t, x) && x != c
    ensures NodeOk(bs, SplitEdge(t, c, l), x)
  {
    var t' := SplitEdge(t, c, l);
    assert NodeOk(bs, t, x);
    assert NodeOk(bs, t, c);
    SplitLive(bs, t, c, l);
    SplitOther(bs, t, c, l, x);
    if t.nodes[x].parent.Some? && t.nodes[x].parent != Some(c) {
      SplitOther(bs, t, c, l, t.nodes[x].parent.value);
    }
    forall tok | tok in t.nodes[x].children
      ensures
        var y := t'.nodes[x].children[tok];
        Live(t', y) && t'.nodes[y].parent == Some(x) && t'.nodes[y].first == tok
    {
      var y := t.nodes[x].children[tok];
      assert Live(t, y) && t.nodes[y].parent == Some(x);
      if y != c {
        SplitOther(bs, t, c, l, y);
      }
    }
  }

  lemma SplitHalves(bs: nat, t: Tree, c: nat, l: nat)
    requires CanSplit(bs, t, c, l)
    ensures NodeOk(bs, SplitEdge(t, c, l), c)
    ensures NodeOk(bs, SplitEdge(t, c, l), |t.nodes|)
  {
    var t' := SplitEdge(t, c, l);
    var s := |t.nodes|;
    assert NodeOk(bs, t, c);
    SplitLive(bs, t, c, l);
    var p := t.nodes[c].parent.value;
    SplitOther(bs, t, c, l, p);
    assert t.keys[c].tokens == t.keys[p].tokens + t.nodes[c].edge;
    assert t'.keys[c].tokens == t.keys[p].tokens + t.nodes[c].edge[..l];
    assert t.keys[c].tokens == t'.keys[c].tokens + t.nodes[c].edge[l..];
    SmallSum(bs, |t.keys[p].tokens|, l);
    forall tok | tok in t.nodes[c].children
      ensures
        var y := t'.nodes[s].children[tok];
        Live(t', y) && t'.nodes[y].parent == Some(s) && t'.nodes[y].first == tok
    {
      var y := t.nodes[c].children[tok];
      assert NodeOk(bs, t, y);
      assert y != c;
      SplitOther(bs, t, c, l, y);
    }
  }

  lemma SmallSum(bs: nat, a: nat, e: nat)
    requires bs > 0 && a % bs + e < bs
    ensures (a + e) % bs == a % bs + e
  {
    assert a + e == (a / bs) * bs + (a % bs + e);
    ModUnique(bs, a / bs, a % bs + e);
  }

  lemma SplitIndex(bs: nat, t: Tree, c: nat, l: nat)
    requires CanSplit(bs, t, c, l)
    ensures IndexOk(SplitEdge(t, c, l)) && RootsOk(SplitEdge(t, c, l))
  {
    var t' := SplitEdge(t, c, l);
    SplitLive(bs, t, c, l);
    SplitFresh(bs, t, c, l);
    assert NodeOk(bs, t, c);
    forall b | b in t'.blockNode ensures Live(t', t'.blockNode[b]) && t'.nodes[t'.blockNode[b]].terminal == Some(b) {
      if t.nodes[c].terminal != Some(b) {
        SplitOther(bs, t, c, l, t.blockNode[b]);
      }
    }
  }

  lemma SplitCore(bs: nat, t: Tree, c: nat, l: nat)
    requires CanSplit(bs, t, c, l)
    ensures Core(bs, SplitEdge(t, c, l))
  {
    hide NodeOk;
    hide IndexOk;
    hide RootsOk;
    var t' := SplitEdge(t, c, l);
    SplitLive(bs, t, c, l);
    SplitFresh(bs, t, c, l);
    SplitIndex(bs, t, c, l);
    forall x: nat | Live(t', x) ensures NodeOk(bs, t', x) {
      if x == c || x == |t.nodes| {
        SplitHalves(bs, t, c, l);
      } else {
        SplitNode(bs, t, c, l, x);
      }
    }
  }

  lemma SplitContents(bs: nat, t: Tree, c: nat, l: nat)
    requires CanSplit(bs, t, c, l)
    ensures Contents(SplitEdge(t, c, l)) == Contents(t)
  {
    var t' := SplitEdge(t, c, l);
    SplitFresh(bs, t, c, l);
    forall k ensures TerminalAt(t, k) == TerminalAt(t', k) {
      if k in t.at && t.at[k] != c {
        SplitOther(bs, t, c, l, t.at[k]);
      }
    }
    SameContents(t, t');
  }

  lemma SplitOk(bs: nat, t: Tree, c: nat, l: nat)
    requires CanSplit(bs, t, c, l) && Wf(bs, t)
    ensures
      var t' := SplitEdge(t, c, l);
      && Wf(bs, t')
      && Live(t', c)
      && Contents(t') == Contents(t)
      && (Covered(t) ==> Covered(t'))
  {
    var t' := SplitEdge(t, c, l);
    SplitCore(bs, t, c, l);
    SplitLive(bs, t, c, l);
    SplitContents(bs, t, c, l);
    assert t'.nodes[c].children != map[] by {
      assert t.nodes[c].edge[l] in t'.nodes[c].children;
    }
    forall x: nat | Live(t', x) && t'.nodes[x].parent.Some? && t'.nodes[x].children == map[]
      ensures t'.nodes[x].terminal.Some?
    {
      if x < |t.nodes| {
        SplitOther(bs, t, c, l, x);
      } else {
        assert Live(t, c) && t'.nodes[x].terminal == t.nodes[c].terminal;
      }
    }
  }

  // ---------- removal and pruning ----------

  function ClearTerminal(t: Tree, b: BlockId): Tree
    requires b in t.blockNode && t.blockNode[b] < |t.nodes|
  {
    var n := t.blockNode[b];
    t.(nodes := t.nodes[n := t.nodes[n].(terminal := None)], blockNode := t.blockNode - {b})
  }

  lemma ClearTerminalNode(bs: nat, t: Tree, b: BlockId, x: nat)
    requires Core(bs, t) && b in t.blockNode && Live(t, x)
    ensures NodeOk(bs, ClearTerminal(t, b), x)
  {
    assert NodeOk(bs, t, x);
  }

  lemma ClearTerminalCore(bs: nat, t: Tree, b: BlockId)
    requires Core(bs, t) && b in t.blockNode
    ensures Core(bs, ClearTerminal(t, b))
  {
    hide NodeOk;
    var t' := ClearTerminal(t, b);
    forall x: nat | Live(t', x) ensures NodeOk(bs, t', x) {
      ClearTerminalNode(bs, t, b, x);
    }
  }

  lemma ClearTerminalContents(bs: nat, t: Tree, b: BlockId)
    requires Core(bs, t) && b in t.blockNode
    ensures t.keys[t.blockNode[b]] in Contents(t) && Contents(t)[t.keys[t.blockNode[b]]] == b
    ensures Contents(ClearTerminal(t, b)) == Contents(t) - {t.keys[t.blockNode[b]]}
  {
    var n := t.blockNode[b];
    assert Live(t, n);
    var t' := ClearTerminal(t, b);
    MinusContents(t, t', t.keys[n]);
  }

  function Prune(t: Tree, n: nat): Tree
    requires n < |t.nodes| == |t.keys| && t.nodes[n].parent.Some? && t.nodes[n].parent.value < |t.nodes|
  {
    var p := t.nodes[n].parent.value;
    t.(
      nodes := t.nodes[p := t.nodes[p].(children := t.nodes[p].children - {t.nodes[n].first})],
      at := t.at - {t.keys[n]})
  }

  ghost predicate CanPrune(bs: nat, t: Tree, n: nat) {
    && Core(bs, t)
    && Live(t, n)
    && t.nodes[n].parent.Some?
    && Live(t, t.nodes[n].parent.value)
    && t.nodes[n].children == map[]
    && t.nodes[n].terminal == None
  }

  lemma PruneLive(bs: nat, t: Tree, n: nat)
    requires CanPrune(bs, t, n)
    ensures forall x: nat :: Live(Prune(t, n), x) <==> Live(t, x) && x != n
    ensures t.keys[n].tokens != []
  {
    assert NodeOk(bs, t, n);
  }

  lemma PruneNode(bs: nat, t: Tree, n: nat, x: nat)
    requires CanPrune(bs, t, n) && Live(t, x) && x != n
    ensures NodeOk(bs, Prune(t, n), x)
  {
    var t' := Prune(t, n);
    PruneLive(bs, t, n);
    assert NodeOk(bs, t, x);
    assert NodeOk(bs, t, n);
  }

  lemma PruneCore(bs: nat, t: Tree, n: nat)
    requires CanPrune(bs, t, n)
    ensures Core(bs, Prune(t, n))
  {
    var t' := Prune(t, n);
    PruneLive(bs, t, n);
    forall x: nat | Live(t', x) ensures NodeOk(bs, t', x) {
      PruneNode(bs, t, n, x);
    }
    forall b | b in t'.blockNode ensures Live(t', t'.blockNode[b]) && t'.nodes[t'.blockNode[b]].terminal == Some(b) {
      assert Live(t, t.blockNode[b]);
    }
  }

  lemma PruneContents(bs: nat, t: Tree, n: nat)
    requires CanPrune(bs, t, n)
    ensures Contents(Prune(t, n)) == Contents(t)
  {
    var t' := Prune(t, n);
    SameContents(t, t');
  }

  lemma PruneOk(bs: nat, t: Tree, n: nat)
    requires CanPrune(bs, t, n) && NoBareLeaf(t, {n})
    ensures
      var t' := Prune(t, n);
      && Core(bs, t')
      && NoBareLeaf(t', {t.nodes[n].parent.value})
      && Contents(t') == Contents(t)
      && Live(t', t.nodes[n].parent.value)
      && |t'.keys[t.nodes[n].parent.value].tokens| < |t.keys[n].tokens|
  {
    assert NodeOk(bs, t, n);
    PruneCore(bs, t, n);
    PruneLive(bs, t, n);
    PruneContents(bs, t, n);
  }

  // ---------- walking a token path ----------

  /** From live node n, whose key is the first pos tokens, the child's whole edge follows the path. */
  ghost predicate CanStep(t: Tree, n: nat, tokens: seq<Token>, pos: nat)
    requires n < |t.nodes| && pos < |tokens|
  {
    && tokens[pos] in t.nodes[n].children
    && var c := t.nodes[n].children[tokens[pos]];
      && c < |t.nodes|
      && pos + |t.nodes[c].edge| <= |tokens|
      && tokens[pos..pos + |t.nodes[c].edge|] == t.nodes[c].edge
  }

  ghost predicate OnNode(t: Tree, n: nat, ctx: ContextHash, tokens: seq<Token>, pos: nat) {
    Live(t, n) && pos <= |tokens| && t.keys[n] == Key(ctx, tokens[..pos])
  }

  /** If a longer piece of the path is a key of the tree, the walk can step on. */
  lemma StepToward(bs: nat, t: Tree, n: nat, ctx: ContextHash, tokens: seq<Token>, pos: nat, q: nat)
    requires Wf(bs, t) && OnNode(t, n, ctx, tokens, pos)
    requires pos < q <= |tokens| && Key(ctx, tokens[..q]) in t.at
    ensures CanStep(t, n, tokens, pos)
  {
    var path := tokens[..q];
    assert path[..pos] == tokens[..pos];
    NothingBeyond(bs, t, n, path, Key(ctx, path));
    var c := t.nodes[n].children[path[pos]];
    var edge := t.nodes[c].edge;
    var reach := tokens[..pos] + edge;
    assert reach == path[..|reach|] == tokens[..pos + |edge|];
    assert tokens[pos..pos + |edge|] == reach[pos..] == edge;
  }

  /** Where the walk cannot step on, the block being walked is not stored. */
  lemma NextMissing(bs: nat, t: Tree, n: nat, ctx: ContextHash, tokens: seq<Token>, pos: nat, i: nat)
    requires Wf(bs, t) && OnNode(t, n, ctx, tokens, pos) && pos < |tokens|
    requires i * bs <= pos < i * bs + bs
    requires !CanStep(t, n, tokens, pos)
    ensures Fits(bs, tokens, i + 1) ==> BlockKey(bs, ctx, tokens, i + 1) !in Contents(t)
  {
    var k := BlockKey(bs, ctx, tokens, i + 1);
    assert (i + 1) * bs == i * bs + bs;
    if Fits(bs, tokens, i + 1) && k in Contents(t) {
      StepToward(bs, t, n, ctx, tokens, pos, (i + 1) * bs);
      assert false;
    }
  }

  /** A step lands on a live node and does not cross the end of the block being walked. */
  lemma ChildStep(bs: nat, t: Tree, n: nat, ctx: ContextHash, tokens: seq<Token>, pos: nat, i: nat)
    requires Wf(bs, t) && OnNode(t, n, ctx, tokens, pos) && pos < |tokens|
    requires i * bs <= pos < i * bs + bs
    requires CanStep(t, n, tokens, pos)
    ensures
      var c := t.nodes[n].children[tokens[pos]];
      var pos' := pos + |t.nodes[c].edge|;
      && OnNode(t, c, ctx, tokens, pos')
      && t.nodes[c].parent.Some?
      && pos < pos' <= i * bs + bs
      && (pos' % bs == 0 <==> pos' == (i + 1) * bs)
      && (t.nodes[c].terminal.Some? ==> pos' == (i + 1) * bs)
  {
    assert NodeOk(bs, t, n);
    var tok := tokens[pos];
    assert tok in t.nodes[n].children;
    var c := t.nodes[n].children[tok];
    assert Live(t, c);
    assert NodeOk(bs, t, c);
    var pos' := pos + |t.nodes[c].edge|;
    assert tokens[..pos'] == tokens[..pos] + tokens[pos..pos'];
    ModUnique(bs, i, pos - i * bs);
    assert (i + 1) * bs == i * bs + bs;
    if pos' < i * bs + bs {
      ModUnique(bs, i, pos' - i * bs);
    } else {
      ModUnique(bs, i + 1, 0);
    }
  }

  /** At the end of the next block, the node's terminal says whether that block is stored. */
  lemma BlockBoundary(bs: nat, t: Tree, n: nat, ctx: ContextHash, tokens: seq<Token>, blocks: seq<BlockId>)
    requires Wf(bs, t) && Fits(bs, tokens, |blocks| + 1)
    requires OnNode(t, n, ctx, tokens, (|blocks| + 1) * bs)
    requires IsChain(Contents(t), bs, ctx, tokens, blocks)
    ensures t.nodes[n].terminal.Some? ==>
      IsChain(Contents(t), bs, ctx, tokens, blocks + [t.nodes[n].terminal.value])
    ensures t.nodes[n].terminal == None ==> BlockKey(bs, ctx, tokens, |blocks| + 1) !in Contents(t)
  {
    assert t.keys[n] == BlockKey(bs, ctx, tokens, |blocks| + 1);
    assert TerminalAt(t, t.keys[n]) == t.nodes[n].terminal;
  }

  /** The child for the next token of a block being walked: its edge starts with that token and stays
      inside the block. */
  lemma EdgeInBlock(bs: nat, t: Tree, n: nat, ctx: ContextHash, tokens: seq<Token>, pos: nat, i: nat)
    requires Wf(bs, t) && OnNode(t, n, ctx, tokens, pos) && pos < |tokens|
    requires i * bs <= pos < i * bs + bs
    requires tokens[pos] in t.nodes[n].children
    ensures
      var c := t.nodes[n].children[tokens[pos]];
      && Live(t, c)
      && t.nodes[c].parent == Some(n)
      && 0 < |t.nodes[c].edge| <= (i + 1) * bs - pos
      && t.nodes[c].edge[0] == tokens[pos]
      && t.keys[c] == Key(ctx, tokens[..pos] + t.nodes[c].edge)
      && (forall tok | tok in t.nodes[c].children :: c != t.nodes[c].children[tok] < |t.nodes|)
  {
    assert NodeOk(bs, t, n);
    var tok := tokens[pos];
    var c := t.nodes[n].children[tok];
    assert Live(t, c);
    assert NodeOk(bs, t, c);
    ModUnique(bs, i, pos - i * bs);
    assert (i + 1) * bs == i * bs + bs;
  }

  /** Splitting the edge that leaves the path after l tokens puts the walk on the upper half, which has
      no child for the next token. */
  lemma SplitOnPath(bs: nat, t: Tree, c: nat, l: nat, ctx: ContextHash, tokens: seq<Token>, pos: nat)
    requires CanSplit(bs, t, c, l) && Wf(bs, t)
    requires pos + l < |tokens| && t.keys[c] == Key(ctx, tokens[..pos] + t.nodes[c].edge)
    requires tokens[pos..pos + l] == t.nodes[c].edge[..l] && tokens[pos + l] != t.nodes[c].edge[l]
    ensures
      var t' := SplitEdge(t, c, l);
      && OnNode(t', c, ctx, tokens, pos + l)
      && tokens[pos + l] !in t'.nodes[c].children
  {
    hide Wf;
    hide Contents;
    SplitOk(bs, t, c, l);
    assert tokens[..pos + l] == tokens[..pos] + t.nodes[c].edge[..l];
  }

  /** A leaf for the rest of the block puts the walk at the end of the block. */
  lemma LeafOnPath(bs: nat, t: Tree, n: nat, ctx: ContextHash, tokens: seq<Token>, pos: nat, i: nat, b: BlockId)
    requires Wf(bs, t) && OnNode(t, n, ctx, tokens, pos) && Fits(bs, tokens, i + 1)
    requires i * bs <= pos < (i + 1) * bs && tokens[pos] !in t.nodes[n].children
    ensures
      var edge := tokens[pos..(i + 1) * bs];
      var t' := AddLeaf(t, n, edge, b);
      && |t.keys[n].tokens| % bs + |edge| == bs
      && Wf(bs, t')
      && OnNode(t', |t.nodes|, ctx, tokens, (i + 1) * bs)
      && BlockKey(bs, ctx, tokens, i + 1) !in Contents(t)
      && Contents(t') == Contents(t)[BlockKey(bs, ctx, tokens, i + 1) := b]
      && (Covered(t) ==> Covered(t'))
  {
    hide Wf;
    hide Contents;
    hide Covered;
    var edge := tokens[pos..(i + 1) * bs];
    RestOfBlock(bs, pos, i);
    AddLeafOk(bs, t, n, edge, b);
    assert tokens[..(i + 1) * bs] == tokens[..pos] + edge;
  }

  lemma RestOfBlock(bs: nat, pos: nat, i: nat)
    requires i * bs <= pos < (i + 1) * bs
    ensures bs > 0 && pos % bs + ((i + 1) * bs - pos) == bs
  {
    assert (i + 1) * bs == i * bs + bs;
    ModUnique(bs, i, pos - i * bs);
  }

  /** A full match that ends the block: the node's terminal is the entry of this block, now or after it
      is set. */
  lemma TerminalOnPath(bs: nat, t: Tree, n: nat, ctx: ContextHash, tokens: seq<Token>, i: nat, b: BlockId)
    requires Wf(bs, t) && Fits(bs, tokens, i + 1) && OnNode(t, n, ctx, tokens, (i + 1) * bs)
    requires t.nodes[n].parent.Some?
    ensures t.nodes[n].terminal.Some? ==> BlockKey(bs, ctx, tokens, i + 1) in Contents(t)
    ensures t.nodes[n].terminal == None ==>
      var t' := SetTerminal(t, n, b);
      && Wf(bs, t')
      && OnNode(t', n, ctx, tokens, (i + 1) * bs)
      && BlockKey(bs, ctx, tokens, i + 1) !in Contents(t)
      && Contents(t') == Contents(t)[BlockKey(bs, ctx, tokens, i + 1) := b]
      && (Covered(t) ==> Covered(t'))
  {
    var k := BlockKey(bs, ctx, tokens, i + 1);
    assert t.keys[n] == k && TerminalAt(t, k) == t.nodes[n].terminal;
    ModUnique(bs, i + 1, 0);
    if t.nodes[n].terminal == None {
      SetTerminalOk(bs, t, n, b);
    }
  }

  // ---------- the reverse index ----------

  /** The reverse index is exact precisely when no id is stored twice and every stored id is indexed. */
  lemma ExactIff(bs: nat, t: Tree)
    requires Core(bs, t)
    ensures Exact(t) <==> Covered(t) && Injective(Contents(t))
  {
    var m := Contents(t);
    forall b | b in t.blockNode
      ensures var k := t.keys[t.blockNode[b]]; k in m && m[k] == b && t.at[k] == t.blockNode[b]
    {
      assert Live(t, t.blockNode[b]);
    }
    if Exact(t) {
      forall k, k' | k in m && k' in m && m[k] == m[k'] ensures k == k' {
        assert t.at[k] == t.at[k'];
      }
    }
    if Covered(t) && Injective(m) {
      forall k | k in m ensures m[k] in t.blockNode && t.blockNode[m[k]] == t.at[k] {
        assert t.keys[t.blockNode[m[k]]] == k;
      }
    }
  }

  /** Clearing the terminal that an exact index names deletes exactly that id, and leaves the index
      exact. */
  lemma ClearTerminalExact(bs: nat, t: Tree, b: BlockId)
    requires Core(bs, t) && b in t.blockNode && Exact(t)
    ensures Contents(ClearTerminal(t, b)) == RemoveId(Contents(t), b)
    ensures Covered(ClearTerminal(t, b)) && Injective(Contents(ClearTerminal(t, b)))
  {
    ExactIff(bs, t);
    ClearTerminalContents(bs, t, b);
  }

  /** What remove does before it prunes. */
  lemma ClearTerminalOk(bs: nat, t: Tree, b: BlockId)
    requires Wf(bs, t) && b in t.blockNode
    ensures
      var t' := ClearTerminal(t, b);
      var k := t.keys[t.blockNode[b]];
      && Core(bs, t')
      && Live(t', t.blockNode[b])
      && NoBareLeaf(t', {t.blockNode[b]})
      && k in Contents(t) && Contents(t)[k] == b
      && Contents(t') == Contents(t) - {k}
      && (Exact(t) ==> Contents(t') == RemoveId(Contents(t), b) && Covered(t') && Injective(Contents(t')))
  {
    ClearTerminalCore(bs, t, b);
    ClearTerminalContents(bs, t, b);
    if Exact(t) {
      ClearTerminalExact(bs, t, b);
    }
  }

  lemma NothingToRemove(bs: nat, t: Tree, b: BlockId)
    requires Core(bs, t) && b !in t.blockNode && Exact(t)
    ensures RemoveId(Contents(t), b) == Contents(t)
  {
  }

  // ---------- walks over a subtree ----------

  ghost predicate Distinct(s: seq<nat>) {
    forall i, j :: 0 <= i < j < |s| ==> s[i] != s[j]
  }

  lemma DistinctAppend(a: seq<nat>, b: seq<nat>)
    requires Distinct(a) && Distinct(b) && forall x | x in a :: x !in b
    ensures Distinct(a + b)
  {
    forall i, j | 0 <= i < j < |a + b| ensures (a + b)[i] != (a + b)[j] {
      if i < |a| <= j {
        assert (a + b)[i] in a && (a + b)[j] == b[j - |a|];
      }
    }
  }

  /** x is a live node strictly below start and, if there is a limit, no deeper than it. */
  ghost predicate InRange(t: Tree, start: nat, limit: Option<nat>, x: nat)
    requires Live(t, start)
  {
    && Live(t, x)
    && Extends(t.keys[x], t.keys[start])
    && (limit.Some? ==> |t.keys[x].tokens| <= limit.value)
  }

  ghost predicate ChildOf(t: Tree, n: nat, c: nat)
    requires n < |t.nodes|
  {
    IsKid(t.nodes[n].children, c)
  }

  /** The state of a walk: what is waiting or done lies in range and hangs off something done, and every
      child in range of something done is waiting or done. */
  ghost predicate Walk(t: Tree, start: nat, limit: Option<nat>, done: set<nat>, front: seq<nat>)
    requires Live(t, start)
  {
    && Distinct(front)
    && (forall x | x in front :: x !in done)
    && (forall x | x in front || x in done ::
          InRange(t, start, limit, x) && t.nodes[x].parent.Some?
          && (t.nodes[x].parent.value == start || t.nodes[x].parent.value in done))
    && (forall n, c | n in done + {start} && n < |t.nodes| && ChildOf(t, n, c) && InRange(t, start, limit, c) ::
          c in front || c in done)
  }

  ghost predicate IsKidList(t: Tree, n: nat, start: nat, limit: Option<nat>, kids: seq<nat>)
    requires Live(t, start) && Live(t, n)
  {
    && Distinct(kids)
    && (forall c | c in kids :: ChildOf(t, n, c) && InRange(t, start, limit, c))
    && (forall c | ChildOf(t, n, c) && InRange(t, start, limit, c) :: c in kids)
  }

  lemma ChildParent(bs: nat, t: Tree, n: nat, c: nat)
    requires Core(bs, t) && Live(t, n) && ChildOf(t, n, c)
    ensures Live(t, c) && t.nodes[c].parent == Some(n) && Extends(t.keys[c], t.keys[n])
    ensures t.keys[c].tokens == t.keys[n].tokens + t.nodes[c].edge && t.nodes[c].edge != []
    ensures c != n
  {
    assert NodeOk(bs, t, n);
    assert Live(t, c);
    assert NodeOk(bs, t, c);
  }

  lemma WalkStart(bs: nat, t: Tree, start: nat, limit: Option<nat>, kids: seq<nat>)
    requires Core(bs, t) && Live(t, start) && IsKidList(t, start, start, limit, kids)
    ensures Walk(t, start, limit, {}, kids)
  {
    forall x | x in kids ensures t.nodes[x].parent == Some(start) {
      ChildParent(bs, t, start, x);
    }
  }

  /** What is known of a waiting node. */
  lemma Waiting(t: Tree, start: nat, limit: Option<nat>, done: set<nat>, front: seq<nat>, i: nat)
    requires Live(t, start) && Walk(t, start, limit, done, front) && i < |front|
    ensures InRange(t, start, limit, front[i]) && front[i] !in done
  {
    assert front[i] in front;
  }

  /** Taking the i-th waiting node, and letting its children in range wait. */
  lemma WalkStep(bs: nat, t: Tree, start: nat, limit: Option<nat>, done: set<nat>, front: seq<nat>,
                 i: nat, kids: seq<nat>)
    requires Core(bs, t) && Live(t, start) && Walk(t, start, limit, done, front) && i < |front|
    requires Live(t, front[i]) && IsKidList(t, front[i], start, limit, kids)
    ensures Walk(t, start, limit, done + {front[i]}, front[..i] + front[i + 1..] + kids)
  {
    var n := front[i];
    assert n in front;
    forall x | x in kids ensures x !in front && x !in done && x != n && t.nodes[x].parent == Some(n) {
      ChildParent(bs, t, n, x);
    }
    var rest := front[..i] + front[i + 1..];
    assert Distinct(rest) && n !in rest;
    assert forall x :: x in front <==> x == n || x in rest by {
      assert front == front[..i] + [n] + front[i + 1..];
    }
    assert forall x :: x in rest + kids <==> x in rest || x in kids;
    DistinctAppend(rest, kids);
  }

  /** A finished walk has seen everything in range. */
  lemma {:induction false} WalkSawAll(bs: nat, t: Tree, start: nat, limit: Option<nat>, done: set<nat>, d: nat)
    requires Core(bs, t) && Live(t, start) && Walk(t, start, limit, done, []) && InRange(t, start, limit, d)
    ensures d in done
    decreases |t.keys[d].tokens|
  {
    assert NodeOk(bs, t, d);
    var p := t.nodes[d].parent.value;
    var kp, ks, kd := t.keys[p].tokens, t.keys[start].tokens, t.keys[d].tokens;
    assert kd == kp + t.nodes[d].edge;
    assert t.nodes[p].children[t.nodes[d].first] == d && ChildOf(t, p, d);
    if |kp| < |ks| {
      assert kp == kd[..|kp|] == ks[..|kp|];
      PathChild(bs, t, p, start);
      assert false;
    } else if |kp| == |ks| {
      assert ks == kd[..|ks|] == kp;
      assert t.keys[p] == t.keys[start];
    } else {
      assert ks == kd[..|ks|] == kp[..|ks|];
      WalkSawAll(bs, t, start, limit, done, p);
    }
  }

  /** The stored keys of the finished nodes of a walk. */
  ghost predicate SeenIs(t: Tree, done: set<nat>, seen: set<Key>) {
    forall k :: k in seen <==> k in Contents(t) && t.at[k] in done
  }

  lemma SeenStep(bs: nat, t: Tree, done: set<nat>, seen: set<Key>, n: nat)
    requires Core(bs, t) && SeenIs(t, done, seen) && Live(t, n) && n !in done
    ensures t.keys[n] !in seen
    ensures SeenIs(t, done + {n}, if t.nodes[n].terminal.Some? then seen + {t.keys[n]} else seen)
  {
    assert TerminalAt(t, t.keys[n]) == t.nodes[n].terminal;
  }

  /** When nothing waits, the stored keys seen are those strictly below the start and within the limit. */
  lemma SeenAll(bs: nat, t: Tree, start: nat, limit: Option<nat>, done: set<nat>, seen: set<Key>)
    requires Core(bs, t) && Live(t, start) && Walk(t, start, limit, done, []) && SeenIs(t, done, seen)
    ensures forall k :: k in seen <==>
      k in Contents(t) && Extends(k, t.keys[start]) && (limit.Some? ==> |k.tokens| <= limit.value)
  {
    forall k | k in Contents(t)
      ensures k in seen <==> Extends(k, t.keys[start]) && (limit.Some? ==> |k.tokens| <= limit.value)
    {
      var d := t.at[k];
      assert Live(t, d) && t.keys[d] == k;
      if InRange(t, start, limit, d) {
        WalkSawAll(bs, t, start, limit, done, d);
      }
    }
  }

  lemma LessLeft(done: set<nat>, n: nat, size: nat)
    requires n !in done && n < size
    ensures |Upto(size) - (done + {n})| < |Upto(size) - done|
  {
    assert Upto(size) - (done + {n}) == (Upto(size) - done) - {n};
  }

  /** A walk that counts the stored keys it has finished. */
  ghost predicate Counting(bs: nat, t: Tree, start: nat, limit: Option<nat>, done: set<nat>, front: seq<nat>,
                           seen: set<Key>, count: nat)
  {
    Wf(bs, t) && Live(t, start) && Walk(t, start, limit, done, front) && SeenIs(t, done, seen) && count == |seen|
  }

  ghost function SeenWith(t: Tree, seen: set<Key>, n: nat): set<Key>
    requires n < |t.nodes| == |t.keys|
  {
    if t.nodes[n].terminal.Some? then seen + {t.keys[n]} else seen
  }

  lemma CountStart(bs: nat, t: Tree, start: nat, limit: Option<nat>, kids: seq<nat>)
    requires Wf(bs, t) && Live(t, start) && IsKidList(t, start, start, limit, kids)
    ensures Counting(bs, t, start, limit, {}, kids, {}, 0)
  {
    WalkStart(bs, t, start, limit, kids);
  }

  lemma CountTake(bs: nat, t: Tree, start: nat, limit: Option<nat>, done: set<nat>, front: seq<nat>,
                  seen: set<Key>, count: nat, i: nat)
    requires Counting(bs, t, start, limit, done, front, seen, count) && i < |front|
    ensures InRange(t, start, limit, front[i]) && Live(t, front[i])
  {
    Waiting(t, start, limit, done, front, i);
  }

  lemma CountStep(bs: nat, t: Tree, start: nat, limit: Option<nat>, done: set<nat>, front: seq<nat>,
                  seen: set<Key>, count: nat, i: nat, kids: seq<nat>)
    requires Counting(bs, t, start, limit, done, front, seen, count) && i < |front|
    requires Live(t, front[i]) && IsKidList(t, front[i], start, limit, kids)
    ensures Counting(bs, t, start, limit, done + {front[i]}, front[..i] + front[i + 1..] + kids,
                     SeenWith(t, seen, front[i]), count + if t.nodes[front[i]].terminal.Some? then 1 else 0)
    ensures |Upto(|t.nodes|) - (done + {front[i]})| < |Upto(|t.nodes|) - done|
  {
    hide Wf;
    hide Core;
    hide Walk;
    hide SeenIs;
    hide IsKidList;
    hide Upto;
    var n := front[i];
    WfIsCore(bs, t);
    Waiting(t, start, limit, done, front, i);
    SeenStep(bs, t, done, seen, n);
    WalkStep(bs, t, start, limit, done, front, i, kids);
    LessLeft(done, n, |t.nodes|);
  }

  lemma WfIsCore(bs: nat, t: Tree)
    requires Wf(bs, t)
    ensures Core(bs, t)
  {
  }

  /** Popping the top of a stack. */
  lemma CountPop(bs: nat, t: Tree, start: nat, limit: Option<nat>, done: set<nat>, stack: seq<nat>,
                 seen: set<Key>, count: nat, kids: seq<nat>)
    requires Counting(bs, t, start, limit, done, stack, seen, count) && stack != []
    requires Live(t, stack[|stack| - 1]) && IsKidList(t, stack[|stack| - 1], start, limit, kids)
    ensures
      var n := stack[|stack| - 1];
      && Counting(bs, t, start, limit, done + {n}, stack[..|stack| - 1] + kids, SeenWith(t, seen, n),
                  count + if t.nodes[n].terminal.Some? then 1 else 0)
      && |Upto(|t.nodes|) - (done + {n})| < |Upto(|t.nodes|) - done|
  {
    hide Counting;
    hide IsKidList;
    CountStep(bs, t, start, limit, done, stack, seen, count, |stack| - 1, kids);
    assert stack[..|stack| - 1] + stack[|stack|..] + kids == stack[..|stack| - 1] + kids;
  }

  /** Taking the front of a queue. */
  lemma CountDequeue(bs: nat, t: Tree, start: nat, limit: Option<nat>, done: set<nat>, queue: seq<nat>,
                     seen: set<Key>, count: nat, kids: seq<nat>)
    requires Counting(bs, t, start, limit, done, queue, seen, count) && queue != []
    requires Live(t, queue[0]) && IsKidList(t, queue[0], start, limit, kids)
    ensures
      var n := queue[0];
      && Counting(bs, t, start, limit, done + {n}, queue[1..] + kids, SeenWith(t, seen, n),
                  count + if t.nodes[n].terminal.Some? then 1 else 0)
      && |Upto(|t.nodes|) - (done + {n})| < |Upto(|t.nodes|) - done|
  {
    hide Counting;
    hide IsKidList;
    CountStep(bs, t, start, limit, done, queue, seen, count, 0, kids);
    assert queue[..0] + queue[1..] + kids == queue[1..] + kids;
  }

  lemma CountBelow(bs: nat, t: Tree, start: nat, done: set<nat>, seen: set<Key>, count: nat)
    requires Counting(bs, t, start, None, done, [], seen, count)
    ensures count == |Below(Contents(t), t.keys[start])|
  {
    SeenAll(bs, t, start, None, done, seen);
    assert seen == Below(Contents(t), t.keys[start]);
  }

  /** Inside one block below a stored key, a terminal can only sit at the end of the block. */
  lemma TerminalAtEnd(bs: nat, t: Tree, start: nat, n: nat)
    requires Wf(bs, t) && Live(t, start) && |t.keys[start].tokens| % bs == 0
    requires InRange(t, start, Some(|t.keys[start].tokens| + bs), n) && t.nodes[n].terminal.Some?
    ensures |t.keys[n].tokens| == |t.keys[start].tokens| + bs
  {
    hide Wf;
    TerminalAligned(bs, t, n);
    OneBlockOn(bs, |t.keys[start].tokens|, |t.keys[n].tokens|);
  }

  lemma TerminalAligned(bs: nat, t: Tree, n: nat)
    requires Wf(bs, t) && Live(t, n) && t.nodes[n].terminal.Some?
    ensures bs > 0 && |t.keys[n].tokens| % bs == 0
  {
    assert NodeOk(bs, t, n);
  }

  /** Multiples of the block size that differ by at most one block. */
  lemma OneBlockOn(bs: nat, x: nat, y: nat)
    requires bs > 0 && x % bs == 0 && y % bs == 0 && x < y <= x + bs
    ensures y == x + bs
  {
    var a, b := x / bs, y / bs;
    assert x == a * bs && y == b * bs;
    assert a < b by {
      if b <= a { MulMono(b, a, bs); }
    }
    if a + 2 <= b {
      MulMono(a + 2, b, bs);
      assert false;
    }
  }

  lemma NoKidsAtLimit(bs: nat, t: Tree, start: nat, n: nat)
    requires Wf(bs, t) && Live(t, start) && Live(t, n)
    ensures IsKidList(t, n, start, Some(|t.keys[n].tokens|), [])
  {
    forall c | ChildOf(t, n, c) ensures !InRange(t, start, Some(|t.keys[n].tokens|), c) {
      ChildParent(bs, t, n, c);
    }
  }

  lemma CountOneBelow(bs: nat, t: Tree, start: nat, done: set<nat>, seen: set<Key>, count: nat)
    requires Live(t, start)
    requires Counting(bs, t, start, Some(|t.keys[start].tokens| + bs), done, [], seen, count)
    requires |t.keys[start].tokens| % bs == 0
    ensures count == |OneBelow(Contents(t), bs, t.keys[start])|
  {
    SeenAll(bs, t, start, Some(|t.keys[start].tokens| + bs), done, seen);
    forall k | k in seen ensures |k.tokens| == |t.keys[start].tokens| + bs {
      var n := t.at[k];
      assert Live(t, n) && t.keys[n] == k;
      TerminalAtEnd(bs, t, start, n);
    }
    assert seen == OneBelow(Contents(t), bs, t.keys[start]);
  }

  lemma IndexedAligned(bs: nat, t: Tree, b: BlockId)
    requires Wf(bs, t) && b in t.blockNode
    ensures Live(t, t.blockNode[b]) && |t.keys[t.blockNode[b]].tokens| % bs == 0
  {
    assert NodeOk(bs, t, t.blockNode[b]);
  }

  lemma ExactKeyOf(bs: nat, t: Tree, b: BlockId)
    requires Core(bs, t) && Exact(t)
    ensures b in t.blockNode <==> b in Contents(t).Values
    ensures b in t.blockNode ==> KeyOf(Contents(t), b) == t.keys[t.blockNode[b]]
  {
    ExactIff(bs, t);
    if b in t.blockNode {
      ClearTerminalContents(bs, t, b);
    }
  }
}
