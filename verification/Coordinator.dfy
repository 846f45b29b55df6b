/** src/coordinator/global_index.cc and stale_reference_cleaner.cc: which workers may hold a block, by
    content hash, as a value and as an object. */
module Coordinator {
  import opened Types

  datatype Ref = Ref(node: NodeId, block: BlockId, generation: nat)

  type Directory = map<ContentHash, seq<Ref>>

  function Query(d: Directory, hash: ContentHash): seq<Ref> {
    if hash in d then d[hash] else []
  }

  /** A ref is appended unless it is listed already; the list comes into being either way. */
  function Announced(d: Directory, hash: ContentHash, ref: Ref): Directory {
    d[hash := if ref in Query(d, hash) then Query(d, hash) else Query(d, hash) + [ref]]
  }

  /** remove_if and erase: what does not match, in the same order. */
  function Without(refs: seq<Ref>, drop: Ref -> bool): seq<Ref> {
    if refs == [] then []
    else if drop(refs[0]) then Without(refs[1..], drop)
    else [refs[0]] + Without(refs[1..], drop)
  }

  function Cleaned(d: Directory, drop: Ref -> bool): Directory {
    map h | h in d :: Without(d[h], drop)
  }

  function Is(ref: Ref): Ref -> bool {
    r => r == ref
  }

  function OnNode(node: NodeId): Ref -> bool {
    (r: Ref) => r.node == node
  }

  // ---------- entries ----------

  ghost predicate NoRepeats(refs: seq<Ref>) {
    forall i, j | 0 <= i < j < |refs| :: refs[i] != refs[j]
  }

  /** No list names a ref twice. */
  ghost predicate DirectoryInv(d: Directory) {
    forall h | h in d :: NoRepeats(d[h])
  }

  ghost predicate Listed(d: Directory, hash: ContentHash, ref: Ref) {
    ref in Query(d, hash)
  }

  /** entryCount: the lengths of all lists together. */
  ghost function CountOver(d: Directory, hashes: set<ContentHash>): nat
    requires hashes <= d.Keys
    decreases |hashes|
  {
    if hashes == {} then 0
    else
      AnyHash(hashes);
      var h :| h in hashes;
      |d[h]| + CountOver(d, hashes - {h})
  }

  lemma AnyHash(s: set<ContentHash>)
    requires s != {}
    ensures exists h :: h in s
  {
  }

  ghost function EntryCount(d: Directory): nat {
    CountOver(d, d.Keys)
  }

  /** The sum does not depend on the order in which the lists are visited. */
  lemma {:induction false} CountOverAny(d: Directory, hashes: set<ContentHash>, h: ContentHash)
    requires hashes <= d.Keys && h in hashes
    ensures CountOver(d, hashes) == |d[h]| + CountOver(d, hashes - {h})
    decreases |hashes|
  {
    AnyHash(hashes);
    var g :| g in hashes && CountOver(d, hashes) == |d[g]| + CountOver(d, hashes - {g});
    if g != h {
      CountOverAny(d, hashes - {g}, h);
      CountOverAny(d, hashes - {h}, g);
      assert hashes - {g} - {h} == hashes - {h} - {g};
    }
  }

  lemma {:induction false} WithoutIs(refs: seq<Ref>, drop: Ref -> bool)
    ensures forall r :: r in Without(refs, drop) <==> r in refs && !drop(r)
    ensures |Without(refs, drop)| <= |refs|
    ensures (exists r :: r in refs && drop(r)) ==> |Without(refs, drop)| < |refs|
    ensures NoRepeats(refs) ==> NoRepeats(Without(refs, drop))
  {
    if refs != [] {
      var rest := refs[1..];
      WithoutIs(rest, drop);
      assert forall r :: r in refs <==> r == refs[0] || r in rest;
      if NoRepeats(refs) {
        assert forall r | r in rest :: r != refs[0];
        assert NoRepeats(rest);
        if !drop(refs[0]) {
          NoRepeatsPush(refs[0], Without(rest, drop));
        }
      }
    }
  }

  lemma NoRepeatsPush(r: Ref, refs: seq<Ref>)
    requires NoRepeats(refs) && r !in refs
    ensures NoRepeats([r] + refs)
  {
    var all := [r] + refs;
    forall i, j | 0 <= i < j < |all| ensures all[i] != all[j] {
      assert all[j] == refs[j - 1] && refs[j - 1] in refs;
      if i > 0 {
        assert all[i] == refs[i - 1];
      }
    }
  }

  /** Announcing adds the one entry, if it was missing, and never repeats one. */
  lemma AnnounceIs(d: Directory, hash: ContentHash, ref: Ref)
    requires DirectoryInv(d)
    ensures DirectoryInv(Announced(d, hash, ref))
    ensures forall h, r :: Listed(Announced(d, hash, ref), h, r) <==> Listed(d, h, r) || (h == hash && r == ref)
  {
  }

  /** Cleaning removes exactly the matching entries. */
  lemma CleanIs(d: Directory, drop: Ref -> bool)
    ensures DirectoryInv(d) ==> DirectoryInv(Cleaned(d, drop))
    ensures forall h, r :: Listed(Cleaned(d, drop), h, r) <==> Listed(d, h, r) && !drop(r)
  {
    forall h | h in d
      ensures forall r :: r in Without(d[h], drop) <==> r in d[h] && !drop(r)
      ensures NoRepeats(d[h]) ==> NoRepeats(Without(d[h], drop))
    {
      WithoutIs(d[h], drop);
    }
  }

  lemma {:induction false} CleanCount(d: Directory, drop: Ref -> bool, hashes: set<ContentHash>)
    requires hashes <= d.Keys
    ensures CountOver(Cleaned(d, drop), hashes) <= CountOver(d, hashes)
    ensures (exists h, r :: h in hashes && r in d[h] && drop(r)) ==>
      CountOver(Cleaned(d, drop), hashes) < CountOver(d, hashes)
    decreases |hashes|
  {
    if hashes != {} {
      AnyHash(hashes);
      var g :| g in hashes;
      CountOverAny(d, hashes, g);
      CountOverAny(Cleaned(d, drop), hashes, g);
      WithoutIs(d[g], drop);
      CleanCount(d, drop, hashes - {g});
      if h, r :| h in hashes && r in d[h] && drop(r) {
        if h != g {
          assert h in hashes - {g};
        }
      }
    }
  }

  /** Reporting a ref that is listed strictly lowers the entry count. */
  lemma InvalidateLowers(d: Directory, hash: ContentHash, ref: Ref)
    requires Listed(d, hash, ref)
    ensures EntryCount(Cleaned(d, Is(ref))) < EntryCount(d)
  {
    assert hash in d && ref in d[hash] && Is(ref)(ref);
    assert Cleaned(d, Is(ref)).Keys == d.Keys;
    CleanCount(d, Is(ref), d.Keys);
  }

  // ---------- runs of the directory ----------

  datatype DirOp = OpAnnounce(hash: ContentHash, ref: Ref) | OpInvalidate(ref: Ref) | OpRemoveNode(node: NodeId)

  function DirStep(d: Directory, op: DirOp): Directory {
    match op
    case OpAnnounce(hash, ref) => Announced(d, hash, ref)
    case OpInvalidate(ref) => Cleaned(d, Is(ref))
    case OpRemoveNode(node) => Cleaned(d, OnNode(node))
  }

  function DirEnd(ops: seq<DirOp>): Directory {
    if ops == [] then map[] else DirStep(DirEnd(ops[..|ops| - 1]), ops[|ops| - 1])
  }

  predicate Clears(op: DirOp, ref: Ref) {
    match op
    case OpAnnounce(_, _) => false
    case OpInvalidate(r) => r == ref
    case OpRemoveNode(node) => ref.node == node
  }

  /** The ref was announced under this hash, and nothing has cleared it since. */
  ghost predicate Standing(ops: seq<DirOp>, hash: ContentHash, ref: Ref) {
    exists i :: 0 <= i < |ops| && ops[i] == OpAnnounce(hash, ref) && forall j | i < j < |ops| :: !Clears(ops[j], ref)
  }

  lemma StandingStep(ops: seq<DirOp>, op: DirOp, hash: ContentHash, ref: Ref)
    ensures Standing(ops + [op], hash, ref) <==>
      op == OpAnnounce(hash, ref) || (Standing(ops, hash, ref) && !Clears(op, ref))
  {
    var all := ops + [op];
    if op == OpAnnounce(hash, ref) {
      assert all[|ops|] == op;
    }
    if Standing(ops, hash, ref) && !Clears(op, ref) {
      var i :| 0 <= i < |ops| && ops[i] == OpAnnounce(hash, ref) && forall j | i < j < |ops| :: !Clears(ops[j], ref);
      assert all[i] == ops[i];
      forall j | i < j < |all| ensures !Clears(all[j], ref) {
        if j < |ops| {
          assert all[j] == ops[j];
        }
      }
    }
    if Standing(all, hash, ref) && op != OpAnnounce(hash, ref) {
      var i :| 0 <= i < |all| && all[i] == OpAnnounce(hash, ref) && forall j | i < j < |all| :: !Clears(all[j], ref);
      assert ops[i] == all[i] && !Clears(all[|ops|], ref);
      forall j | i < j < |ops| ensures !Clears(ops[j], ref) {
        assert ops[j] == all[j];
      }
    }
  }

  /** After any run of announcements and clean-ups a query returns exactly the refs announced under its hash
      and not cleared since, each once. */
  lemma {:induction false} QueryIsStanding(ops: seq<DirOp>)
    ensures DirectoryInv(DirEnd(ops))
    ensures forall hash, ref :: ref in Query(DirEnd(ops), hash) <==> Standing(ops, hash, ref)
  {
    hide Standing;
    if ops == [] {
      NothingStanding();
    } else {
      var before, op := ops[..|ops| - 1], ops[|ops| - 1];
      assert ops == before + [op];
      QueryIsStanding(before);
      forall hash, ref ensures ref in Query(DirEnd(ops), hash) <==> Standing(ops, hash, ref) {
        StandingStep(before, op, hash, ref);
        assert Listed(DirEnd(before), hash, ref) <==> ref in Query(DirEnd(before), hash);
        StepIs(DirEnd(before), op, hash, ref);
      }
      StepIs(DirEnd(before), op, ContentHash(0, 0), Ref(0, 0, 0));
    }
  }

  /** The announcement since which the ref has been standing: the first that nothing has cleared. */
  ghost function Since(ops: seq<DirOp>, hash: ContentHash, ref: Ref): nat {
    if ops == [] then 0
    else
      var before, op := ops[..|ops| - 1], ops[|ops| - 1];
      if Standing(before, hash, ref) && !Clears(op, ref) then Since(before, hash, ref) else |before|
  }

  /** The refs are in the order of these numbers. */
  ghost predicate InOrder(refs: seq<Ref>, at: Ref -> nat) {
    forall i, j | 0 <= i < j < |refs| :: at(refs[i]) < at(refs[j])
  }

  lemma {:induction false} WithoutInOrder(refs: seq<Ref>, drop: Ref -> bool, at: Ref -> nat)
    requires InOrder(refs, at)
    ensures InOrder(Without(refs, drop), at)
  {
    if refs != [] {
      var rest := Without(refs[1..], drop);
      WithoutInOrder(refs[1..], drop, at);
      WithoutIs(refs[1..], drop);
      forall i | 0 <= i < |rest| ensures at(refs[0]) < at(rest[i]) {
        assert rest[i] in rest && rest[i] in refs[1..];
        var j :| 0 <= j < |refs| - 1 && refs[1..][j] == rest[i];
        assert refs[j + 1] == rest[i];
      }
    }
  }

  lemma {:induction false} SinceIs(ops: seq<DirOp>, hash: ContentHash, ref: Ref)
    requires Standing(ops, hash, ref)
    ensures
      var n := Since(ops, hash, ref);
      && n < |ops| && ops[n] == OpAnnounce(hash, ref)
      && (forall j | n < j < |ops| :: !Clears(ops[j], ref))
      && (forall i | 0 <= i < n && ops[i] == OpAnnounce(hash, ref) :: exists j :: i < j < n && Clears(ops[j], ref))
  {
    hide Standing;
    if ops == [] {
      NothingStanding();
    } else {
      var before, op := ops[..|ops| - 1], ops[|ops| - 1];
      assert ops == before + [op];
      StandingStep(before, op, hash, ref);
      if Standing(before, hash, ref) && !Clears(op, ref) {
        SinceIs(before, hash, ref);
      } else {
        assert op == OpAnnounce(hash, ref);
        forall i | 0 <= i < |before| && ops[i] == OpAnnounce(hash, ref)
          ensures exists j :: i < j < |before| && Clears(ops[j], ref)
        {
          ClearedBetween(before, hash, ref, i);
        }
      }
    }
  }

  lemma ClearedBetween(ops: seq<DirOp>, hash: ContentHash, ref: Ref, i: nat)
    requires i < |ops| && ops[i] == OpAnnounce(hash, ref) && !Standing(ops, hash, ref)
    ensures exists j :: i < j < |ops| && Clears(ops[j], ref)
  {
  }

  /** A query lists its refs in the order in which they were announced: the one that has been standing longest
      first. */
  lemma {:induction false} QueryInOrder(ops: seq<DirOp>, hash: ContentHash)
    ensures InOrder(Query(DirEnd(ops), hash), ref => Since(ops, hash, ref))
  {
    hide Standing;
    hide InOrder;
    if ops == [] {
      ShortInOrder(ref => Since(ops, hash, ref));
    } else {
      var before, op := ops[..|ops| - 1], ops[|ops| - 1];
      assert ops == before + [op];
      QueryInOrder(before, hash);
      QueryIsStanding(before);
      StepInOrder(before, op, hash);
      assert DirEnd(ops) == DirStep(DirEnd(before), op);
    }
  }

  lemma ShortInOrder(at: Ref -> nat)
    ensures InOrder([], at)
  {
  }

  /** The refs that stay keep their numbers, and a new one gets the highest. */
  lemma StepInOrder(before: seq<DirOp>, op: DirOp, hash: ContentHash)
    requires InOrder(Query(DirEnd(before), hash), ref => Since(before, hash, ref))
    requires forall ref :: ref in Query(DirEnd(before), hash) <==> Standing(before, hash, ref)
    ensures InOrder(Query(DirStep(DirEnd(before), op), hash), ref => Since(before + [op], hash, ref))
  {
    hide Standing;
    var refs, refs' := Query(DirEnd(before), hash), Query(DirStep(DirEnd(before), op), hash);
    var ops := before + [op];
    assert ops[..|ops| - 1] == before;
    match op
    case OpAnnounce(h, r) =>
      forall i | 0 <= i < |refs| ensures Since(ops, hash, refs[i]) == Since(before, hash, refs[i]) < |before| {
        assert refs[i] in refs;
        SinceIs(before, hash, refs[i]);
      }
      assert refs' == refs || refs' == refs + [r];
    case OpInvalidate(r) => ClearInOrder(before, op, hash, Is(r));
    case OpRemoveNode(node) => ClearInOrder(before, op, hash, OnNode(node));
  }

  lemma ClearInOrder(before: seq<DirOp>, op: DirOp, hash: ContentHash, drop: Ref -> bool)
    requires InOrder(Query(DirEnd(before), hash), ref => Since(before, hash, ref))
    requires forall ref :: ref in Query(DirEnd(before), hash) <==> Standing(before, hash, ref)
    requires forall ref :: drop(ref) <==> Clears(op, ref)
    ensures InOrder(Query(Cleaned(DirEnd(before), drop), hash), ref => Since(before + [op], hash, ref))
  {
    hide Standing;
    var refs, ops := Query(DirEnd(before), hash), before + [op];
    assert ops[..|ops| - 1] == before;
    WithoutInOrder(refs, drop, ref => Since(before, hash, ref));
    WithoutIs(refs, drop);
    var rest := Without(refs, drop);
    assert Query(Cleaned(DirEnd(before), drop), hash) == rest;
    forall i | 0 <= i < |rest| ensures Since(ops, hash, rest[i]) == Since(before, hash, rest[i]) {
      assert rest[i] in rest;
    }
  }

  lemma NothingStanding()
    ensures forall hash, ref :: !Standing([], hash, ref)
  {
  }

  lemma StepIs(d: Directory, op: DirOp, hash: ContentHash, ref: Ref)
    requires DirectoryInv(d)
    ensures DirectoryInv(DirStep(d, op))
    ensures Listed(DirStep(d, op), hash, ref) <==>
      op == OpAnnounce(hash, ref) || (Listed(d, hash, ref) && !Clears(op, ref))
  {
    hide Announced;
    hide Cleaned;
    hide DirectoryInv;
    hide Listed;
    match op
    case OpAnnounce(h, r) => AnnounceIs(d, h, r);
    case OpInvalidate(r) => CleanIs(d, Is(r));
    case OpRemoveNode(node) => CleanIs(d, OnNode(node));
  }

  // ---------- the object ----------

  class GlobalIndex {
    var index: Directory

    constructor ()
      ensures index == map[]
    {
      index := map[];
    }

    method Announce(hash: ContentHash, ref: Ref)
      modifies this
      ensures index == Announced(old(index), hash, ref)
    {
      if hash !in index {
        index := index[hash := []];
      }
      var refs := index[hash];
      var i := 0;
      while i < |refs|
        invariant 0 <= i <= |refs| && ref !in refs[..i]
      {
        if refs[i].node == ref.node && refs[i].block == ref.block && refs[i].generation == ref.generation {
          assert refs[i] == ref && ref in refs;
          assert index == Announced(old(index), hash, ref);
          return;
        }
        i := i + 1;
      }
      index := index[hash := refs + [ref]];
    }

    function QueryRefs(hash: ContentHash): (refs: seq<Ref>)
      reads this
      ensures forall ref :: ref in refs <==> Listed(index, hash, ref)
      ensures DirectoryInv(index) ==> NoRepeats(refs)
    {
      if hash !in index then [] else index[hash]
    }

    method Clean(drop: Ref -> bool)
      modifies this
      ensures index == Cleaned(old(index), drop)
    {
      var todo := index.Keys;
      while todo != {}
        invariant todo <= old(index).Keys && index.Keys == old(index).Keys
        invariant forall h | h in index :: index[h] == if h in todo then old(index)[h] else Without(old(index)[h], drop)
        decreases |todo|
      {
        AnyHash(todo);
        var h :| h in todo;
        index := index[h := Without(index[h], drop)];
        todo := todo - {h};
      }
    }

    method Invalidate(node: NodeId, block: BlockId, generation: nat)
      modifies this
      ensures index == Cleaned(old(index), Is(Ref(node, block, generation)))
    {
      Clean(Is(Ref(node, block, generation)));
    }

    method RemoveNode(node: NodeId)
      modifies this
      ensures index == Cleaned(old(index), OnNode(node))
    {
      Clean(OnNode(node));
    }

    method CountEntries() returns (total: nat)
      ensures total == EntryCount(index)
    {
      total := 0;
      var todo := index.Keys;
      while todo != {}
        invariant todo <= index.Keys && total + CountOver(index, todo) == EntryCount(index)
        decreases |todo|
      {
        AnyHash(todo);
        var h :| h in todo;
        CountOverAny(index, todo, h);
        total := total + |index[h]|;
        todo := todo - {h};
      }
    }
  }

  class StaleReferenceCleaner {
    const index: GlobalIndex

    constructor (index: GlobalIndex)
      ensures this.index == index
    {
      this.index := index;
    }

    method ReportStaleFetch(node: NodeId, block: BlockId, generation: nat)
      modifies index
      ensures index.index == Cleaned(old(index.index), Is(Ref(node, block, generation)))
    {
      index.Invalidate(node, block, generation);
    }

    method CleanDeadNode(node: NodeId)
      modifies index
      ensures index.index == Cleaned(old(index.index), OnNode(node))
    {
      index.RemoveNode(node);
    }
  }
}
