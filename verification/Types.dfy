/** Identifiers and small enumerations shared by every component (src/core/ids.h, src/tier/tier.h). */
module Types {

  datatype Option<+T> = None | Some(value: T)

  // A BlockId is the slot number of the block in the pool and in the record array.
  type BlockId = nat
  type NodeId = nat
  type Token = int
  type ContextHash = nat
  type Byte = bv8

  datatype ContentHash = ContentHash(lo: nat, hi: nat)

  datatype Tier = GpuSim | Host

  datatype BlockState = Free | Admitting | Ready | Fetching | Migrating | Evicting

  /** The name of one cached block: a context and a block-aligned token prefix. */
  datatype Key = Key(ctx: ContextHash, tokens: seq<Token>)

  /** What a method of the source that may throw did: returned a value, or threw. */
  datatype Outcome<+T> = Returned(value: T) | Threw

  lemma SomeElement(s: set<int>)
    requires s != {}
    ensures exists x :: x in s
  {
    assert (forall x :: x !in s) ==> s == {};
  }

  /** Iteration over an unordered container: some element, in no particular order. */
  method AnyOf(s: set<int>) returns (x: int)
    requires s != {}
    ensures x in s
  {
    SomeElement(s);
    x :| x in s;
  }

  /** The natural numbers below n. */
  ghost function Upto(n: nat): (r: set<nat>)
    ensures forall x: nat :: x in r <==> x < n
    ensures |r| == n
  {
    if n == 0 then {} else Upto(n - 1) + {n - 1}
  }
}
