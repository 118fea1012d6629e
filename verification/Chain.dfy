/**
 Bitcoin Core's view of the block tree. A block is identified with its whole ancestry, which is
 what a collision-free header hash identifies: equal hashes have equal ancestors.
 */
module Chain {

  datatype Block =
    | Genesis(time: nat, bits: nat)
    | Child(parent: Block, time: nat, bits: nat)

  function Height(b: Block): nat {
    match b
    case Genesis(_, _) => 0
    case Child(parent, _, _) => Height(parent) + 1
  }

  /** The ancestor of `b` (or `b` itself) at `height`: what Core serves while `b` is its tip. */
  function At(b: Block, height: nat): (a: Block)
    requires height <= Height(b)
    ensures Height(a) == height
  {
    if height == Height(b) then b else At(b.parent, height)
  }

  /** `a` is `b` or an ancestor of `b`. */
  predicate OnChain(a: Block, b: Block) {
    Height(a) <= Height(b) && At(b, Height(a)) == a
  }

  lemma AtOfAt(b: Block, high: nat, low: nat)
    requires low <= high <= Height(b)
    ensures At(At(b, high), low) == At(b, low)
  {
  }

  lemma OnChainTransitive(a: Block, b: Block, c: Block)
    requires OnChain(a, b) && OnChain(b, c)
    ensures OnChain(a, c)
  {
    AtOfAt(c, Height(b), Height(a));
  }

  /** Two blocks of one chain are ordered by height. */
  lemma OnChainOrdered(a: Block, b: Block, c: Block)
    requires OnChain(a, c) && OnChain(b, c)
    requires Height(a) <= Height(b)
    ensures OnChain(a, b)
  {
    AtOfAt(c, Height(b), Height(a));
  }
}
