/** Blocks, their collision-free hashes and their ancestry. A block stands for its header too, which commits to it. */
module Blocks {
  import opened Types

  /** `parent` is the hash of the parent; genesis has none. */
  datatype Block = Block(parent: BlockHash, number: nat, difficulty: nat, txs: seq<Tx>, salt: nat)

  datatype BlockHash = NoHash | Of(block: Block)

  /** The block is numbered right after its parent, as the consensus engine demands. */
  predicate Follows(b: Block) {
    b.parent.Of? && b.number == b.parent.block.number + 1
  }

  function TotalDifficulty(b: Block): nat {
    b.difficulty + if b.parent.Of? then TotalDifficulty(b.parent.block) else 0
  }

  /** Lookup in a store in which every block lies under its own hash and number. */
  function Lookup(stored: set<Block>, hash: BlockHash, number: nat): Option<Block> {
    if hash.Of? && hash.block in stored && hash.block.number == number then Some(hash.block) else None
  }

  /** All ancestors of the block down to genesis are stored, and so is the block. */
  ghost predicate Rooted(stored: set<Block>, genesis: Block, b: Block) {
    b in stored && (b == genesis || (b.parent.Of? && Rooted(stored, genesis, b.parent.block)))
  }

  lemma {:induction false} RootedInMore(stored: set<Block>, more: set<Block>, genesis: Block, b: Block)
    requires stored <= more && Rooted(stored, genesis, b)
    ensures Rooted(more, genesis, b)
    decreases b
  {
    if b != genesis {
      RootedInMore(stored, more, genesis, b.parent.block);
    }
  }

  /** How many blocks the chain up to this one has. */
  function Depth(b: Block): nat {
    1 + if b.parent.Of? then Depth(b.parent.block) else 0
  }

  /** Storing a block roots no block that is not above it. */
  lemma {:induction false} RootedUnlessAbove(stored: set<Block>, added: Block, genesis: Block, b: Block)
    requires Depth(b) < Depth(added)
    ensures Rooted(stored + {added}, genesis, b) <==> Rooted(stored, genesis, b)
    decreases b
  {
    if b.parent.Of? {
      RootedUnlessAbove(stored, added, genesis, b.parent.block);
    }
  }

  /** `a` is `b` or one of its ancestors. */
  predicate IsAncestor(a: Block, b: Block)
    decreases b
  {
    a == b || (b.parent.Of? && IsAncestor(a, b.parent.block))
  }

  /** One less, on 64 bits. */
  function Pred(number: nat): nat {
    if number == 0 then MAX_UINT64 else number - 1
  }
}
