/** Searching for the common ancestor of two branches, and what a pool reinjects when it follows a reorganization. */
module Ancestry {
  import opened Types
  import opened Blocks

  /** The stored parent. */
  function Up(stored: set<Block>, b: Block): (r: Option<Block>)
    ensures r.Some? ==> r.value.number + 1 == b.number && r.value in stored && b.parent == Of(r.value)
  {
    if b.number == 0 then None else Lookup(stored, b.parent, b.number - 1)
  }

  /** `a` is reached from `b` over stored parents. */
  predicate Reaches(stored: set<Block>, b: Block, a: Block)
    decreases b.number
  {
    a == b || (Up(stored, b).Some? && Reaches(stored, Up(stored, b).value, a))
  }

  predicate Common(stored: set<Block>, a: Block, b: Block, c: Block) {
    Reaches(stored, a, c) && Reaches(stored, b, c)
  }

  ghost predicate HighestCommon(stored: set<Block>, a: Block, b: Block, c: Block) {
    Common(stored, a, b, c) && forall d | Common(stored, a, b, d) :: Reaches(stored, c, d)
  }

  /** Numbers below the last 64-bit one, so that a lookup below number 0 finds nothing. */
  ghost predicate Numbered(stored: set<Block>) {
    forall b | b in stored :: b.number < MAX_UINT64
  }

  /** A branch: the blocks from `x` down to, but without, `y`. */
  predicate Path(stored: set<Block>, x: Block, chain: seq<Block>, y: Block)
    decreases |chain|
  {
    if chain == [] then x == y
    else chain[0] == x && Up(stored, x).Some? && Path(stored, Up(stored, x).value, chain[1..], y)
  }

  lemma {:induction false} ReachesDown(stored: set<Block>, b: Block, a: Block)
    requires Reaches(stored, b, a)
    ensures a.number <= b.number && (a.number == b.number ==> a == b)
    decreases b.number
  {
    if a != b {
      ReachesDown(stored, Up(stored, b).value, a);
    }
  }

  lemma {:induction false} ReachesTrans(stored: set<Block>, x: Block, y: Block, z: Block)
    requires Reaches(stored, x, y) && Reaches(stored, y, z)
    ensures Reaches(stored, x, z)
    decreases x.number
  {
    if x != y {
      ReachesTrans(stored, Up(stored, x).value, y, z);
    }
  }

  /** A block above another may be replaced by its parent without losing a common ancestor. */
  lemma LevelUp(stored: set<Block>, a: Block, b: Block, d: Block)
    requires a.number > b.number
    ensures Common(stored, a, b, d) <==> Up(stored, a).Some? && Common(stored, Up(stored, a).value, b, d)
    ensures Common(stored, b, a, d) <==> Up(stored, a).Some? && Common(stored, b, Up(stored, a).value, d)
  {
    if Reaches(stored, b, d) {
      ReachesDown(stored, b, d);
    }
  }

  /** Two different blocks of one height may both be replaced by their parents. */
  lemma WalkUp(stored: set<Block>, a: Block, b: Block, d: Block)
    requires a.number == b.number && a != b
    ensures Common(stored, a, b, d) <==>
      Up(stored, a).Some? && Up(stored, b).Some? && Common(stored, Up(stored, a).value, Up(stored, b).value, d)
  {
    if Common(stored, a, b, d) {
      ReachesDown(stored, a, d);
      ReachesDown(stored, b, d);
    }
  }

  /** Searching from the one pair or from the other finds the same. */
  ghost predicate SameCommon(stored: set<Block>, a: Block, b: Block, a': Block, b': Block) {
    forall d :: Common(stored, a, b, d) <==> Common(stored, a', b', d)
  }

  lemma SearchGoesOn(stored: set<Block>, a0: Block, b0: Block, a: Block, b: Block)
    requires SameCommon(stored, a0, b0, a, b)
    ensures a.number > b.number ==>
      if Up(stored, a).Some? then SameCommon(stored, a0, b0, Up(stored, a).value, b) else forall d :: !Common(stored,
          a0, b0, d)
    ensures b.number > a.number ==>
      if Up(stored, b).Some? then SameCommon(stored, a0, b0, a, Up(stored, b).value) else forall d :: !Common(stored,
          a0, b0, d)
    ensures a.number == b.number && a != b ==>
      if Up(stored, a).Some?
          && Up(stored, b).Some? then SameCommon(stored, a0, b0, Up(stored, a).value, Up(stored, b).value)
      else forall d :: !Common(stored, a0, b0, d)
    ensures a == b ==> HighestCommon(stored, a0, b0, a)
  {
    forall d
      ensures a.number > b.number ==> (Common(stored, a, b, d) <==> Up(stored, a).Some? && Common(stored, Up(stored, a).value, b, d))
      ensures b.number > a.number ==> (Common(stored, a, b, d) <==> Up(stored, b).Some? && Common(stored, a, Up(stored, b).value, d))
      ensures a.number == b.number && a != b ==> (Common(stored, a, b, d) <==>
        Up(stored, a).Some? && Up(stored, b).Some? && Common(stored, Up(stored, a).value, Up(stored, b).value, d))
    {
      if a.number > b.number {
        LevelUp(stored, a, b, d);
      } else if b.number > a.number {
        LevelUp(stored, b, a, d);
      } else if a != b {
        WalkUp(stored, a, b, d);
      }
    }
    if a == b {
      assert Common(stored, a, b, a);
    }
  }

  /** Finds the highest common ancestor exactly if there is one. */
  method FindCommonAncestor(stored: set<Block>, first: Block, second: Block) returns (r: Option<Block>)
    requires Numbered(stored)
    ensures r.Some? ==> HighestCommon(stored, first, second, r.value)
    ensures r.None? ==> forall d :: !Common(stored, first, second, d)
  {
    hide Common;
    var a, b := first, second;
    while a.number > b.number
      invariant b == second && SameCommon(stored, first, second, a, b)
      decreases a.number
    {
      SearchGoesOn(stored, first, second, a, b);
      var parent := Lookup(stored, a.parent, Pred(a.number));
      if parent.None? {
        return None;
      }
      a := parent.value;
    }
    while a.number < b.number
      invariant a.number <= b.number && SameCommon(stored, first, second, a, b)
      decreases b.number
    {
      SearchGoesOn(stored, first, second, a, b);
      var parent := Lookup(stored, b.parent, Pred(b.number));
      if parent.None? {
        return None;
      }
      b := parent.value;
    }
    while a != b
      invariant a.number == b.number && SameCommon(stored, first, second, a, b)
      decreases a.number
    {
      SearchGoesOn(stored, first, second, a, b);
      var parentA := Lookup(stored, a.parent, Pred(a.number));
      if parentA.None? {
        return None;
      }
      var parentB := Lookup(stored, b.parent, Pred(b.number));
      if parentB.None? {
        return None;
      }
      a, b := parentA.value, parentB.value;
    }
    SearchGoesOn(stored, first, second, a, b);
    return Some(a);
  }

  /** A store with one genesis in which every other block follows a stored parent. */
  ghost predicate Closed(stored: set<Block>, genesis: Block) {
    && genesis in stored && genesis.number == 0 && genesis.parent == NoHash
    && forall b | b in stored :: b == genesis || (Follows(b) && b.parent.block in stored)
  }

  lemma {:induction false} GenesisReached(stored: set<Block>, genesis: Block, b: Block)
    requires Closed(stored, genesis) && (b in stored || (Follows(b) && b.parent.block in stored))
    ensures Reaches(stored, b, genesis)
    decreases b.number
  {
    if b != genesis {
      GenesisReached(stored, genesis, b.parent.block);
    }
  }

  // ---------------------------------------------------------------------------------------------
  // Branches

  lemma {:induction false} PathGrows(stored: set<Block>, x: Block, chain: seq<Block>, y: Block)
    requires Path(stored, x, chain, y) && Up(stored, y).Some?
    ensures Path(stored, x, chain + [y], Up(stored, y).value)
    decreases |chain|
  {
    if chain == [] {
      assert Path(stored, Up(stored, y).value, [], Up(stored, y).value);
    } else {
      assert (chain + [y])[1..] == chain[1..] + [y];
      PathGrows(stored, Up(stored, x).value, chain[1..], y);
    }
  }

  /** A branch down to `y` holds exactly what is reached from its top but not from `y`. */
  lemma {:induction false} PathHolds(stored: set<Block>, x: Block, chain: seq<Block>, y: Block, b: Block)
    requires Path(stored, x, chain, y)
    ensures Reaches(stored, x, y) && y.number <= x.number && |chain| == x.number - y.number
    ensures b in chain <==> Reaches(stored, x, b) && !Reaches(stored, y, b)
    decreases |chain|
  {
    if chain != [] {
      var up := Up(stored, x).value;
      PathHolds(stored, up, chain[1..], y, b);
      if Reaches(stored, y, x) {
        ReachesDown(stored, y, x);
      }
    }
  }

  /** Above the highest common ancestor the two branches hold exactly what the one has and the other has not. */
  lemma BranchesDiffer(stored: set<Block>, a: Block, b: Block, c: Block, oldChain: seq<Block>, newChain: seq<Block>,
                       x: Block)
    requires HighestCommon(stored, a, b, c) && Path(stored, a, oldChain, c) && Path(stored, b, newChain, c)
    ensures x in oldChain <==> Reaches(stored, a, x) && !Reaches(stored, b, x)
    ensures x in newChain <==> Reaches(stored, b, x) && !Reaches(stored, a, x)
  {
    PathHolds(stored, a, oldChain, c, x);
    PathHolds(stored, b, newChain, c, x);
    if Reaches(stored, c, x) {
      ReachesTrans(stored, a, c, x);
      ReachesTrans(stored, b, c, x);
    } else {
      assert !Common(stored, a, b, x);
    }
  }

  /** Along a branch each block's parent is the next one. */
  lemma {:induction false} PathSteps(stored: set<Block>, x: Block, chain: seq<Block>, y: Block, i: nat)
    requires Path(stored, x, chain, y) && i < |chain|
    ensures Up(stored, chain[i]) == Some(if i + 1 < |chain| then chain[i + 1] else y)
    ensures Reaches(stored, x, chain[i]) && chain[0] == x
    decreases i
  {
    if i > 0 {
      PathSteps(stored, Up(stored, x).value, chain[1..], y, i - 1);
    } else if |chain| > 1 {
      assert chain[1..][0] == Up(stored, x).value;
    }
  }

  // ---------------------------------------------------------------------------------------------
  // Reinjection

  function TxsIn(chain: seq<Block>): seq<Tx> {
    if chain == [] then [] else TxsIn(chain[..|chain| - 1]) + chain[|chain| - 1].txs
  }

  lemma {:induction false} InSomeBlock(chain: seq<Block>, t: Tx)
    ensures t in TxsIn(chain) <==> exists b :: b in chain && t in b.txs
    decreases |chain|
  {
    if chain != [] {
      var init := chain[..|chain| - 1];
      InSomeBlock(init, t);
      assert chain == init + [chain[|chain| - 1]];
    }
  }

  /** The elements of `a` whose hashes do not occur in `b`, in order. */
  method TxDifference(a: seq<Tx>, b: seq<Tx>) returns (keep: seq<Tx>)
    ensures forall t :: t in keep <==> t in a && t !in b
  {
    keep := [];
    var remove: set<Hash> := {};
    for i := 0 to |b|
      invariant forall t: Tx :: t.Hash() in remove <==> t in b[..i]
    {
      remove := remove + {b[i].Hash()};
      assert b[..i + 1] == b[..i] + [b[i]];
    }
    assert b[..|b|] == b;
    for i := 0 to |a|
      invariant forall t :: t in keep <==> t in a[..i] && t !in b
    {
      assert a[..i + 1] == a[..i] + [a[i]];
      if a[i].Hash() !in remove {
        keep := keep + [a[i]];
      }
    }
    assert a[..|a|] == a;
  }

  /** The transactions to reinject, or that a branch has no stored root, or that a head is not stored. */
  datatype Reinjection = Reinject(txs: seq<Tx>) | Unrooted | MissingHead

  const MAX_REORG_DEPTH: nat := 64

  function Distance(a: nat, b: nat): nat {
    if a > b then a - b else b - a
  }

  /** A transaction of the old branch that the new branch does not have. */
  ghost predicate Abandoned(stored: set<Block>, oldHead: Block, newHead: Block, t: Tx) {
    && (exists b :: Reaches(stored, oldHead, b) && !Reaches(stored, newHead, b) && t in b.txs)
    && !exists b :: Reaches(stored, newHead, b) && !Reaches(stored, oldHead, b) && t in b.txs
  }

  lemma DifferenceIsAbandoned(stored: set<Block>, a: Block, b: Block, c: Block, oldChain: seq<Block>,
                              newChain: seq<Block>, t: Tx)
    requires HighestCommon(stored, a, b, c) && Path(stored, a, oldChain, c) && Path(stored, b, newChain, c)
    ensures t in TxsIn(oldChain) && t !in TxsIn(newChain) <==> Abandoned(stored, a, b, t)
  {
    InSomeBlock(oldChain, t);
    InSomeBlock(newChain, t);
    forall x
      ensures x in oldChain <==> Reaches(stored, a, x) && !Reaches(stored, b, x)
      ensures x in newChain <==> Reaches(stored, b, x) && !Reaches(stored, a, x)
    {
      BranchesDiffer(stored, a, b, c, oldChain, newChain, x);
    }
  }

  lemma TxsGrow(chain: seq<Block>, b: Block)
    ensures TxsIn(chain + [b]) == TxsIn(chain) + b.txs
  {
  }

  /**
    What to reinject when the head moves: nothing if the new head is the old one's child or the heights are too far
    apart, else exactly the transactions the old branch has and the new one has not.
   */
  method Reinjected(stored: set<Block>, oldHead: Block, newHead: Block) returns (r: Reinjection)
    requires Numbered(stored)
    ensures newHead.parent == Of(oldHead) || oldHead.number > newHead.number + 64 || newHead.number > oldHead.number + 64 ==>
        r == Reinject([])
    ensures newHead.parent != Of(oldHead) && oldHead.number <= newHead.number + 64 && newHead.number <= oldHead.number + 64 ==>
      match r
      case Reinject(txs) =>
        && oldHead in stored && newHead in stored && (exists c :: Common(stored, oldHead, newHead, c))
        && forall t :: t in txs <==> Abandoned(stored, oldHead, newHead, t)
      case Unrooted => oldHead in stored && newHead in stored && forall c :: !Common(stored, oldHead, newHead, c)
      case MissingHead => oldHead !in stored || newHead !in stored
  {
    hide Common, HighestCommon, Abandoned;
    if newHead.parent == Of(oldHead) || Distance(oldHead.number, newHead.number) > MAX_REORG_DEPTH {
      return Reinject([]);
    }
    if oldHead !in stored || newHead !in stored {
      return MissingHead;
    }
    var rem, add := oldHead, newHead;
    var discarded, included: seq<Tx> := [], [];
    ghost var oldChain, newChain: seq<Block> := [], [];
    while rem.number > add.number
      invariant add == newHead && SameCommon(stored, oldHead, newHead, rem, add)
      invariant Path(stored, oldHead, oldChain, rem) && discarded == TxsIn(oldChain)
      decreases rem.number
    {
      SearchGoesOn(stored, oldHead, newHead, rem, add);
      discarded := discarded + rem.txs;
      var parent := Lookup(stored, rem.parent, Pred(rem.number));
      if parent.None? {
        return Unrooted;
      }
      PathGrows(stored, oldHead, oldChain, rem);
      TxsGrow(oldChain, rem);
      oldChain := oldChain + [rem];
      rem := parent.value;
    }
    while add.number > rem.number
      invariant SameCommon(stored, oldHead, newHead, rem, add)
      invariant Path(stored, oldHead, oldChain, rem) && discarded == TxsIn(oldChain)
      invariant Path(stored, newHead, newChain, add) && included == TxsIn(newChain)
      invariant add.number >= rem.number
      decreases add.number
    {
      SearchGoesOn(stored, oldHead, newHead, rem, add);
      included := included + add.txs;
      var parent := Lookup(stored, add.parent, Pred(add.number));
      if parent.None? {
        return Unrooted;
      }
      PathGrows(stored, newHead, newChain, add);
      TxsGrow(newChain, add);
      newChain := newChain + [add];
      add := parent.value;
    }
    while rem != add
      invariant rem.number == add.number && SameCommon(stored, oldHead, newHead, rem, add)
      invariant Path(stored, oldHead, oldChain, rem) && discarded == TxsIn(oldChain)
      invariant Path(stored, newHead, newChain, add) && included == TxsIn(newChain)
      decreases rem.number
    {
      SearchGoesOn(stored, oldHead, newHead, rem, add);
      discarded := discarded + rem.txs;
      var parentRem := Lookup(stored, rem.parent, Pred(rem.number));
      if parentRem.None? {
        return Unrooted;
      }
      included := included + add.txs;
      var parentAdd := Lookup(stored, add.parent, Pred(add.number));
      if parentAdd.None? {
        return Unrooted;
      }
      PathGrows(stored, oldHead, oldChain, rem);
      PathGrows(stored, newHead, newChain, add);
      TxsGrow(oldChain, rem);
      TxsGrow(newChain, add);
      oldChain, newChain := oldChain + [rem], newChain + [add];
      rem, add := parentRem.value, parentAdd.value;
    }
    SearchGoesOn(stored, oldHead, newHead, rem, add);
    var txs := TxDifference(discarded, included);
    CommonExists(stored, oldHead, newHead, rem);
    forall t
      ensures t in txs <==> Abandoned(stored, oldHead, newHead, t)
    {
      DifferenceIsAbandoned(stored, oldHead, newHead, rem, oldChain, newChain, t);
    }
    return Reinject(txs);
  }

  lemma CommonExists(stored: set<Block>, a: Block, b: Block, c: Block)
    requires HighestCommon(stored, a, b, c)
    ensures exists d :: Common(stored, a, b, d)
  {
  }
}
