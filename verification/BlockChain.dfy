/** Fork choice among full blocks: rewriting the canonical numbers and the transaction lookup index. */
module BlockChains {
  import opened Types
  import opened Seqs
  import opened Blocks
  import opened Ancestry

  /** Where a transaction was included. */
  datatype Entry = Entry(hash: BlockHash, number: nat, index: nat)

  datatype WriteStatus = UnknownAncestor | Crashed | Side | Canon

  /** The number index holds the block and all its ancestors at their numbers; above it may hold anything. */
  ghost predicate Indexes(canonical: map<nat, BlockHash>, stored: set<Block>, head: Block) {
    forall b | Reaches(stored, head, b) :: b.number in canonical && canonical[b.number] == Of(b)
  }

  /** Whatever is indexed is a stored block of that number. */
  ghost predicate IndexStored(canonical: map<nat, BlockHash>, stored: set<Block>) {
    forall n | n in canonical :: canonical[n].Of? && canonical[n].block in stored && canonical[n].block.number == n
  }

  ghost predicate Located(lookup: map<Hash, Entry>, b: Block) {
    forall i | 0 <= i < |b.txs| :: b.txs[i].Hash() in lookup && lookup[b.txs[i].Hash()] == Entry(Of(b), b.number, i)
  }

  /** Every transaction of the chain looks up to its block and position. */
  ghost predicate AllLocated(lookup: map<Hash, Entry>, stored: set<Block>, head: Block) {
    forall b | Reaches(stored, head, b) :: Located(lookup, b)
  }

  ghost predicate OnChain(stored: set<Block>, head: Block, t: Tx) {
    exists b :: Reaches(stored, head, b) && t in b.txs
  }

  /** The lookup index holds exactly the chain's transactions, each at its place. */
  ghost predicate LookupExact(lookup: map<Hash, Entry>, stored: set<Block>, head: Block) {
    && AllLocated(lookup, stored, head)
    && forall h | h in lookup :: OnChain(stored, head, h.tx)
  }

  ghost predicate NoneShared(b: Block, c: Block) {
    forall t | t in b.txs :: t !in c.txs
  }

  /** No transaction occurs twice on the chain. */
  ghost predicate TxsOnce(stored: set<Block>, head: Block) {
    && (forall b | Reaches(stored, head, b) :: Distinct(b.txs))
    && forall b, c | Reaches(stored, head, b) && Reaches(stored, head, c) && b != c :: NoneShared(b, c)
  }

  ghost predicate Heaviest(stored: set<Block>, head: Block) {
    forall b | b in stored :: TotalDifficulty(b) <= TotalDifficulty(head)
  }

  /** No stored block as heavy as the head is lower. */
  ghost predicate LowestHeavy(stored: set<Block>, head: Block) {
    forall b | b in stored && TotalDifficulty(b) == TotalDifficulty(head) :: b.number >= head.number
  }

  /** The heavier block wins; among equally heavy ones the lower, and at one height the coin decides. */
  predicate Preferred(block: Block, head: Block, coin: bool) {
    TotalDifficulty(block) > TotalDifficulty(head)
    || (TotalDifficulty(block) == TotalDifficulty(head)
        && (block.number < head.number || (block.number == head.number && coin)))
  }

  lemma IndexStep(canonical: map<nat, BlockHash>, stored: set<Block>, x: Block, y: Block)
    requires Indexes(canonical, stored, x) && Up(stored, y) == Some(x)
    ensures Indexes(canonical[y.number := Of(y)], stored, y)
  {
    forall b | Reaches(stored, y, b)
      ensures b == y || (Reaches(stored, x, b) && b.number < y.number)
    {
      if b != y {
        ReachesDown(stored, x, b);
      }
    }
  }

  lemma IndexBelow(canonical: map<nat, BlockHash>, stored: set<Block>, x: Block, y: Block)
    requires Indexes(canonical, stored, x) && Reaches(stored, x, y)
    ensures Indexes(canonical, stored, y)
  {
  }

  lemma LocatedBelow(lookup: map<Hash, Entry>, stored: set<Block>, x: Block, y: Block)
    requires AllLocated(lookup, stored, x) && Reaches(stored, x, y)
    ensures AllLocated(lookup, stored, y)
  {
  }

  lemma OnceBelow(stored: set<Block>, x: Block, y: Block)
    requires TxsOnce(stored, x) && Reaches(stored, x, y)
    ensures TxsOnce(stored, y)
  {
  }

  /** The lookup index with the block's entries written and all others untouched. */
  ghost predicate EntriesWritten(was: map<Hash, Entry>, now: map<Hash, Entry>, block: Block) {
    && Located(now, block)
    && (forall h :: h in now <==> h in was || h.tx in block.txs)
    && forall h | h in was && h.tx !in block.txs :: now[h] == was[h]
  }

  /** Writing a block's entries on top of its chain's locates that chain. */
  lemma LocateStep(was: map<Hash, Entry>, now: map<Hash, Entry>, stored: set<Block>, x: Block, y: Block)
    requires AllLocated(was, stored, x) && Up(stored, y) == Some(x) && TxsOnce(stored, y) && EntriesWritten(was, now, y)
    ensures AllLocated(now, stored, y)
  {
    forall b | Reaches(stored, y, b)
      ensures Located(now, b)
    {
      if b != y {
        assert Reaches(stored, x, b) && Located(was, b);
        assert NoneShared(b, y);
        forall i | 0 <= i < |b.txs|
          ensures b.txs[i].Hash() in now && now[b.txs[i].Hash()] == Entry(Of(b), b.number, i)
        {
          assert b.txs[i] in b.txs;
        }
      }
    }
  }

  /** After deleting what the old branch alone had, the index is exactly the new chain's. */
  lemma DeletedExactly(was: map<Hash, Entry>, now: map<Hash, Entry>, stored: set<Block>, oldHead: Block,
                       newHead: Block, c: Block,
                       oldChain: seq<Block>, newChain: seq<Block>, diff: seq<Tx>)
    requires HighestCommon(stored, oldHead, newHead, c) && Path(stored, oldHead, oldChain, c)
        && Path(stored, newHead, newChain, c)
    requires TxsOnce(stored, oldHead) && AllLocated(was, stored, newHead)
    requires forall h | h in was :: OnChain(stored, oldHead, h.tx) || OnChain(stored, newHead, h.tx)
    requires forall t :: t in diff <==> t in TxsIn(oldChain) && t !in TxsIn(newChain)
    requires now == map h | h in was && h.tx !in diff :: was[h]
    ensures LookupExact(now, stored, newHead)
  {
    forall b | Reaches(stored, newHead, b)
      ensures Located(now, b)
    {
      assert Located(was, b);
      forall t | t in b.txs
        ensures t !in diff
      {
        KeptOnNew(stored, oldHead, newHead, c, oldChain, newChain, b, t);
      }
    }
    forall h | h in now
      ensures OnChain(stored, newHead, h.tx)
    {
      KeptIsOnNew(stored, oldHead, newHead, c, oldChain, newChain, h.tx);
    }
  }

  /** A transaction of the new chain is not among those the old branch alone had. */
  lemma KeptOnNew(stored: set<Block>, oldHead: Block, newHead: Block, c: Block, oldChain: seq<Block>,
                  newChain: seq<Block>, b: Block, t: Tx)
    requires HighestCommon(stored, oldHead, newHead, c) && Path(stored, oldHead, oldChain, c)
        && Path(stored, newHead, newChain, c)
    requires TxsOnce(stored, oldHead) && Reaches(stored, newHead, b) && t in b.txs
    ensures t in TxsIn(newChain) || t !in TxsIn(oldChain)
  {
    InSomeBlock(newChain, t);
    InSomeBlock(oldChain, t);
    BranchesDiffer(stored, oldHead, newHead, c, oldChain, newChain, b);
    if b !in newChain {
      forall d | d in oldChain
        ensures t !in d.txs
      {
        BranchesDiffer(stored, oldHead, newHead, c, oldChain, newChain, d);
        assert NoneShared(b, d);
      }
    }
  }

  lemma KeptIsOnNew(stored: set<Block>, oldHead: Block, newHead: Block, c: Block, oldChain: seq<Block>,
                    newChain: seq<Block>, t: Tx)
    requires HighestCommon(stored, oldHead, newHead, c) && Path(stored, oldHead, oldChain, c)
        && Path(stored, newHead, newChain, c)
    requires OnChain(stored, oldHead, t) || OnChain(stored, newHead, t)
    requires t !in TxsIn(oldChain) || t in TxsIn(newChain)
    ensures OnChain(stored, newHead, t)
  {
    InSomeBlock(oldChain, t);
    InSomeBlock(newChain, t);
    if t in TxsIn(newChain) {
      var b :| b in newChain && t in b.txs;
      BranchesDiffer(stored, oldHead, newHead, c, oldChain, newChain, b);
    } else if !OnChain(stored, newHead, t) {
      var b :| Reaches(stored, oldHead, b) && t in b.txs;
      BranchesDiffer(stored, oldHead, newHead, c, oldChain, newChain, b);
    }
  }

  /** Going up from a block never depends on a block that nothing stored builds on. */
  lemma {:induction false} StoreFrame(stored: set<Block>, added: Block, genesis: Block, b: Block, a: Block)
    requires Closed(stored, genesis) && Follows(added) && added.parent.block in stored
    requires b in stored || b == added
    ensures Up(stored + {added}, b) == Up(stored, b) && (Up(stored, b).Some? ==> Up(stored, b).value in stored)
    ensures Reaches(stored + {added}, b, a) <==> Reaches(stored, b, a)
    decreases b.number
  {
    if Up(stored, b).Some? {
      StoreFrame(stored, added, genesis, Up(stored, b).value, a);
    }
  }

  /** What holds of a chain still holds once another block is stored. */
  lemma ChainFrame(stored: set<Block>, added: Block, genesis: Block, head: Block, canonical: map<nat, BlockHash>,
                   lookup: map<Hash, Entry>)
    requires Closed(stored, genesis) && Follows(added) && added.parent.block in stored
    requires head in stored || head == added
    ensures Closed(stored + {added}, genesis)
    ensures Numbered(stored) && added.number < MAX_UINT64 ==> Numbered(stored + {added})
    ensures Indexes(canonical, stored, head) ==> Indexes(canonical, stored + {added}, head)
    ensures TxsOnce(stored, head) ==> TxsOnce(stored + {added}, head)
    ensures LookupExact(lookup, stored, head) ==> LookupExact(lookup, stored + {added}, head)
  {
    forall b
      ensures Reaches(stored + {added}, head, b) <==> Reaches(stored, head, b)
    {
      StoreFrame(stored, added, genesis, head, b);
    }
    if LookupExact(lookup, stored, head) {
      forall h | h in lookup
        ensures OnChain(stored + {added}, head, h.tx)
      {
        var b :| Reaches(stored, head, b) && h.tx in b.txs;
        assert Reaches(stored + {added}, head, b);
      }
    }
  }

  lemma PathEnds(stored: set<Block>, x: Block, chain: seq<Block>, y: Block)
    requires Path(stored, x, chain, y)
    ensures chain == [] ==> x == y
    ensures chain != [] ==> x.number > y.number && chain[0] == x
  {
  }

  /** Below its top a branch has lower numbers. */
  lemma {:induction false} PathDescends(stored: set<Block>, x: Block, chain: seq<Block>, y: Block, i: nat)
    requires Path(stored, x, chain, y) && i < |chain|
    ensures chain[i].number == x.number - i
    decreases i
  {
    if i > 0 {
      PathDescends(stored, Up(stored, x).value, chain[1..], y, i - 1);
    }
  }

  lemma OnceDistinctTop(stored: set<Block>, y: Block)
    requires TxsOnce(stored, y)
    ensures Distinct(y.txs)
  {
  }

  lemma WrittenOnChain(was: map<Hash, Entry>, now: map<Hash, Entry>, stored: set<Block>, x: Block, y: Block)
    requires EntriesWritten(was, now, y) && Up(stored, y) == Some(x)
    ensures forall h | h in now :: h in was || OnChain(stored, y, h.tx)
    ensures forall h | h in was && OnChain(stored, x, h.tx) :: OnChain(stored, y, h.tx)
  {
  }

  lemma HighestReached(stored: set<Block>, a: Block, b: Block, c: Block)
    requires HighestCommon(stored, a, b, c)
    ensures Reaches(stored, a, c) && Reaches(stored, b, c)
  {
  }

  /** If the new branch is empty the new head already has its number. */
  lemma NewHeadOnOld(canonical: map<nat, BlockHash>, stored: set<Block>, oldHead: Block, newHead: Block,
                     newChain: seq<Block>, c: Block)
    requires Indexes(canonical, stored, oldHead) && Reaches(stored, oldHead, c) && Path(stored, newHead, newChain, c)
    ensures newChain == [] ==> newHead.number in canonical && canonical[newHead.number] == Of(newHead)
  {
  }

  lemma SameHeadNoBranch(stored: set<Block>, a: Block, chain: seq<Block>, c: Block)
    requires HighestCommon(stored, a, a, c) && Path(stored, a, chain, c)
    ensures chain == []
  {
    assert Common(stored, a, a, a);
    ReachesDown(stored, c, a);
    PathHolds(stored, a, chain, c, a);
  }

  /** At every height up to a stored block's there is a block it reaches. */
  lemma {:induction false} ReachedAt(stored: set<Block>, genesis: Block, b: Block, n: nat) returns (a: Block)
    requires Closed(stored, genesis) && b in stored && n <= b.number
    ensures Reaches(stored, b, a) && a.number == n
    decreases b.number
  {
    if n == b.number {
      a := b;
    } else {
      a := ReachedAt(stored, genesis, b.parent.block, n);
    }
  }

  lemma {:induction false} HeavierThanAncestors(stored: set<Block>, genesis: Block, b: Block, a: Block)
    requires Closed(stored, genesis) && b in stored && Reaches(stored, b, a)
    requires forall x | x in stored && x != genesis :: x.difficulty > 0
    ensures a == b || TotalDifficulty(a) < TotalDifficulty(b)
    decreases b.number
  {
    if a != b {
      HeavierThanAncestors(stored, genesis, b.parent.block, a);
    }
  }

  /** With positive difficulties a preferred block cannot already have its number, unless it is the head. */
  lemma PreferredIsNew(canonical: map<nat, BlockHash>, stored: set<Block>, genesis: Block, head: Block, block: Block,
                       coin: bool)
    requires Closed(stored, genesis) && head in stored && Heaviest(stored, head) && Preferred(block, head, coin)
    requires Indexes(canonical, stored, head) && IndexStored(canonical, stored)
    ensures (forall x | x in stored && x != genesis :: x.difficulty > 0)
            && block.number in canonical && canonical[block.number] == Of(block)
            ==> block == head
  {
    if (forall x | x in stored && x != genesis :: x.difficulty > 0)
       && block.number in canonical && canonical[block.number] == Of(block) {
      assert TotalDifficulty(block) <= TotalDifficulty(head);
      var a := ReachedAt(stored, genesis, head, block.number);
      HeavierThanAncestors(stored, genesis, head, a);
    }
  }

  lemma {:induction false} ReachedStored(stored: set<Block>, b: Block, a: Block)
    requires Reaches(stored, b, a)
    ensures a == b || a in stored
    decreases b.number
  {
    if a != b {
      ReachedStored(stored, Up(stored, b).value, a);
    }
  }

  lemma NewIndexStored(was: map<nat, BlockHash>, now: map<nat, BlockHash>, stored: set<Block>, block: Block)
    requires IndexStored(was, stored)
    requires forall n | n in now :: (n in was && now[n] == was[n])
                                    || (now[n].Of? && Reaches(stored, block, now[n].block) && now[n].block.number == n)
    ensures IndexStored(now, stored + {block})
  {
    forall n | n in now
      ensures now[n].Of? && now[n].block in stored + {block} && now[n].block.number == n
    {
      if n !in was || now[n] != was[n] {
        ReachedStored(stored, block, now[n].block);
      }
    }
  }

  lemma NewNumbersBelow(was: map<nat, BlockHash>, now: map<nat, BlockHash>, stored: set<Block>, block: Block)
    requires forall n | n in now :: (n in was && now[n] == was[n])
                                    || (now[n].Of? && Reaches(stored, block, now[n].block) && now[n].block.number == n)
    ensures forall n | n in now :: n in was || n <= block.number
  {
    forall n | n in now && n !in was
      ensures n <= block.number
    {
      ReachesDown(stored, block, now[n].block);
    }
  }

  lemma MoreIndexStored(canonical: map<nat, BlockHash>, stored: set<Block>, block: Block)
    requires IndexStored(canonical, stored)
    ensures IndexStored(canonical, stored + {block})
  {
  }

  lemma ParentAdds(block: Block)
    ensures block.parent.Of? ==> TotalDifficulty(block) == block.difficulty + TotalDifficulty(block.parent.block)
  {
  }

  lemma StillHeaviest(stored: set<Block>, head: Block, block: Block, now: Block, coin: bool)
    requires Heaviest(stored, head) && LowestHeavy(stored, head)
    requires now == if Preferred(block, head, coin) then block else head
    ensures Heaviest(stored + {block}, now) && LowestHeavy(stored + {block}, now)
  {
    hide TotalDifficulty;
  }

  /** Which head a chain has is told by the blocks it stores, in whatever order they came, unless the coin had a say. */
  lemma OrderIsForgotten(stored: set<Block>, head: Block, other: Block)
    requires head in stored && Heaviest(stored, head) && LowestHeavy(stored, head)
    requires other in stored && Heaviest(stored, other) && LowestHeavy(stored, other)
    ensures TotalDifficulty(head) == TotalDifficulty(other) && head.number == other.number
    ensures (forall b, c | b in stored && c in stored && b.number == c.number ::
               TotalDifficulty(b) == TotalDifficulty(c) ==> b == c) ==> head == other
  {
    hide TotalDifficulty;
  }

  // ---------------------------------------------------------------------------------------------
  // Runs of blocks

  /** The blocks a chain stores, and its head. */
  datatype Branch = Branch(blocks: set<Block>, head: Block)

  /**
    A block whose parent is not stored is not taken. Another one is stored, and becomes the head if it is heavier than
    the head, or as heavy and lower, or as heavy and as high and the coin says so.
   */
  ghost predicate Wrote(c: Branch, d: Branch, block: Block, coin: bool) {
    if block.parent.Of? && block.parent.block in c.blocks then
      var td, local := TotalDifficulty(block), TotalDifficulty(c.head);
      && d.blocks == c.blocks + {block}
      && (td > local ==> d.head == block) && (td < local ==> d.head == c.head)
      && (td == local && block.number < c.head.number ==> d.head == block)
      && (td == local && block.number > c.head.number ==> d.head == c.head)
      && (td == local && block.number == c.head.number ==> d.head == if coin then block else c.head)
    else d == c
  }

  lemma WroteEither(c: Branch, d: Branch, block: Block, coin: bool)
    ensures !(block.parent.Of? && block.parent.block in c.blocks) && d == c ==> Wrote(c, d, block, coin)
    ensures block.parent.Of? && block.parent.block in c.blocks
            && d == Branch(c.blocks + {block}, if Preferred(block, c.head, coin) then block else c.head) ==>
      Wrote(c, d, block, coin)
  {
    hide TotalDifficulty;
  }

  /** A chain before and after each of the blocks written. */
  ghost predicate Trail(trail: seq<Branch>, written: seq<Block>, coins: seq<bool>)
    requires |coins| == |written|
  {
    |trail| == |written| + 1 && forall i | 0 <= i < |written| :: Wrote(trail[i], trail[i + 1], written[i], coins[i])
  }

  /** Blocks are never lost, a block whose parent is there when it is written is there from then on, and no others. */
  lemma {:induction false} TrailStores(trail: seq<Branch>, written: seq<Block>, coins: seq<bool>, i: nat, j: nat)
    requires |coins| == |written| && Trail(trail, written, coins) && i <= j <= |written|
    ensures trail[i].blocks <= trail[j].blocks
    ensures i < j && written[i].parent.Of? && written[i].parent.block in trail[i].blocks ==> written[i] in trail[j].blocks
    ensures forall b | b in trail[j].blocks && b !in trail[i].blocks :: b in written[i..j]
    decreases j - i
  {
    hide TotalDifficulty;
    if i < j {
      TrailStores(trail, written, coins, i, j - 1);
      assert Wrote(trail[j - 1], trail[j], written[j - 1], coins[j - 1]);
      assert written[i..j] == written[i..j - 1] + [written[j - 1]];
      if i < j - 1 {
        assert Wrote(trail[i], trail[i + 1], written[i], coins[i]);
      }
    }
  }

  /** Blocks that come after their parents are all stored. */
  lemma {:induction false} InOrderStored(trail: seq<Branch>, written: seq<Block>, coins: seq<bool>, i: nat, n: nat)
    requires |coins| == |written| && Trail(trail, written, coins) && i < n <= |written|
    requires forall j | 0 <= j < |written| ::
      written[j].parent.Of? && (written[j].parent.block in trail[0].blocks || written[j].parent.block in written[..j])
    ensures written[i] in trail[n].blocks
    decreases i
  {
    hide Wrote;
    var parent := written[i].parent.block;
    if parent in trail[0].blocks {
      TrailStores(trail, written, coins, 0, i);
    } else {
      var j :| 0 <= j < i && written[j] == parent;
      InOrderStored(trail, written, coins, j, i);
    }
    TrailStores(trail, written, coins, i, n);
  }

  lemma TrailStarts(c: Branch)
    ensures Trail([c], [], [])
  {
  }

  lemma TrailNext(trail: seq<Branch>, written: seq<Block>, coins: seq<bool>, i: nat, d: Branch)
    requires |coins| == |written| && i < |written| && Trail(trail, written[..i], coins[..i])
    requires Wrote(trail[i], d, written[i], coins[i])
    ensures Trail(trail + [d], written[..i + 1], coins[..i + 1])
  {
    hide Wrote;
    var more := trail + [d];
    forall k | 0 <= k < i + 1
      ensures Wrote(more[k], more[k + 1], written[..i + 1][k], coins[..i + 1][k])
    {
      if k < i {
        assert Wrote(trail[k], trail[k + 1], written[..i][k], coins[..i][k]);
      }
    }
  }

  lemma {:induction false} ReachesIsAncestor(stored: set<Block>, b: Block, a: Block)
    requires Reaches(stored, b, a)
    ensures IsAncestor(a, b)
    decreases b.number
  {
    if a != b {
      ReachesIsAncestor(stored, Up(stored, b).value, a);
    }
  }

  /** No transaction occurs twice among the block and all its ancestors, stored or not. */
  ghost predicate Clean(head: Block) {
    && (forall b | IsAncestor(b, head) :: Distinct(b.txs))
    && forall b, c | IsAncestor(b, head) && IsAncestor(c, head) && b != c :: NoneShared(b, c)
  }

  lemma CleanOnce(stored: set<Block>, head: Block)
    requires Clean(head)
    ensures TxsOnce(stored, head)
  {
    forall b | Reaches(stored, head, b)
      ensures IsAncestor(b, head)
    {
      ReachesIsAncestor(stored, head, b);
    }
  }

  /** Looking a transaction up finds it, at the recorded place of a canonical block, exactly if the chain holds it. */
  lemma LookupFinds(lookup: map<Hash, Entry>, canonical: map<nat, BlockHash>, stored: set<Block>, head: Block, t: Tx)
    requires LookupExact(lookup, stored, head) && Indexes(canonical, stored, head)
    ensures t.Hash() in lookup <==> OnChain(stored, head, t)
    ensures t.Hash() in lookup ==>
      var e := lookup[t.Hash()];
      && e.hash.Of? && Reaches(stored, head, e.hash.block) && e.number in canonical && canonical[e.number] == e.hash
      && e.index < |e.hash.block.txs| && e.hash.block.txs[e.index] == t
  {
  }

  lemma GenesisCommon(stored: set<Block>, a: Block, b: Block, genesis: Block)
    requires Reaches(stored, a, genesis) && Reaches(stored, b, genesis)
    ensures exists c :: Common(stored, a, b, c)
  {
    assert Common(stored, a, b, genesis);
  }

  lemma SelfReached(stored: set<Block>, b: Block)
    ensures Reaches(stored, b, b)
  {
  }

  lemma LookupIsLocated(lookup: map<Hash, Entry>, stored: set<Block>, head: Block)
    requires LookupExact(lookup, stored, head)
    ensures AllLocated(lookup, stored, head) && Located(lookup, head)
    ensures forall h | h in lookup :: OnChain(stored, head, h.tx)
  {
  }

  lemma AgainLocated(canonical: map<nat, BlockHash>, stored: set<Block>, head: Block)
    requires Indexes(canonical, stored, head)
    ensures canonical[head.number := Of(head)] == canonical
  {
  }

  /** Writing the head's entries once more changes nothing. */
  lemma RewrittenExact(was: map<Hash, Entry>, now: map<Hash, Entry>, stored: set<Block>, head: Block)
    requires LookupExact(was, stored, head) && EntriesWritten(was, now, head)
    ensures LookupExact(now, stored, head)
  {
    SelfReached(stored, head);
    assert Located(was, head);
    forall t | t in head.txs
      ensures t.Hash() in was
    {
      var i :| 0 <= i < |head.txs| && head.txs[i] == t;
    }
    forall h | h in was
      ensures now[h] == was[h]
    {
      if h.tx in head.txs {
        var i :| 0 <= i < |head.txs| && head.txs[i] == h.tx;
        assert now[head.txs[i].Hash()] == was[head.txs[i].Hash()];
      }
    }
    assert now == was;
  }

  class BlockChain {
    const genesis: Block

    /** Whether every state is flushed at once; otherwise old ones are collected,
        for which the parent's number is looked up. */
    const archive: bool

    var blocks: set<Block>
    var tds: map<Block, nat>
    var canonical: map<nat, BlockHash>
    var lookup: map<Hash, Entry>
    var currentBlock: Block
    var headBlockHash: BlockHash

    /** The heads that headers and fast sync go by. */
    var currentHeader: Block
    var currentFastBlock: Block

    /** Both indexes are the head's. */
    ghost predicate Indexed()
      reads this`blocks, this`canonical, this`lookup, this`currentBlock, this`headBlockHash
    {
      && Closed(blocks, genesis) && Numbered(blocks) && currentBlock in blocks
      && Indexes(canonical, blocks, currentBlock) && IndexStored(canonical, blocks)
      && TxsOnce(blocks, currentBlock) && LookupExact(lookup, blocks, currentBlock)
      && headBlockHash == Of(currentBlock)
    }

    /** Moreover difficulties are recorded and the head is the lowest of the heaviest blocks. */
    ghost predicate Valid()
      reads this`blocks, this`canonical, this`lookup, this`currentBlock, this`headBlockHash, this`tds
    {
      && Indexed()
      && tds.Keys == blocks && (forall b | b in blocks :: tds[b] == TotalDifficulty(b))
      && Heaviest(blocks, currentBlock) && LowestHeavy(blocks, currentBlock)
    }

    ghost function Now(): Branch
      reads this`blocks, this`currentBlock
    {
      Branch(blocks, currentBlock)
    }

    constructor (genesis: Block, archive: bool)
      requires genesis.number == 0 && genesis.parent == NoHash && Distinct(genesis.txs)
      ensures Valid() && InStep() && currentBlock == genesis && blocks == {genesis} && canonical == map[0 := Of(genesis)]
      ensures this.genesis == genesis && this.archive == archive
    {
      this.genesis, this.archive := genesis, archive;
      blocks, tds, canonical := {genesis}, map[genesis := genesis.difficulty], map[0 := Of(genesis)];
      currentBlock, headBlockHash, currentHeader, currentFastBlock := genesis, Of(genesis), genesis, genesis;
      lookup := map[];
      new;
      assert forall b :: Reaches(blocks, genesis, b) <==> b == genesis;
      WriteTxLookupEntries(genesis);
    }

    /** Makes a block the head; the header heads follow unless its number already was assigned to it. */
    method Insert(block: Block)
      modifies this`canonical, this`currentBlock, this`headBlockHash, this`currentHeader, this`currentFastBlock
      ensures canonical == old(canonical)[block.number := Of(block)]
      ensures currentBlock == block && headBlockHash == Of(block)
      ensures if block.number in old(canonical) && old(canonical)[block.number] == Of(block)
              then currentHeader == old(currentHeader) && currentFastBlock == old(currentFastBlock)
              else currentHeader == currentFastBlock == block
    {
      var updateHeads := block.number !in canonical || canonical[block.number] != Of(block);
      canonical := canonical[block.number := Of(block)];
      headBlockHash := Of(block);
      currentBlock := block;
      if updateHeads {
        currentHeader := block;
        currentFastBlock := block;
      }
    }

    method WriteTxLookupEntries(block: Block)
      requires Distinct(block.txs)
      modifies this`lookup
      ensures EntriesWritten(old(lookup), lookup, block)
    {
      for i := 0 to |block.txs|
        invariant forall h :: h in lookup <==> h in old(lookup) || h.tx in block.txs[..i]
        invariant forall h | h in old(lookup) && h.tx !in block.txs[..i] :: lookup[h] == old(lookup)[h]
        invariant forall j | 0 <= j < i :: block.txs[j].Hash() in lookup
                                          && lookup[block.txs[j].Hash()] == Entry(Of(block), block.number, j)
      {
        assert block.txs[..i + 1] == block.txs[..i] + [block.txs[i]];
        lookup := lookup[block.txs[i].Hash() := Entry(Of(block), block.number, i)];
      }
      assert block.txs[..|block.txs|] == block.txs;
    }

    /** Collects the two branches above the highest common ancestor, level first and then in step. */
    method Branches(oldHead: Block, newHead: Block) returns (r: Option<(seq<Block>, seq<Block>)>, ghost c: Block)
      requires Numbered(blocks)
      ensures r.Some? ==> HighestCommon(blocks, oldHead, newHead, c)
                          && Path(blocks, oldHead, r.value.0, c) && Path(blocks, newHead, r.value.1, c)
      ensures r.None? ==> forall d :: !Common(blocks, oldHead, newHead, d)
    {
      hide Common, HighestCommon;
      var oldBlock, newBlock := oldHead, newHead;
      var oldChain: seq<Block>, newChain: seq<Block> := [], [];
      c := oldHead;
      if oldBlock.number > newBlock.number {
        while oldBlock.number != newBlock.number
          invariant newBlock == newHead && SameCommon(blocks, oldHead, newHead, oldBlock, newBlock)
          invariant oldBlock.number >= newBlock.number && Path(blocks, oldHead, oldChain, oldBlock)
          decreases oldBlock.number
        {
          SearchGoesOn(blocks, oldHead, newHead, oldBlock, newBlock);
          var parent := Lookup(blocks, oldBlock.parent, Pred(oldBlock.number));
          if parent.None? {
            return None, c;
          }
          PathGrows(blocks, oldHead, oldChain, oldBlock);
          oldChain := oldChain + [oldBlock];
          oldBlock := parent.value;
        }
      } else {
        while newBlock.number != oldBlock.number
          invariant oldBlock == oldHead && SameCommon(blocks, oldHead, newHead, oldBlock, newBlock)
          invariant newBlock.number >= oldBlock.number && Path(blocks, newHead, newChain, newBlock)
          decreases newBlock.number
        {
          SearchGoesOn(blocks, oldHead, newHead, oldBlock, newBlock);
          var parent := Lookup(blocks, newBlock.parent, Pred(newBlock.number));
          if parent.None? {
            return None, c;
          }
          PathGrows(blocks, newHead, newChain, newBlock);
          newChain := newChain + [newBlock];
          newBlock := parent.value;
        }
      }
      while oldBlock != newBlock
        invariant oldBlock.number == newBlock.number && SameCommon(blocks, oldHead, newHead, oldBlock, newBlock)
        invariant Path(blocks, oldHead, oldChain, oldBlock) && Path(blocks, newHead, newChain, newBlock)
        decreases oldBlock.number
      {
        SearchGoesOn(blocks, oldHead, newHead, oldBlock, newBlock);
        var oldParent := Lookup(blocks, oldBlock.parent, Pred(oldBlock.number));
        var newParent := Lookup(blocks, newBlock.parent, Pred(newBlock.number));
        if oldParent.None? || newParent.None? {
          return None, c;
        }
        PathGrows(blocks, oldHead, oldChain, oldBlock);
        PathGrows(blocks, newHead, newChain, newBlock);
        oldChain, newChain := oldChain + [oldBlock], newChain + [newBlock];
        oldBlock, newBlock := oldParent.value, newParent.value;
      }
      SearchGoesOn(blocks, oldHead, newHead, oldBlock, newBlock);
      c := oldBlock;
      return Some((oldChain, newChain)), c;
    }

    /** Makes the new branch canonical from its lowest block up, and returns its transactions. */
    method Adopt(newChain: seq<Block>, ghost newHead: Block, ghost c: Block) returns (added: seq<Tx>)
      requires Path(blocks, newHead, newChain, c) && TxsOnce(blocks, newHead)
      requires Indexes(canonical, blocks, c) && AllLocated(lookup, blocks, c)
      modifies this`canonical, this`lookup, this`currentBlock, this`headBlockHash, this`currentHeader,
          this`currentFastBlock
      ensures Indexes(canonical, blocks, newHead) && AllLocated(lookup, blocks, newHead)
      ensures forall n | n in canonical :: (n in old(canonical) && canonical[n] == old(canonical)[n])
                                           || (canonical[n].Of? && canonical[n].block in newChain
                                               && canonical[n].block.number == n)
      ensures forall h | h in lookup :: h in old(lookup) || OnChain(blocks, newHead, h.tx)
      ensures forall t :: t in added <==> t in TxsIn(newChain)
      ensures newChain == [] ==> currentHeader == old(currentHeader) && currentFastBlock == old(currentFastBlock)
      ensures newChain != [] && (newHead.number !in old(canonical) || old(canonical)[newHead.number] != Of(newHead)) ==>
        currentHeader == currentFastBlock == newHead
    {
      hide Indexes, AllLocated, TxsOnce, Located, OnChain, EntriesWritten, Path, Reaches, TxsIn;
      added := [];
      var i := |newChain|;
      ghost var x := c;
      PathEnds(blocks, newHead, newChain, c);
      while i > 0
        invariant 0 <= i <= |newChain| && x == if i < |newChain| then newChain[i] else c
        invariant Indexes(canonical, blocks, x) && AllLocated(lookup, blocks, x)
        invariant forall n | n in canonical :: (n in old(canonical) && canonical[n] == old(canonical)[n])
                                               || (canonical[n].Of? && canonical[n].block in newChain
                                                   && canonical[n].block.number == n)
        invariant forall h | h in lookup :: h in old(lookup) || OnChain(blocks, x, h.tx)
        invariant forall t :: t in added <==> exists j | i <= j < |newChain| :: t in newChain[j].txs
        invariant i == |newChain| ==> currentHeader == old(currentHeader) && currentFastBlock == old(currentFastBlock)
        invariant i > 0 ==> newHead.number > x.number && (newHead.number in canonical <==> newHead.number in old(canonical))
        invariant i > 0 && newHead.number in canonical ==> canonical[newHead.number] == old(canonical)[newHead.number]
        invariant i == 0 && newChain != [] && (newHead.number !in old(canonical) || old(canonical)[newHead.number] != Of(newHead)) ==>
          currentHeader == currentFastBlock == newHead
      {
        i := i - 1;
        var y := newChain[i];
        PathSteps(blocks, newHead, newChain, c, i);
        PathDescends(blocks, newHead, newChain, c, i);
        OnceBelow(blocks, newHead, y);
        OnceDistinctTop(blocks, y);
        IndexStep(canonical, blocks, x, y);
        Insert(y);
        ghost var was := lookup;
        WriteTxLookupEntries(y);
        LocateStep(was, lookup, blocks, x, y);
        WrittenOnChain(was, lookup, blocks, x, y);
        added := added + y.txs;
        x := y;
      }
      forall t
        ensures t in TxsIn(newChain) <==> exists j | 0 <= j < |newChain| :: t in newChain[j].txs
      {
        InSomeBlock(newChain, t);
      }
    }

    /** Deletes the lookup entries of the transactions. */
    method DeleteTxLookupEntries(diff: seq<Tx>)
      modifies this`lookup
      ensures lookup == map h | h in old(lookup) && h.tx !in diff :: old(lookup)[h]
    {
      for i := 0 to |diff|
        invariant lookup == map h | h in old(lookup) && h.tx !in diff[..i] :: old(lookup)[h]
      {
        assert diff[..i + 1] == diff[..i] + [diff[i]];
        lookup := lookup - {diff[i].Hash()};
      }
      assert diff[..|diff|] == diff;
    }

    /** Switches from the old head to the new one: canonical numbers and lookup entries become exactly the new chain's. */
    method Reorg(oldHead: Block, newHead: Block) returns (ok: bool)
      requires Numbered(blocks) && TxsOnce(blocks, oldHead) && TxsOnce(blocks, newHead)
      requires Indexes(canonical, blocks, oldHead) && LookupExact(lookup, blocks, oldHead)
      modifies this`canonical, this`lookup, this`currentBlock, this`headBlockHash, this`currentHeader,
          this`currentFastBlock
      ensures ok <==> exists c :: Common(blocks, oldHead, newHead, c)
      ensures ok ==> Indexes(canonical, blocks, newHead) && LookupExact(lookup, blocks, newHead)
      ensures ok ==> forall n | n in canonical ::
        (n in old(canonical) && canonical[n] == old(canonical)[n])
        || (canonical[n].Of? && Reaches(blocks, newHead, canonical[n].block) && canonical[n].block.number == n)
      ensures ok && (newHead.number !in old(canonical) || old(canonical)[newHead.number] != Of(newHead)) ==>
        currentHeader == currentFastBlock == newHead
      ensures ok && newHead == oldHead ==>
        currentHeader == old(currentHeader) && currentFastBlock == old(currentFastBlock)
      ensures !ok ==> canonical == old(canonical) && lookup == old(lookup) && currentBlock == old(currentBlock)
    {
      hide Indexes, AllLocated, TxsOnce, OnChain, Path, Reaches, TxsIn, HighestCommon;
      var branches;
      ghost var c;
      branches, c := Branches(oldHead, newHead);
      if branches.None? {
        return false;
      }
      var (oldChain, newChain) := branches.value;
      CommonExists(blocks, oldHead, newHead, c);
      HighestReached(blocks, oldHead, newHead, c);
      IndexBelow(canonical, blocks, oldHead, c);
      LocatedBelow(lookup, blocks, oldHead, c);
      if newHead == oldHead {
        SameHeadNoBranch(blocks, newHead, newChain, c);
      }
      NewHeadOnOld(canonical, blocks, oldHead, newHead, newChain, c);
      var added := Adopt(newChain, newHead, c);
      var diff := TxDifference(TxsIn(oldChain), added);
      ghost var was := lookup;
      DeleteTxLookupEntries(diff);
      DeletedExactly(was, lookup, blocks, oldHead, newHead, c, oldChain, newChain, diff);
      forall b | b in newChain
        ensures Reaches(blocks, newHead, b)
      {
        BranchesDiffer(blocks, oldHead, newHead, c, oldChain, newChain, b);
      }
      return true;
    }

    /** The number index, the lookup index and the head pointers once the block is the head. */
    ghost predicate HeadedBy(block: Block, stored: set<Block>)
      reads this
    {
      && Indexes(canonical, stored, block) && LookupExact(lookup, stored, block)
      && currentBlock == block && headBlockHash == Of(block)
    }

    /** Makes a block the head, reorganizing the chain if it does not build on the current one. */
    method BecomeHead(block: Block)
      requires Indexed() && Follows(block) && block.parent.block in blocks && TxsOnce(blocks, block)
      modifies this`canonical, this`lookup, this`currentBlock, this`headBlockHash, this`currentHeader,
          this`currentFastBlock
      ensures HeadedBy(block, blocks)
      ensures forall n | n in canonical ::
        (n in old(canonical) && canonical[n] == old(canonical)[n])
        || (canonical[n].Of? && Reaches(blocks, block, canonical[n].block) && canonical[n].block.number == n)
      ensures block.number !in old(canonical) || old(canonical)[block.number] != Of(block) ==>
        currentHeader == currentFastBlock == block
      ensures block.number in old(canonical) && old(canonical)[block.number] == Of(block) && block == old(currentBlock) ==>
        currentHeader == old(currentHeader) && currentFastBlock == old(currentFastBlock)
    {
      hide Indexes, TxsOnce, OnChain, AllLocated, Located, EntriesWritten, Reaches, HighestCommon, Heaviest, IndexStored;
      ghost var head := currentBlock;
      if block.parent != Of(currentBlock) {
        GenesisReached(blocks, genesis, head);
        GenesisReached(blocks, genesis, block);
        GenesisCommon(blocks, head, block, genesis);
        var ok := Reorg(currentBlock, block);
        LookupIsLocated(lookup, blocks, block);
        AgainLocated(canonical, blocks, block);
      } else {
        IndexStep(canonical, blocks, head, block);
      }
      ghost var was := lookup;
      OnceDistinctTop(blocks, block);
      WriteTxLookupEntries(block);
      if block.parent == Of(head) {
        LocateStep(was, lookup, blocks, head, block);
        WrittenOnChain(was, lookup, blocks, head, block);
      } else {
        RewrittenExact(was, lookup, blocks, block);
      }
      Insert(block);
      SelfReached(blocks, block);
    }

    /**
      Stores a block whose parent is known and makes it the head if it is preferred. Without archiving, the canonical
      block below its number is looked up first, and the chain crashes if there is none.
     */
    method WriteBlock(block: Block, coin: bool) returns (status: WriteStatus)
      requires Valid() && (block.parent.Of? ==> Follows(block)) && block.number < MAX_UINT64
      requires Preferred(block, currentBlock, coin) ==> TxsOnce(blocks, block)
      modifies this
      ensures status ==
        if !(block.parent.Of? && block.parent.block in old(blocks)) then UnknownAncestor
        else if !archive && block.number - 1 !in old(canonical) then Crashed
        else if old(Preferred(block, currentBlock, coin)) then Canon else Side
      ensures !status.Crashed? ==> Valid() && Wrote(old(Now()), Now(), block, coin)
      ensures var td, local := TotalDifficulty(block), TotalDifficulty(old(currentBlock));
        status in {Canon, Side} ==>
          && (td > local ==> status == Canon) && (td < local ==> status == Side)
          && (td == local ==> status == if block.number < old(currentBlock).number then Canon
                                        else if block.number > old(currentBlock).number then Side
                                        else if coin then Canon else Side)
      ensures !status.Crashed? ==> blocks == if status.UnknownAncestor? then old(blocks) else old(blocks) + {block}
      ensures !status.Crashed? ==> currentBlock == if status.Canon? then block else old(currentBlock)
      ensures status == Side || status == UnknownAncestor ==>
        canonical == old(canonical) && lookup == old(lookup) && InStep() == old(InStep())
      ensures status == Canon ==> forall n | n in canonical :: n in old(canonical) || n <= block.number
      ensures !status.Crashed? && old(InStep()) && (forall b | b in blocks && b != genesis :: b.difficulty > 0) ==>
          InStep()
    {
      hide Numbered, Wrote, LowestHeavy, Closed, Indexes, IndexStored, TxsOnce, LookupExact, Reaches, Heaviest,
        TotalDifficulty;
      ParentAdds(block);
      if !(block.parent.Of? && block.parent.block in tds && block.parent.block.number == Pred(block.number)) {
        WroteEither(Now(), Now(), block, coin);
        return UnknownAncestor;
      }
      var externTd := block.difficulty + tds[block.parent.block];
      var localTd := tds[currentBlock];
      tds := tds[block := externTd];
      if !archive && Pred(block.number) !in canonical {
        return Crashed;
      }
      var reorg := externTd > localTd;
      if !reorg && externTd == localTd {
        reorg := block.number < currentBlock.number || (block.number == currentBlock.number && coin);
      }
      ghost var was, index, head := blocks, canonical, currentBlock;
      if reorg {
        BecomeHead(block);
        PreferredIsNew(index, was, genesis, head, block, coin);
        NewIndexStored(index, canonical, was, block);
        NewNumbersBelow(index, canonical, was, block);
        status := Canon;
      } else {
        MoreIndexStored(canonical, was, block);
        status := Side;
      }
      blocks := blocks + {block};
      ChainFrame(was, block, genesis, currentBlock, canonical, lookup);
      StillHeaviest(was, head, block, currentBlock, coin);
      WroteEither(Branch(was, head), Now(), block, coin);
    }

    /** The header heads are the block head. */
    ghost predicate InStep()
      reads this
    {
      currentHeader == currentFastBlock == currentBlock
    }

    /**
      Writing any blocks, whatever the coin says, keeps the indexes those of the head and the head the lowest of the
      heaviest blocks; `trail` tells what each block did. The header heads stay in step with the head if difficulties
      are positive.
     */
    method Run(written: seq<Block>, coins: seq<bool>) returns (crashed: bool, ghost trail: seq<Branch>)
      requires Valid() && InStep() && |coins| == |written|
      requires forall b | b in written :: (b.parent.Of? ==> Follows(b)) && b.number < MAX_UINT64 && Clean(b)
      modifies this
      ensures !crashed ==> Valid() && Trail(trail, written, coins) && trail[0] == old(Now()) && trail[|written|] == Now()
      ensures !crashed ==> forall b | b in blocks ::
        TotalDifficulty(b) < TotalDifficulty(currentBlock)
        || (TotalDifficulty(b) == TotalDifficulty(currentBlock) && b.number >= currentBlock.number)
      ensures archive ==> !crashed
      ensures !crashed && (forall b | b in blocks && b != genesis :: b.difficulty > 0) ==> InStep()
    {
      hide Closed, Indexes, IndexStored, TxsOnce, LookupExact, Reaches, Clean, Preferred, Trail, Wrote, TotalDifficulty;
      trail := [Now()];
      TrailStarts(Now());
      for i := 0 to |written|
        invariant Valid() && |trail| == i + 1 && trail[0] == old(Now()) && trail[i] == Now()
        invariant Trail(trail, written[..i], coins[..i])
        invariant (forall b | b in blocks && b != genesis :: b.difficulty > 0) ==> InStep()
      {
        assert written[i] in written;
        CleanOnce(blocks, written[i]);
        var status := WriteBlock(written[i], coins[i]);
        if status.Crashed? {
          return true, trail;
        }
        TrailNext(trail, written, coins, i, Now());
        trail := trail + [Now()];
      }
      assert written[..|written|] == written && coins[..|coins|] == coins;
      return false, trail;
    }
  }

  /** One block on genesis that outweighs a branch of three. */
  ghost predicate Outgrown(g: Block, heavy: Block, a: Block, b: Block, c: Block) {
    && g.parent == NoHash && g.number == 0 && heavy.parent == Of(g) && heavy.number == 1
    && a.parent == Of(g) && b.parent == Of(a) && c.parent == Of(b) && a.number == 1 && b.number == 2 && c.number == 3
    && a.difficulty + b.difficulty + c.difficulty < heavy.difficulty
    && Clean(g) && Clean(heavy)
  }

  lemma OutgrownWeights(g: Block, heavy: Block, a: Block, b: Block, c: Block)
    requires Outgrown(g, heavy, a, b, c)
    ensures g.number == 0 && g.parent == NoHash && Distinct(g.txs) && heavy.parent == Of(g) && Preferred(heavy, g, false)
    ensures Follows(heavy) && Follows(a) && Follows(b) && Follows(c)
    ensures a.parent == Of(g) && b.parent == Of(a) && c.parent == Of(b)
    ensures heavy.number == a.number == 1 && b.number == 2 && c.number == 3
    ensures !Preferred(a, heavy, false) && !Preferred(b, heavy, false) && !Preferred(c, heavy, false) && Clean(heavy)
  {
    assert TotalDifficulty(heavy) == heavy.difficulty + TotalDifficulty(g);
    assert TotalDifficulty(a) == a.difficulty + TotalDifficulty(g);
    assert TotalDifficulty(b) == b.difficulty + TotalDifficulty(a);
    assert TotalDifficulty(c) == c.difficulty + TotalDifficulty(b);
    assert IsAncestor(g, g);
  }

  /** On every such fork a chain that does not archive crashes while the light branch is written. */
  method OutgrownCrash(g: Block, heavy: Block, a: Block, b: Block, c: Block) returns (status: WriteStatus)
    requires Outgrown(g, heavy, a, b, c)
    ensures status == Crashed
  {
    hide Outgrown, Clean, Preferred, Follows, TxsOnce, BlockChain.Valid, BlockChain.InStep;
    OutgrownWeights(g, heavy, a, b, c);
    var chain := new BlockChain(g, false);
    CleanOnce(chain.blocks, heavy);
    status := chain.WriteBlock(heavy, false);
    status := chain.WriteBlock(a, false);
    if status == Crashed {
      return;
    }
    status := chain.WriteBlock(b, false);
    if status == Crashed {
      return;
    }
    status := chain.WriteBlock(c, false);
  }

  /** Such forks exist. */
  lemma SomeOutgrown() returns (g: Block, heavy: Block, a: Block, b: Block, c: Block)
    ensures Outgrown(g, heavy, a, b, c)
  {
    g := Block(NoHash, 0, 1, [], 0);
    heavy := Block(Of(g), 1, 10, [], 0);
    a := Block(Of(g), 1, 1, [], 1);
    b := Block(Of(a), 2, 1, [], 1);
    c := Block(Of(b), 3, 1, [], 1);
    assert forall x | IsAncestor(x, heavy) :: x == heavy || x == g;
  }
}
