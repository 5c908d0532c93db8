/** Following the chain's head: what the old branch loses is reinjected into the pool. */
module PoolResets {
  import opened Types
  import opened Blocks
  import opened Ancestry
  import opened PoolViews
  import opened PoolNonces
  import opened PoolRules
  import opened TxPools

  /** A head that the old one leads up to abandons nothing. */
  lemma AdvanceAbandonsNothing(stored: set<Block>, oldHead: Block, newHead: Block, t: Tx)
    requires Reaches(stored, newHead, oldHead)
    ensures !Abandoned(stored, oldHead, newHead, t)
  {
    forall b | Reaches(stored, oldHead, b)
      ensures Reaches(stored, newHead, b)
    {
      ReachesTrans(stored, newHead, oldHead, b);
    }
  }

  lemma NoneIn(txs: seq<Tx>)
    ensures (forall t :: t !in txs) ==> txs == []
  {
    assert |txs| > 0 ==> txs[0] in txs;
  }

  /**
    Resets the pool for a new head. Nothing happens if a branch turns out to have no root. Otherwise the abandoned
    transactions are reinjected and the pool is turned to the new state. If the new head builds on the old one, however
    many blocks above it, nothing is reinjected and all accounts stay lined up.
   */
  method FollowHead(pool: TxPool, stored: set<Block>, oldHead: Block, newHead: Block, newState: ChainState,
                    newMaxGas: nat,
                    lampHeight: nat) returns (r: Reinjection, ghost turn: Option<Turn>)
    requires pool.Ready() && Numbered(stored)
    modifies pool`state, pool`currentMaxGas, pool`pending, pool`queue, pool`all, pool`managed, pool`locals,
             pool`headRemovals, pool`uncovered, pool.priced
    ensures pool.Ready()
    ensures !r.Reinject? ==> pool.Contents() == old(pool.Contents()) && pool.state == old(pool.state)
    ensures r.Reinject? ==>
      && pool.state == newState && pool.currentMaxGas == newMaxGas && turn.Some?
      && Turned(pool.RulesFor(false, lampHeight), r.txs, old(Snapshot(pool.Contents(), map[], pool.locals)), turn.value,
                pool.Now())
    ensures r.Reinject? && newHead.parent != Of(oldHead)
            && oldHead.number <= newHead.number + 64 && newHead.number <= oldHead.number + 64 ==>
      forall t :: t in r.txs <==> Abandoned(stored, oldHead, newHead, t)
    ensures oldHead in stored && newHead in stored && Reaches(stored, newHead, oldHead) ==> r == Reinject([])
    ensures oldHead in stored && newHead in stored && Reaches(stored, newHead, oldHead) && pool.config.accountSlots >= 1
            && old(pool.AllSettled()) && Advances(old(pool.state), newState) ==>
      pool.AllSteady()
  {
    hide Abandoned, Reaches, Common, Settling, Steady, Turned;
    turn := None;
    r := Reinjected(stored, oldHead, newHead);
    if oldHead in stored && newHead in stored && Reaches(stored, newHead, oldHead) {
      AdvanceIsRooted(stored, oldHead, newHead);
      forall t
        ensures !Abandoned(stored, oldHead, newHead, t)
      {
        AdvanceAbandonsNothing(stored, oldHead, newHead, t);
      }
      assert r.Reinject?;
      NoneIn(r.txs);
    }
    if r.Reinject? {
      var ok;
      ghost var t;
      ok, t := pool.Reset(newState, newMaxGas, r.txs, lampHeight);
      turn := Some(t);
    }
  }

  lemma AdvanceIsRooted(stored: set<Block>, oldHead: Block, newHead: Block)
    requires Reaches(stored, newHead, oldHead)
    ensures Common(stored, oldHead, newHead, oldHead)
  {
  }
}
