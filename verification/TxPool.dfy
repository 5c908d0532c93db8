/** The transaction pool: admission, promotion, demotion, truncation and reset. */
module TxPools {
  import opened Types
  import opened NonceMap
  import opened TxLists
  import opened PricedList
  import opened PoolViews
  import opened PoolNonces
  import opened PoolTotals
  import opened PoolSteps
  import opened PoolRules
  import opened PoolSizes
  import opened PoolHistories
  import opened Seqs
  import Gas

  class TxPool {
    const config: Config
    const priced: TxPricedList

    /** Whether an address lies in the node's own shard at a lamp height. */
    const home: (Address, nat) -> bool

    var gasPrice: nat
    var state: ChainState
    var managed: map<Address, nat>
    var currentMaxGas: nat
    var locals: set<Address>

    var pending: Lists
    var queue: Lists
    var all: Pool

    /** How often a removal by hash took away the head of a longer pending list, or another transaction's slot. */
    ghost var headRemovals: nat

    ghost function Contents(): View
      reads this`pending, this`queue, this`all
    {
      View(pending, queue, all)
    }

    ghost function Now(): Snapshot
      reads this`pending, this`queue, this`all, this`managed, this`locals
    {
      Snapshot(Contents(), managed, locals)
    }

    /** The pool between two events, and what never changes. */
    ghost function Current(): Moment
      reads this`pending, this`queue, this`all, this`managed, this`locals, this`gasPrice, this`state, this`currentMaxGas
    {
      Moment(Now(), gasPrice, state, currentMaxGas)
    }

    function Fixed(): Frame {
      Frame(config, home)
    }

    /** The pool holds no more than its limit, unless all it knows is local but for one transaction at most. */
    ghost predicate Bounded()
      reads this`pending, this`queue, this`all, this`managed, this`locals
    {
      Within(Now(), config.globalSlots + config.globalQueue)
    }

    /** The rules for submissions at this moment. */
    function RulesFor(local: bool, lampHeight: nat): Rules
      reads this`gasPrice, this`state, this`currentMaxGas
    {
      Rules(config, home, gasPrice, state, currentMaxGas, local, lampHeight)
    }

    /** What was popped off the price heap and is about to be removed from the pool. */
    ghost var uncovered: set<Tx>

    /** Every known transaction is in the price heap, unless it is about to be removed. */
    ghost predicate Priced()
      reads this`all, this`uncovered, priced
    {
      && priced.Valid()
      && forall h | h in all :: all[h] in priced.items || all[h] in uncovered
    }

    ghost predicate Inv()
      reads this`pending, this`queue, this`all, this`uncovered, priced
    {
      Priced() && Consistent(Contents())
    }

    /** The next nonce the pool expects of an account. */
    ghost function PendingNonce(a: Address): nat
      reads this`managed, this`state
    {
      NonceIn(managed, state, a)
    }

    ghost predicate AllSettled()
      reads this`pending, this`queue, this`all, this`managed, this`state
    {
      forall a :: Settling(Contents(), managed, state, a)
    }

    ghost predicate AllSteady()
      reads this`pending, this`queue, this`all, this`managed, this`state
    {
      forall a :: Steady(Contents(), managed, state, a)
    }

    constructor (config: Config, home: (Address, nat) -> bool, priceLimit: nat, state: ChainState, maxGas: nat)
      ensures Ready() && fresh(priced) && Contents() == View(map[], map[], map[]) && managed == map[]
      ensures this.config == config && this.home == home && gasPrice == priceLimit && this.state == state
          && currentMaxGas == maxGas
      ensures locals == {} && headRemovals == 0 && Bounded()
    {
      this.config, this.home := config, home;
      priced := new TxPricedList();
      gasPrice, this.state, managed, currentMaxGas, locals := priceLimit, state, map[], maxGas, {};
      pending, queue, all := map[], map[], map[];
      headRemovals, uncovered := 0, {};
    }

    /** Inserts into the queue of the sender. */
    method EnqueueTx(tx: Tx) returns (r: AddResult)
      requires Priced()
      modifies this`queue, this`all, priced
      ensures Priced()
      ensures !tx.sigOk ==> r == Rejected(InvalidSender) && Contents() == old(Contents())
      ensures tx.sigOk ==> Contents() == Enqueued(old(Contents()), tx, config.priceBump)
      ensures tx.sigOk ==>
        var l := ListOf(old(queue), tx.from, false);
        r == if l.Admits(tx, config.priceBump) then Added(l.Replaced(tx).Some?) else Rejected(ReplaceUnderpriced)
    {
      if !tx.sigOk {
        return Rejected(InvalidSender);
      }
      var l := ListOf(queue, tx.from, false);
      if !l.Admits(tx, config.priceBump) {
        return Rejected(ReplaceUnderpriced);
      }
      var prev := l.Replaced(tx);
      queue := queue[tx.from := l.Added(tx)];
      if prev.Some? {
        all := all - {prev.value.Hash()};
        priced.Removed(all);
      }
      all := all[tx.Hash() := tx];
      priced.Put(tx);
      return Added(prev.Some?);
    }

    /** Makes a transaction pending and moves the expected nonce past it. */
    method PromoteTx(addr: Address, tx: Tx)
      requires Priced() && addr == tx.from
      modifies this`pending, this`all, this`managed, priced
      ensures Priced()
      ensures Contents() == Promoted(old(Contents()), tx, config.priceBump)
      ensures managed == if ListOf(old(pending), addr, true).Admits(tx, config.priceBump)
                         then old(managed)[addr := tx.nonce + 1] else old(managed)
    {
      var l := ListOf(pending, addr, true);
      var hash := tx.Hash();
      if !l.Admits(tx, config.priceBump) {
        all := all - {hash};
        priced.Removed(all);
        return;
      }
      var prev := l.Replaced(tx);
      pending := pending[addr := l.Added(tx)];
      if prev.Some? {
        all := all - {prev.value.Hash()};
        priced.Removed(all);
      }
      if hash !in all {
        all := all[hash := tx];
        priced.Put(tx);
      }
      managed := managed[addr := tx.nonce + 1];
    }

    /** Forgets a group of transactions, in no particular order. */
    method DropAll(gone: Items)
      requires Priced()
      modifies this`all, priced
      ensures Priced() && all == Without(old(all), gone)
    {
      var todo := gone.Keys;
      while todo != {}
        invariant todo <= gone.Keys && Priced()
        invariant all == old(all) - set n | n in gone && n !in todo :: gone[n].Hash()
        decreases todo
      {
        var n :| n in todo;
        all := all - {gone[n].Hash()};
        priced.Removed(all);
        todo := todo - {n};
      }
      assert (set n | n in gone && n !in todo :: gone[n].Hash()) == HashesOf(gone);
    }

    /** Queues known, unlisted transactions of one account, in no particular order. */
    method EnqueueAll(a: Address, txs: Items)
      requires Inv()
      requires forall n | n in txs :: txs[n].nonce == n && txs[n].from == a && txs[n].sigOk && txs[n].Hash() in all
      requires ItemsOf(pending, a).Keys !! txs.Keys && ItemsOf(queue, a).Keys !! txs.Keys
      modifies this`queue, this`all, priced
      ensures Inv() && all == old(all) && SameElsewhere(old(queue), queue, a)
      ensures ItemsOf(queue, a) == ItemsOf(old(queue), a) + txs
      ensures txs == map[] ==> queue == old(queue)
    {
      var todo := txs.Keys;
      while todo != {}
        invariant todo <= txs.Keys && Inv() && all == old(all) && SameElsewhere(old(queue), queue, a)
        invariant ItemsOf(queue, a) == ItemsOf(old(queue), a) + (txs - todo)
        invariant todo == txs.Keys ==> queue == old(queue)
        decreases todo
      {
        var n :| n in todo;
        EnqueuedKeeps(Contents(), txs[n], config.priceBump);
        EnqueuedFresh(Contents(), txs[n], config.priceBump);
        var _ := EnqueueTx(txs[n]);
        GrowsBy(ItemsOf(old(queue), a), txs, todo, n);
        todo := todo - {n};
      }
      assert txs - todo == txs;
    }

    /** Lowers the expected nonce of an account to `nonce` if it is above. */
    method LowerNonce(a: Address, nonce: nat)
      modifies this`managed
      ensures managed == if old(PendingNonce(a)) > nonce then old(managed)[a := nonce] else old(managed)
    {
      if NonceIn(managed, state, a) > nonce {
        managed := managed[a := nonce];
      }
    }

    /** Removes a transaction by hash. */
    method RemoveTx(hash: Hash)
      requires Inv()
      modifies this`pending, this`queue, this`all, this`managed, this`headRemovals, priced
      ensures Inv()
      ensures hash !in old(all) ==> Contents() == old(Contents()) && managed == old(managed)
      ensures hash in old(all) ==> Removes(old(Contents()), Contents(), old(all)[hash])
      ensures hash in old(all) ==>
        var tx := old(all)[hash];
        managed == if tx.nonce in ItemsOf(old(pending), tx.from) && old(PendingNonce(tx.from)) > tx.nonce
                   then old(managed)[tx.from := tx.nonce] else old(managed)
      ensures headRemovals == old(headRemovals) +
        if hash in old(all) && LeakyRemoval(old(Contents()), old(all)[hash]) then 1 else 0
      ensures headRemovals == old(headRemovals) <==> LeaksOnly(old(Contents()), Contents(), {})
      ensures SettledKept(old(Contents()), Contents(), old(managed), managed, state)
    {
      hide SettledKept, Removes, LeakyRemoval;
      if hash !in all {
        NothingSettled(Contents(), managed, state);
        NoLeaks(Contents());
        return;
      }
      RemoveKnown(all[hash]);
    }

    method RemoveKnown(tx: Tx)
      requires Inv() && tx.Hash() in all && all[tx.Hash()] == tx
      modifies this`pending, this`queue, this`all, this`managed, this`headRemovals, priced
      ensures Inv() && Removes(old(Contents()), Contents(), tx)
      ensures managed == if tx.nonce in ItemsOf(old(pending), tx.from) && old(PendingNonce(tx.from)) > tx.nonce
                         then old(managed)[tx.from := tx.nonce] else old(managed)
      ensures headRemovals == old(headRemovals) + if LeakyRemoval(old(Contents()), tx) then 1 else 0
      ensures headRemovals == old(headRemovals) <==> LeaksOnly(old(Contents()), Contents(), {})
      ensures SettledKept(old(Contents()), Contents(), old(managed), managed, state)
    {
      hide Consistent, Removes, TailTaken, Requeueable, Settling, Steady, LeaksOnly, LeakyRemoval;
      ghost var v := Contents();
      if LeakyRemoval(v, tx) {
        headRemovals := headRemovals + 1;
      }
      all := all - {tx.Hash()};
      priced.Removed(all);
      if tx.from in pending && tx.nonce in pending[tx.from].items {
        PendingRemoved(v, tx);
        TakePending(tx);
        RemovesPending(v, Contents(), tx);
      } else {
        QueuedRemoved(v, tx);
        queue := WithoutNonce(queue, tx);
      }
      RemovalLeaksIff(v, Contents(), tx);
      forall b
        ensures Settling(v, old(managed), state, b) ==> Settling(Contents(), managed, state, b)
        ensures Steady(v, old(managed), state, b) ==> Steady(Contents(), managed, state, b)
      {
        RemovalSettles(v, Contents(), old(managed), managed, state, tx, b);
      }
    }

    /** Takes a transaction's nonce and all later ones out of the pending list, requeueing the later ones. */
    method TakePending(tx: Tx)
      requires Priced() && Requeueable(Contents(), tx)
      modifies this`pending, this`queue, this`all, this`managed, priced
      ensures Inv() && TailTaken(old(Contents()), Contents(), tx)
      ensures managed == if old(PendingNonce(tx.from)) > tx.nonce then old(managed)[tx.from := tx.nonce] else old(managed)
    {
      var addr := tx.from;
      var invalids := pending[addr].RemoveInvalid(tx.nonce);
      pending := WithoutNonce(pending, tx);
      if addr in pending {
        EnqueueAll(addr, invalids);
      }
      LowerNonce(addr, tx.nonce);
    }

    /** Cuts a queued list down to `l` and forgets the rest. */
    method CutQueue(a: Address, l: ListValue, ghost gone: Items)
      requires Inv() && a in queue && !l.strict && SubItems(l.items, queue[a].items)
      requires gone == queue[a].items - l.items.Keys
      modifies this`queue, this`all, priced
      ensures Inv() && queue == old(queue)[a := l] && all == Without(old(all), gone)
      ensures LeaksOnly(old(Contents()), Contents(), {})
    {
      QueueCut(Contents(), a, l, gone);
      var cut := queue[a].items - l.items.Keys;
      queue := queue[a := l];
      DropAll(cut);
    }

    /** Cuts a pending list down to `l` and forgets the rest. */
    method CutPending(a: Address, l: ListValue, ghost gone: Items)
      requires Inv() && a in pending && l.strict && SubItems(l.items, pending[a].items)
      requires gone == pending[a].items - l.items.Keys
      modifies this`pending, this`all, priced
      ensures Inv() && pending == old(pending)[a := l] && all == Without(old(all), gone)
      ensures LeaksOnly(old(Contents()), Contents(), {})
    {
      PendingCut(Contents(), a, l, gone);
      var cut := pending[a].items - l.items.Keys;
      pending := pending[a := l];
      DropAll(cut);
    }

    /** Moves the ready run of an account's queue to pending. */
    method PromoteReady(a: Address) returns (ghost lo: nat, ghost hi: nat)
      requires Inv() && a in queue
      modifies this`pending, this`queue, this`all, this`managed, priced
      ensures Inv()
      ensures var start, items := old(PendingNonce(a)), old(queue)[a].items;
        && Moved(old(Contents()), Contents(), a, ReadyRun(items, start))
        && queue == old(queue)[a := old(queue)[a].Promoted(start)]
        && lo <= hi && Interval(ReadyRun(items, start), lo, hi)
      ensures managed == if lo < hi then old(managed)[a := hi] else old(managed)
      ensures if lo < hi then a in pending else pending == old(pending)
      ensures LeaksOnly(old(Contents()), Contents(), {})
    {
      ghost var v := Contents();
      var start := NonceIn(managed, state, a);
      var run := ReadyRun(queue[a].items, start);
      lo, hi := ReadyBounds(queue[a].items, start);
      ReadyMovable(v, a, start);
      queue := queue[a := queue[a].Promoted(start)];
      ghost var u := Contents();
      if run != map[] {
        PromoteRun(a, run, lo, hi);
        RunMoved(v, u, Contents(), a, start, lo, hi);
      } else {
        assert lo !in run;
        NothingMoved(v, u, a, start);
      }
    }

    /** Makes a consecutive run of known transactions pending, lowest nonce first. */
    method PromoteRun(a: Address, run: Items, ghost lo: nat, ghost hi: nat)
      requires Inv() && Movable(Contents(), a, run) && run != map[] && Interval(run, lo, hi)
      modifies this`pending, this`all, this`managed, priced
      ensures Inv() && PromotedUpTo(old(Contents()), Contents(), a, run, hi) && a in pending
      ensures lo < hi && managed == old(managed)[a := hi]
    {
      ghost var v := Contents();
      var n := LowestKey(run);
      assert n in run && lo in run && n == lo;
      PromoteFrom(a, run, n, v, hi);
      PromotedManyIs(v, a, run, lo, hi, config.priceBump);
    }

    method PromoteFrom(a: Address, run: Items, lo: nat, ghost v: View, ghost hi: nat)
      requires Priced() && v == Contents() && Consistent(v) && Movable(v, a, run) && Interval(run, lo, hi) && lo < hi
      modifies this`pending, this`all, this`managed, priced
      ensures Priced() && Contents() == PromotedMany(v, run, lo, hi, config.priceBump)
      ensures managed == old(managed)[a := hi]
    {
      hide Consistent, Movable, Promoted, BumpThreshold;
      var n := lo;
      ghost var was := managed;
      while n in run
        invariant lo <= n <= hi && Priced() && Contents() == PromotedMany(v, run, lo, n, config.priceBump)
        invariant managed == if n == lo then was else was[a := n]
        decreases hi - n
      {
        PromotedManyAdmits(v, a, run, lo, n, config.priceBump);
        UpdatedTwice(was, a, n, n + 1);
        PromoteTx(a, run[n]);
        n := n + 1;
      }
    }

    /** Forgets outdated and unpayable queued transactions of an account. */
    method ForgetUnpayable(a: Address, lampHeight: nat)
      requires Inv() && a in queue
      modifies this`queue, this`all, priced
      ensures Inv() && LeaksOnly(old(Contents()), Contents(), {})
      ensures queue == old(queue)[a := Payable(old(queue)[a], state, a, currentMaxGas, lampHeight)]
    {
      hide Consistent, LeaksOnly, Unpayable;
      ghost var v := Contents();
      var l := queue[a];
      Strictness(v, a);
      var forwarded := l.Forwarded(state.NonceOf(a));
      Splits(l.items, state.NonceOf(a));
      CutQueue(a, forwarded, Below(l.items, state.NonceOf(a)));
      ghost var v1 := Contents();
      var payable := forwarded.Filtered(state.BalanceOf(a), currentMaxGas, lampHeight);
      FilterSplits(forwarded, state.BalanceOf(a), currentMaxGas, lampHeight);
      CutQueue(a, payable, forwarded.items - payable.items.Keys);
      NoLeaksCompose(v, v1, Contents());
      UpdatedTwice(v.queue, a, forwarded, payable);
    }

    /** Caps a remote account's queue and deletes it if it is empty. */
    method CapQueue(a: Address)
      requires Inv() && a in queue
      modifies this`queue, this`all, priced
      ensures Inv() && LeaksOnly(old(Contents()), Contents(), {}) && SameElsewhere(old(queue), queue, a)
      ensures ItemsOf(queue, a) == if a in locals then old(queue)[a].items
                                   else Lowest(old(queue)[a].items, config.accountQueue)
      ensures a in queue ==> queue[a].items != map[]
    {
      hide Consistent, LeaksOnly;
      ghost var v := Contents();
      Strictness(v, a);
      if a !in locals {
        Splits(queue[a].items, config.accountQueue);
        CutQueue(a, queue[a].Capped(config.accountQueue), Excess(queue[a].items, config.accountQueue));
      } else {
        NoLeaks(v);
      }
      ghost var v1 := Contents();
      if queue[a].items == map[] {
        EmptyDeleted(v1, a);
        NoLeaksCompose(v, v1, v1.(queue := v1.queue - {a}));
        queue := queue - {a};
      }
    }

    /** Forgets outdated and unpayable queued transactions of an account, promotes what is ready, and caps the rest. */
    method PromoteAccount(a: Address, lampHeight: nat)
      requires Inv()
      modifies this`pending, this`queue, this`all, this`managed, priced
      ensures Inv() && LeaksOnly(old(Contents()), Contents(), {})
      ensures a !in old(queue) ==> Contents() == old(Contents()) && managed == old(managed)
      ensures a in old(queue) ==>
        var payable := Payable(old(queue)[a], state, a, currentMaxGas, lampHeight).items;
        AccountPromoted(old(Contents()), Contents(), old(managed), managed, state, a, payable,
                        if a in locals then None else Some(config.accountQueue))
      ensures Settling(old(Contents()), old(managed), state, a) ==> Steady(Contents(), managed, state, a)
      ensures forall b | b != a :: Settling(old(Contents()), old(managed), state, b) <==> Settling(Contents(),
          managed, state, b)
      ensures forall b | b != a :: Steady(old(Contents()), old(managed), state, b) <==> Steady(Contents(), managed,
          state, b)
    {
      hide Consistent, LeaksOnly, Settling, Steady, Moved, AccountPromoted, ListValue.Filtered;
      ghost var v := Contents();
      if a !in queue {
        NoLeaks(v);
        NoQueueSteady(v, managed, state, a);
        return;
      }
      ForgetUnpayable(a, lampHeight);
      ghost var v1 := Contents();
      ghost var lo, hi := PromoteReady(a);
      ghost var v2 := Contents();
      NoLeaksCompose(v, v1, v2);
      CapQueue(a);
      NoLeaksCompose(v, v2, Contents());
      PromotionAdds(v, v1, v2, Contents(), old(managed), managed, state, a, lo, hi,
                    if a in locals then None else Some(config.accountQueue));
      PayableIsPart(v.queue[a], state, a, currentMaxGas, lampHeight);
      PromotionSettles(v, Contents(), old(managed), managed, state, a, v1.queue[a].items,
                       if a in locals then None else Some(config.accountQueue), lo, hi);
    }

    /** Forgets the highest pending transaction of an account. */
    method ForgetTop(a: Address) returns (nonce: nat)
      requires Inv() && a in pending && Len(pending, a) > 0
      modifies this`pending, this`all, priced
      ensures Inv() && LeaksOnly(old(Contents()), Contents(), {})
      ensures pending == old(pending)[a := OneOff(old(pending)[a])] && Total(pending) == Total(old(pending)) - 1
      ensures IsTop(old(pending)[a].items, nonce) && pending[a].items == old(pending)[a].items - {nonce}
    {
      hide Consistent, LeaksOnly, Lowest, Excess, Priced;
      ghost var v := Contents();
      var l := pending[a];
      PendingKeyed(v, a);
      var cut := l.Capped(|l.items| - 1);
      var gone := Excess(l.items, |l.items| - 1);
      ghost var top := TopOf(l.items);
      Splits(l.items, |l.items| - 1);
      Strictness(v, a);
      CutPending(a, cut, gone);
      TotalUpdate(v.pending, a, cut);
      nonce := OnlyKey(gone, top);
    }

    /** Drops the highest pending nonce of an account and lowers its expected nonce to it. */
    method DropTop(a: Address)
      requires Inv() && a in pending && Len(pending, a) > 0
      modifies this`pending, this`all, this`managed, priced
      ensures Inv() && LeaksOnly(old(Contents()), Contents(), {})
      ensures pending == old(pending)[a := OneOff(old(pending)[a])]
      ensures Total(pending) == Total(old(pending)) - 1
      ensures Len(old(pending), a) >= 2 ==> SettledKept(old(Contents()), Contents(), old(managed), managed, state)
    {
      hide Consistent, LeaksOnly, Priced, SettledKept, OneOff, Total;
      ghost var v := Contents();
      var nonce := ForgetTop(a);
      LowerNonce(a, nonce);
      TopDropSettles(v, Contents(), v.pending[a], old(managed), managed, state, a, nonce);
    }

    /** Drops the highest pending nonce of each of the accounts. */
    method DropRound(accounts: seq<Address>)
      requires Inv() && Distinct(accounts) && forall a | a in accounts :: a in pending && Len(pending, a) > 0
      modifies this`pending, this`all, this`managed, priced
      ensures Inv() && LeaksOnly(old(Contents()), Contents(), {})
      ensures RoundDone(old(pending), pending, accounts) && Total(pending) == Total(old(pending)) - |accounts|
      ensures (forall a | a in accounts :: Len(old(pending), a) >= 2) ==>
        SettledKept(old(Contents()), Contents(), old(managed), managed, state)
    {
      hide Consistent, LeaksOnly, Priced, SettledKept, RoundDone, OneOff, Total;
      ghost var v := Contents();
      NoLeaks(v);
      NothingSettled(v, managed, state);
      NoRound(pending);
      assert accounts[..0] == [];
      for i := 0 to |accounts|
        invariant Inv() && LeaksOnly(v, Contents(), {}) && RoundDone(v.pending, pending, accounts[..i])
        invariant Total(pending) == Total(v.pending) - i && pending.Keys == v.pending.Keys
        invariant (forall a | a in accounts :: Len(v.pending, a) >= 2) ==>
          SettledKept(v, Contents(), old(managed), managed, state)
      {
        var a := accounts[i];
        assert a in accounts;
        ghost var u, m := Contents(), managed;
        RoundStep(v.pending, pending, accounts, i);
        DropTop(a);
        NoLeaksCompose(v, u, Contents());
        if forall b | b in accounts :: Len(v.pending, b) >= 2 {
          SettledTrans(v, u, Contents(), old(managed), m, managed, state);
        }
        assert pending.Keys == u.pending.Keys;
      }
      assert accounts[..|accounts|] == accounts;
    }

    /** Drops rounds off the accounts, all at one level, until the total fits or they are down to the threshold. */
    method LevelDown(accounts: seq<Address>, count: nat, threshold: nat, ghost was: Lists, ghost level: nat)
      returns (left: nat, ghost down: nat)
      requires Inv() && count == Total(pending) && accounts != [] && Distinct(accounts)
      requires FiledPending(was) && Leveled(was, pending, locals, config.accountSlots, level)
      requires AtLevel(pending, accounts, level) && OthersAtMost(pending, locals, accounts, threshold)
      requires forall a | a in accounts :: Remote(was, locals, a)
      requires config.accountSlots <= threshold <= level
      modifies this`pending, this`all, this`managed, priced
      ensures Inv() && LeaksOnly(old(Contents()), Contents(), {}) && left == Total(pending)
      ensures Leveled(was, pending, locals, config.accountSlots, down) && AtLevel(pending, accounts, down)
      ensures threshold <= down <= level && (left <= config.globalSlots || down == threshold)
      ensures forall a | a !in accounts :: Len(pending, a) == Len(old(pending), a)
      ensures if count <= config.globalSlots then left == count else left + |accounts| > config.globalSlots
      ensures config.accountSlots >= 1 ==> SettledKept(old(Contents()), Contents(), old(managed), managed, state)
    {
      hide Consistent, LeaksOnly, Priced, SettledKept, RoundDone, Total, Leveled, OthersAtMost, Distinct;
      ghost var v := Contents();
      NoLeaks(v);
      NothingSettled(v, managed, state);
      left, down := count, level;
      var last := accounts[|accounts| - 1];
      assert last in accounts;
      while left > config.globalSlots && Len(pending, last) > threshold
        invariant Inv() && LeaksOnly(v, Contents(), {}) && left == Total(pending)
        invariant Leveled(was, pending, locals, config.accountSlots, down) && AtLevel(pending, accounts, down)
        invariant threshold <= down <= level && OthersAtMost(pending, locals, accounts, threshold)
        invariant forall a | a !in accounts :: Len(pending, a) == Len(v.pending, a)
        invariant if count <= config.globalSlots then left == count else left + |accounts| > config.globalSlots
        invariant config.accountSlots >= 1 ==> SettledKept(v, Contents(), old(managed), managed, state)
        decreases down
      {
        assert Len(pending, last) == down;
        ghost var u, m := Contents(), managed;
        RemotesStay(was, pending, locals, config.accountSlots, down, accounts);
        DropRound(accounts);
        LevelStep(was, u.pending, pending, accounts, locals, config.accountSlots, down, threshold);
        NoLeaksCompose(v, u, Contents());
        if config.accountSlots >= 1 {
          SettledTrans(v, u, Contents(), old(managed), m, managed, state);
        }
        left := left - |accounts|;
        down := down - 1;
      }
    }

    /** If too many transactions are pending, drops the highest nonces of the largest remote accounts, equalizing them. */
    method TruncatePending()
      requires Inv()
      modifies this`pending, this`all, this`managed, priced
      ensures Inv() && LeaksOnly(old(Contents()), Contents(), {})
      ensures FairlyTruncated(old(pending), pending, locals, config.accountSlots)
      ensures Total(pending) <= config.globalSlots
              || forall a | Remote(pending, locals, a) :: Len(pending, a) <= config.accountSlots
      ensures if Total(old(pending)) <= config.globalSlots then pending == old(pending) && managed == old(managed)
              else Total(pending) + |pending| > config.globalSlots
      ensures config.accountSlots >= 1 ==> SettledKept(old(Contents()), Contents(), old(managed), managed, state)
    {
      hide Consistent, LeaksOnly, Priced, SettledKept, RoundDone, Total, Leveled, FairlyTruncated, OthersAtMost,
          Popped, Distinct;
      ghost var v, was := Contents(), pending;
      var count := CountAll(pending);
      ghost var level := Total(was);
      PendingKeyed(v, Address(0));
      NothingTruncated(was, locals, config.accountSlots);
      LeveledIsFair(was, was, locals, config.accountSlots, level);
      NoLeaks(v);
      NothingSettled(v, managed, state);
      if count > config.globalSlots {
        var spammers := set a | a in pending && a !in locals && |pending[a].items| > config.accountSlots;
        var offenders: seq<Address> := [];
        StartPopped(was, locals, config.accountSlots, spammers);
        while count > config.globalSlots && spammers != {}
          invariant Inv() && LeaksOnly(v, Contents(), {}) && count == Total(pending)
          invariant Leveled(was, pending, locals, config.accountSlots, level)
          invariant Popped(was, pending, locals, config.accountSlots, spammers, offenders)
          invariant count > config.globalSlots ==> AtLevel(pending, offenders, level)
          invariant offenders != [] ==> config.accountSlots <= level
          invariant count + |offenders| > config.globalSlots
          invariant config.accountSlots >= 1 ==> SettledKept(v, Contents(), old(managed), managed, state)
          decreases |spammers|
        {
          ghost var u, m := Contents(), managed;
          count, level, spammers, offenders := Penalize(count, spammers, offenders, was, level);
          NoLeaksCompose(v, u, Contents());
          if config.accountSlots >= 1 {
            SettledTrans(v, u, Contents(), old(managed), m, managed, state);
          }
        }
        PoppedDistinct(was, pending, locals, config.accountSlots, spammers, offenders);
        LevelBounds(was, pending, locals, config.accountSlots, level);
        DistinctAtMost(offenders, was);
        if count > config.globalSlots {
          AllPopped(was, pending, locals, config.accountSlots, level, offenders);
          if |offenders| > 0 {
            ghost var u, m := Contents(), managed;
            count, level := LevelDown(offenders, count, config.accountSlots, was, level);
            NoLeaksCompose(v, u, Contents());
            if config.accountSlots >= 1 {
              SettledTrans(v, u, Contents(), old(managed), m, managed, state);
            }
            LevelBounds(was, pending, locals, config.accountSlots, level);
          } else {
            OthersBound(pending, locals, config.accountSlots);
          }
        }
        LeveledIsFair(was, pending, locals, config.accountSlots, level);
      }
    }

    /** Pops the largest spammer and cuts all earlier offenders down to its size. */
    method Penalize(count: nat, spammers: set<Address>, offenders: seq<Address>, ghost was: Lists, ghost level: nat)
      returns (left: nat, ghost down: nat, spammers': set<Address>, offenders': seq<Address>)
      requires Inv() && count == Total(pending) && count > config.globalSlots && spammers != {}
      requires FiledPending(was) && Leveled(was, pending, locals, config.accountSlots, level)
      requires Popped(was, pending, locals, config.accountSlots, spammers, offenders)
      requires AtLevel(pending, offenders, level)
      modifies this`pending, this`all, this`managed, priced
      ensures Inv() && LeaksOnly(old(Contents()), Contents(), {}) && left == Total(pending)
      ensures Leveled(was, pending, locals, config.accountSlots, down) && config.accountSlots <= down
      ensures Popped(was, pending, locals, config.accountSlots, spammers', offenders')
      ensures left > config.globalSlots ==> AtLevel(pending, offenders', down)
      ensures left + |offenders'| > config.globalSlots
      ensures |spammers'| < |spammers| && |offenders'| == |offenders| + 1
      ensures config.accountSlots >= 1 ==> SettledKept(old(Contents()), Contents(), old(managed), managed, state)
    {
      hide Consistent, LeaksOnly, Priced, SettledKept, RoundDone, Total, Leveled, OthersAtMost, Popped, Distinct;
      ghost var v := Contents();
      var offender := PopLargest(pending, spammers);
      NextPopped(was, pending, locals, config.accountSlots, level, spammers, offenders, offender);
      offenders' := offenders + [offender];
      spammers' := spammers - {offender};
      if |offenders'| > 1 {
        var threshold := Len(pending, offender);
        PoppedDistinct(was, pending, locals, config.accountSlots, spammers, offenders);
        assert offender !in offenders;
        left, down := LevelDown(offenders, count, threshold, was, level);
        StillPopped(was, v.pending, pending, locals, config.accountSlots, spammers', offenders, offenders');
      } else {
        NonePoppedYet(was, pending, locals, config.accountSlots, spammers);
        FirstLevel(was, locals, config.accountSlots, spammers, offender);
        left, down := count, Len(was, offender);
        StillPopped(was, was, was, locals, config.accountSlots, spammers', [], offenders');
        NoLeaks(v);
        NothingSettled(v, managed, state);
      }
    }

    /** Removes the `k` highest queued transactions of an account. */
    method RemoveLastQueued(a: Address, k: nat)
      requires Inv() && k <= Len(queue, a)
      modifies this`pending, this`queue, this`all, this`managed, this`headRemovals, priced
      ensures Inv() && LeaksOnly(old(Contents()), Contents(), {}) && headRemovals == old(headRemovals)
      ensures pending == old(pending) && managed == old(managed) && SameElsewhere(old(queue), queue, a)
      ensures ItemsOf(queue, a) == Lowest(ItemsOf(old(queue), a), Len(old(queue), a) - k)
      ensures Total(queue) == Total(old(queue)) - k
      ensures SettledKept(old(Contents()), Contents(), old(managed), managed, state)
    {
      hide Consistent, LeaksOnly, Priced, SettledKept, Total, Lowest, Removes, LeakyRemoval, SameElsewhere;
      ghost var v := Contents();
      ghost var items := ItemsOf(queue, a);
      PendingKeyed(v, a);
      LowestAll(items);
      NoLeaks(v);
      NothingElsewhere(queue, a);
      NothingSettled(v, managed, state);
      for i := 0 to k
        invariant Inv() && LeaksOnly(v, Contents(), {}) && headRemovals == old(headRemovals)
        invariant pending == v.pending && managed == old(managed) && SameElsewhere(v.queue, queue, a)
        invariant ItemsOf(queue, a) == Lowest(items, |items| - i) && Total(queue) == Total(v.queue) - i
        invariant SettledKept(v, Contents(), old(managed), managed, state)
      {
        ghost var u := Contents();
        LowestNonEmpty(items, |items| - i);
        var n := HighestKey(ItemsOf(queue, a));
        PeelHighest(items, |items| - i, n);
        RemoveQueued(a, n);
        NoLeaksCompose(v, u, Contents());
        SettledTrans(v, u, Contents(), old(managed), managed, managed, state);
        ElsewhereChain(v.queue, u.queue, queue, a);
      }
    }

    /** Removes one queued transaction by its hash. */
    method RemoveQueued(a: Address, n: nat)
      requires Inv() && n in ItemsOf(queue, a)
      modifies this`pending, this`queue, this`all, this`managed, this`headRemovals, priced
      ensures Inv() && LeaksOnly(old(Contents()), Contents(), {}) && headRemovals == old(headRemovals)
      ensures pending == old(pending) && managed == old(managed) && SameElsewhere(old(queue), queue, a)
      ensures ItemsOf(queue, a) == ItemsOf(old(queue), a) - {n} && Total(queue) == Total(old(queue)) - 1
      ensures SettledKept(old(Contents()), Contents(), old(managed), managed, state)
    {
      hide Consistent, LeaksOnly, Priced, SettledKept, Total, Removes, LeakyRemoval;
      ghost var v := Contents();
      var tx := queue[a].items[n];
      QueuedKnown(v, a, n);
      RemoveTx(tx.Hash());
      QueuedRemoval(v, Contents(), a, n);
      TotalElsewhere(v.queue, queue, a);
      assert (ItemsOf(v.queue, a) - {n}).Keys == ItemsOf(v.queue, a).Keys - {n};
    }

    /** Removes all queued transactions of an account, or the highest ones if not all have to go. */
    method CutRemoteQueue(a: Address, drop: nat, ghost was: Lists, ghost left: set<Address>) returns (still: nat)
      requires Inv() && drop > 0 && a in left && Keyed(ItemsOf(was, a)) && CutDown(was, queue, locals, left, drop)
      requires Total(queue) == config.globalQueue + drop
      modifies this`pending, this`queue, this`all, this`managed, this`headRemovals, priced
      ensures Inv() && LeaksOnly(old(Contents()), Contents(), {}) && headRemovals == old(headRemovals)
      ensures pending == old(pending) && managed == old(managed)
      ensures CutDown(was, queue, locals, left - {a}, still) && Total(queue) == config.globalQueue + still
      ensures SettledKept(old(Contents()), Contents(), old(managed), managed, state)
    {
      hide Consistent, LeaksOnly, Priced, SettledKept, Total, Lowest, SameElsewhere, CutDown, ItemsOf, Keyed;
      ghost var u := queue;
      var size := Len(queue, a);
      var k := if size <= drop then size else drop;
      RemoveLastQueued(a, k);
      still := drop - k;
      CutDownStep(was, u, queue, locals, left, drop, a, size - k, still);
    }

    /** If too many transactions are queued, removes remote ones, account by account, until the rest fits. */
    method TruncateQueue()
      requires Inv()
      modifies this`pending, this`queue, this`all, this`managed, this`headRemovals, priced
      ensures Inv() && LeaksOnly(old(Contents()), Contents(), {}) && headRemovals == old(headRemovals)
      ensures pending == old(pending) && managed == old(managed)
      ensures QueueTruncated(old(queue), queue, locals)
      ensures if Total(old(queue)) <= config.globalQueue then queue == old(queue)
              else Total(queue) == config.globalQueue
                   || (Total(queue) > config.globalQueue && forall a | a in queue && a !in locals :: Len(queue, a) == 0)
      ensures SettledKept(old(Contents()), Contents(), old(managed), managed, state)
    {
      hide Consistent, LeaksOnly, Priced, SettledKept, Total, Lowest, SameElsewhere, CutDown, QueueTruncated;
      ghost var v := Contents();
      NoLeaks(v);
      NothingSettled(v, managed, state);
      QueueKeyed(v);
      var queued := CountAll(queue);
      var addresses := set a | a in queue && a !in locals;
      NothingCutDown(queue, locals, addresses, if queued > config.globalQueue then queued - config.globalQueue else 0);
      if queued > config.globalQueue {
        var drop: nat := queued - config.globalQueue;
        while drop > 0 && addresses != {}
          invariant Inv() && LeaksOnly(v, Contents(), {}) && headRemovals == old(headRemovals)
          invariant pending == v.pending && managed == old(managed)
          invariant Total(queue) == config.globalQueue + drop && CutDown(v.queue, queue, locals, addresses, drop)
          invariant SettledKept(v, Contents(), old(managed), managed, state)
          decreases |addresses|
        {
          var a :| a in addresses;
          ghost var u := Contents();
          drop := CutRemoteQueue(a, drop, v.queue, addresses);
          NoLeaksCompose(v, u, Contents());
          SettledTrans(v, u, Contents(), old(managed), managed, managed, state);
          addresses := addresses - {a};
        }
        CutDownTruncated(v.queue, queue, locals, addresses, drop);
      }
    }

    /** Cuts a pending list to `l`, forgets one part of the rest and requeues the other. */
    method PutBackPart(a: Address, l: ListValue, drop: Items, back: Items)
      requires Inv() && a in pending && l.strict && ThreeWay(pending[a].items, l.items, drop, back)
      modifies this`pending, this`queue, this`all, priced
      ensures Inv() && PutBack(old(Contents()), Contents(), a, l, drop, back) && pending == old(pending)[a := l]
      ensures LeaksOnly(old(Contents()), Contents(), {})
    {
      hide Consistent, LeaksOnly, Priced, ThreeWay;
      ghost var v := Contents();
      DroppedPart(v, a, l, drop, back);
      pending := pending[a := l];
      DropAll(drop);
      EnqueueAll(a, back);
      PutBackHolds(v, Contents(), a, l, drop, back);
    }

    /** Forgets outdated and unpayable pending transactions of an account and requeues what can no longer be executed. */
    method DemoteAccount(a: Address, lampHeight: nat)
      requires Inv() && a in pending
      modifies this`pending, this`queue, this`all, priced
      ensures Inv() && LeaksOnly(old(Contents()), Contents(), {})
      ensures AccountDemoted(old(Contents()), Contents(), state, a, currentMaxGas, lampHeight)
    {
      hide Consistent, LeaksOnly, Priced, ThreeWay, PutBack, AccountDemoted, SubItems;
      hide ListValue.Filtered, ListValue.FilterRemoved, ListValue.FilterInvalid, Below, AtLeast, Lowest, Without;
      ghost var v := Contents();
      var l := pending[a];
      var nonce := state.NonceOf(a);
      Strictness(v, a);
      Splits(l.items, nonce);
      var forwarded := l.Forwarded(nonce);
      CutPending(a, forwarded, Below(l.items, nonce));
      ghost var v1 := Contents();
      var keep := forwarded.Filtered(state.BalanceOf(a), currentMaxGas, lampHeight);
      var drops := forwarded.FilterRemoved(state.BalanceOf(a), currentMaxGas, lampHeight);
      var invalids := forwarded.FilterInvalid(state.BalanceOf(a), currentMaxGas, lampHeight);
      FilterThreeWay(forwarded, state.BalanceOf(a), currentMaxGas, lampHeight);
      FilterSplits(forwarded, state.BalanceOf(a), currentMaxGas, lampHeight);
      PutBackPart(a, keep, drops, invalids);
      ghost var v2 := Contents();
      NoLeaksCompose(v, v1, v2);
      if keep.items != map[] && nonce !in keep.items {
        AllGoesBack(keep);
        PutBackPart(a, keep.Capped(0), map[], keep.items);
        NoLeaksCompose(v, v2, Contents());
      }
      ghost var v3 := Contents();
      if pending[a].items == map[] {
        EmptyDeleted(v3, a);
        pending := pending - {a};
        NoLeaksCompose(v, v3, Contents());
      }
      DemotionAdds(v, v1, v2, v3, Contents(), state, a, currentMaxGas, lampHeight, drops);
    }

    /** Promotes the accounts, in no particular order. */
    method PromoteAll(accounts: set<Address>, lampHeight: nat)
      requires Inv()
      modifies this`pending, this`queue, this`all, this`managed, priced
      ensures Inv() && LeaksOnly(old(Contents()), Contents(), {})
      ensures AllPromoted(old(Contents()), Contents(), old(managed), managed, state, accounts, locals,
                          currentMaxGas, lampHeight, config.accountQueue)
      ensures SteadiedBy(old(Contents()), Contents(), old(managed), managed, state, accounts)
    {
      hide Consistent, LeaksOnly, Priced, Settling, Steady, SteadiedBy, AllPromoted, PromotedAt, SameAt,
          AccountPromoted, Payable;
      ghost var v, m0 := Contents(), managed;
      var todo := accounts;
      ghost var done: set<Address> := {};
      NoLeaks(v);
      NonePromotedYet(v, managed, state, locals, currentMaxGas, lampHeight, config.accountQueue);
      SteadiedNone(v, managed, state);
      while todo != {}
        invariant todo + done == accounts && todo !! done && Inv() && LeaksOnly(v, Contents(), {})
        invariant AllPromoted(v, Contents(), m0, managed, state, done, locals, currentMaxGas, lampHeight,
            config.accountQueue)
        invariant SteadiedBy(v, Contents(), m0, managed, state, done)
        decreases todo
      {
        var a :| a in todo;
        ghost var u, m := Contents(), managed;
        PromoteAccount(a, lampHeight);
        NoLeaksCompose(v, u, Contents());
        PromotesOne(u, Contents(), m, managed, state, a, currentMaxGas, lampHeight,
                    if a in locals then None else Some(config.accountQueue));
        PromotedNext(v, u, Contents(), m0, m, managed, state, done, a, locals, currentMaxGas, lampHeight,
            config.accountQueue);
        SteadiedNext(v, u, Contents(), m0, m, managed, state, done, a);
        todo, done := todo - {a}, done + {a};
      }
      assert done == accounts;
    }

    /**
      Promotes the accounts, or all those with queued transactions, and then truncates pending and queue if they
      hold too many transactions. `promoted` is the view in between.
     */
    method PromoteExecutables(accounts: Option<set<Address>>, lampHeight: nat)
      returns (ghost promoted: View, ghost expected: map<Address, nat>)
      requires Inv()
      modifies this`pending, this`queue, this`all, this`managed, this`headRemovals, priced
      ensures Inv() && LeaksOnly(old(Contents()), Contents(), {}) && headRemovals == old(headRemovals)
      ensures AllPromoted(old(Contents()), promoted, old(managed), expected, state,
                          if accounts.Some? then accounts.value else old(queue).Keys, locals,
                          currentMaxGas, lampHeight, config.accountQueue)
      ensures FairlyTruncated(promoted.pending, pending, locals, config.accountSlots)
      ensures Total(promoted.pending) <= config.globalSlots ==> pending == promoted.pending && managed == expected
      ensures Total(pending) <= config.globalSlots
              || forall a | Remote(pending, locals, a) :: Len(pending, a) <= config.accountSlots
      ensures Total(promoted.pending) > config.globalSlots ==> Total(pending) + |pending| > config.globalSlots
      ensures if Total(promoted.queue) <= config.globalQueue then queue == promoted.queue
              else Total(queue) == config.globalQueue
                   || (Total(queue) > config.globalQueue && forall a | a in queue && a !in locals :: Len(queue, a) == 0)
      ensures QueueTruncated(promoted.queue, queue, locals)
      ensures config.accountSlots >= 1 ==>
        SteadiedBy(old(Contents()), Contents(), old(managed), managed, state,
                   if accounts.Some? then accounts.value else old(queue).Keys)
    {
      hide Consistent, LeaksOnly, Priced, Settling, Steady, SteadiedBy, AllPromoted, FairlyTruncated, SettledKept,
          QueueTruncated, Total;
      ghost var v, m0 := Contents(), managed;
      var chosen := if accounts.Some? then accounts.value else queue.Keys;
      PromoteAll(chosen, lampHeight);
      promoted, expected := Contents(), managed;
      TruncatePending();
      ghost var u, m1 := Contents(), managed;
      NoLeaksCompose(v, promoted, u);
      TruncateQueue();
      NoLeaksCompose(v, u, Contents());
      if config.accountSlots >= 1 {
        SettledTrans(promoted, u, Contents(), expected, m1, managed, state);
        SteadiedKept(v, promoted, Contents(), m0, expected, managed, state, chosen);
      }
    }

    /** Demotes every account with pending transactions, in no particular order. */
    method DemoteUnexecutables(lampHeight: nat)
      requires Inv()
      modifies this`pending, this`queue, this`all, priced
      ensures Inv() && LeaksOnly(old(Contents()), Contents(), {})
      ensures AllDemoted(old(Contents()), Contents(), state, old(pending).Keys, currentMaxGas, lampHeight)
    {
      hide Consistent, LeaksOnly, Priced, AllDemoted, DemotedAt, ListsSameAt, AccountDemoted;
      ghost var v := Contents();
      var todo := pending.Keys;
      ghost var done: set<Address> := {};
      NoLeaks(v);
      NoneDemotedYet(v, state, currentMaxGas, lampHeight);
      while todo != {}
        invariant todo + done == v.pending.Keys && todo !! done && Inv() && LeaksOnly(v, Contents(), {})
        invariant AllDemoted(v, Contents(), state, done, currentMaxGas, lampHeight)
        decreases todo
      {
        var a :| a in todo;
        ghost var u := Contents();
        UndemotedStays(v, u, state, done, a, currentMaxGas, lampHeight);
        DemoteAccount(a, lampHeight);
        NoLeaksCompose(v, u, Contents());
        DemotesOne(u, Contents(), state, a, currentMaxGas, lampHeight);
        DemotedNext(v, u, Contents(), state, done, a, currentMaxGas, lampHeight);
        todo, done := todo - {a}, done + {a};
      }
      assert done == v.pending.Keys;
    }

    /** Removes what the price heap gave up. */
    method RemoveDropped(drop: seq<Tx>)
      requires Inv() && uncovered == set d | d in drop
      modifies this`pending, this`queue, this`all, this`managed, this`headRemovals, this`uncovered, priced
      ensures Inv() && uncovered == {}
      ensures RemovedInTurn(old(Now()), Now(), drop, state) && all == old(all) - HashesIn(drop)
      ensures OnlyTouches(old(Contents()), Contents(), SendersIn(drop))
      ensures headRemovals >= old(headRemovals)
      ensures headRemovals == old(headRemovals) ==> LeaksOnly(old(Contents()), Contents(), {})
      ensures SettledKept(old(Contents()), Contents(), old(managed), managed, state)
    {
      hide Consistent, LeaksOnly, SettledKept, OnlyTouches, Removes, LeakyRemoval, HashesIn, SendersIn, RemovedInTurn;
      ghost var v, s := Contents(), Now();
      NothingRemoved(s, state);
      NoLeaks(v);
      NothingSettled(v, managed, state);
      NothingTouched(v);
      NoneIn();
      assert drop[..0] == [];
      for i := 0 to |drop|
        invariant Inv() && uncovered == set d | d in drop
        invariant RemovedInTurn(s, Now(), drop[..i], state) && all == old(all) - HashesIn(drop[..i])
        invariant OnlyTouches(v, Contents(), SendersIn(drop[..i]))
        invariant headRemovals >= old(headRemovals)
        invariant headRemovals == old(headRemovals) ==> LeaksOnly(v, Contents(), {})
        invariant SettledKept(v, Contents(), old(managed), managed, state)
      {
        ghost var u, m, before := Contents(), managed, Now();
        var hash := drop[i].Hash();
        RemoveTx(hash);
        RemovedNext(s, before, Now(), drop, i, state);
        RemovalOutcome(u, Contents(), drop[i]);
        SettledTrans(v, u, Contents(), old(managed), m, managed, state);
        TouchesCompose(v, u, Contents(), SendersIn(drop[..i]), {drop[i].from});
        PrefixSets(drop, i);
        if headRemovals == old(headRemovals) {
          NoLeaksCompose(v, u, Contents());
        }
      }
      assert drop[..|drop|] == drop;
      ConsistentKeyed(Contents());
      AllGone(all, priced.items, drop);
      uncovered := {};
    }

    /** Between public operations nothing is waiting to be removed, so the price heap holds the whole pool. */
    ghost predicate Ready()
      reads this`pending, this`queue, this`all, this`uncovered, priced
    {
      Inv() && uncovered == {}
    }

    /** Whether a transaction is remote and no dearer than the cheapest one in the pool. */
    method UnderpricedInPool(tx: Tx) returns (r: bool)
      requires Ready()
      modifies priced
      ensures Ready()
      ensures r <==> Underpriced(Contents(), tx, locals)
    {
      hide Consistent, Accounts;
      ghost var was := priced.items;
      ConsistentKeyed(Contents());
      ghost var stale;
      r, stale := priced.Underpriced(tx, all, locals);
      CoversAllButDropped(all, was, priced.items, [], stale);
      LiveIsPool(all, was, tx.gasPrice);
    }

    /** Discards the cheapest remote transactions until one more fits or none is left. */
    method MakeRoom() returns (ghost drop: seq<Tx>)
      requires Ready() && |all| >= config.globalSlots + config.globalQueue
      modifies this`pending, this`queue, this`all, this`managed, this`headRemovals, this`uncovered, priced
      ensures Ready() && RoomMade(old(Now()), Now(), drop, config.globalSlots + config.globalQueue, state)
      ensures old(Bounded()) ==> HasRoom(Now(), config.globalSlots + config.globalQueue)
      ensures (exists h :: h in old(all) && !IsLocal(locals, old(all)[h])) <==> drop != []
      ensures (drop != [] ==> all != old(all)) && all.Keys <= old(all).Keys
      ensures OnlyTouches(old(Contents()), Contents(), SendersIn(drop))
      ensures headRemovals >= old(headRemovals)
      ensures headRemovals == old(headRemovals) ==> LeaksOnly(old(Contents()), Contents(), {})
      ensures SettledKept(old(Contents()), Contents(), old(managed), managed, state)
    {
      hide Consistent, LeaksOnly, SettledKept, OnlyTouches, Accounts, RemovedInTurn, Within, HasRoom, RoomMade, SendersIn,
        IsLocal, HashKeyed, HashesIn, Live;
      ghost var was, s := priced.items, Now();
      ConsistentKeyed(Contents());
      var count := |all| - (config.globalSlots + config.globalQueue - 1);
      var dropped;
      ghost var stale;
      dropped, stale := priced.Discard(count, all, locals);
      CoversAllButDropped(all, was, priced.items, dropped, stale);
      ghost var kept := priced.items;
      uncovered := set d | d in dropped;
      RemoveDropped(dropped);
      drop := dropped;
      DiscardLeaves(s, Now(), kept, drop, config.globalSlots + config.globalQueue, state);
    }

    /** Checks a transaction; passes exactly the acceptable ones, and reports the first broken demand of any other. */
    method ValidateTx(tx: Tx, local: bool, lampHeight: nat) returns (e: Option<PoolError>)
      ensures e.None? <==> RulesFor(local, lampHeight).Acceptable(tx, locals)
      ensures e.Some? ==> RulesFor(local, lampHeight).Reports(e.value, tx, locals)
    {
      hide Gas.Charge;
      ghost var demands := RulesFor(local, lampHeight).Demands(tx, locals);
      if tx.size > MAX_TX_SIZE {
        assert FirstBroken(demands, 0);
        return Some(OversizedData);
      }
      if tx.value < 0 {
        assert FirstBroken(demands, 1);
        return Some(NegativeValue);
      }
      if currentMaxGas < tx.gas {
        assert FirstBroken(demands, 2);
        return Some(GasLimitExceeded);
      }
      if !tx.sigOk {
        assert FirstBroken(demands, 3);
        return Some(InvalidSender);
      }
      if !(local || tx.from in locals) && gasPrice > tx.gasPrice {
        assert FirstBroken(demands, 4);
        return Some(TooCheap);
      }
      if state.NonceOf(tx.from) > tx.nonce {
        assert FirstBroken(demands, 5);
        return Some(NonceTooLow);
      }
      if !tx.IsFreeAct(lampHeight) && state.BalanceOf(tx.from) < tx.Cost() {
        assert FirstBroken(demands, 6);
        return Some(InsufficientFunds);
      }
      var intrinsic := Gas.IntrinsicGas(tx.data, tx.to.None?);
      if intrinsic.None? {
        assert FirstBroken(demands, 7);
        return Some(OutOfGas);
      }
      if tx.gas < intrinsic.value {
        assert FirstBroken(demands, 8);
        return Some(IntrinsicGasTooHigh);
      }
      return None;
    }

    /** Whether a submission is turned away before anything changes, and how. */
    method TurnAway(tx: Tx, local: bool, lampHeight: nat) returns (r: Option<AddResult>)
      requires Ready()
      modifies priced
      ensures Ready()
      ensures r.Some? <==> TurnedAway(RulesFor(local, lampHeight), tx, Now())
      ensures r.Some? ==>
        !r.value.Added? && Decided(RulesFor(local, lampHeight), tx, Submission(Now(), [], Now(), Now()), r.value)
    {
      hide Consistent, Inserted, RoomMade, Rules.Acceptable, Rules.Reports, Underpriced;
      if !tx.sigOk {
        return Some(Panicked);
      }
      if !home(tx.from, lampHeight) {
        return Some(Rejected(NotLocalOrOutput));
      }
      if tx.Hash() in all {
        return Some(Rejected(KnownTransaction));
      }
      var e := ValidateTx(tx, local, lampHeight);
      if e.Some? {
        return Some(Rejected(e.value));
      }
      if |all| >= config.globalSlots + config.globalQueue {
        var underpriced := UnderpricedInPool(tx);
        if underpriced {
          return Some(Rejected(TooCheap));
        }
      }
      return None;
    }

    /** Adds a transaction to the lists; `Decided` tells the outcome in every case. */
    method Add(tx: Tx, local: bool, lampHeight: nat) returns (r: AddResult, ghost s: Submission)
      requires Ready()
      modifies this`pending, this`queue, this`all, this`managed, this`locals, this`headRemovals, this`uncovered, priced
      ensures Ready() && s.before == old(Now()) && s.after == Now()
      ensures Decided(RulesFor(local, lampHeight), tx, s, r)
      ensures r.Added? ==> Held(Contents(), tx)
      ensures |old(all)| < config.globalSlots + config.globalQueue ==> headRemovals == old(headRemovals)
      ensures headRemovals >= old(headRemovals)
      ensures headRemovals == old(headRemovals) ==> LeaksOnly(old(Contents()), Contents(), {})
      ensures SettledKept(old(Contents()), Contents(), old(managed), managed, state)
    {
      hide Consistent, LeaksOnly, SettledKept, OnlyTouches, Inserted, RoomMade, TurnedAway, Decided, Priced, Within,
        HasRoom, RemovedInTurn;
      s := Submission(Now(), [], Now(), Now());
      NoLeaks(Contents());
      NothingSettled(Contents(), managed, state);
      var away := TurnAway(tx, local, lampHeight);
      if away.Some? {
        return away.value, s;
      }
      NotTurnedAway(RulesFor(local, lampHeight), tx, s.before);
      if |all| >= config.globalSlots + config.globalQueue {
        ghost var drop := MakeRoom();
        s := s.(drop := drop, room := Now());
      }
      r := Insert(tx, local, lampHeight);
      s := s.(after := Now());
      SettledTrans(s.before.view, s.room.view, s.after.view, s.before.managed, s.room.managed, managed, state);
      if headRemovals == old(headRemovals) {
        NoLeaksCompose(s.before.view, s.room.view, s.after.view);
      }
      RoomAndInsert(RulesFor(local, lampHeight), tx, s, r);
    }

    /** Puts an unknown, acceptable transaction into the lists. */
    method Insert(tx: Tx, local: bool, ghost lampHeight: nat) returns (r: AddResult)
      requires Ready() && tx.Hash() !in all && tx.sigOk && tx.nonce >= state.NonceOf(tx.from)
      modifies this`pending, this`queue, this`all, this`locals, priced
      ensures Ready() && Inserted(RulesFor(local, lampHeight), tx, old(Now()), Now(), r)
      ensures r.Added? ==> Held(Contents(), tx)
      ensures LeaksOnly(old(Contents()), Contents(), {})
      ensures SettledKept(old(Contents()), Contents(), managed, managed, state)
    {
      hide Consistent, LeaksOnly, SettledKept, BumpThreshold;
      ghost var v := Contents();
      NoLeaks(v);
      NothingSettled(v, managed, state);
      if tx.from in pending && tx.nonce in pending[tx.from].items {
        r := ReplacePending(tx);
        return;
      }
      EnqueuedKeeps(v, tx, config.priceBump);
      EnqueueSettlesAll(v, managed, state, tx, config.priceBump);
      r := EnqueueTx(tx);
      if r.Added? && local {
        locals := locals + {tx.from};
      }
    }

    /** Replaces the pending transaction of the same nonce, if it is outbid. */
    method ReplacePending(tx: Tx) returns (r: AddResult)
      requires Ready() && tx.Hash() !in all && tx.sigOk && tx.from in pending && tx.nonce in pending[tx.from].items
      modifies this`pending, this`all, priced
      ensures Ready()
      ensures r == if old(pending)[tx.from].Admits(tx,
          config.priceBump) then Added(true) else Rejected(ReplaceUnderpriced)
      ensures Contents() == if r.Added? then Promoted(old(Contents()), tx, config.priceBump) else old(Contents())
      ensures r.Added? ==> Held(Contents(), tx)
      ensures LeaksOnly(old(Contents()), Contents(), {})
      ensures SettledKept(old(Contents()), Contents(), managed, managed, state)
    {
      hide Consistent, LeaksOnly, SettledKept, BumpThreshold;
      ghost var v := Contents();
      var l := pending[tx.from];
      if !l.Admits(tx, config.priceBump) {
        NoLeaks(v);
        NothingSettled(v, managed, state);
        return Rejected(ReplaceUnderpriced);
      }
      ReplacementKeeps(v, tx, config.priceBump);
      ReplacementSettles(v, tx, config.priceBump, managed, state);
      pending := pending[tx.from := l.Added(tx)];
      all := all - {l.items[tx.nonce].Hash()};
      priced.Removed(all);
      all := all[tx.Hash() := tx];
      priced.Put(tx);
      return Added(true);
    }

    /**
      Submits one transaction and promotes what it makes executable. A refusal changes nothing, except that a
      replacement refused for its price leaves the pool as it was exactly if it was not full or all in it was local.
     */
    method AddTx(tx: Tx, local: bool, lampHeight: nat) returns (r: AddResult, ghost s: Submission, ghost p: Promotion)
      requires Ready()
      modifies this`pending, this`queue, this`all, this`managed, this`locals, this`headRemovals, this`uncovered, priced
      ensures Ready() && headRemovals >= old(headRemovals)
      ensures s.before == old(Now()) && Submitted(RulesFor(local, lampHeight), tx, s, p, r, Now())
      ensures old(Bounded()) ==> Bounded()
      ensures r.Panicked? <==> !tx.sigOk
      ensures !r.Added? && r != Rejected(ReplaceUnderpriced) ==> Now() == old(Now())
      ensures r == Rejected(ReplaceUnderpriced) ==>
        (Contents() == old(Contents()) <==>
           |old(all)| < config.globalSlots + config.globalQueue
           || forall h | h in old(all) :: IsLocal(old(locals), old(all)[h]))
      ensures |old(all)| < config.globalSlots + config.globalQueue ==> headRemovals == old(headRemovals)
      ensures headRemovals == old(headRemovals) ==> LeaksOnly(old(Contents()), Contents(), {})
      ensures config.accountSlots >= 1 ==> SettledKept(old(Contents()), Contents(), old(managed), managed, state)
    {
      hide Consistent, LeaksOnly, SettledKept, SteadiedBy, Decided, Advanced, Within;
      ghost var v, m0 := Contents(), managed;
      ConsistentKeyed(v);
      r, s := Add(tx, local, lampHeight);
      if old(Bounded()) {
        DecidedStays(RulesFor(local, lampHeight), tx, s, r);
      }
      PanickedIff(RulesFor(local, lampHeight), tx, s, r);
      p := Promotion({tx.from}, s.after, s.after, s.after);
      if r == Added(false) {
        p := Promote({tx.from}, local, lampHeight);
        if headRemovals == old(headRemovals) {
          NoLeaksCompose(v, s.after.view, Contents());
        }
        if config.accountSlots >= 1 {
          SteadiedKeeps(s.after.view, Contents(), s.after.managed, managed, state, {tx.from});
          SettledTrans(v, s.after.view, Contents(), m0, s.after.managed, managed, state);
        }
      } else if !r.Added? {
        RefusalKeepsIff(RulesFor(local, lampHeight), tx, s, r);
      }
    }

    /** Promotes accounts after submissions. */
    method Promote(accounts: set<Address>, ghost local: bool, lampHeight: nat) returns (ghost p: Promotion)
      requires Ready()
      modifies this`pending, this`queue, this`all, this`managed, this`headRemovals, priced
      ensures Ready() && LeaksOnly(old(Contents()), Contents(), {}) && headRemovals == old(headRemovals)
      ensures p.accounts == accounts && p.before == old(Now()) && p.after == Now()
      ensures Advanced(RulesFor(local, lampHeight), p) && NothingNew(old(Contents()), Contents())
      ensures old(Bounded()) ==> Bounded()
      ensures config.accountSlots >= 1 ==>
        SteadiedBy(old(Contents()), Contents(), old(managed), managed, state, accounts)
    {
      hide Consistent, LeaksOnly, SteadiedBy, AllPromoted, FairlyTruncated, QueueTruncated, Total, Within, NothingNew;
      ghost var start := Now();
      ghost var promoted, expected := PromoteExecutables(Some(accounts), lampHeight);
      p := Promotion(accounts, start, Snapshot(promoted, expected, locals), Now());
      AdvancedOld(RulesFor(local, lampHeight), p);
      KnownShrinks(start.view, Contents());
      if Within(start, config.globalSlots + config.globalQueue) {
        FewerStays(start, Now(), config.globalSlots + config.globalQueue);
      }
    }

    /**
      Submits transactions in order, then promotes what they make executable. One whose sender cannot be recovered
      ends it all.
     */
    method AddTxs(txs: seq<Tx>, local: bool, lampHeight: nat)
      returns (rs: seq<AddResult>, ghost subs: seq<Submission>, ghost p: Promotion)
      requires Ready()
      modifies this`pending, this`queue, this`all, this`managed, this`locals, this`headRemovals, this`uncovered, priced
      ensures Ready() && headRemovals >= old(headRemovals)
      ensures AllSubmitted(RulesFor(local, lampHeight), txs, old(Now()), subs, p, rs, Now())
      ensures old(Bounded()) ==> Bounded()
      ensures Crashed(rs) <==> exists tx | tx in txs :: !tx.sigOk
      ensures headRemovals == old(headRemovals) ==> LeaksOnly(old(Contents()), Contents(), {})
      ensures config.accountSlots >= 1 ==> SettledKept(old(Contents()), Contents(), old(managed), managed, state)
      ensures txs == [] ==> Now() == old(Now()) && headRemovals == old(headRemovals)
    {
      hide Consistent, LeaksOnly, SettledKept, SteadiedBy, Decided, Advanced, AllDecided, Within;
      ghost var v, m0, start, rules := Contents(), managed, Now(), RulesFor(local, lampHeight);
      NoLeaks(v);
      NothingSettled(v, managed, state);
      NoneDecided(rules, txs, start);
      rs, subs := [], [];
      p := Promotion({}, start, start, start);
      var dirty: set<Address> := {};
      for i := 0 to |txs|
        invariant Ready() && headRemovals >= old(headRemovals) && |rs| == i
        invariant AllDecided(rules, txs, start, subs, rs) && !Crashed(rs) && Now() == Last(start, subs)
        invariant dirty == Dirty(txs, rs) && (old(Bounded()) ==> Bounded())
        invariant headRemovals == old(headRemovals) ==> LeaksOnly(v, Contents(), {})
        invariant SettledKept(v, Contents(), m0, managed, state)
        invariant i == 0 ==> Now() == start && dirty == {} && headRemovals == old(headRemovals)
      {
        ghost var u, m := Contents(), managed;
        ConsistentKeyed(u);
        ghost var s;
        var r;
        r, s := Add(txs[i], local, lampHeight);
        if old(Bounded()) {
          DecidedStays(rules, txs[i], s, r);
        }
        NextDecided(rules, txs, start, subs, rs, s, r);
        SettledTrans(v, u, Contents(), m0, m, managed, state);
        if headRemovals == old(headRemovals) {
          NoLeaksCompose(v, u, Contents());
        }
        rs, subs := rs + [r], subs + [s];
        if r.Panicked? {
          PanicsIff(rules, txs, start, subs, rs);
          return;
        }
        if r == Added(false) {
          dirty := dirty + {txs[i].from};
        }
      }
      PanicsIff(rules, txs, start, subs, rs);
      if |dirty| > 0 {
        ghost var u, m := Contents(), managed;
        p := Promote(dirty, local, lampHeight);
        if headRemovals == old(headRemovals) {
          NoLeaksCompose(v, u, Contents());
        }
        if config.accountSlots >= 1 {
          SteadiedKeeps(u, Contents(), m, managed, state, dirty);
          SettledTrans(v, u, Contents(), m0, m, managed, state);
        }
      }
    }

    /** Raises or lowers the minimum price, and removes remote transactions below it, one after the other. */
    method SetGasPrice(price: nat) returns (ghost drop: seq<Tx>)
      requires Ready()
      modifies this`gasPrice, this`pending, this`queue, this`all, this`managed, this`headRemovals, this`uncovered, priced
      ensures Ready() && gasPrice == price && headRemovals >= old(headRemovals) && (old(Bounded()) ==> Bounded())
      ensures forall h :: h in all <==> h in old(all) && (old(all)[h].gasPrice >= price || IsLocal(locals, old(all)[h]))
      ensures forall h | h in all :: all[h] == old(all)[h]
      ensures RemovedInTurn(old(Now()), Now(), drop, state) && all == old(all) - HashesIn(drop)
      ensures Repriced(price, old(Current()), drop, Current())
      ensures forall d | d in drop :: d.Hash() in old(all) && !IsLocal(locals, d) && d.gasPrice < price
      ensures headRemovals == old(headRemovals) ==> LeaksOnly(old(Contents()), Contents(), {})
      ensures SettledKept(old(Contents()), Contents(), old(managed), managed, state)
    {
      hide Consistent, LeaksOnly, SettledKept, OnlyTouches, Accounts, RemovedInTurn, Within, IsLocal, HashKeyed, HashesIn;
      ghost var was, m := priced.items, Current();
      gasPrice := price;
      ConsistentKeyed(Contents());
      var dropped;
      ghost var stale;
      dropped, stale := priced.Cap(price, all, locals);
      CoversAllButDropped(all, was, priced.items, dropped, stale);
      ghost var kept := priced.items;
      uncovered := set d | d in dropped;
      RemoveDropped(dropped);
      drop := dropped;
      ConsistentKeyed(Contents());
      IsRepriced(price, m, kept, drop, Current(), config.globalSlots + config.globalQueue);
    }

    /** Removes everything a remote account has queued; which accounts were inactive for too long is for the clock to say. */
    method Evict(inactive: set<Address>)
      requires Ready()
      modifies this`pending, this`queue, this`all, this`managed, this`headRemovals, priced
      ensures Ready() && pending == old(pending) && managed == old(managed) && headRemovals == old(headRemovals)
      ensures forall a :: ItemsOf(queue, a) == if a in inactive && a !in locals then map[] else ItemsOf(old(queue), a)
      ensures Expired(inactive, old(Current()), Current())
      ensures old(Bounded()) ==> Bounded()
      ensures LeaksOnly(old(Contents()), Contents(), {})
      ensures SettledKept(old(Contents()), Contents(), old(managed), managed, state)
    {
      hide Consistent, LeaksOnly, SettledKept, Priced, Lowest, Within, Emptied, SameElsewhere, ItemsOf, Len,
        Expired;
      ghost var v, m := Contents(), Current();
      NoLeaks(v);
      NothingSettled(v, managed, state);
      NoneEmptied(v.queue);
      var todo := set a | a in queue && a in inactive && a !in locals;
      ghost var start := todo;
      assert start - todo == {};
      while todo != {}
        invariant Ready() && todo <= start && pending == v.pending && managed == old(managed)
            && headRemovals == old(headRemovals)
        invariant Emptied(v.queue, queue, start - todo)
        invariant LeaksOnly(v, Contents(), {}) && SettledKept(v, Contents(), managed, managed, state)
        decreases todo
      {
        var a :| a in todo;
        ghost var u := Contents();
        RemoveLastQueued(a, Len(queue, a));
        LowestNone(ItemsOf(u.queue, a));
        assert ItemsOf(queue, a) == Lowest(ItemsOf(u.queue, a), 0);
        NoLeaksCompose(v, u, Contents());
        SettledTrans(v, u, Contents(), managed, managed, managed, state);
        EmptiedNext(v.queue, u.queue, queue, start, todo, a);
        todo := todo - {a};
      }
      assert start - todo == start;
      if Within(m.pool, config.globalSlots + config.globalQueue) {
        EmptiedStays(m.pool, Now(), start, config.globalSlots + config.globalQueue);
      }
      IsExpired(inactive, m, Current(), start);
    }

    /** Sets the expected nonce of each account with pending transactions past the highest one. */
    method RaiseNonces()
      requires forall a | a in pending :: pending[a].items != map[]
      modifies this`managed
      ensures Raised(pending, old(managed), managed)
    {
      var todo := pending.Keys;
      while todo != {}
        invariant todo <= pending.Keys
        invariant forall a :: if a in pending && a !in todo
                              then a in managed && managed[a] > 0 && IsTop(pending[a].items, managed[a] - 1)
                              else (a in managed <==> a in old(managed)) && (a in managed ==>
                                  managed[a] == old(managed)[a])
        decreases todo
      {
        var a :| a in todo;
        var top := HighestKey(pending[a].items);
        managed := managed[a := top + 1];
        todo := todo - {a};
      }
    }

    /** Demotes all pending lists, raises expected nonces past what is left, and promotes all accounts with a queue. */
    method Realign(lampHeight: nat) returns (ghost demoted: View, ghost raised: map<Address, nat>, ghost p: Promotion)
      requires Ready()
      modifies this`pending, this`queue, this`all, this`managed, this`headRemovals, priced
      ensures Ready() && LeaksOnly(old(Contents()), Contents(), {}) && headRemovals == old(headRemovals)
      ensures old(Bounded()) ==> Bounded()
      ensures AllDemoted(old(Contents()), demoted, state, old(pending).Keys, currentMaxGas, lampHeight)
      ensures Raised(demoted.pending, old(managed), raised)
      ensures p.accounts == demoted.queue.Keys && p.before == Snapshot(demoted, raised, locals) && p.after == Now()
      ensures Advanced(RulesFor(false, lampHeight), p)
      ensures old(managed) == map[] && (forall a :: LinedBySize(demoted, state, a)) && config.accountSlots >= 1 ==> AllSteady()
    {
      hide Consistent, LeaksOnly, SteadiedBy, AllDemoted, Settling, Steady, LinedBySize, Raised, Advanced, Priced, Within,
        NothingNew, HashKeyed, ItemsOf;
      ghost var v, start := Contents(), Now();
      DemoteUnexecutables(lampHeight);
      demoted := Contents();
      DemotedNonEmpty(v, demoted, state, currentMaxGas, lampHeight);
      DemotedOld(v, demoted, state, currentMaxGas, lampHeight);
      KnownShrinks(v, demoted);
      if Within(start, config.globalSlots + config.globalQueue) {
        FewerStays(start, Now(), config.globalSlots + config.globalQueue);
      }
      ghost var between := Now();
      RaiseNonces();
      SameSize(between, Now(), config.globalSlots + config.globalQueue);
      raised := managed;
      p := Promote(queue.Keys, false, lampHeight);
      NoLeaksCompose(v, demoted, Contents());
      if old(managed) == map[] && (forall a :: LinedBySize(demoted, state, a)) && config.accountSlots >= 1 {
        RaisedAlone(demoted, raised, state);
        SteadiedAll(demoted, Contents(), raised, managed, state);
      }
    }

    /**
      Moves the pool to a new head: `reinject` are the transactions of abandoned blocks. Panics exactly if one of them
      has no recoverable sender. If the chain only advanced, all accounts are lined up afterwards provided they were
      before.
     */
    method Reset(newState: ChainState, newMaxGas: nat, reinject: seq<Tx>, lampHeight: nat)
      returns (ok: bool, ghost turn: Turn)
      requires Ready()
      modifies this`state, this`currentMaxGas, this`pending, this`queue, this`all, this`managed, this`locals,
               this`headRemovals, this`uncovered, priced
      ensures Ready() && state == newState && currentMaxGas == newMaxGas && headRemovals >= old(headRemovals)
      ensures ok <==> forall tx | tx in reinject :: tx.sigOk
      ensures (Crashed(turn.rs) <==> !ok) && (old(Bounded()) ==> Bounded())
      ensures Turned(RulesFor(false, lampHeight), reinject, old(Snapshot(Contents(), map[], locals)), turn, Now())
      ensures headRemovals == old(headRemovals) ==> LeaksOnly(old(Contents()), Contents(), {})
      ensures reinject == [] ==> headRemovals == old(headRemovals)
      ensures old(AllSettled()) && Advances(old(state), newState) && reinject == [] && config.accountSlots >= 1 ==>
          AllSteady()
    {
      hide Consistent, LeaksOnly, SettledKept, SteadiedBy, AllDemoted, Settling, Steady, LinedBySize, Raised, Advanced,
        AllSubmitted, Turned, Priced, OnlyTouches, Within;
      ghost var v, m0, s, start := Contents(), managed, state, Snapshot(Contents(), map[], locals);
      SameSize(Now(), start, config.globalSlots + config.globalQueue);
      state := newState;
      managed := map[];
      currentMaxGas := newMaxGas;
      ghost var subs, added;
      var rs;
      rs, subs, added := AddTxs(reinject, false, lampHeight);
      ghost var reinjected := Now();
      if Crashed(rs) {
        turn := TurnCut(RulesFor(false, lampHeight), reinject, start, subs, added, rs, reinjected);
        return false, turn;
      }
      ok := true;
      ghost var demoted, raised, p := Realign(lampHeight);
      turn := TurnMade(RulesFor(false, lampHeight), reinject, start, subs, added, rs, reinjected, demoted, raised, p, Now());
      if headRemovals == old(headRemovals) {
        NoLeaksCompose(v, reinjected.view, Contents());
      }
      if reinject == [] && old(AllSettled()) && Advances(s, newState) && config.accountSlots >= 1 {
        DemotionLinesAll(v, demoted, m0, s, newState, newMaxGas, lampHeight);
      }
    }

    /**
      One event of the pool's life; `o` tells how it went, and `Handled` what it did. Ends in a panic exactly if a sender
      cannot be recovered.
     */
    method Handle(e: Event) returns (ok: bool, ghost o: Answer)
      requires Ready()
      modifies this`state, this`currentMaxGas, this`gasPrice, this`pending, this`queue, this`all, this`managed,
          this`locals,
               this`headRemovals, this`uncovered, priced
      ensures Ready() && headRemovals >= old(headRemovals) && (ok <==> Signed(e)) && (old(Bounded()) ==> Bounded())
      ensures Handled(Fixed(), e, old(Current()), o, Current())
      ensures headRemovals == old(headRemovals) ==> LeaksOnly(old(Contents()), Contents(), {})
      ensures state == if e.NewHead? then e.state else old(state)
      ensures config.accountSlots >= 1 && old(AllSteady()) && (e.NewHead? ==> e.reinject == [] && Advances(old(state), e.state))
        ==> AllSteady()
    {
      hide Consistent, LeaksOnly, Settling, Steady, SettledKept, Priced, Submitted, AllSubmitted, Turned, RemovedInTurn, Within,
        HashKeyed, Handled, Ready, Bounded, Repriced, Expired;
      ghost var v, m0, m := Contents(), managed, Current();
      if old(AllSteady()) {
        AllSteadySettled(v, managed, state);
      }
      ok := true;
      match e {
        case Submit(tx, local, lampHeight) =>
          var r;
          ghost var s, p;
          r, s, p := AddTx(tx, local, lampHeight);
          ok, o := !r.Panicked?, OneAnswer(s, p, r);
          HandlesSubmit(Fixed(), tx, local, lampHeight, m, s, p, r, Current());
        case SubmitAll(txs, local, lampHeight) =>
          var rs;
          ghost var subs, p;
          rs, subs, p := AddTxs(txs, local, lampHeight);
          ok, o := !Crashed(rs), ManyAnswers(subs, p, rs);
          HandlesSubmitAll(Fixed(), txs, local, lampHeight, m, subs, p, rs, Current());
        case Reprice(price) =>
          ghost var drop := SetGasPrice(price);
          o := DropAnswer(drop);
          HandlesReprice(Fixed(), price, m, drop, Current());
        case Expire(inactive) =>
          Evict(inactive);
          o := NoAnswer;
          HandlesExpire(Fixed(), inactive, m, Current());
        case NewHead(next, maxGas, reinject, lampHeight) =>
          ghost var turn;
          ok, turn := Reset(next, maxGas, reinject, lampHeight);
          o := TurnAnswer(turn);
          HandlesNewHead(Fixed(), next, maxGas, reinject, lampHeight, m, turn, Current());
      }
      if config.accountSlots >= 1 && old(AllSteady()) && !e.NewHead? {
        SteadyStays(v, Contents(), m0, managed, state);
      }
    }

    /**
      Any run of events, up to the first that panics, keeps the pool consistent, and `History` tells what each event
      did. The pool stays leak-free unless some removal took the head of a longer pending list; it stays within its
      limits; and while the chain only advances, every account's pending nonces are exactly the interval from the state
      nonce to the expected one.
     */
    method Run(events: seq<Event>) returns (handled: nat, ghost moments: seq<Moment>, ghost answers: seq<Answer>)
      requires Ready()
      modifies this`state, this`currentMaxGas, this`gasPrice, this`pending, this`queue, this`all, this`managed,
          this`locals,
               this`headRemovals, this`uncovered, priced
      ensures Ready() && headRemovals >= old(headRemovals)
      ensures handled <= |events| && (forall i | 0 <= i < handled :: Signed(events[i]))
      ensures (handled < |events| ==> !Signed(events[handled])) && (old(Bounded()) ==> Bounded())
      ensures |answers| == (if handled < |events| then handled + 1 else handled)
      ensures History(Fixed(), events, moments, answers) && moments[0] == old(Current()) && moments[|answers|] == Current()
      ensures headRemovals == old(headRemovals) && old(LeakFree(Contents())) ==> LeakFree(Contents())
      ensures config.accountSlots >= 1 && old(AllSteady()) && OnlyAdvances(events, old(state)) ==> AllSteady()
    {
      hide Consistent, Steady, Priced, Within, Handled, HashKeyed;
      moments, answers := [Current()], [];
      HistoryStarts(Fixed(), events, Current());
      for i := 0 to |events|
        invariant Ready() && headRemovals >= old(headRemovals) && forall j | 0 <= j < i :: Signed(events[j])
        invariant old(Bounded()) ==> Bounded()
        invariant |answers| == i && History(Fixed(), events, moments, answers)
        invariant moments[0] == old(Current()) && moments[i] == Current()
        invariant headRemovals == old(headRemovals) && old(LeakFree(Contents())) ==> LeakFree(Contents())
        invariant config.accountSlots >= 1 && old(AllSteady()) && OnlyAdvances(events, old(state)) ==>
          AllSteady() && OnlyAdvances(events[i..], state)
      {
        assert events[i..][0] == events[i] && events[i..][1..] == events[i + 1..];
        var ok;
        ghost var o;
        ok, o := Handle(events[i]);
        HistoryGoesOn(Fixed(), events, moments, answers, o, Current());
        moments, answers := moments + [Current()], answers + [o];
        if !ok {
          return i, moments, answers;
        }
      }
      return |events|, moments, answers;
    }
  }

  /** A whole life of a pool, from its creation: `History` tells what each event did to it. */
  method Lifetime(config: Config, home: (Address, nat) -> bool, priceLimit: nat, state: ChainState, maxGas: nat,
                  events: seq<Event>)
    returns (pool: TxPool, handled: nat, ghost moments: seq<Moment>, ghost answers: seq<Answer>)
    ensures fresh(pool) && pool.Ready()
    ensures handled <= |events| && (handled < |events| ==> !Signed(events[handled]))
    ensures |answers| == (if handled < |events| then handled + 1 else handled)
    ensures History(Frame(config, home), events, moments, answers) && moments[|answers|] == pool.Current()
    ensures moments[0] == Moment(Snapshot(View(map[], map[], map[]), map[], {}), priceLimit, state, maxGas)
    ensures forall t | Held(pool.Contents(), t) :: exists i :: 0 <= i < |answers| && Took(events[i], answers[i], t)
    ensures pool.Bounded() && (pool.headRemovals == 0 ==> LeakFree(pool.Contents()))
    ensures config.accountSlots >= 1 && OnlyAdvances(events, state) ==> pool.AllSteady()
  {
    hide Took, History, Within, Consistent, Steady, LeakFree;
    pool := new TxPool(config, home, priceLimit, state, maxGas);
    EmptySteady(state);
    handled, moments, answers := pool.Run(events);
    AllTaken(Frame(config, home), events, moments, answers);
  }
}
