/** How many transactions a pool knows. */
module PoolSizes {
  import opened Types
  import opened NonceMap
  import opened Seqs
  import opened TxLists
  import opened PricedList
  import opened PoolViews
  import opened PoolNonces
  import opened PoolTotals
  import opened PoolSteps
  import opened PoolRules

  ghost predicate AllLocal(s: Snapshot) {
    forall h | h in s.view.all :: IsLocal(s.locals, s.view.all[h])
  }

  ghost predicate OneRemote(s: Snapshot) {
    forall g, h | g in s.view.all && h in s.view.all
                  && !IsLocal(s.locals, s.view.all[g]) && !IsLocal(s.locals, s.view.all[h]) :: g == h
  }

  /** The pool holds no more than its limit, unless all it knows is local but for one transaction at most. */
  ghost predicate Within(s: Snapshot, limit: nat) {
    |s.view.all| <= limit || OneRemote(s)
  }

  /** There is room for one more, or everything is local. */
  ghost predicate HasRoom(s: Snapshot, limit: nat) {
    |s.view.all| < limit || AllLocal(s)
  }

  lemma TraceLocals(trace: seq<Snapshot>, drop: seq<Tx>, state: ChainState, i: nat)
    requires Trace(trace, drop, state) && i <= |drop|
    ensures trace[i].locals == trace[0].locals
  {
    hide Removes;
    var k := 0;
    while k < i
      invariant k <= i && trace[k].locals == trace[0].locals
    {
      assert RemovedOne(trace[k], trace[k + 1], drop[k], state);
      k := k + 1;
    }
  }

  lemma RemovalKeepsLocals(s: Snapshot, t: Snapshot, drop: seq<Tx>, state: ChainState)
    requires RemovedInTurn(s, t, drop, state)
    ensures t.locals == s.locals
  {
    var trace: seq<Snapshot> :| Trace(trace, drop, state) && trace[0] == s && trace[|drop|] == t;
    TraceLocals(trace, drop, state, |drop|);
  }

  lemma OneLess(all: Pool, h: Hash)
    requires h in all
    ensures |all - {h}| == |all| - 1
  {
    assert (all - {h}).Keys == all.Keys - {h};
  }

  lemma OneMore(all: Pool, more: Pool, h: Hash)
    requires more.Keys <= all.Keys + {h}
    ensures |more| <= |all| + 1
  {
    SubsetSize(more.Keys, all.Keys + {h});
  }

  lemma WasDropped(all: Pool, d: Tx)
    requires HashKeyed(all) && d.Hash() in all
    ensures all[d.Hash()] == d
  {
    assert all[d.Hash()].Hash() == d.Hash();
  }

  /** Making room in a full pool within its limits leaves room for one more, or only local transactions. */
  lemma RoomLeaves(s: Snapshot, t: Snapshot, drop: seq<Tx>, limit: nat, state: ChainState)
    requires HashKeyed(s.view.all) && |s.view.all| >= limit && Within(s, limit) && RoomMade(s, t, drop, limit, state)
    ensures HasRoom(t, limit)
  {
    hide Trace;
    RemovalKeepsLocals(s, t, drop, state);
    if !AllLocal(t) {
      assert |drop| == |s.view.all| - limit + 1;
      var d := drop[0];
      assert d in drop && d.Hash() in HashesIn(drop);
      WasDropped(s.view.all, d);
      if |s.view.all| == limit {
        assert drop == [d] && HashesIn(drop) == {d.Hash()};
        OneLess(s.view.all, d.Hash());
      }
    }
  }

  /** What discarding the cheapest comes to. */
  lemma DiscardLeaves(s: Snapshot, t: Snapshot, kept: seq<Tx>, drop: seq<Tx>, limit: nat, state: ChainState)
    requires HashKeyed(s.view.all) && |s.view.all| >= limit && RemovedInTurn(s, t, drop, state)
    requires t.view.all == s.view.all - HashesIn(drop)
    requires forall h | h in s.view.all :: s.view.all[h] in kept || s.view.all[h] in drop
    requires forall d | d in drop :: Live(s.view.all, d) && !IsLocal(s.locals, d)
    requires forall d, x | d in drop && x in kept && Live(s.view.all, x) && !IsLocal(s.locals, x) ::
      d.gasPrice <= x.gasPrice
    requires |drop| <= |s.view.all| - limit + 1
    requires |drop| < |s.view.all| - limit + 1 ==> forall x | x in kept :: IsLocal(s.locals, x)
    ensures RoomMade(s, t, drop, limit, state) && (Within(s, limit) ==> HasRoom(t, limit))
    ensures (exists h :: h in s.view.all && !IsLocal(s.locals, s.view.all[h])) <==> drop != []
    ensures (drop != [] ==> t.view.all != s.view.all) && t.view.all.Keys <= s.view.all.Keys
  {
    hide RemovedInTurn, RoomMade, IsLocal, Live, HashKeyed, HashesIn, Within, HasRoom;
    DiscardMakesRoom(s, t, kept, drop, limit, state);
    RoomRemoves(s, t, drop, limit, state);
    if Within(s, limit) {
      RoomLeaves(s, t, drop, limit, state);
    }
  }

  lemma AddedKeys(v: View, tx: Tx, bump: nat)
    ensures var w := AddedTo(v, tx, bump);
      w.all.Keys <= v.all.Keys + {tx.Hash()} && forall h | h in w.all && h != tx.Hash() :: w.all[h] == v.all[h]
  {
    hide BumpThreshold;
  }

  lemma InsertedStays(rules: Rules, tx: Tx, s: Snapshot, t: Snapshot, r: AddResult, limit: nat)
    requires HasRoom(s, limit) && Inserted(rules, tx, s, t, r)
    ensures Within(t, limit)
  {
    hide AddedTo, ListValue.Admits;
    AddedKeys(s.view, tx, rules.config.priceBump);
    OneMore(s.view.all, t.view.all, tx.Hash());
  }

  /** No submission takes the pool out of its limits. */
  lemma DecidedStays(rules: Rules, tx: Tx, s: Submission, r: AddResult)
    requires HashKeyed(s.before.view.all) && Within(s.before, rules.Limit()) && Decided(rules, tx, s, r)
    ensures Within(s.after, rules.Limit())
  {
    hide Inserted, RoomMade, TurnedAway, Rules.Acceptable, Rules.Reports, HashKeyed;
    if !TurnedAway(rules, tx, s.before) {
      if rules.Full(s.before.view) {
        RoomLeaves(s.before, s.room, s.drop, rules.Limit(), rules.state);
      }
      InsertedStays(rules, tx, s.room, s.after, r, rules.Limit());
    }
  }

  /** With fewer transactions and no fewer locals the pool stays within its limits. */
  lemma FewerStays(s: Snapshot, t: Snapshot, limit: nat)
    requires HashKeyed(s.view.all) && HashKeyed(t.view.all) && t.view.all.Keys <= s.view.all.Keys && s.locals <= t.locals
    requires Within(s, limit)
    ensures Within(t, limit)
  {
    SubsetSize(t.view.all.Keys, s.view.all.Keys);
    forall h | h in t.view.all
      ensures t.view.all[h] == s.view.all[h]
    {
      assert t.view.all[h].Hash() == s.view.all[h].Hash();
    }
  }

  /** What is listed was listed before. */
  ghost predicate NothingNew(v: View, w: View) {
    forall t | Held(w, t) :: Held(v, t)
  }

  /** If nothing new is listed and nothing leaks, nothing new is known. */
  lemma KnownShrinks(v: View, w: View)
    requires Consistent(v) && Consistent(w) && LeaksOnly(v, w, {}) && NothingNew(v, w)
    ensures w.all.Keys <= v.all.Keys && HashKeyed(v.all) && HashKeyed(w.all)
  {
    hide Filed, Apart;
    forall h | h in w.all
      ensures h in v.all
    {
      var t := w.all[h];
      assert t.Hash() == h;
      if !Held(w, t) {
        assert Unheld(w, t);
      }
    }
  }

  lemma NothingNewTrans(u: View, v: View, w: View)
    requires NothingNew(u, v) && NothingNew(v, w)
    ensures NothingNew(u, w)
  {
  }

  /** Every transaction listed under an account was listed under it before, pending or queued. */
  lemma ByAccount(v: View, w: View)
    requires forall a, n | n in ItemsOf(w.pending, a) || n in ItemsOf(w.queue, a) :: OldItem(v, w, a, n)
    ensures NothingNew(v, w)
  {
    forall t | Held(w, t)
      ensures Held(v, t)
    {
      var n: nat := t.nonce;
      assert n in ItemsOf(w.pending, t.from) || n in ItemsOf(w.queue, t.from);
      assert OldItem(v, w, t.from, n);
    }
  }

  ghost predicate OldItem(v: View, w: View, a: Address, n: nat) {
    && (n in ItemsOf(w.pending, a) ==> FromEither(v, a, n, ItemsOf(w.pending, a)[n]))
    && (n in ItemsOf(w.queue, a) ==> FromEither(v, a, n, ItemsOf(w.queue, a)[n]))
  }

  ghost predicate FromEither(v: View, a: Address, n: nat, t: Tx) {
    || (n in ItemsOf(v.pending, a) && ItemsOf(v.pending, a)[n] == t)
    || (n in ItemsOf(v.queue, a) && ItemsOf(v.queue, a)[n] == t)
  }

  lemma PromotedOld(v: View, w: View, m: map<Address, nat>, m': map<Address, nat>, state: ChainState, a: Address,
                    maxGas: nat, lampHeight: nat, cap: Option<nat>, n: nat)
    requires PromotedAt(v, w, m, m', state, a, maxGas, lampHeight, cap)
    ensures OldItem(v, w, a, n)
  {
    PayableItems(v, state, a, maxGas, lampHeight);
    hide PayableOf;
  }

  lemma PayableItems(v: View, state: ChainState, a: Address, maxGas: nat, lampHeight: nat)
    ensures SubItems(PayableOf(v, state, a, maxGas, lampHeight), ItemsOf(v.queue, a))
  {
  }

  lemma PromotionOld(rules: Rules, v: View, w: View, m: map<Address, nat>, m': map<Address, nat>, accounts: set<Address>,
                     locals: set<Address>)
    requires AllPromoted(v, w, m, m', rules.state, accounts, locals, rules.maxGas, rules.lampHeight,
                         rules.config.accountQueue)
    ensures NothingNew(v, w)
  {
    hide PromotedAt, OldItem;
    forall a, n | n in ItemsOf(w.pending, a) || n in ItemsOf(w.queue, a)
      ensures OldItem(v, w, a, n)
    {
      if a in accounts {
        PromotedOld(v, w, m, m', rules.state, a, rules.maxGas, rules.lampHeight,
                    if a in locals then None else Some(rules.config.accountQueue), n);
      } else {
        SameOld(v, w, m, m', rules.state, a, n);
      }
    }
    ByAccount(v, w);
  }

  lemma SameOld(v: View, w: View, m: map<Address, nat>, m': map<Address, nat>, state: ChainState, a: Address, n: nat)
    requires SameAt(v, w, m, m', state, a)
    ensures OldItem(v, w, a, n)
  {
  }

  lemma TruncationOld(v: View, w: View, locals: set<Address>, slots: nat)
    requires FairlyTruncated(v.pending, w.pending, locals, slots) && QueueTruncated(v.queue, w.queue, locals)
    ensures NothingNew(v, w)
  {
    forall a, n | n in ItemsOf(w.pending, a) || n in ItemsOf(w.queue, a)
      ensures OldItem(v, w, a, n)
    {
      assert a in w.pending ==> PrefixOf(v.pending[a], w.pending[a]);
    }
    ByAccount(v, w);
  }

  lemma AdvancedOld(rules: Rules, p: Promotion)
    requires Advanced(rules, p)
    ensures NothingNew(p.before.view, p.after.view)
  {
    hide AllPromoted, FairlyTruncated, QueueTruncated, NothingNew, Total;
    PromotionOld(rules, p.before.view, p.promoted.view, p.before.managed, p.promoted.managed, p.accounts, p.before.locals);
    TruncationOld(p.promoted.view, p.after.view, p.before.locals, rules.config.accountSlots);
    NothingNewTrans(p.before.view, p.promoted.view, p.after.view);
  }

  lemma DemotedOld(v: View, w: View, state: ChainState, maxGas: nat, lampHeight: nat)
    requires AllDemoted(v, w, state, v.pending.Keys, maxGas, lampHeight)
    ensures NothingNew(v, w)
  {
    hide DemotedAt, OldItem;
    forall a, n | n in ItemsOf(w.pending, a) || n in ItemsOf(w.queue, a)
      ensures OldItem(v, w, a, n)
    {
      if a in v.pending {
        DemotedAtOld(v, w, state, a, maxGas, lampHeight, n);
      } else {
        ListsSameOld(v, w, a, n);
      }
    }
    ByAccount(v, w);
  }

  lemma DemotedAtOld(v: View, w: View, state: ChainState, a: Address, maxGas: nat, lampHeight: nat, n: nat)
    requires a in v.pending && DemotedAt(v, w, state, a, maxGas, lampHeight)
    ensures OldItem(v, w, a, n)
  {
    hide Unpayable;
  }

  lemma ListsSameOld(v: View, w: View, a: Address, n: nat)
    requires ListsSameAt(v, w, a)
    ensures OldItem(v, w, a, n)
  {
  }

  lemma EvictedOld(v: View, w: View)
    requires w.pending == v.pending
    requires forall a :: ItemsOf(w.queue, a) == map[] || ItemsOf(w.queue, a) == ItemsOf(v.queue, a)
    ensures NothingNew(v, w)
  {
  }

  /** Exactly the queues of the accounts are emptied. */
  ghost predicate Emptied(was: Lists, now: Lists, accounts: set<Address>) {
    forall a :: ItemsOf(now, a) == if a in accounts then map[] else ItemsOf(was, a)
  }

  lemma NoneEmptied(was: Lists)
    ensures Emptied(was, was, {})
  {
  }

  lemma EmptiedNext(was: Lists, u: Lists, now: Lists, start: set<Address>, todo: set<Address>, a: Address)
    requires Emptied(was, u, start - todo) && SameElsewhere(u, now, a) && ItemsOf(now, a) == map[] && a in todo && todo <= start
    ensures Emptied(was, now, start - (todo - {a}))
  {
    forall b
      ensures ItemsOf(now, b) == if b in start - (todo - {a}) then map[] else ItemsOf(was, b)
    {
      assert ItemsOf(u, b) == if b in start - todo then map[] else ItemsOf(was, b);
    }
  }

  /** What emptying queues leaves is no more than before. */
  lemma EmptiedStays(s: Snapshot, t: Snapshot, accounts: set<Address>, limit: nat)
    requires Emptied(s.view.queue, t.view.queue, accounts) && t.view.pending == s.view.pending && t.locals == s.locals
    requires Consistent(s.view) && Consistent(t.view) && LeaksOnly(s.view, t.view, {}) && Within(s, limit)
    ensures Within(t, limit)
  {
    hide Consistent, LeaksOnly, Within, NothingNew, HashKeyed;
    EvictedOld(s.view, t.view);
    KnownShrinks(s.view, t.view);
    FewerStays(s, t, limit);
  }

  /** Expected nonces do not count. */
  lemma SameSize(s: Snapshot, t: Snapshot, limit: nat)
    requires t.view.all == s.view.all && t.locals == s.locals
    ensures Within(s, limit) <==> Within(t, limit)
  {
  }
}
