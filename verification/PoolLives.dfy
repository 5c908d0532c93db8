/** Lives of a pool in which it fails its purpose. */
module PoolLives {
  import opened Types
  import opened NonceMap
  import opened TxLists
  import opened PricedList
  import opened PoolViews
  import opened PoolNonces
  import opened PoolTotals
  import opened PoolSteps
  import opened PoolRules
  import opened PoolSizes
  import opened TxPools
  import Gas

  const LAMP: nat := 2000

  /** Room for two transactions, all pending; a replacement has to pay a tenth more. */
  function SmallConfig(): Config {
    Config(10, 16, 2, 64, 0)
  }

  /** Two accounts that can pay for anything, and have sent nothing yet. */
  function Rich(): ChainState {
    ChainState(map[], map[Address(0) := 0x1_0000_0000, Address(1) := 0x1_0000_0000])
  }

  function Transfer(from: nat, nonce: Nonce, price: nat): Tx {
    Tx(Address(from), true, nonce, price, 21000, Some(Address(7)), 0, [], 0, 100)
  }

  function AllHome(): (Address, nat) -> bool {
    (a: Address, lamp: nat) => true
  }

  function RulesAt(gasPrice: nat): Rules {
    Rules(SmallConfig(), AllHome(), gasPrice, Rich(), 21000, false, LAMP)
  }

  lemma TransferAcceptable(from: nat, nonce: Nonce, price: nat, gasPrice: nat)
    requires from < 2 && gasPrice <= price <= 1000
    ensures var tx, rules := Transfer(from, nonce, price), RulesAt(gasPrice);
      rules.Acceptable(tx, {}) && rules.Routable(tx) && !tx.IsFreeAct(LAMP) && tx.Cost() <= Rich().BalanceOf(tx.from)
  {
    assert Gas.Charge([], false) == 21000;
  }

  /** The account's transactions are all pending, and as many are expected to be used up. */
  ghost predicate ListedAt(s: Snapshot, lists: map<Address, Items>, a: Address) {
    && (a in s.view.pending <==> a in lists) && (a in s.view.queue ==> a in lists)
    && ItemsOf(s.view.pending, a) == At(lists, a) && ItemsOf(s.view.queue, a) == map[]
    && NonceIn(s.managed, Rich(), a) == |At(lists, a)|
  }

  /** Exactly the listed transactions are pending, none is queued, and nobody is local. */
  ghost predicate Listed(s: Snapshot, lists: map<Address, Items>) {
    s.locals == {} && forall a :: ListedAt(s, lists, a)
  }

  function At(lists: map<Address, Items>, a: Address): Items {
    if a in lists then lists[a] else map[]
  }

  predicate In(lists: map<Address, Items>, t: Tx) {
    t.nonce in At(lists, t.from) && At(lists, t.from)[t.nonce] == t
  }

  /** In a leak-free pool exactly the listed transactions are known. */
  lemma KnownAreListed(s: Snapshot, lists: map<Address, Items>)
    requires Listed(s, lists) && Consistent(s.view) && LeakFree(s.view)
    ensures forall h :: h in s.view.all <==> In(lists, h.tx)
    ensures forall h | h in s.view.all :: s.view.all[h] == h.tx
  {
    hide Filed, Apart;
    LeakFreeIsExact(s.view);
    forall h
      ensures h in s.view.all <==> In(lists, h.tx)
    {
      assert h == h.tx.Hash() && ListedAt(s, lists, h.tx.from);
      assert Held(s.view, h.tx) <==> HeldIn(s.view.pending, h.tx);
    }
  }

  /** A pool that knows exactly two transactions. */
  lemma PoolOfTwo(all: Pool, x: Tx, y: Tx)
    requires x != y && (forall h :: h in all <==> h.tx == x || h.tx == y) && forall h | h in all :: all[h] == h.tx
    ensures all == map[x.Hash() := x, y.Hash() := y] && |all| == 2
  {
    assert x.Hash().tx == x && y.Hash().tx == y;
    forall h
      ensures h in all <==> h == x.Hash() || h == y.Hash()
    {
      assert h == h.tx.Hash();
    }
    assert all.Keys == {x.Hash(), y.Hash()};
  }

  lemma TotalOfTwo(lists: Lists, a: Address, b: Address)
    requires lists.Keys <= {a, b} && a != b
    ensures Total(lists) == Len(lists, a) + Len(lists, b)
  {
    TotalRest(lists, a);
    TotalRest(lists - {a}, b);
    assert lists - {a} - {b} == map[];
  }

  /** A queue that holds one payable transaction, due next, hands it over whole. */
  lemma OneReady(l: ListValue, tx: Tx, a: Address, maxGas: nat)
    requires l.items == map[tx.nonce := tx] && !l.strict && tx.gas <= maxGas && tx.Cost() <= Rich().BalanceOf(a)
    ensures var payable := Payable(l, Rich(), a, maxGas, LAMP).items;
      && payable == map[tx.nonce := tx]
      && ReadyRun(payable, tx.nonce) == payable && AfterReady(payable, tx.nonce) == map[]
  {
    var m: Items := map[tx.nonce := tx];
    assert AtLeast(m, 0) == m;
    assert tx.nonce in m;
    assert Startable(m, tx.nonce) && InRun(m, tx.nonce);
  }

  /** Queueing the next transaction of an account. */
  lemma NextQueued(s: Snapshot, lists: map<Address, Items>, tx: Tx, bump: nat)
    requires Listed(s, lists) && tx.nonce == |At(lists, tx.from)| && tx.nonce !in At(lists, tx.from)
    requires Consistent(s.view)
    ensures Slot(s.view, tx).Admits(tx, bump) && tx.nonce !in Slot(s.view, tx).items
    ensures var v := AddedTo(s.view, tx, bump);
      && v.pending == s.view.pending && SameElsewhere(s.view.queue, v.queue, tx.from)
      && tx.from in v.queue && v.queue[tx.from].items == map[tx.nonce := tx] && !v.queue[tx.from].strict
  {
    hide Consistent;
    Strictness(s.view, tx.from);
    assert ListedAt(s, lists, tx.from);
  }

  lemma PromotedHere(v: View, w: View, m: map<Address, nat>, m': map<Address, nat>, tx: Tx, maxGas: nat, cap: nat)
    requires tx.from in v.queue && v.queue[tx.from].items == map[tx.nonce := tx] && !v.queue[tx.from].strict
    requires tx.gas <= maxGas && tx.Cost() <= Rich().BalanceOf(tx.from) && NonceIn(m, Rich(), tx.from) == tx.nonce
    requires PromotedAt(v, w, m, m', Rich(), tx.from, maxGas, LAMP, Some(cap))
    ensures ItemsOf(w.pending, tx.from) == ItemsOf(v.pending, tx.from)[tx.nonce := tx]
    ensures ItemsOf(w.queue, tx.from) == map[] && NonceIn(m', Rich(), tx.from) == tx.nonce + 1
  {
    hide Payable, ReadyRun, AfterReady;
    OneReady(v.queue[tx.from], tx, tx.from, maxGas);
    assert Lowest(map[], cap) == map[];
    var one: Items := map[tx.nonce := tx];
    assert tx.nonce in one;
  }

  lemma ExpectedIsSize(s: Snapshot, lists: map<Address, Items>, a: Address)
    requires ListedAt(s, lists, a)
    ensures NonceIn(s.managed, Rich(), a) == |At(lists, a)| && ItemsOf(s.view.pending, a) == At(lists, a)
  {
  }

  lemma ListedHere(s: Snapshot, t: Snapshot, lists: map<Address, Items>, tx: Tx)
    requires tx.nonce == |At(lists, tx.from)| && tx.nonce !in At(lists, tx.from)
    requires ItemsOf(t.view.pending, tx.from) == At(lists, tx.from)[tx.nonce := tx]
    requires ItemsOf(t.view.queue, tx.from) == map[] && NonceIn(t.managed, Rich(), tx.from) == tx.nonce + 1
    ensures ListedAt(t, lists[tx.from := At(lists, tx.from)[tx.nonce := tx]], tx.from)
  {
    assert tx.nonce in ItemsOf(t.view.pending, tx.from);
  }

  lemma ListedElsewhere(s: Snapshot, v: View, t: Snapshot, lists: map<Address, Items>, tx: Tx, b: Address)
    requires ListedAt(s, lists, b) && b != tx.from
    requires v.pending == s.view.pending && SameElsewhere(s.view.queue, v.queue, tx.from)
    requires SameAt(v, t.view, s.managed, t.managed, Rich(), b)
    ensures ListedAt(t, lists[tx.from := At(lists, tx.from)[tx.nonce := tx]], b)
  {
  }

  /** Promotion makes it pending. */
  lemma NextPromoted(s: Snapshot, v: View, lists: map<Address, Items>, tx: Tx, p: Promotion, rules: Rules)
    requires Listed(s, lists) && tx.nonce == |At(lists, tx.from)| && tx.nonce !in At(lists, tx.from)
    requires v.pending == s.view.pending && SameElsewhere(s.view.queue, v.queue, tx.from)
    requires tx.from in v.queue && v.queue[tx.from].items == map[tx.nonce := tx] && !v.queue[tx.from].strict
    requires rules.state == Rich() && rules.lampHeight == LAMP && tx.gas <= rules.maxGas
    requires tx.Cost() <= Rich().BalanceOf(tx.from)
    requires p.accounts == {tx.from} && p.before == Snapshot(v, s.managed, {}) && p.promoted.locals == {}
    requires AllPromoted(v, p.promoted.view, s.managed, p.promoted.managed, Rich(), {tx.from}, {}, rules.maxGas, LAMP,
                         rules.config.accountQueue)
    ensures Listed(p.promoted, lists[tx.from := At(lists, tx.from)[tx.nonce := tx]])
  {
    hide PromotedAt, ListedAt;
    var a, w := tx.from, p.promoted.view;
    var more := lists[a := At(lists, a)[tx.nonce := tx]];
    assert ListedAt(s, lists, a);
    ExpectedIsSize(s, lists, a);
    PromotedHere(v, w, s.managed, p.promoted.managed, tx, rules.maxGas, rules.config.accountQueue);
    ListedHere(s, p.promoted, lists, tx);
    forall b | b != a
      ensures ListedAt(p.promoted, more, b)
    {
      assert ListedAt(s, lists, b) && SameAt(v, w, s.managed, p.promoted.managed, Rich(), b);
      ListedElsewhere(s, v, p.promoted, lists, tx, b);
    }
  }

  /** Nothing but the lists and the expected nonces counts. */
  lemma SameListed(s: Snapshot, t: Snapshot, lists: map<Address, Items>)
    requires Listed(s, lists) && t.locals == s.locals && t.managed == s.managed
    requires t.view.pending == s.view.pending && t.view.queue == s.view.queue
    ensures Listed(t, lists)
  {
    forall a
      ensures ListedAt(t, lists, a)
    {
      assert ListedAt(s, lists, a);
    }
  }

  /** An account's next transaction is acceptable, and there is room for it. */
  ghost predicate Due(s: Snapshot, lists: map<Address, Items>, tx: Tx, gasPrice: nat) {
    && Listed(s, lists) && tx.nonce == |At(lists, tx.from)| && tx.nonce !in At(lists, tx.from)
    && lists.Keys + {tx.from} <= {Address(0), Address(1)}
    && |At(lists, Address(0))| + |At(lists, Address(1))| < 2
    && !TurnedAway(RulesAt(gasPrice), tx, s) && !RulesAt(gasPrice).Full(s.view)
    && tx.gas <= 21000 && tx.Cost() <= Rich().BalanceOf(tx.from)
  }

  function With(lists: map<Address, Items>, tx: Tx): map<Address, Items> {
    lists[tx.from := At(lists, tx.from)[tx.nonce := tx]]
  }

  /** Submitting it makes it pending. */
  lemma NextJoins(s: Submission, p: Promotion, r: AddResult, end: Snapshot, lists: map<Address, Items>, tx: Tx,
                  gasPrice: nat)
    requires Due(s.before, lists, tx, gasPrice) && Consistent(s.before.view)
    requires Submitted(RulesAt(gasPrice), tx, s, p, r, end)
    ensures r == Added(false) && Listed(end, With(lists, tx))
  {
    hide Listed, TurnedAway, AllPromoted, FairlyTruncated, QueueTruncated, Total, Consistent;
    var rules := RulesAt(gasPrice);
    NextQueued(s.before, lists, tx, rules.config.priceBump);
    NotLocal(s.before, lists);
    NextPromoted(s.before, s.after.view, lists, tx, p, rules);
    NothingTruncatedYet(p, With(lists, tx));
    SameListed(p.promoted, p.after, With(lists, tx));
  }

  lemma NotLocal(s: Snapshot, lists: map<Address, Items>)
    requires Listed(s, lists)
    ensures s.locals == {}
  {
  }

  /** Two transactions pending and none queued is not too much. */
  lemma NothingTruncatedYet(p: Promotion, lists: map<Address, Items>)
    requires Listed(p.promoted, lists) && lists.Keys <= {Address(0), Address(1)}
    requires |At(lists, Address(0))| + |At(lists, Address(1))| <= 2
    ensures Total(p.promoted.view.pending) <= 2 && Total(p.promoted.view.queue) <= 0
  {
    hide Total;
    forall a
      ensures (a in p.promoted.view.pending ==> a in lists) && (a in p.promoted.view.queue ==> a in lists)
    {
      assert ListedAt(p.promoted, lists, a);
    }
    assert ListedAt(p.promoted, lists, Address(0)) && ListedAt(p.promoted, lists, Address(1));
    TotalOfTwo(p.promoted.view.pending, Address(0), Address(1));
    TotalOfTwo(p.promoted.view.queue, Address(0), Address(1));
  }

  // ---------------------------------------------------------------------------------------------
  // A refused replacement that evicts another account's transaction

  const A0 := Transfer(0, 0, 100)
  const B0 := Transfer(1, 0, 1)
  const A1 := Transfer(0, 0, 105)

  function FirstOf(tx: Tx): Items {
    map[tx.nonce := tx]
  }

  lemma EmptyListed(s: Snapshot)
    requires s == Snapshot(View(map[], map[], map[]), map[], {})
    ensures Listed(s, map[]) && LeakFree(s.view)
  {
  }

  lemma IsDue(s: Snapshot, lists: map<Address, Items>, from: nat, nonce: Nonce, price: nat, gasPrice: nat)
    requires Listed(s, lists) && from < 2 && gasPrice <= price <= 1000
    requires lists.Keys <= {Address(0), Address(1)} && |At(lists, Address(0))| + |At(lists, Address(1))| < 2
    requires nonce == |At(lists, Address(from))| && nonce !in At(lists, Address(from))
    requires |s.view.all| < 2 && Transfer(from, nonce, price).Hash() !in s.view.all
    ensures Due(s, lists, Transfer(from, nonce, price), gasPrice)
  {
    hide Rules.Acceptable, Listed;
    NotLocal(s, lists);
    TransferAcceptable(from, nonce, price, gasPrice);
  }

  /** With one transaction listed, one is known. */
  lemma OneKnown(s: Snapshot, tx: Tx)
    requires Listed(s, map[tx.from := FirstOf(tx)]) && Consistent(s.view) && LeakFree(s.view)
    ensures |s.view.all| == 1 && forall h :: h in s.view.all <==> h == tx.Hash()
  {
    hide Listed, Consistent, LeakFree;
    var lists := map[tx.from := FirstOf(tx)];
    KnownAreListed(s, lists);
    forall h
      ensures h in s.view.all <==> h == tx.Hash()
    {
      assert h == h.tx.Hash() && (In(lists, h.tx) <==> h.tx == tx);
    }
    assert s.view.all.Keys == {tx.Hash()};
  }

  function TwoAccounts(): map<Address, Items> {
    map[Address(0) := FirstOf(A0), Address(1) := FirstOf(B0)]
  }

  lemma TwoKnown(s: Snapshot)
    requires Listed(s, TwoAccounts()) && Consistent(s.view) && LeakFree(s.view)
    ensures s.view.all == map[A0.Hash() := A0, B0.Hash() := B0] && |s.view.all| == 2
  {
    hide Listed, Consistent, LeakFree;
    KnownAreListed(s, TwoAccounts());
    assert A0 != B0;
    forall h
      ensures h in s.view.all <==> h.tx == A0 || h.tx == B0
    {
      assert In(TwoAccounts(), h.tx) <==> h.tx == A0 || h.tx == B0;
    }
    PoolOfTwo(s.view.all, A0, B0);
  }

  /** Room is made from the cheaper of the two. */
  lemma CheaperGoes(s: Snapshot, t: Snapshot, drop: seq<Tx>)
    requires s.view.all == map[A0.Hash() := A0, B0.Hash() := B0] && |s.view.all| == 2 && s.locals == {}
    requires RoomMade(s, t, drop, 2, Rich())
    ensures drop == [B0] && RemovedOne(s, t, B0, Rich())
  {
    hide RemovedOne;
    var h := B0.Hash();
    assert A0 != B0 && A0.Hash() != h && s.view.all[h] == B0 && !IsLocal(s.locals, B0);
    NoneIn();
    assert drop != [];
    var d := drop[0];
    assert d in drop && drop == [d];
    assert d.Hash() == A0.Hash() || d.Hash() == h;
    assert HashesIn(drop) == {d.Hash()};
    assert h in t.view.all ==> d.gasPrice <= t.view.all[h].gasPrice;
    assert d == B0;
    var trace: seq<Snapshot> :| Trace(trace, drop, Rich()) && trace[0] == s && trace[1] == t;
  }

  lemma TooLittleMore(s: Snapshot, t: Snapshot)
    requires Listed(s, TwoAccounts()) && B0.Hash() in s.view.all && s.view.all[B0.Hash()] == B0
    requires RemovedOne(s, t, B0, Rich())
    ensures !Slot(t.view, A1).Admits(A1, 10) && t.view.all == s.view.all - {B0.Hash()}
  {
    assert ListedAt(s, TwoAccounts(), Address(0));
    assert BumpThreshold(100, 10) == 110;
  }

  lemma RefusedAfterEviction(s: Submission, r: AddResult)
    requires Listed(s.before, TwoAccounts()) && Consistent(s.before.view) && LeakFree(s.before.view)
    requires Decided(RulesAt(1), A1, s, r)
    ensures r == Rejected(ReplaceUnderpriced) && s.after.view.all == map[A0.Hash() := A0]
  {
    hide Rules.Acceptable, Rules.Reports, RoomMade, Listed, Consistent, LeakFree, RemovedOne, Slot, ListValue.Admits;
    TwoKnown(s.before);
    NotLocal(s.before, TwoAccounts());
    TransferAcceptable(0, 0, 105, 1);
    assert A1.Hash().tx == A1 && A1 != A0 && A1 != B0;
    assert s.before.view.all[B0.Hash()].gasPrice == 1;
    CheaperGoes(s.before, s.room, s.drop);
    TooLittleMore(s.before, s.room);
    assert s.room.view.all == map[A0.Hash() := A0];
  }

  /**
    In a full pool account 1's only transaction is evicted for a replacement by account 0 that is then refused for its
    price.
   */
  method RefusalEvicts() returns (pool: TxPool, r: AddResult, ghost before: View)
    ensures fresh(pool) && pool.Ready() && r == Rejected(ReplaceUnderpriced)
    ensures before.all == map[A0.Hash() := A0, B0.Hash() := B0] && pool.all == map[A0.Hash() := A0]
  {
    hide Listed, Consistent, LeakFree, LeaksOnly, Submitted, Decided, Due, Within, SettledKept;
    pool := new TxPool(SmallConfig(), AllHome(), 1, Rich(), 21000);
    EmptyListed(pool.Now());
    IsDue(pool.Now(), map[], 0, 0, 100, 1);
    Submit(pool, map[], A0, 1);
    assert With(map[], A0) == map[Address(0) := FirstOf(A0)];
    OneKnown(pool.Now(), A0);
    assert A0.Hash() != B0.Hash();
    IsDue(pool.Now(), map[Address(0) := FirstOf(A0)], 1, 0, 1, 1);
    Submit(pool, map[Address(0) := FirstOf(A0)], B0, 1);
    assert With(map[Address(0) := FirstOf(A0)], B0) == TwoAccounts();
    before := pool.Contents();
    TwoKnown(pool.Now());
    ghost var s, p;
    r, s, p := pool.AddTx(A1, false, LAMP);
    SubmittedDecided(RulesAt(1), A1, s, p, r, pool.Now());
    RefusedAfterEviction(s, r);
  }

  lemma SubmittedDecided(rules: Rules, tx: Tx, s: Submission, p: Promotion, r: AddResult, end: Snapshot)
    requires Submitted(rules, tx, s, p, r, end)
    ensures Decided(rules, tx, s, r) && (r != Added(false) ==> end == s.after)
  {
  }

  /** Submits an account's next transaction, for which there is room. */
  method Submit(pool: TxPool, ghost lists: map<Address, Items>, tx: Tx, ghost gasPrice: nat)
    requires pool.Ready() && LeakFree(pool.Contents()) && pool.RulesFor(false, LAMP) == RulesAt(gasPrice)
    requires Due(pool.Now(), lists, tx, gasPrice)
    modifies pool`pending, pool`queue, pool`all, pool`managed, pool`locals, pool`headRemovals, pool`uncovered, pool.priced
    ensures pool.Ready() && LeakFree(pool.Contents()) && pool.RulesFor(false, LAMP) == RulesAt(gasPrice)
    ensures Listed(pool.Now(), With(lists, tx))
  {
    hide Listed, Consistent, Submitted, LeakFree, LeaksOnly, Due, With, Within, SettledKept;
    ghost var v, rules := pool.Contents(), pool.RulesFor(false, LAMP);
    NotFull(pool.Now(), lists, tx, gasPrice);
    var r;
    ghost var s, p;
    r, s, p := pool.AddTx(tx, false, LAMP);
    NextJoins(s, p, r, pool.Now(), lists, tx, gasPrice);
    StillLeakFree(v, pool.Contents());
  }

  lemma NotFull(s: Snapshot, lists: map<Address, Items>, tx: Tx, gasPrice: nat)
    requires Due(s, lists, tx, gasPrice)
    ensures |s.view.all| < 2
  {
  }

  lemma StillLeakFree(v: View, w: View)
    requires LeakFree(v) && LeaksOnly(v, w, {})
    ensures LeakFree(w)
  {
  }

  // ---------------------------------------------------------------------------------------------
  // A new minimum price that leaks

  const T0 := Transfer(0, 0, 1)
  const T1 := Transfer(0, 1, 10)

  function BothOf(): map<Address, Items> {
    map[Address(0) := map[0 := T0, 1 := T1]]
  }

  /** Removing one transaction over and over is removing it once. */
  lemma RemovedOnce(s: Snapshot, t: Snapshot, drop: seq<Tx>, d: Tx, state: ChainState)
    requires RemovedInTurn(s, t, drop, state) && drop != [] && (forall x | x in drop :: x == d)
    requires d.Hash() in s.view.all && s.view.all[d.Hash()] == d
    ensures Removes(s.view, t.view, d)
  {
    hide Removes;
    var trace: seq<Snapshot> :| Trace(trace, drop, state) && trace[0] == s && trace[|drop|] == t;
    assert drop[0] in drop && RemovedOne(trace[0], trace[1], drop[0], state);
    RemovesKnown(s.view, trace[1].view, d);
    var i := 1;
    while i < |drop|
      invariant 1 <= i <= |drop| && trace[i] == trace[1]
    {
      assert drop[i] in drop && RemovedOne(trace[i], trace[i + 1], drop[i], state);
      i := i + 1;
    }
  }

  lemma RemovesKnown(v: View, w: View, d: Tx)
    requires Removes(v, w, d)
    ensures d.Hash() !in w.all
  {
  }

  lemma HeadRemovalLosesTail(s: Snapshot, w: View)
    requires Listed(s, BothOf()) && T1.Hash() in s.view.all && Removes(s.view, w, T0)
    ensures Unheld(w, T1)
  {
    assert ListedAt(s, BothOf(), Address(0));
    var m: Items := map[0 := T0, 1 := T1];
    assert Below(m, 0) == map[];
    assert T0.Hash().tx == T0 && T1.Hash().tx == T1;
  }

  lemma BothKnown(s: Snapshot)
    requires Listed(s, BothOf()) && Consistent(s.view) && LeakFree(s.view)
    ensures s.view.all == map[T0.Hash() := T0, T1.Hash() := T1]
  {
    hide Listed, Consistent, LeakFree;
    KnownAreListed(s, BothOf());
    assert T0 != T1;
    forall h
      ensures h in s.view.all <==> h.tx == T0 || h.tx == T1
    {
      assert In(BothOf(), h.tx) <==> h.tx == T0 || h.tx == T1;
    }
    PoolOfTwo(s.view.all, T0, T1);
  }

  /** Raising the minimum price between the prices of two pending transactions of one account leaves the second one
      known but in no list. */
  method RepriceLeaks() returns (pool: TxPool)
    ensures fresh(pool) && pool.Ready() && pool.headRemovals > 0 && Unheld(pool.Contents(), T1)
  {
    hide Listed, Consistent, LeakFree, LeaksOnly, Removes, RemovedInTurn, Unheld, Due, Within, SettledKept;
    pool := new TxPool(SmallConfig(), AllHome(), 1, Rich(), 21000);
    EmptyListed(pool.Now());
    IsDue(pool.Now(), map[], 0, 0, 1, 1);
    Submit(pool, map[], T0, 1);
    assert With(map[], T0) == map[Address(0) := FirstOf(T0)];
    OneKnown(pool.Now(), T0);
    assert T0.Hash() != T1.Hash();
    IsDue(pool.Now(), map[Address(0) := FirstOf(T0)], 0, 1, 10, 1);
    Submit(pool, map[Address(0) := FirstOf(T0)], T1, 1);
    assert With(map[Address(0) := FirstOf(T0)], T1) == BothOf();
    ghost var s := pool.Now();
    BothKnown(s);
    NotLocal(s, BothOf());
    ghost var drop := pool.SetGasPrice(5);
    DroppedIsT0(s, drop, pool.all);
    RemovedOnce(s, pool.Now(), drop, T0, Rich());
    HeadRemovalLosesTail(s, pool.Contents());
    Leaked(s.view, pool.Contents(), T1);
  }

  lemma DroppedIsT0(s: Snapshot, drop: seq<Tx>, all: Pool)
    requires s.view.all == map[T0.Hash() := T0, T1.Hash() := T1] && T0.Hash() !in all && all == s.view.all - HashesIn(drop)
    requires forall d | d in drop :: d.Hash() in s.view.all && d.gasPrice < 5
    ensures drop != [] && forall d | d in drop :: d == T0
  {
    forall d | d in drop
      ensures d == T0
    {
      assert d.Hash() == T0.Hash() || d.Hash() == T1.Hash();
    }
  }

  lemma Leaked(v: View, w: View, t: Tx)
    requires LeakFree(v) && Unheld(w, t)
    ensures !LeaksOnly(v, w, {})
  {
    assert !Unheld(v, t);
  }
}
