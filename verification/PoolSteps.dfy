/** What the pool's public operations do, account by account. */
module PoolSteps {
  import opened Types
  import opened NonceMap
  import opened TxLists
  import opened PricedList
  import opened PoolViews
  import opened PoolNonces
  import opened PoolTotals

  // ---------------------------------------------------------------------------------------------
  // Promotion of many accounts

  function PayableOf(v: View, state: ChainState, a: Address, maxGas: nat, lampHeight: nat): Items {
    if a in v.queue then Payable(v.queue[a], state, a, maxGas, lampHeight).items else map[]
  }

  /**
    Of the account's payable queued transactions the run that is ready at the expected nonce became pending and
    the rest, up to the cap, stays queued; the expected nonce moved past the run.
   */
  ghost predicate PromotedAt(v: View, w: View, managed: map<Address, nat>, managed': map<Address, nat>,
                             state: ChainState, a: Address, maxGas: nat, lampHeight: nat, cap: Option<nat>) {
    var payable := PayableOf(v, state, a, maxGas, lampHeight);
    var expected := NonceIn(managed, state, a);
    var run := ReadyRun(payable, expected);
    && ItemsOf(w.pending, a) == ItemsOf(v.pending, a) + run
    && ItemsOf(w.queue, a) == CappedBy(AfterReady(payable, expected), cap)
    && if run == map[] then NonceIn(managed', state, a) == expected
       else exists hi: nat :: (hi > 0 && hi - 1 in run && hi !in run && NonceIn(managed', state, a) == hi)
  }

  /** The account's lists and expected nonce are untouched. */
  ghost predicate SameAt(v: View, w: View, managed: map<Address, nat>, managed': map<Address, nat>,
                         state: ChainState, a: Address) {
    && (a in v.pending <==> a in w.pending) && (a in v.pending ==> v.pending[a] == w.pending[a])
    && (a in v.queue <==> a in w.queue) && (a in v.queue ==> v.queue[a] == w.queue[a])
    && NonceIn(managed, state, a) == NonceIn(managed', state, a)
  }

  ghost predicate AllPromoted(v: View, w: View, managed: map<Address, nat>, managed': map<Address, nat>,
                              state: ChainState, accounts: set<Address>, locals: set<Address>,
                              maxGas: nat, lampHeight: nat, accountQueue: nat) {
    && (forall a | a in accounts ::
          PromotedAt(v, w, managed, managed', state, a, maxGas, lampHeight,
                     if a in locals then None else Some(accountQueue)))
    && forall a | a !in accounts :: SameAt(v, w, managed, managed', state, a)
  }

  lemma NonePromotedYet(v: View, managed: map<Address, nat>, state: ChainState, locals: set<Address>,
                        maxGas: nat, lampHeight: nat, accountQueue: nat)
    ensures AllPromoted(v, v, managed, managed, state, {}, locals, maxGas, lampHeight, accountQueue)
  {
  }

  lemma PromotesOne(u: View, w: View, m1: map<Address, nat>, m2: map<Address, nat>, state: ChainState, a: Address,
                    maxGas: nat, lampHeight: nat, cap: Option<nat>)
    requires a !in u.queue ==> w == u && m2 == m1
    requires a in u.queue ==>
      AccountPromoted(u, w, m1, m2, state, a, Payable(u.queue[a], state, a, maxGas, lampHeight).items, cap)
    ensures PromotedAt(u, w, m1, m2, state, a, maxGas, lampHeight, cap)
    ensures forall b | b != a :: SameAt(u, w, m1, m2, state, b)
  {
    hide Payable, Lowest, Below;
    var payable := PayableOf(u, state, a, maxGas, lampHeight);
    if a !in u.queue {
      NothingReady(NonceIn(m1, state, a), cap);
    }
  }

  lemma NothingReady(start: nat, cap: Option<nat>)
    ensures ReadyRun(map[], start) == map[] && CappedBy(AfterReady(map[], start), cap) == map[]
  {
  }

  /** What was promoted before or after other accounts were is promoted all the same. */
  lemma PromotedAmong(v: View, u: View, w: View, m0: map<Address, nat>, m1: map<Address, nat>, m2: map<Address, nat>,
                      state: ChainState, a: Address, maxGas: nat, lampHeight: nat, cap: Option<nat>)
    ensures SameAt(v, u, m0, m1, state, a) && PromotedAt(u, w, m1, m2, state, a, maxGas, lampHeight, cap) ==>
      PromotedAt(v, w, m0, m2, state, a, maxGas, lampHeight, cap)
    ensures PromotedAt(v, u, m0, m1, state, a, maxGas, lampHeight, cap) && SameAt(u, w, m1, m2, state, a) ==>
      PromotedAt(v, w, m0, m2, state, a, maxGas, lampHeight, cap)
    ensures SameAt(v, u, m0, m1, state, a) && SameAt(u, w, m1, m2, state, a) ==> SameAt(v, w, m0, m2, state, a)
  {
    hide Payable, ReadyRun, AfterReady, Lowest;
  }

  /** Promoting one more account. */
  lemma PromotedNext(v: View, u: View, w: View, m0: map<Address, nat>, m1: map<Address, nat>, m2: map<Address, nat>,
                     state: ChainState, done: set<Address>, a: Address, locals: set<Address>,
                     maxGas: nat, lampHeight: nat, accountQueue: nat)
    requires AllPromoted(v, u, m0, m1, state, done, locals, maxGas, lampHeight, accountQueue) && a !in done
    requires PromotedAt(u, w, m1, m2, state, a, maxGas, lampHeight, if a in locals then None else Some(accountQueue))
    requires forall b | b != a :: SameAt(u, w, m1, m2, state, b)
    ensures AllPromoted(v, w, m0, m2, state, done + {a}, locals, maxGas, lampHeight, accountQueue)
  {
    hide PromotedAt, SameAt;
    forall b
      ensures if b in done + {a}
              then PromotedAt(v, w, m0, m2, state, b, maxGas, lampHeight,
                  if b in locals then None else Some(accountQueue))
              else SameAt(v, w, m0, m2, state, b)
    {
      PromotedAmong(v, u, w, m0, m1, m2, state, b, maxGas, lampHeight, if b in locals then None else Some(accountQueue));
    }
  }

  /** Accounts stay lined up, and those of the set become steady. */
  ghost predicate SteadiedBy(v: View, w: View, managed: map<Address, nat>, managed': map<Address, nat>,
                             state: ChainState, accounts: set<Address>) {
    forall b ::
      && (Settling(v, managed, state, b) ==> Settling(w, managed', state, b))
      && (Settling(v, managed, state, b) && (b in accounts || Steady(v, managed, state, b)) ==>
          Steady(w, managed', state, b))
  }

  lemma SteadiedNone(v: View, managed: map<Address, nat>, state: ChainState)
    ensures SteadiedBy(v, v, managed, managed, state, {})
  {
  }

  lemma SteadiedNext(v: View, u: View, w: View, m0: map<Address, nat>, m1: map<Address, nat>, m2: map<Address, nat>,
                     state: ChainState, done: set<Address>, a: Address)
    requires SteadiedBy(v, u, m0, m1, state, done)
    requires Settling(u, m1, state, a) ==> Steady(w, m2, state, a)
    requires forall b | b != a :: Settling(u, m1, state, b) <==> Settling(w, m2, state, b)
    requires forall b | b != a :: Steady(u, m1, state, b) <==> Steady(w, m2, state, b)
    ensures SteadiedBy(v, w, m0, m2, state, done + {a})
  {
  }

  lemma SteadiedKept(v: View, u: View, w: View, m0: map<Address, nat>, m1: map<Address, nat>, m2: map<Address, nat>,
                     state: ChainState, accounts: set<Address>)
    requires SteadiedBy(v, u, m0, m1, state, accounts) && SettledKept(u, w, m1, m2, state)
    ensures SteadiedBy(v, w, m0, m2, state, accounts)
    ensures SettledKept(v, w, m0, m2, state)
  {
  }

  /** Accounts without a queue are steady once settled. */
  lemma SteadiedAll(v: View, w: View, managed: map<Address, nat>, managed': map<Address, nat>, state: ChainState)
    requires SteadiedBy(v, w, managed, managed', state, v.queue.Keys)
    requires forall b :: Settling(v, managed, state, b)
    ensures forall b :: Steady(w, managed', state, b)
  {
  }

  // ---------------------------------------------------------------------------------------------
  // Demotion of all accounts

  /** The account's lists are untouched. */
  ghost predicate ListsSameAt(v: View, w: View, a: Address) {
    && (a in v.pending <==> a in w.pending) && (a in v.pending ==> v.pending[a] == w.pending[a])
    && (a in v.queue <==> a in w.queue) && (a in v.queue ==> v.queue[a] == w.queue[a])
  }

  ghost predicate AllDemoted(v: View, w: View, state: ChainState, accounts: set<Address>, maxGas: nat, lampHeight: nat)
    requires accounts <= v.pending.Keys
  {
    && (forall a | a in accounts :: DemotedAt(v, w, state, a, maxGas, lampHeight))
    && forall a | a !in accounts :: ListsSameAt(v, w, a)
  }

  lemma NoneDemotedYet(v: View, state: ChainState, maxGas: nat, lampHeight: nat)
    ensures AllDemoted(v, v, state, {}, maxGas, lampHeight)
  {
  }

  lemma DemotesOne(u: View, w: View, state: ChainState, a: Address, maxGas: nat, lampHeight: nat)
    requires a in u.pending && AccountDemoted(u, w, state, a, maxGas, lampHeight)
    ensures DemotedAt(u, w, state, a, maxGas, lampHeight) && forall b | b != a :: ListsSameAt(u, w, b)
  {
  }

  lemma DemotedAmong(v: View, u: View, w: View, state: ChainState, a: Address, maxGas: nat, lampHeight: nat)
    ensures ListsSameAt(v, u, a) && a in u.pending && DemotedAt(u, w, state, a, maxGas, lampHeight) ==>
      DemotedAt(v, w, state, a, maxGas, lampHeight)
    ensures a in v.pending && DemotedAt(v, u, state, a, maxGas, lampHeight) && ListsSameAt(u, w, a) ==>
      DemotedAt(v, w, state, a, maxGas, lampHeight)
    ensures ListsSameAt(v, u, a) && ListsSameAt(u, w, a) ==> ListsSameAt(v, w, a)
  {
  }

  lemma DemotedNext(v: View, u: View, w: View, state: ChainState, done: set<Address>, a: Address, maxGas: nat,
                    lampHeight: nat)
    requires done <= v.pending.Keys && AllDemoted(v, u, state, done, maxGas, lampHeight) && a !in done
    requires a in v.pending && a in u.pending && DemotedAt(u, w, state, a, maxGas, lampHeight)
    requires forall b | b != a :: ListsSameAt(u, w, b)
    ensures AllDemoted(v, w, state, done + {a}, maxGas, lampHeight)
  {
    hide DemotedAt, ListsSameAt;
    forall b
      ensures if b in done + {a} then DemotedAt(v, w, state, b, maxGas, lampHeight) else ListsSameAt(v, w, b)
    {
      DemotedAmong(v, u, w, state, b, maxGas, lampHeight);
    }
  }

  lemma UndemotedStays(v: View, u: View, state: ChainState, done: set<Address>, a: Address, maxGas: nat, lampHeight: nat)
    requires done <= v.pending.Keys && AllDemoted(v, u, state, done, maxGas, lampHeight)
    requires a in v.pending && a !in done
    ensures a in u.pending
  {
  }

  /** The lists that demotion leaves pending are not empty. */
  lemma DemotedNonEmpty(v: View, w: View, state: ChainState, maxGas: nat, lampHeight: nat)
    requires AllDemoted(v, w, state, v.pending.Keys, maxGas, lampHeight)
    ensures forall a | a in w.pending :: a in v.pending && w.pending[a].items != map[]
  {
  }

  /** Demotion against a state in which no nonce went back lines all settled accounts up again. */
  lemma DemotionLinesAll(v: View, w: View, managed: map<Address, nat>, s: ChainState, t: ChainState, maxGas: nat,
                         lampHeight: nat)
    requires Consistent(v) && Advances(s, t) && forall a :: Settling(v, managed, s, a)
    requires AllDemoted(v, w, t, v.pending.Keys, maxGas, lampHeight)
    ensures forall a :: LinedBySize(w, t, a)
  {
    hide Settling, LinedBySize, DemotedAt;
    forall a
      ensures LinedBySize(w, t, a)
    {
      if a in v.pending {
        PendingKeyed(v, a);
        Strictness(v, a);
        assert Settling(v, managed, s, a);
        DemotionLines(v, w, managed, s, t, a, maxGas, lampHeight);
      } else {
        assert ListsSameAt(v, w, a);
        UnlistedLined(w, t, a);
      }
    }
  }

  // ---------------------------------------------------------------------------------------------
  // Making room and adding

  /** The lists of accounts outside the set are untouched. */
  ghost predicate OnlyTouches(v: View, w: View, accounts: set<Address>) {
    forall a | a !in accounts ::
      ItemsOf(w.pending, a) == ItemsOf(v.pending, a) && ItemsOf(w.queue, a) == ItemsOf(v.queue, a)
  }

  lemma TouchesCompose(u: View, v: View, w: View, x: set<Address>, y: set<Address>)
    requires OnlyTouches(u, v, x) && OnlyTouches(v, w, y)
    ensures OnlyTouches(u, w, x + y)
  {
  }

  /** The outcome of adding an admissible transaction: replacing a pending one, or queueing. */
  function AddedTo(v: View, tx: Tx, bump: nat): View {
    if tx.nonce in ItemsOf(v.pending, tx.from) then Promoted(v, tx, bump) else Enqueued(v, tx, bump)
  }

  /** Replacing a pending transaction keeps everything lined up. */
  lemma ReplacementSettles(v: View, tx: Tx, bump: nat, managed: map<Address, nat>, state: ChainState)
    requires tx.nonce in ItemsOf(v.pending, tx.from)
    ensures SettledKept(v, Promoted(v, tx, bump), managed, managed, state)
  {
    hide BumpThreshold;
    var w := Promoted(v, tx, bump);
    forall b
      ensures ItemsOf(w.pending, b).Keys == ItemsOf(v.pending, b).Keys && ItemsOf(w.queue, b) == ItemsOf(v.queue, b)
      ensures b in w.pending <==> b in v.pending
    {
    }
    forall b
      ensures Settling(v, managed, state, b) <==> Settling(w, managed, state, b)
      ensures Steady(v, managed, state, b) <==> Steady(w, managed, state, b)
    {
    }
  }

  lemma NothingTouched(v: View)
    ensures OnlyTouches(v, v, {})
  {
  }

  /** Removing by the hash of `d` removes `d`, if it is known, and touches only its account. */
  lemma RemovalOutcome(v: View, w: View, d: Tx)
    requires Consistent(v)
    requires d.Hash() !in v.all ==> w == v
    requires d.Hash() in v.all ==> Removes(v, w, v.all[d.Hash()])
    ensures w.all == v.all - {d.Hash()} && OnlyTouches(v, w, {d.from})
  {
  }

  function HashesIn(drop: seq<Tx>): set<Hash> {
    set d | d in drop :: d.Hash()
  }

  function SendersIn(drop: seq<Tx>): set<Address> {
    set d | d in drop :: d.from
  }

  lemma NoneIn()
    ensures HashesIn([]) == {} && SendersIn([]) == {}
  {
  }

  lemma PrefixSets(drop: seq<Tx>, i: nat)
    requires i < |drop|
    ensures HashesIn(drop[..i + 1]) == HashesIn(drop[..i]) + {drop[i].Hash()}
    ensures SendersIn(drop[..i + 1]) == SendersIn(drop[..i]) + {drop[i].from}
  {
  }

  /** Once everything that was dropped is gone, the heap holds the whole pool again. */
  lemma AllGone(all: Pool, entries: seq<Tx>, drop: seq<Tx>)
    requires forall h | h in all :: all[h] in entries || all[h] in drop
    requires HashKeyed(all) && all.Keys !! HashesIn(drop)
    ensures forall h | h in all :: all[h] in entries
  {
  }

  lemma ConsistentKeyed(v: View)
    requires Consistent(v)
    ensures HashKeyed(v.all)
  {
  }

  /** With every known transaction in the heap, what holds of the live entries holds of the pool. */
  lemma LiveIsPool(all: Pool, entries: seq<Tx>, price: nat)
    requires HashKeyed(all) && Covers(all, entries)
    ensures (exists t | t in entries :: Live(all, t)) <==> all != map[]
    ensures (forall t | t in entries
        && Live(all, t) :: t.gasPrice >= price) <==> forall h | h in all :: all[h].gasPrice >= price
  {
  }

  /** Replacing a pending transaction by an unknown one that outbids it keeps the pool consistent. */
  lemma ReplacementKeeps(v: View, tx: Tx, bump: nat)
    requires Consistent(v) && tx.sigOk && tx.Hash() !in v.all
    requires tx.from in v.pending && tx.nonce in v.pending[tx.from].items && v.pending[tx.from].Admits(tx, bump)
    ensures var w := Promoted(v, tx, bump);
      && Consistent(w) && LeaksOnly(v, w, {}) && Held(w, tx)
      && w.all == (v.all - {v.pending[tx.from].items[tx.nonce].Hash()})[tx.Hash() := tx]
  {
    assert !Held(v, tx);
    assert ItemsOf(v.pending, tx.from).Keys !! ItemsOf(v.queue, tx.from).Keys;
    PromotedKeeps(v, tx, bump);
  }

  lemma EnqueueSettlesAll(v: View, managed: map<Address, nat>, state: ChainState, tx: Tx, bump: nat)
    requires tx.nonce !in ItemsOf(v.pending, tx.from) && tx.nonce >= state.NonceOf(tx.from)
    ensures SettledKept(v, Enqueued(v, tx, bump), managed, managed, state)
  {
    var w := Enqueued(v, tx, bump);
    forall b
      ensures Settling(v, managed, state, b) ==> Settling(w, managed, state, b)
      ensures Steady(v, managed, state, b) ==> Steady(w, managed, state, b)
    {
      EnqueueSettles(v, managed, state, tx, bump, b);
    }
  }

  lemma EnqueueSettles(v: View, managed: map<Address, nat>, state: ChainState, tx: Tx, bump: nat, b: Address)
    requires tx.nonce !in ItemsOf(v.pending, tx.from) && tx.nonce >= state.NonceOf(tx.from)
    ensures Settling(v, managed, state, b) ==> Settling(Enqueued(v, tx, bump), managed, state, b)
    ensures Steady(v, managed, state, b) ==> Steady(Enqueued(v, tx, bump), managed, state, b)
  {
    hide ListValue.Admits, Swapped;
  }

  lemma SteadiedKeeps(v: View, w: View, managed: map<Address, nat>, managed': map<Address, nat>, state: ChainState,
                      accounts: set<Address>)
    requires SteadiedBy(v, w, managed, managed', state, accounts)
    ensures SettledKept(v, w, managed, managed', state)
  {
  }

  lemma SteadyStays(v: View, w: View, managed: map<Address, nat>, managed': map<Address, nat>, state: ChainState)
    requires SettledKept(v, w, managed, managed', state) && forall a :: Steady(v, managed, state, a)
    ensures forall a :: Steady(w, managed', state, a)
  {
    hide Settling, Steady;
  }

  /** What a price cap drops is exactly what is remote and too cheap. */
  lemma CheapDropped(all: Pool, entries: seq<Tx>, drop: seq<Tx>, locals: set<Address>, price: nat)
    requires HashKeyed(all) && forall h | h in all :: all[h] in entries || all[h] in drop
    requires forall t | t in drop :: Live(all, t) && !IsLocal(locals, t) && t.gasPrice < price
    requires forall t | t in entries && Live(all, t) :: t.gasPrice >= price || IsLocal(locals, t)
    ensures forall h | h in all :: h in HashesIn(drop) <==> all[h].gasPrice < price && !IsLocal(locals, all[h])
  {
  }

  lemma LowestNone(m: Items)
    ensures Lowest(m, 0) == map[]
  {
  }

  /** With exactly the listed accounts' expected nonces set past their highest ones, lined-up accounts are settled. */
  lemma RaisedSettles(v: View, managed: map<Address, nat>, state: ChainState)
    requires forall a :: LinedBySize(v, state, a)
    requires forall a :: a in managed <==> a in v.pending
    requires forall a | a in v.pending :: managed[a] > 0 && IsTop(v.pending[a].items, managed[a] - 1)
    ensures forall a :: Settling(v, managed, state, a)
  {
    forall a
      ensures Settling(v, managed, state, a)
    {
      LinedSettles(v, managed, state, a);
    }
  }

  lemma AllSteadySettled(v: View, managed: map<Address, nat>, state: ChainState)
    requires forall a :: Steady(v, managed, state, a)
    ensures forall a :: Settling(v, managed, state, a)
  {
    forall a
      ensures Settling(v, managed, state, a)
    {
      assert Steady(v, managed, state, a);
    }
  }

  /** An empty pool is leak-free and all its accounts are steady. */
  lemma EmptySteady(state: ChainState)
    ensures LeakFree(View(map[], map[], map[])) && forall a :: Steady(View(map[], map[], map[]), map[], state, a)
  {
  }

  /** A leak-free pool knows exactly what its lists hold. */
  lemma LeakFreeIsExact(v: View)
    requires Consistent(v)
    ensures LeakFree(v) <==> forall t :: Held(v, t) <==> t.Hash() in v.all
  {
    if LeakFree(v) {
      forall t
        ensures Held(v, t) <==> t.Hash() in v.all
      {
        assert !Unheld(v, t);
      }
    }
  }

  /** What an account's steadiness means nonce by nonce. */
  lemma SteadyMeans(v: View, managed: map<Address, nat>, state: ChainState, a: Address)
    requires Steady(v, managed, state, a)
    ensures forall n :: n in ItemsOf(v.pending, a) <==> state.NonceOf(a) <= n < NonceIn(managed, state, a)
    ensures a in v.pending ==> v.pending[a].items != map[]
    ensures forall n | n in ItemsOf(v.queue, a) :: n >= NonceIn(managed, state, a)
  {
    if a in v.pending {
      assert state.NonceOf(a) in ItemsOf(v.pending, a);
    }
  }
}
