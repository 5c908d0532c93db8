/** The contents of the transaction pool as values: where transactions are held, and what each step does to them. */
module PoolViews {
  import opened Types
  import opened NonceMap
  import opened TxLists
  import opened PricedList

  type Lists = map<Address, ListValue>

  /** The account state the pool validates against. */
  datatype ChainState = ChainState(nonces: map<Address, nat>, balances: map<Address, int>)
  {
    function NonceOf(a: Address): nat {
      if a in nonces then nonces[a] else 0
    }

    function BalanceOf(a: Address): int {
      if a in balances then balances[a] else 0
    }
  }

  /** Pending (executable) lists, queued (future) lists, and all transactions by hash. */
  datatype View = View(pending: Lists, queue: Lists, all: Pool)

  function ItemsOf(lists: Lists, a: Address): Items {
    if a in lists then lists[a].items else map[]
  }

  function ListOf(lists: Lists, a: Address, strict: bool): ListValue {
    if a in lists then lists[a] else ListValue(strict, map[], 0, 0)
  }

  predicate HeldIn(lists: Lists, t: Tx) {
    t.nonce in ItemsOf(lists, t.from) && ItemsOf(lists, t.from)[t.nonce] == t
  }

  predicate Held(v: View, t: Tx) {
    HeldIn(v.pending, t) || HeldIn(v.queue, t)
  }

  /** Known by hash but in no list. */
  predicate Unheld(v: View, t: Tx) {
    t.Hash() in v.all && !Held(v, t)
  }

  ghost predicate FiledUnder(a: Address, l: ListValue, strict: bool) {
    l.strict == strict && forall n | n in l.items :: l.items[n].nonce == n && l.items[n].from == a && l.items[n].sigOk
  }

  ghost predicate Filed(lists: Lists, strict: bool) {
    forall a | a in lists :: FiledUnder(a, lists[a], strict)
  }

  ghost predicate Apart(v: View) {
    forall a :: ItemsOf(v.pending, a).Keys !! ItemsOf(v.queue, a).Keys
  }

  ghost predicate AllKnown(v: View) {
    forall t | Held(v, t) :: t.Hash() in v.all
  }

  /**
    Every listed transaction is filed under its sender and nonce and known by its hash, and no nonce of an
    account is both pending and queued.
   */
  ghost predicate Consistent(v: View) {
    && Filed(v.pending, true)
    && Filed(v.queue, false)
    && Apart(v)
    && HashKeyed(v.all)
    && AllKnown(v)
  }

  /** Whatever is newly unheld is among `extra`. */
  ghost predicate LeaksOnly(v: View, w: View, extra: set<Tx>) {
    forall t | Unheld(w, t) :: Unheld(v, t) || t in extra
  }

  ghost predicate LeakFree(v: View) {
    forall t :: !Unheld(v, t)
  }

  ghost function TxsOf(m: Items): (s: set<Tx>)
    ensures forall t :: t in s <==> exists n :: n in m && m[n] == t
  {
    set n | n in m :: m[n]
  }

  // ---------------------------------------------------------------------------------------------
  // Single steps

  function Swapped(all: Pool, prev: Option<Tx>, tx: Tx): Pool {
    (if prev.Some? then all - {prev.value.Hash()} else all)[tx.Hash() := tx]
  }

  /** Queueing a transaction, unless a queued one with its nonce is not outbid. */
  function Enqueued(v: View, tx: Tx, bump: nat): View {
    var l := ListOf(v.queue, tx.from, false);
    if !l.Admits(tx, bump) then v
    else View(v.pending, v.queue[tx.from := l.Added(tx)], Swapped(v.all, l.Replaced(tx), tx))
  }

  /** Making a transaction pending, or forgetting it if a pending one with its nonce is not outbid. */
  function Promoted(v: View, tx: Tx, bump: nat): View {
    var l := ListOf(v.pending, tx.from, true);
    if !l.Admits(tx, bump) then v.(all := v.all - {tx.Hash()})
    else
      var kept := if l.Replaced(tx).Some? then v.all - {l.items[tx.nonce].Hash()} else v.all;
      View(v.pending[tx.from := l.Added(tx)], v.queue, if tx.Hash() in kept then kept else kept[tx.Hash() := tx])
  }

  lemma ListAdded(lists: Lists, tx: Tx, strict: bool)
    requires Filed(lists, strict) && tx.sigOk
    ensures var m := lists[tx.from := ListOf(lists, tx.from, strict).Added(tx)];
      && Filed(m, strict) && SameElsewhere(lists, m, tx.from)
      && ItemsOf(m, tx.from) == ItemsOf(lists, tx.from)[tx.nonce := tx]
      && forall t :: HeldIn(m, t) <==> t == tx || (HeldIn(lists, t) && (t.from != tx.from || t.nonce != tx.nonce))
  {
  }

  lemma ApartAdded(v: View, w: View, a: Address, n: nat, queued: bool)
    requires Apart(v) && SameElsewhere(v.pending, w.pending, a) && SameElsewhere(v.queue, w.queue, a)
    requires n !in ItemsOf(if queued then v.pending else v.queue, a)
    requires if queued then w.pending == v.pending && ItemsOf(w.queue, a).Keys == ItemsOf(v.queue, a).Keys + {n}
             else w.queue == v.queue && ItemsOf(w.pending, a).Keys == ItemsOf(v.pending, a).Keys + {n}
    ensures Apart(w)
  {
    forall b
      ensures ItemsOf(w.pending, b).Keys !! ItemsOf(w.queue, b).Keys
    {
      assert ItemsOf(v.pending, b).Keys !! ItemsOf(v.queue, b).Keys;
    }
  }

  /** With one transaction listed in place of another, and known in its place, nothing becomes unheld. */
  lemma SwapHolds(v: View, w: View, tx: Tx, prev: Option<Tx>)
    requires AllKnown(v) && (prev.Some? ==> prev.value.from == tx.from && prev.value.nonce == tx.nonce && Held(v, prev.value))
    requires forall t :: Held(w, t) <==> t == tx || (Held(v, t) && prev != Some(t))
    requires forall t: Tx :: t.Hash() in w.all <==> t == tx || (t.Hash() in v.all && prev != Some(t))
    ensures AllKnown(w) && LeaksOnly(v, w, {}) && Held(w, tx)
  {
  }

  lemma KnownAfter(all: Pool, kept: Pool, all': Pool, prev: Option<Tx>, tx: Tx)
    requires HashKeyed(all) && tx.sigOk && kept == (if prev.Some? then all - {prev.value.Hash()} else all)
    requires all' == kept[tx.Hash() := tx] || (tx.Hash() in kept && all' == kept)
    ensures HashKeyed(all')
    ensures forall t: Tx :: t.Hash() in all' <==> t == tx || (t.Hash() in all && prev != Some(t))
  {
  }

  /** Adding to one list changes what is held by that list's replacement. */
  lemma HeldAfter(v: View, w: View, tx: Tx, prev: Option<Tx>, queued: bool)
    requires Filed(v.pending, true) && Filed(v.queue, false) && tx.sigOk
    requires if queued then w.pending == v.pending && tx.nonce !in ItemsOf(v.pending, tx.from)
                            && w.queue == v.queue[tx.from := ListOf(v.queue, tx.from, false).Added(tx)]
                            && prev == ListOf(v.queue, tx.from, false).Replaced(tx)
             else w.queue == v.queue && tx.nonce !in ItemsOf(v.queue, tx.from)
                  && w.pending == v.pending[tx.from := ListOf(v.pending, tx.from, true).Added(tx)]
                  && prev == ListOf(v.pending, tx.from, true).Replaced(tx)
    ensures prev.Some? ==> prev.value.from == tx.from && prev.value.nonce == tx.nonce && Held(v, prev.value)
    ensures forall t :: Held(w, t) <==> t == tx || (Held(v, t) && prev != Some(t))
  {
    hide Filed;
    var lists := if queued then v.queue else v.pending;
    FiledItems(lists, tx.from, !queued);
    ListAdded(lists, tx, !queued);
  }

  lemma EnqueuedKeeps(v: View, tx: Tx, bump: nat)
    requires Consistent(v) && tx.sigOk && tx.nonce !in ItemsOf(v.pending, tx.from)
    ensures Consistent(Enqueued(v, tx, bump)) && LeaksOnly(v, Enqueued(v, tx, bump), {})
    ensures ListOf(v.queue, tx.from, false).Admits(tx, bump) ==> Held(Enqueued(v, tx, bump), tx)
    ensures forall t | Unheld(Enqueued(v, tx, bump), t) :: t == tx ==> !ListOf(v.queue, tx.from, false).Admits(tx, bump)
  {
    hide Filed, Apart, HashKeyed, AllKnown, Held, ListValue.Admits, ListValue.Added;
    var w := Enqueued(v, tx, bump);
    var l := ListOf(v.queue, tx.from, false);
    if l.Admits(tx, bump) {
      ListAdded(v.queue, tx, false);
      ApartAdded(v, w, tx.from, tx.nonce, true);
      KnownAfter(v.all, if l.Replaced(tx).Some? then v.all - {l.Replaced(tx).value.Hash()} else v.all, w.all,
                 l.Replaced(tx), tx);
      HeldAfter(v, w, tx, l.Replaced(tx), true);
      SwapHolds(v, w, tx, l.Replaced(tx));
    }
  }

  lemma PromotedKeeps(v: View, tx: Tx, bump: nat)
    requires Consistent(v) && tx.sigOk && tx.nonce !in ItemsOf(v.queue, tx.from) && !Held(v, tx)
    ensures Consistent(Promoted(v, tx, bump)) && LeaksOnly(v, Promoted(v, tx, bump), {})
    ensures !Unheld(Promoted(v, tx, bump), tx)
  {
    hide Filed, Apart, HashKeyed, AllKnown, Held, ListValue.Admits, ListValue.Added;
    var w := Promoted(v, tx, bump);
    var l := ListOf(v.pending, tx.from, true);
    if l.Admits(tx, bump) {
      ListAdded(v.pending, tx, true);
      ApartAdded(v, w, tx.from, tx.nonce, false);
      KnownAfter(v.all, if l.Replaced(tx).Some? then v.all - {l.Replaced(tx).value.Hash()} else v.all, w.all,
                 l.Replaced(tx), tx);
      HeldAfter(v, w, tx, l.Replaced(tx), false);
      SwapHolds(v, w, tx, l.Replaced(tx));
    } else {
      ForgottenKeeps(v, tx);
    }
  }

  function Forgotten(v: View, tx: Tx): View {
    v.(all := v.all - {tx.Hash()})
  }

  lemma ForgottenKeeps(v: View, tx: Tx)
    requires Consistent(v) && !Held(v, tx)
    ensures Consistent(Forgotten(v, tx)) && LeaksOnly(v, Forgotten(v, tx), {}) && !Unheld(Forgotten(v, tx), tx)
    ensures forall t :: Held(Forgotten(v, tx), t) <==> Held(v, t)
  {
  }

  function HashesOf(m: Items): set<Hash> {
    set n | n in m :: m[n].Hash()
  }

  /** Forgetting a group of transactions. */
  function Without(all: Pool, m: Items): Pool {
    all - HashesOf(m)
  }

  ghost predicate SubItems(m: Items, of: Items) {
    forall n | n in m :: n in of && m[n] == of[n]
  }

  /** Taking transactions out of a queued list leaves only them unheld. */
  lemma ShrunkQueue(v: View, a: Address, l: ListValue)
    requires Consistent(v) && a in v.queue && !l.strict && SubItems(l.items, v.queue[a].items)
    ensures var w := v.(queue := v.queue[a := l]);
      Consistent(w) && LeaksOnly(v, w, TxsOf(v.queue[a].items - l.items.Keys))
  {
    var w := v.(queue := v.queue[a := l]);
    forall b
      ensures ItemsOf(w.pending, b).Keys !! ItemsOf(w.queue, b).Keys
    {
      assert ItemsOf(v.pending, b).Keys !! ItemsOf(v.queue, b).Keys;
    }
    forall t | Held(w, t)
      ensures t.Hash() in w.all
    {
      assert Held(v, t);
    }
    forall t | Unheld(w, t) && !Unheld(v, t)
      ensures t in TxsOf(v.queue[a].items - l.items.Keys)
    {
      assert Held(v, t);
      assert t.from == a && (v.queue[a].items - l.items.Keys)[t.nonce] == t;
    }
  }

  lemma ShrunkPending(v: View, a: Address, l: ListValue)
    requires Consistent(v) && a in v.pending && l.strict && SubItems(l.items, v.pending[a].items)
    ensures var w := v.(pending := v.pending[a := l]);
      Consistent(w) && LeaksOnly(v, w, TxsOf(v.pending[a].items - l.items.Keys))
  {
    var w := v.(pending := v.pending[a := l]);
    forall b
      ensures ItemsOf(w.pending, b).Keys !! ItemsOf(w.queue, b).Keys
    {
      assert ItemsOf(v.pending, b).Keys !! ItemsOf(v.queue, b).Keys;
    }
    forall t | Held(w, t)
      ensures t.Hash() in w.all
    {
      assert Held(v, t);
    }
    forall t | Unheld(w, t) && !Unheld(v, t)
      ensures t in TxsOf(v.pending[a].items - l.items.Keys)
    {
      assert Held(v, t);
      assert t.from == a && (v.pending[a].items - l.items.Keys)[t.nonce] == t;
    }
  }

  /** Deleting empty lists changes nothing. */
  lemma EmptyDeleted(v: View, a: Address)
    requires Consistent(v)
    ensures a in v.queue && v.queue[a].items == map[] ==>
      Consistent(v.(queue := v.queue - {a})) && LeaksOnly(v, v.(queue := v.queue - {a}), {})
    ensures a in v.pending && v.pending[a].items == map[] ==>
      Consistent(v.(pending := v.pending - {a})) && LeaksOnly(v, v.(pending := v.pending - {a}), {})
  {
  }

  /** Cutting a queued list down and forgetting what was cut leaks nothing. */
  lemma QueueCut(v: View, a: Address, l: ListValue, gone: Items)
    requires Consistent(v) && a in v.queue && !l.strict && SubItems(l.items, v.queue[a].items)
    requires gone == v.queue[a].items - l.items.Keys
    ensures var w := View(v.pending, v.queue[a := l], Without(v.all, gone));
      Consistent(w) && LeaksOnly(v, w, {})
  {
    ShrunkQueue(v, a, l);
    CutForgotten(v, v.(queue := v.queue[a := l]), a, gone);
  }

  lemma PendingCut(v: View, a: Address, l: ListValue, gone: Items)
    requires Consistent(v) && a in v.pending && l.strict && SubItems(l.items, v.pending[a].items)
    requires gone == v.pending[a].items - l.items.Keys
    ensures var w := View(v.pending[a := l], v.queue, Without(v.all, gone));
      Consistent(w) && LeaksOnly(v, w, {})
  {
    ShrunkPending(v, a, l);
    var u := v.(pending := v.pending[a := l]);
    forall n | n in gone
      ensures gone[n].from == a && gone[n].nonce == n && !Held(u, gone[n])
    {
      assert n !in ItemsOf(v.queue, a) by {
        assert ItemsOf(v.pending, a).Keys !! ItemsOf(v.queue, a).Keys;
      }
    }
    CutForgotten(v, u, a, gone);
  }

  lemma CutForgotten(v: View, u: View, a: Address, gone: Items)
    requires Consistent(u) && u.all == v.all && LeaksOnly(v, u, TxsOf(gone))
    requires forall n | n in gone :: !Held(u, gone[n])
    ensures Consistent(u.(all := Without(u.all, gone)))
    ensures LeaksOnly(v, u.(all := Without(u.all, gone)), {})
    ensures forall n | n in gone :: !Unheld(u.(all := Without(u.all, gone)), gone[n])
  {
  }

  /** Taking transactions below or above a bound leaves the others. */
  lemma Splits(m: Items, k: nat)
    ensures Below(m, k) == m - AtLeast(m, k).Keys && SubItems(AtLeast(m, k), m)
    ensures AtLeast(m, k) == m - Below(m, k).Keys && SubItems(Below(m, k), m)
    ensures Excess(m, k) == m - Lowest(m, k).Keys && SubItems(Lowest(m, k), m)
  {
  }

  lemma FilterSplits(l: ListValue, costLimit: int, gasLimit: nat, lampHeight: nat)
    ensures var f := l.Filtered(costLimit, gasLimit, lampHeight);
      && f.strict == l.strict && SubItems(f.items, l.items)
      && l.items - f.items.Keys
         == l.FilterRemoved(costLimit, gasLimit, lampHeight) + l.FilterInvalid(costLimit, gasLimit, lampHeight)
      && l.FilterRemoved(costLimit, gasLimit, lampHeight).Keys !! l.FilterInvalid(costLimit, gasLimit, lampHeight).Keys
  {
  }

  // ---------------------------------------------------------------------------------------------
  // Removal by hash

  ghost predicate SameElsewhere(p: Lists, q: Lists, a: Address) {
    forall b | b != a :: (b in p <==> b in q) && (b in p ==> p[b] == q[b])
  }

  /**
    Removing `tx`: its pending nonce goes together with all later ones, which move to the queue if any earlier
    one is left; a nonce that is not pending is removed from the queue.
   */
  ghost predicate Removes(v: View, w: View, tx: Tx) {
    var a, n: nat := tx.from, tx.nonce;
    var p, q := ItemsOf(v.pending, a), ItemsOf(v.queue, a);
    && w.all == v.all - {tx.Hash()}
    && SameElsewhere(v.pending, w.pending, a)
    && SameElsewhere(v.queue, w.queue, a)
    && (n in p ==>
          && ItemsOf(w.pending, a) == Below(p, n)
          && (a in w.pending <==> Below(p, n) != map[])
          && ItemsOf(w.queue, a) == if Below(p, n) == map[] then q else q + AtLeast(p, n + 1))
    && (n !in p ==> w.pending == v.pending && ItemsOf(w.queue, a) == q - {n})
  }

  /** The transaction heads a pending list that goes on after it. */
  predicate HeadsLonger(v: View, tx: Tx) {
    var p := ItemsOf(v.pending, tx.from);
    var n: nat := tx.nonce;
    n in p && Below(p, n) == map[] && AtLeast(p, n + 1) != map[]
  }

  /** Removing it takes away list slots of transactions that stay known: its successors', or another one's. */
  predicate LeakyRemoval(v: View, tx: Tx) {
    HeadsLonger(v, tx) || (!Held(v, tx) && (tx.nonce in ItemsOf(v.pending, tx.from)
        || tx.nonce in ItemsOf(v.queue, tx.from)))
  }

  /** The lists once `tx`'s nonce is removed from its account's, which goes too if nothing is left. */
  function WithoutNonce(lists: Lists, tx: Tx): Lists {
    if tx.from !in lists then lists
    else
      var rest := lists[tx.from].Removed(tx.nonce);
      if rest.items == map[] then lists - {tx.from} else lists[tx.from := rest]
  }

  /** Once `tx`'s pending tail is taken away the rest is consistent and the tail can be queued. */
  ghost predicate Requeueable(v: View, tx: Tx) {
    && tx.from in v.pending && tx.nonce in v.pending[tx.from].items
    && Consistent(v.(pending := WithoutNonce(v.pending, tx)))
    && var invalids := v.pending[tx.from].RemoveInvalid(tx.nonce);
    && ItemsOf(v.queue, tx.from).Keys !! invalids.Keys
    && ItemsOf(WithoutNonce(v.pending, tx), tx.from).Keys !! invalids.Keys
    && forall n | n in invalids ::
         invalids[n].nonce == n && invalids[n].from == tx.from && invalids[n].sigOk && invalids[n].Hash() in v.all
  }

  /** The pending tail is gone and, unless nothing was left, its invalidated part is queued. */
  ghost predicate TailTaken(v: View, w: View, tx: Tx) {
    && tx.from in v.pending && tx.nonce in v.pending[tx.from].items
    && w.all == v.all && w.pending == WithoutNonce(v.pending, tx)
    && if tx.from !in w.pending then w.queue == v.queue
       else SameElsewhere(v.queue, w.queue, tx.from)
            && ItemsOf(w.queue, tx.from) == ItemsOf(v.queue, tx.from) + v.pending[tx.from].RemoveInvalid(tx.nonce)
  }

  lemma TailGone(v: View, tx: Tx)
    requires Filed(v.pending, true) && tx.nonce in ItemsOf(v.pending, tx.from)
    ensures SameElsewhere(v.pending, WithoutNonce(v.pending, tx), tx.from)
    ensures ItemsOf(WithoutNonce(v.pending, tx), tx.from) == Below(ItemsOf(v.pending, tx.from), tx.nonce)
    ensures v.pending[tx.from].RemoveInvalid(tx.nonce) == AtLeast(ItemsOf(v.pending, tx.from), tx.nonce + 1)
    ensures Filed(WithoutNonce(v.pending, tx), true)
    ensures forall t | HeldIn(WithoutNonce(v.pending, tx), t) :: HeldIn(v.pending, t) && t != tx
  {
    assert FiledUnder(tx.from, v.pending[tx.from], true);
  }

  /** Every sub-map of an account's pending items stays apart from its queue. */
  lemma StillApart(v: View, p: Lists, a: Address)
    requires Apart(v) && SameElsewhere(v.pending, p, a) && ItemsOf(p, a).Keys <= ItemsOf(v.pending, a).Keys
    ensures Apart(v.(pending := p))
  {
    forall b
      ensures ItemsOf(p, b).Keys !! ItemsOf(v.queue, b).Keys
    {
      assert ItemsOf(v.pending, b).Keys !! ItemsOf(v.queue, b).Keys;
    }
  }

  lemma PendingRemoved(v: View, tx: Tx)
    requires Consistent(v) && tx.Hash() in v.all && tx.nonce in ItemsOf(v.pending, tx.from)
    ensures SameElsewhere(v.pending, WithoutNonce(v.pending, tx), tx.from)
    ensures ItemsOf(WithoutNonce(v.pending, tx), tx.from) == Below(ItemsOf(v.pending, tx.from), tx.nonce)
    ensures v.pending[tx.from].RemoveInvalid(tx.nonce) == AtLeast(ItemsOf(v.pending, tx.from), tx.nonce + 1)
    ensures Requeueable(v.(all := v.all - {tx.Hash()}), tx)
  {
    hide Filed, WithoutNonce, SameElsewhere, Apart, ListValue.RemoveInvalid;
    var p := WithoutNonce(v.pending, tx);
    TailGone(v, tx);
    StillApart(v, p, tx.from);
    NoncesApart(v, tx.from);
    forall t | Held(v.(pending := p), t)
      ensures t.Hash() in v.all - {tx.Hash()}
    {
      assert Held(v, t) && (t == tx ==> HeldIn(v.queue, t));
    }
    FiledItems(v.pending, tx.from, true);
    InvalidsKnown(v, tx);
    ApartAnyAll(v.(pending := p), v.all - {tx.Hash()});
  }

  lemma ApartAnyAll(v: View, all: Pool)
    requires Apart(v)
    ensures Apart(v.(all := all))
  {
    forall a
      ensures ItemsOf(v.pending, a).Keys !! ItemsOf(v.queue, a).Keys
    {
      assert ItemsOf(v.pending, a).Keys !! ItemsOf(v.queue, a).Keys;
    }
  }

  lemma NoncesApart(v: View, a: Address)
    requires Apart(v)
    ensures ItemsOf(v.pending, a).Keys !! ItemsOf(v.queue, a).Keys
  {
  }

  lemma FiledItems(lists: Lists, a: Address, strict: bool)
    requires Filed(lists, strict)
    ensures forall n | n in ItemsOf(lists, a) ::
      var t := ItemsOf(lists, a)[n]; t.nonce == n && t.from == a && t.sigOk && HeldIn(lists, t)
  {
  }

  /** What follows a removed nonce stays known. */
  lemma InvalidsKnown(v: View, tx: Tx)
    requires AllKnown(v) && Filed(v.pending, true)
    ensures forall n | n in AtLeast(ItemsOf(v.pending, tx.from), tx.nonce + 1) ::
      ItemsOf(v.pending, tx.from)[n].Hash() in v.all - {tx.Hash()}
  {
    FiledItems(v.pending, tx.from, true);
    forall n | n in AtLeast(ItemsOf(v.pending, tx.from), tx.nonce + 1)
      ensures ItemsOf(v.pending, tx.from)[n].Hash() in v.all - {tx.Hash()}
    {
      assert Held(v, ItemsOf(v.pending, tx.from)[n]);
    }
  }

  lemma QueuedRemoved(v: View, tx: Tx)
    requires Consistent(v) && tx.Hash() in v.all && tx.nonce !in ItemsOf(v.pending, tx.from)
    ensures var w := View(v.pending, WithoutNonce(v.queue, tx), v.all - {tx.Hash()});
      Consistent(w) && Removes(v, w, tx)
  {
  }

  /** Queueing a known transaction whose nonce is free adds it to the queue and nothing else. */
  lemma EnqueuedFresh(v: View, tx: Tx, bump: nat)
    requires Consistent(v) && tx.Hash() in v.all
    requires tx.nonce !in ItemsOf(v.queue, tx.from)
    ensures var w := Enqueued(v, tx, bump);
      && w.pending == v.pending && w.all == v.all && SameElsewhere(v.queue, w.queue, tx.from)
      && ItemsOf(w.queue, tx.from) == ItemsOf(v.queue, tx.from)[tx.nonce := tx]
  {
  }

  lemma GrowsBy(q: Items, txs: Items, todo: set<nat>, n: nat)
    requires n in todo && todo <= txs.Keys
    ensures q + (txs - (todo - {n})) == (q + (txs - todo))[n := txs[n]]
  {
  }

  /** Forgetting a pending transaction and taking its tail away is a removal. */
  lemma RemovesPending(v: View, w: View, tx: Tx)
    requires Consistent(v) && tx.Hash() in v.all && tx.nonce in ItemsOf(v.pending, tx.from)
    requires TailTaken(v.(all := v.all - {tx.Hash()}), w, tx)
    ensures Removes(v, w, tx)
  {
  }

  /** What is held and is not taken away stays held, unless the removal is leaky. */
  lemma SurvivesRemoval(v: View, w: View, tx: Tx, t: Tx)
    requires Consistent(v) && Removes(v, w, tx) && !LeakyRemoval(v, tx)
    requires Held(v, t) && t != tx
    ensures Held(w, t)
  {
    hide Filed, HashKeyed, AllKnown, Apart;
    NoncesApart(v, tx.from);
    FiledItems(v.pending, tx.from, true);
    FiledItems(v.queue, tx.from, false);
  }

  /** A leaky removal takes the list slot of a transaction that stays known. */
  lemma LostInRemoval(v: View, w: View, tx: Tx) returns (t: Tx)
    requires Consistent(v) && tx.Hash() in v.all && Removes(v, w, tx) && LeakyRemoval(v, tx)
    ensures Held(v, t) && Unheld(w, t)
  {
    hide Filed, HashKeyed, Apart;
    var a, n: nat := tx.from, tx.nonce;
    var p, q := ItemsOf(v.pending, a), ItemsOf(v.queue, a);
    NoncesApart(v, a);
    FiledItems(v.pending, a, true);
    FiledItems(v.queue, a, false);
    if HeadsLonger(v, tx) {
      var k :| k in AtLeast(p, n + 1);
      t := p[k];
      assert t.nonce == k && t.from == a;
      assert HeldIn(v.pending, t) && !HeldIn(w.pending, t) && !HeldIn(w.queue, t);
    } else {
      t := if n in p then p[n] else q[n];
      assert t.nonce == n && t.from == a;
      assert Held(v, t) && !HeldIn(w.pending, t) && !HeldIn(w.queue, t);
    }
  }

  /** A removal leaks exactly when it is leaky. */
  lemma RemovalLeaksIff(v: View, w: View, tx: Tx)
    requires Consistent(v) && tx.Hash() in v.all && Removes(v, w, tx)
    ensures LeaksOnly(v, w, {}) <==> !LeakyRemoval(v, tx)
    ensures !Unheld(w, tx)
  {
    if LeakyRemoval(v, tx) {
      var t := LostInRemoval(v, w, tx);
      assert !Unheld(v, t);
    } else {
      forall t | Unheld(w, t)
        ensures Unheld(v, t)
      {
        if Held(v, t) {
          SurvivesRemoval(v, w, tx, t);
        }
      }
    }
  }

  /** From a leak-free pool, only removing the head of a longer pending list leaks. */
  lemma LeakFreeRemovalIff(v: View, w: View, tx: Tx)
    requires Consistent(v) && Consistent(w) && tx.Hash() in v.all && Removes(v, w, tx) && LeakFree(v)
    ensures LeakFree(w) <==> !HeadsLonger(v, tx)
  {
    RemovalLeaksIff(v, w, tx);
    assert Held(v, tx) by {
      assert !Unheld(v, tx);
    }
    if LeakFree(w) {
      assert LeaksOnly(v, w, {});
    }
  }

  // ---------------------------------------------------------------------------------------------
  // Promotion

  /** Making a known transaction with a free nonce pending adds it to the pending list and nothing else. */
  lemma PromotedFresh(v: View, tx: Tx, bump: nat)
    requires HashKeyed(v.all) && tx.Hash() in v.all
    requires tx.nonce !in ItemsOf(v.pending, tx.from)
    ensures var w := Promoted(v, tx, bump);
      && ListOf(v.pending, tx.from, true).Admits(tx, bump)
      && w.queue == v.queue && w.all == v.all && SameElsewhere(v.pending, w.pending, tx.from)
      && tx.from in w.pending && ItemsOf(w.pending, tx.from) == ItemsOf(v.pending, tx.from)[tx.nonce := tx]
  {
  }

  /** A group of transactions of one account moved from the queue to pending. */
  ghost predicate Moved(v: View, w: View, a: Address, run: Items) {
    && w.all == v.all
    && SameElsewhere(v.pending, w.pending, a) && SameElsewhere(v.queue, w.queue, a)
    && SubItems(run, ItemsOf(v.queue, a))
    && ItemsOf(w.pending, a) == ItemsOf(v.pending, a) + run
    && ItemsOf(w.queue, a) == ItemsOf(v.queue, a) - run.Keys
  }

  lemma MovedHolds(v: View, w: View, a: Address, run: Items)
    requires Consistent(v) && Moved(v, w, a, run)
    ensures forall t :: Held(v, t) <==> Held(w, t)
    ensures LeaksOnly(v, w, {})
  {
    assert ItemsOf(v.pending, a).Keys !! ItemsOf(v.queue, a).Keys;
    forall t
      ensures Held(v, t) <==> Held(w, t)
    {
      if t.from != a {
        assert ItemsOf(w.pending, t.from) == ItemsOf(v.pending, t.from);
        assert ItemsOf(w.queue, t.from) == ItemsOf(v.queue, t.from);
      }
    }
  }

  /** The ready run is an interval of nonces. */
  lemma ReadyBounds(m: Items, start: nat) returns (lo: nat, hi: nat)
    ensures lo <= hi && Interval(ReadyRun(m, start), lo, hi)
  {
    var run := ReadyRun(m, start);
    lo, hi := 0, 0;
    if run != map[] {
      lo := LowestNonce(run.Keys);
      hi := lo;
      var rest := run.Keys;
      while hi in run
        invariant lo <= hi && rest <= run.Keys
        invariant forall k | lo <= k < hi :: k in run && k !in rest
        invariant forall k | k in run && k >= hi :: k in rest
        decreases rest
      {
        rest := rest - {hi};
        hi := hi + 1;
      }
      RunStops(m, start, lo, hi);
    }
  }

  lemma {:induction false} LowestNonce(s: set<nat>) returns (lo: nat)
    requires s != {}
    ensures lo in s && forall n | n in s :: lo <= n
    decreases |s|
  {
    lo :| lo in s;
    var rest := s - {lo};
    if rest != {} {
      var l := LowestNonce(rest);
      assert forall n | n in s :: n == lo || n in rest;
      if l < lo {
        lo := l;
      }
    }
  }

  lemma RunStops(m: Items, start: nat, lo: nat, hi: nat)
    requires lo in ReadyRun(m, start) && lo < hi && hi !in ReadyRun(m, start)
    requires forall n | n in ReadyRun(m, start) :: lo <= n
    requires forall n | lo <= n < hi :: n in ReadyRun(m, start)
    ensures Interval(ReadyRun(m, start), lo, hi)
  {
  }

  lemma UpdatedTwice<K, V>(m: map<K, V>, k: K, v: V, w: V)
    ensures m[k := v][k := w] == m[k := w]
  {
  }

  method LowestKey(m: Items) returns (lo: nat)
    requires m != map[]
    ensures lo in m && forall n | n in m :: lo <= n
  {
    var todo := m.Keys;
    assert todo != {};
    lo :| lo in todo;
    while todo != {}
      invariant todo <= m.Keys && lo in m && forall n | n in m && n !in todo :: lo <= n
      decreases todo
    {
      var n :| n in todo;
      if n < lo {
        lo := n;
      }
      todo := todo - {n};
    }
  }

  /** Known transactions of one account that are in no list under their nonces. */
  ghost predicate Movable(v: View, a: Address, run: Items) {
    forall n | n in run ::
      && run[n].nonce == n && run[n].from == a && run[n].sigOk && run[n].Hash() in v.all
      && n !in ItemsOf(v.pending, a) && n !in ItemsOf(v.queue, a)
  }

  lemma ReadySplits(m: Items, k: nat)
    ensures ReadyRun(m, k) == m - AfterReady(m, k).Keys && AfterReady(m, k) == m - ReadyRun(m, k).Keys
    ensures SubItems(AfterReady(m, k), m) && SubItems(ReadyRun(m, k), m)
  {
  }

  lemma ReadyMovable(v: View, a: Address, start: nat)
    requires Consistent(v) && a in v.queue
    ensures var w := v.(queue := v.queue[a := v.queue[a].Promoted(start)]);
      Consistent(w) && Movable(w, a, ReadyRun(v.queue[a].items, start))
    ensures SubItems(ReadyRun(v.queue[a].items, start), v.queue[a].items)
    ensures v.queue[a].Promoted(start).items == v.queue[a].items - ReadyRun(v.queue[a].items, start).Keys
  {
  }

  /** The part of a run that has been made pending. */
  ghost predicate PromotedUpTo(v: View, w: View, a: Address, run: Items, n: nat) {
    && w.all == v.all && w.queue == v.queue
    && SameElsewhere(v.pending, w.pending, a)
    && ItemsOf(w.pending, a) == ItemsOf(v.pending, a) + Below(run, n)
  }

  lemma NextIsFree(v: View, w: View, a: Address, run: Items, n: nat)
    requires Consistent(w) && PromotedUpTo(v, w, a, run, n) && n in run && Movable(v, a, run)
    ensures run[n].from == a && run[n].nonce == n && run[n].sigOk && run[n].Hash() in w.all && HashKeyed(w.all)
    ensures n !in ItemsOf(w.pending, a) && n !in ItemsOf(w.queue, a) && !Held(w, run[n])
  {
    hide HashKeyed, Apart, AllKnown;
  }

  lemma OneMore(v: View, w: View, x: View, a: Address, run: Items, n: nat)
    requires PromotedUpTo(v, w, a, run, n) && n in run
    requires x.queue == w.queue && x.all == w.all && SameElsewhere(w.pending, x.pending, a)
    requires ItemsOf(x.pending, a) == ItemsOf(w.pending, a)[n := run[n]]
    ensures PromotedUpTo(v, x, a, run, n + 1)
  {
    assert Below(run, n + 1) == Below(run, n)[n := run[n]];
  }

  lemma PromotedUpToNext(v: View, w: View, a: Address, run: Items, n: nat, bump: nat)
    requires Consistent(w) && PromotedUpTo(v, w, a, run, n) && n in run && Movable(v, a, run)
    ensures Consistent(Promoted(w, run[n], bump)) && a in Promoted(w, run[n], bump).pending
    ensures PromotedUpTo(v, Promoted(w, run[n], bump), a, run, n + 1)
    ensures ListOf(w.pending, a, true).Admits(run[n], bump)
  {
    hide Promoted, Consistent, PromotedUpTo, Movable, Held, HashKeyed;
    NextIsFree(v, w, a, run, n);
    PromotedFresh(w, run[n], bump);
    PromotedKeeps(w, run[n], bump);
    OneMore(v, w, Promoted(w, run[n], bump), a, run, n);
  }

  /** Taking the ready run out of the queue and making all of it pending moves it. */
  lemma RunMoved(v: View, u: View, w: View, a: Address, start: nat, lo: nat, hi: nat)
    requires Consistent(v) && a in v.queue && u == v.(queue := v.queue[a := v.queue[a].Promoted(start)])
    requires Interval(ReadyRun(v.queue[a].items, start), lo, hi)
    requires PromotedUpTo(u, w, a, ReadyRun(v.queue[a].items, start), hi)
    ensures Moved(v, w, a, ReadyRun(v.queue[a].items, start)) && LeaksOnly(v, w, {}) && w.queue == u.queue
  {
    var run := ReadyRun(v.queue[a].items, start);
    ReadySplits(v.queue[a].items, start);
    assert Below(run, hi) == run;
    MovedHolds(v, w, a, run);
  }

  lemma NothingMoved(v: View, u: View, a: Address, start: nat)
    requires Consistent(v) && a in v.queue && u == v.(queue := v.queue[a := v.queue[a].Promoted(start)])
    requires ReadyRun(v.queue[a].items, start) == map[]
    ensures Moved(v, u, a, map[]) && LeaksOnly(v, u, {})
  {
    ReadySplits(v.queue[a].items, start);
    MovedHolds(v, u, a, map[]);
  }

  /** The effect of making the transactions with nonces [lo, n) pending one after the other. */
  ghost function PromotedMany(v: View, run: Items, lo: nat, n: nat, bump: nat): View
    requires lo <= n && forall k | lo <= k < n :: k in run
  {
    if n == lo then v else Promoted(PromotedMany(v, run, lo, n - 1, bump), run[n - 1], bump)
  }

  lemma NonePromoted(v: View, a: Address, run: Items, lo: nat)
    requires forall k | k in run :: lo <= k
    ensures PromotedUpTo(v, v, a, run, lo)
  {
  }

  lemma {:induction false} PromotedManyIs(v: View, a: Address, run: Items, lo: nat, n: nat, bump: nat)
    requires Consistent(v) && Movable(v, a, run) && lo <= n
    requires (forall k | lo <= k < n :: k in run) && forall k | k in run :: lo <= k
    ensures PromotedUpTo(v, PromotedMany(v, run, lo, n, bump), a, run, n)
    ensures Consistent(PromotedMany(v, run, lo, n, bump))
    ensures lo < n ==> a in PromotedMany(v, run, lo, n, bump).pending
    decreases n
  {
    hide Consistent, PromotedUpTo, Promoted, Movable;
    if n == lo {
      NonePromoted(v, a, run, lo);
    } else {
      PromotedManyIs(v, a, run, lo, n - 1, bump);
      PromotedUpToNext(v, PromotedMany(v, run, lo, n - 1, bump), a, run, n - 1, bump);
    }
  }

  lemma PromotedManyAdmits(v: View, a: Address, run: Items, lo: nat, n: nat, bump: nat)
    requires Consistent(v) && Movable(v, a, run) && lo <= n && n in run
    requires (forall k | lo <= k < n :: k in run) && forall k | k in run :: lo <= k
    ensures run[n].nonce == n && run[n].from == a
    ensures ListOf(PromotedMany(v, run, lo, n, bump).pending, a, true).Admits(run[n], bump)
  {
    PromotedManyIs(v, a, run, lo, n, bump);
    PromotedUpToNext(v, PromotedMany(v, run, lo, n, bump), a, run, n, bump);
  }

  lemma NoLeaksCompose(u: View, v: View, w: View)
    requires LeaksOnly(u, v, {}) && LeaksOnly(v, w, {})
    ensures LeaksOnly(u, w, {})
  {
  }

  lemma Strictness(v: View, a: Address)
    requires Consistent(v)
    ensures a in v.pending ==> v.pending[a].strict
    ensures a in v.queue ==> !v.queue[a].strict
  {
  }

  // ---------------------------------------------------------------------------------------------
  // Demotion

  /** A pending list splits into what stays, what is dropped and what goes back to the queue. */
  ghost predicate ThreeWay(m: Items, stay: Items, drop: Items, back: Items) {
    && SubItems(stay, m) && SubItems(drop, m) && SubItems(back, m)
    && (forall n | n in m :: n in stay || n in drop || n in back)
    && stay.Keys !! drop.Keys && stay.Keys !! back.Keys && drop.Keys !! back.Keys
  }

  /** Part of a pending list was dropped and part moved to the queue. */
  ghost predicate PutBack(v: View, w: View, a: Address, l: ListValue, drop: Items, back: Items) {
    && a in v.pending && ThreeWay(v.pending[a].items, l.items, drop, back)
    && w.pending == v.pending[a := l] && w.all == Without(v.all, drop)
    && SameElsewhere(v.queue, w.queue, a) && ItemsOf(w.queue, a) == ItemsOf(v.queue, a) + back
  }

  lemma PutBackHolds(v: View, w: View, a: Address, l: ListValue, drop: Items, back: Items)
    requires Consistent(v) && PutBack(v, w, a, l, drop, back)
    ensures LeaksOnly(v, w, {})
  {
    hide Filed, Apart, HashKeyed, AllKnown;
    NoncesApart(v, a);
    FiledItems(v.pending, a, true);
    forall t | Unheld(w, t)
      ensures Unheld(v, t)
    {
      assert t.Hash() !in HashesOf(drop);
    }
  }

  /** After the drop the rest of the pool is consistent and the part to go back can be queued. */
  lemma DroppedPart(v: View, a: Address, l: ListValue, drop: Items, back: Items)
    requires Consistent(v) && a in v.pending && l.strict && ThreeWay(v.pending[a].items, l.items, drop, back)
    ensures Consistent(View(v.pending[a := l], v.queue, Without(v.all, drop)))
    ensures ItemsOf(v.pending[a := l], a).Keys !! back.Keys && ItemsOf(v.queue, a).Keys !! back.Keys
    ensures forall n | n in back ::
      back[n].nonce == n && back[n].from == a && back[n].sigOk && back[n].Hash() in Without(v.all, drop)
  {
  }

  lemma FilterThreeWay(l: ListValue, costLimit: int, gasLimit: nat, lampHeight: nat)
    ensures ThreeWay(l.items, l.Filtered(costLimit, gasLimit, lampHeight).items,
                     l.FilterRemoved(costLimit, gasLimit, lampHeight), l.FilterInvalid(costLimit, gasLimit, lampHeight))
  {
  }

  lemma AllGoesBack(l: ListValue)
    ensures l.Capped(0).items == map[] && ThreeWay(l.items, l.Capped(0).items, map[], l.items)
  {
  }
}
