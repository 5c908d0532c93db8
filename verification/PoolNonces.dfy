/** How an account's pending and queued nonces line up with its state nonce and its expected nonce. */
module PoolNonces {
  import opened Types
  import opened NonceMap
  import opened TxLists
  import opened PoolViews

  /** The next nonce expected of an account: the managed one if there is any, else the state's. */
  function NonceIn(managed: map<Address, nat>, state: ChainState, a: Address): nat {
    if a in managed then managed[a] else state.NonceOf(a)
  }

  /**
    The pending nonces fill the interval from the state nonce to the expected nonce, a listed account has some,
    and no queued nonce lies inside.
   */
  ghost predicate Lined(pending: Items, queued: Items, listed: bool, stateNonce: nat, expected: nat) {
    && stateNonce <= expected && Interval(pending, stateNonce, expected)
    && (listed ==> stateNonce < expected)
    && forall n | n in queued :: n >= expected || n < stateNonce
  }

  ghost predicate Settling(v: View, managed: map<Address, nat>, state: ChainState, a: Address) {
    Lined(ItemsOf(v.pending, a), ItemsOf(v.queue, a), a in v.pending, state.NonceOf(a), NonceIn(managed, state, a))
  }

  /** Moreover no queued nonce is below the expected one. */
  ghost predicate Steady(v: View, managed: map<Address, nat>, state: ChainState, a: Address) {
    && Settling(v, managed, state, a)
    && forall n | n in ItemsOf(v.queue, a) :: n >= NonceIn(managed, state, a)
  }

  /** An account none of whose lists or nonces changed stays lined up. */
  lemma SteadyElsewhere(v: View, w: View, managed: map<Address, nat>, managed': map<Address, nat>, state: ChainState,
                        a: Address, b: Address)
    requires a != b && SameElsewhere(v.pending, w.pending, a) && SameElsewhere(v.queue, w.queue, a)
    requires NonceIn(managed, state, b) == NonceIn(managed', state, b)
    ensures Settling(v, managed, state, b) <==> Settling(w, managed', state, b)
    ensures Steady(v, managed, state, b) <==> Steady(w, managed', state, b)
  {
  }

  /** Removal by hash keeps accounts lined up. */
  lemma RemovalSettles(v: View, w: View, managed: map<Address, nat>, managed': map<Address, nat>, state: ChainState,
                       tx: Tx, b: Address)
    requires Removes(v, w, tx)
    requires managed' == if tx.nonce in ItemsOf(v.pending, tx.from) && NonceIn(managed, state, tx.from) > tx.nonce
                         then managed[tx.from := tx.nonce] else managed
    ensures Settling(v, managed, state, b) ==> Settling(w, managed', state, b)
    ensures Steady(v, managed, state, b) ==> Steady(w, managed', state, b)
  {
    var a, n: nat := tx.from, tx.nonce;
    if b != a {
      SteadyElsewhere(v, w, managed, managed', state, a, b);
    } else if Settling(v, managed, state, a) {
      var p := ItemsOf(v.pending, a);
      if n in p {
        assert NonceIn(managed', state, a) == n;
        assert Interval(Below(p, n), state.NonceOf(a), n);
        assert state.NonceOf(a) == n ==> Below(p, n) == map[];
        assert state.NonceOf(a) < n ==> state.NonceOf(a) in Below(p, n);
      } else {
        assert ItemsOf(w.pending, a) == p;
      }
    }
  }

  /** The ready run extends the pending interval, and what is left lies beyond the next nonce. */
  lemma RunExtends(pending: Items, queued: Items, stateNonce: nat, expected: nat, lo: nat, hi: nat)
    requires stateNonce <= expected && Interval(pending, stateNonce, expected)
    requires forall n | n in queued :: n >= expected
    requires lo <= hi && Interval(ReadyRun(queued, expected), lo, hi)
    ensures lo < hi ==> lo == expected
    ensures Interval(pending + ReadyRun(queued, expected), stateNonce, if lo < hi then hi else expected)
    ensures forall n | n in AfterReady(queued, expected) :: n > if lo < hi then hi else expected
  {
    var run := ReadyRun(queued, expected);
    if lo < hi {
      assert lo in run;
      var j :| j in queued && j <= expected;
      assert j == expected;
      RunHasStart(queued, expected);
      assert expected in run;
      forall n | n in AfterReady(queued, expected)
        ensures n > hi
      {
        if n <= hi {
          assert n !in run && hi - 1 in run;
          RunGoesOn(queued, expected, hi);
        }
      }
    } else {
      assert run == map[] by {
        assert forall n :: n !in run;
      }
      forall n | n in AfterReady(queued, expected)
        ensures n > expected
      {
        if n == expected {
          RunHasStart(queued, expected);
        }
      }
    }
  }

  lemma RunHasStart(m: Items, start: nat)
    requires start in m && forall n | n in m :: n >= start
    ensures start in ReadyRun(m, start)
  {
  }

  lemma RunGoesOn(m: Items, start: nat, hi: nat)
    requires start in m && start < hi && hi in m && hi - 1 in ReadyRun(m, start)
    ensures hi in ReadyRun(m, start)
  {
  }

  /** What is left of a list once outdated and unpayable transactions, and in strict lists what follows them, are gone. */
  function Payable(l: ListValue, state: ChainState, a: Address, maxGas: nat, lampHeight: nat): ListValue {
    l.Forwarded(state.NonceOf(a)).Filtered(state.BalanceOf(a), maxGas, lampHeight)
  }

  lemma PayableIsPart(l: ListValue, state: ChainState, a: Address, maxGas: nat, lampHeight: nat)
    ensures forall n | n in Payable(l, state, a, maxGas, lampHeight).items :: n in l.items && n >= state.NonceOf(a)
  {
  }

  function CappedBy(m: Items, cap: Option<nat>): Items {
    if cap.Some? then Lowest(m, cap.value) else m
  }

  /**
    Of the payable queued transactions of an account the ready run became pending and the rest, up to the cap,
    stays queued; the expected nonce moved past the run; other accounts are untouched.
   */
  ghost predicate AccountPromoted(v: View, w: View, managed: map<Address, nat>, managed': map<Address, nat>,
                                  state: ChainState, a: Address, payable: Items, cap: Option<nat>) {
    var expected := NonceIn(managed, state, a);
    var run := ReadyRun(payable, expected);
    && SameElsewhere(v.pending, w.pending, a) && SameElsewhere(v.queue, w.queue, a)
    && ItemsOf(w.pending, a) == ItemsOf(v.pending, a) + run
    && ItemsOf(w.queue, a) == CappedBy(AfterReady(payable, expected), cap)
    && if run == map[] then w.pending == v.pending && managed' == managed
       else a in w.pending && exists hi: nat :: (hi > 0 && hi - 1 in run && hi !in run && managed' == managed[a := hi])
  }

  lemma NoLeaks(v: View)
    ensures LeaksOnly(v, v, {})
  {
  }

  lemma NoQueueSteady(v: View, managed: map<Address, nat>, state: ChainState, a: Address)
    requires a !in v.queue
    ensures Settling(v, managed, state, a) ==> Steady(v, managed, state, a)
  {
  }

  /** Cutting the queue down to what is payable, moving the ready run, and capping adds up to the promotion. */
  lemma PromotionAdds(v: View, v1: View, v2: View, w: View, managed: map<Address, nat>, managed': map<Address, nat>,
                      state: ChainState, a: Address, lo: nat, hi: nat, cap: Option<nat>)
    requires a in v.queue && a in v1.queue && SameElsewhere(v.queue, v1.queue, a) && v1.pending == v.pending
    requires Moved(v1, v2, a, ReadyRun(v1.queue[a].items, NonceIn(managed, state, a)))
    requires a in v2.queue && v2.queue[a].items == AfterReady(v1.queue[a].items, NonceIn(managed, state, a))
    requires lo <= hi && Interval(ReadyRun(v1.queue[a].items, NonceIn(managed, state, a)), lo, hi)
    requires managed' == if lo < hi then managed[a := hi] else managed
    requires if lo < hi then a in v2.pending else v2.pending == v1.pending
    requires w.pending == v2.pending && SameElsewhere(v2.queue, w.queue, a)
    requires ItemsOf(w.queue, a) == CappedBy(v2.queue[a].items, cap)
    ensures AccountPromoted(v, w, managed, managed', state, a, v1.queue[a].items, cap)
  {
    var run := ReadyRun(v1.queue[a].items, NonceIn(managed, state, a));
    if lo < hi {
      assert hi - 1 in run && hi !in run && hi > 0;
    } else {
      assert forall n :: n !in run;
      assert run == map[];
    }
  }

  /** Promotion leaves a settled account steady and the others as they were. */
  lemma PromotionSettles(v: View, w: View, managed: map<Address, nat>, managed': map<Address, nat>,
                         state: ChainState, a: Address, payable: Items, cap: Option<nat>, lo: nat, hi: nat)
    requires AccountPromoted(v, w, managed, managed', state, a, payable, cap)
    requires a in v.queue && forall n | n in payable :: n in v.queue[a].items && n >= state.NonceOf(a)
    requires lo <= hi && Interval(ReadyRun(payable, NonceIn(managed, state, a)), lo, hi)
    requires managed' == if lo < hi then managed[a := hi] else managed
    ensures Settling(v, managed, state, a) ==> Steady(w, managed', state, a)
    ensures forall b | b != a :: Settling(v, managed, state, b) <==> Settling(w, managed', state, b)
    ensures forall b | b != a :: Steady(v, managed, state, b) <==> Steady(w, managed', state, b)
  {
    forall b | b != a
      ensures Settling(v, managed, state, b) <==> Settling(w, managed', state, b)
      ensures Steady(v, managed, state, b) <==> Steady(w, managed', state, b)
    {
      SteadyElsewhere(v, w, managed, managed', state, a, b);
    }
    if Settling(v, managed, state, a) {
      RunExtends(ItemsOf(v.pending, a), payable, state.NonceOf(a), NonceIn(managed, state, a), lo, hi);
    }
  }

  // ---------------------------------------------------------------------------------------------
  // Demotion

  /** No account's nonce went back. */
  ghost predicate Advances(s: ChainState, t: ChainState) {
    forall a :: s.NonceOf(a) <= t.NonceOf(a)
  }

  /** What demotion moves back to the queue besides a list with a gap in front. */
  function Postponed(l: ListValue, state: ChainState, a: Address, maxGas: nat, lampHeight: nat): Items {
    l.Forwarded(state.NonceOf(a)).FilterInvalid(state.BalanceOf(a), maxGas, lampHeight)
  }

  predicate GapInFront(m: Items, nonce: nat) {
    m != map[] && nonce !in m
  }

  /** The account's executable transactions stay pending, and the postponed ones join its queue. */
  ghost predicate DemotedAt(v: View, w: View, state: ChainState, a: Address, maxGas: nat, lampHeight: nat)
    requires a in v.pending
  {
    var keep := Payable(v.pending[a], state, a, maxGas, lampHeight).items;
    var postponed := Postponed(v.pending[a], state, a, maxGas, lampHeight);
    && ItemsOf(w.pending, a) == (if GapInFront(keep, state.NonceOf(a)) then map[] else keep)
    && (a in w.pending <==> ItemsOf(w.pending, a) != map[])
    && ItemsOf(w.queue, a) == ItemsOf(v.queue, a)
         + (if GapInFront(keep, state.NonceOf(a)) then postponed + keep else postponed)
  }

  /** One account was demoted and the others are untouched. */
  ghost predicate AccountDemoted(v: View, w: View, state: ChainState, a: Address, maxGas: nat, lampHeight: nat)
    requires a in v.pending
  {
    SameElsewhere(v.pending, w.pending, a) && SameElsewhere(v.queue, w.queue, a)
    && DemotedAt(v, w, state, a, maxGas, lampHeight)
  }

  /** The pending nonces start at the state nonce without a gap and no queued nonce lies inside. */
  ghost predicate LinedBySize(v: View, state: ChainState, a: Address) {
    Lined(ItemsOf(v.pending, a), ItemsOf(v.queue, a), a in v.pending,
          state.NonceOf(a), state.NonceOf(a) + |ItemsOf(v.pending, a)|)
  }

  /** Filtering a gapless pending list against a newer state keeps an interval from the new state nonce. */
  lemma ExecutableInterval(l: ListValue, s: nat, hi: nat, t: ChainState, a: Address, maxGas: nat, lampHeight: nat)
    returns (mid: nat)
    requires l.strict && Keyed(l.items) && s <= hi && Interval(l.items, s, hi) && s <= t.NonceOf(a)
    ensures var keep := Payable(l, t, a, maxGas, lampHeight).items;
      && t.NonceOf(a) <= mid && Interval(keep, t.NonceOf(a), mid) && |keep| == mid - t.NonceOf(a)
      && !GapInFront(keep, t.NonceOf(a)) && (mid <= hi || keep == map[])
    ensures forall n | n in Postponed(l, t, a, maxGas, lampHeight) :: n >= mid
  {
    hide ListValue.Filtered, ListValue.FilterRemoved, ListValue.FilterInvalid;
    var lo := t.NonceOf(a);
    var fl := l.Forwarded(lo);
    var top := if lo <= hi then hi else lo;
    assert Interval(fl.items, lo, top);
    mid := StrictFilterPrefix(fl, lo, top, t.BalanceOf(a), maxGas, lampHeight);
    var keep := Payable(l, t, a, maxGas, lampHeight).items;
    IntervalSize(keep.Keys, lo, mid);
    if keep != map[] {
      var k :| k in keep;
      assert lo in keep;
    }
    var postponed := Postponed(l, t, a, maxGas, lampHeight);
    forall n | n in postponed
      ensures n >= mid
    {
      assert n in fl.FilterRemoved(t.BalanceOf(a), maxGas, lampHeight) + postponed;
    }
  }

  /** Demotion against a state in which no nonce went back lines a settled account up again. */
  lemma DemotionLines(v: View, w: View, managed: map<Address, nat>, s: ChainState, t: ChainState,
                      a: Address, maxGas: nat, lampHeight: nat)
    requires Settling(v, managed, s, a) && s.NonceOf(a) <= t.NonceOf(a) && a in v.pending
    requires v.pending[a].strict && Keyed(v.pending[a].items)
    requires DemotedAt(v, w, t, a, maxGas, lampHeight)
    ensures LinedBySize(w, t, a)
  {
    hide Payable, Postponed;
    var mid := ExecutableInterval(v.pending[a], s.NonceOf(a), NonceIn(managed, s, a), t, a, maxGas, lampHeight);
    var keep := Payable(v.pending[a], t, a, maxGas, lampHeight).items;
    assert ItemsOf(w.pending, a) == keep;
    if keep != map[] {
      var k :| k in keep;
    }
    assert mid > t.NonceOf(a) ==> t.NonceOf(a) in keep;
  }

  /** An account without pending transactions is lined up whatever it has queued. */
  lemma UnlistedLined(v: View, state: ChainState, a: Address)
    requires a !in v.pending
    ensures LinedBySize(v, state, a)
  {
  }

  /** Setting every listed account's expected nonce past its pending ones settles all accounts. */
  lemma LinedSettles(v: View, managed: map<Address, nat>, state: ChainState, a: Address)
    requires LinedBySize(v, state, a)
    requires a in managed <==> a in v.pending
    requires a in v.pending ==>
      managed[a] > 0 && managed[a] - 1 in v.pending[a].items && managed[a] !in v.pending[a].items
    ensures Settling(v, managed, state, a)
  {
  }

  /** The steps of demotion add up: cut to what is not outdated, filter, empty a list with a gap, delete empty lists. */
  lemma DemotionAdds(v: View, v1: View, v2: View, v3: View, w: View, state: ChainState, a: Address,
                     maxGas: nat, lampHeight: nat, removed: Items)
    requires a in v.pending && v1.queue == v.queue
    requires v1.pending == v.pending[a := v.pending[a].Forwarded(state.NonceOf(a))]
    requires PutBack(v1, v2, a, Payable(v.pending[a], state, a, maxGas, lampHeight), removed,
                     Postponed(v.pending[a], state, a, maxGas, lampHeight))
    requires var keep := Payable(v.pending[a], state, a, maxGas, lampHeight);
      if GapInFront(keep.items, state.NonceOf(a)) then PutBack(v2, v3, a, keep.Capped(0), map[], keep.items) else v3 == v2
    requires w.queue == v3.queue
    requires a in v3.pending
    requires w.pending == if v3.pending[a].items == map[] then v3.pending - {a} else v3.pending
    ensures AccountDemoted(v, w, state, a, maxGas, lampHeight)
  {
    hide Payable, Postponed, ThreeWay, SameElsewhere, Below, Lowest;
    var keep := Payable(v.pending[a], state, a, maxGas, lampHeight);
    PendingLeft(v.pending, w.pending, a, v3.pending[a]);
    if GapInFront(keep.items, state.NonceOf(a)) {
      AllGoesBack(keep);
      var q := ItemsOf(v.queue, a);
      var postponed := Postponed(v.pending[a], state, a, maxGas, lampHeight);
      assert (q + postponed) + keep.items == q + (postponed + keep.items);
      ElsewhereChain(v.queue, v2.queue, v3.queue, a);
    }
  }

  /** Putting a list back, or deleting it if it is empty. */
  lemma PendingLeft(p: Lists, q: Lists, a: Address, l: ListValue)
    requires q == if l.items == map[] then p - {a} else p[a := l]
    ensures SameElsewhere(p, q, a) && ItemsOf(q, a) == l.items && (a in q <==> l.items != map[])
  {
  }

  lemma ElsewhereChain(p: Lists, q: Lists, r: Lists, a: Address)
    requires SameElsewhere(p, q, a) && SameElsewhere(q, r, a)
    ensures SameElsewhere(p, r, a)
  {
  }
}
