/** Why transactions leave the lists, which stay, and what prices and nonces the lists keep to. */
module PoolFates {
  import opened Types
  import opened NonceMap
  import opened Seqs
  import opened TxLists
  import opened PricedList
  import opened PoolViews
  import opened PoolNonces
  import opened PoolTotals
  import opened PoolSteps
  import opened PoolRules
  import opened PoolSizes
  import opened PoolHistories
  import Gas

  // ---------------------------------------------------------------------------------------------
  // Why transactions go

  /** The transaction's nonce is used, or its sender or the block's gas limit no longer allows it. */
  predicate Outdated(t: Tx, state: ChainState, maxGas: nat, lampHeight: nat) {
    t.nonce < state.NonceOf(t.from) || Unpayable(t, state.BalanceOf(t.from), maxGas, lampHeight)
  }

  /** A dearer transaction of the same account and nonce. */
  predicate Displaces(x: Tx, t: Tx) {
    x.from == t.from && x.nonce == t.nonce && x.gasPrice > t.gasPrice
  }

  /** A remote account exceeds its share of the queue, or the pool exceeds a limit. */
  ghost predicate Squeezed(config: Config, p: Promotion, t: Tx) {
    && t.from !in p.before.locals
    && (Len(p.before.view.queue, t.from) > config.accountQueue
        || Total(p.promoted.view.pending) > config.globalSlots || Total(p.promoted.view.queue) > config.globalQueue)
  }

  /** The submission displaced the transaction, or made room by removing one of its remote sender. */
  predicate PushedOut(tx: Tx, s: Submission, r: AddResult, t: Tx) {
    (r.Added? && Displaces(tx, t)) || (t.from in SendersIn(s.drop) && t.from !in s.before.locals)
  }

  ghost predicate PushedOutOf(txs: seq<Tx>, subs: seq<Submission>, rs: seq<AddResult>, t: Tx) {
    exists i :: 0 <= i < |rs| && i < |subs| && i < |txs| && PushedOut(txs[i], subs[i], rs[i], t)
  }

  ghost predicate LeftOut(rules: Rules, p: Promotion, t: Tx) {
    Outdated(t, rules.state, rules.maxGas, rules.lampHeight) || Squeezed(rules.config, p, t)
  }

  /** Something was added to be promoted. */
  predicate Promotes(txs: seq<Tx>, rs: seq<AddResult>) {
    |rs| <= |txs| && !Crashed(rs) && Dirty(txs, rs) != {}
  }

  /** The reasons for which an event may take a transaction off the lists. */
  ghost predicate WhyGone(f: Frame, e: Event, m: Moment, o: Answer, n: Moment, t: Tx) {
    match e
    case Submit(tx, local, lampHeight) =>
      && o.OneAnswer?
      && (PushedOut(tx, o.s, o.r, t) || (o.r == Added(false) && LeftOut(f.RulesIn(m, local, lampHeight), o.p, t)))
    case SubmitAll(txs, local, lampHeight) =>
      && o.ManyAnswers?
      && (PushedOutOf(txs, o.subs, o.rs, t)
          || (Promotes(txs, o.rs) && LeftOut(f.RulesIn(m, local, lampHeight), o.p, t)))
    case Reprice(_) => o.DropAnswer? && t.from in SendersIn(o.drop) && t.from !in m.pool.locals
    case Expire(inactive) => t.from in inactive && t.from !in m.pool.locals && HeldIn(m.pool.view.queue, t)
    case NewHead(state, maxGas, reinject, lampHeight) =>
      && o.TurnAnswer?
      && (PushedOutOf(reinject, o.turn.subs, o.turn.rs, t)
          || (Promotes(reinject, o.turn.rs) && LeftOut(f.RulesIn(n, false, lampHeight), o.turn.added, t))
          || (!Crashed(o.turn.rs) && LeftOut(f.RulesIn(n, false, lampHeight), o.turn.promotion, t)))
  }

  predicate SameListsAt(v: View, w: View, a: Address) {
    ItemsOf(w.pending, a) == ItemsOf(v.pending, a) && ItemsOf(w.queue, a) == ItemsOf(v.queue, a)
  }

  lemma {:induction false} TraceSpares(trace: seq<Snapshot>, drop: seq<Tx>, state: ChainState, i: nat, a: Address)
    requires Trace(trace, drop, state) && i <= |drop| && HashKeyed(trace[0].view.all) && a !in SendersIn(drop)
    ensures HashKeyed(trace[i].view.all) && SameListsAt(trace[0].view, trace[i].view, a)
  {
    hide SameListsAt;
    if i == 0 {
      SameListsSelf(trace[0].view, a);
    } else {
      TraceSpares(trace, drop, state, i - 1, a);
      assert RemovedOne(trace[i - 1], trace[i], drop[i - 1], state);
      assert drop[i - 1] in drop;
      OneSpares(trace[i - 1], trace[i], drop[i - 1], state, a);
      SameListsTrans(trace[0].view, trace[i - 1].view, trace[i].view, a);
    }
  }

  lemma SameListsSelf(v: View, a: Address)
    ensures SameListsAt(v, v, a)
  {
  }

  lemma SameListsTrans(u: View, v: View, w: View, a: Address)
    requires SameListsAt(u, v, a) && SameListsAt(v, w, a)
    ensures SameListsAt(u, w, a)
  {
  }

  lemma OneSpares(s: Snapshot, t: Snapshot, d: Tx, state: ChainState, a: Address)
    requires RemovedOne(s, t, d, state) && HashKeyed(s.view.all) && d.from != a
    ensures HashKeyed(t.view.all) && SameListsAt(s.view, t.view, a)
  {
    if d.Hash() in s.view.all {
      WasDropped(s.view.all, d);
    }
  }

  /** Removing remote transactions takes nothing off the lists of accounts that sent none of them, locals among these. */
  lemma RemovedSpares(s: Snapshot, t: Snapshot, drop: seq<Tx>, state: ChainState, a: Address)
    requires RemovedInTurn(s, t, drop, state) && HashKeyed(s.view.all)
    requires forall d | d in drop :: d.Hash() in s.view.all && !IsLocal(s.locals, d)
    ensures HashKeyed(t.view.all) && t.locals == s.locals
    ensures a in SendersIn(drop) ==> a !in s.locals
    ensures a !in SendersIn(drop) ==> SameListsAt(s.view, t.view, a)
  {
    hide SameListsAt, RemovedOne;
    var trace: seq<Snapshot> :| Trace(trace, drop, state) && trace[0] == s && trace[|drop|] == t;
    RemovalKeepsLocals(s, t, drop, state);
    if a in SendersIn(drop) {
      var d :| d in drop && d.from == a;
      WasDropped(s.view.all, d);
    } else {
      TraceSpares(trace, drop, state, |drop|, a);
    }
    if drop == [] {
      assert trace[0] == trace[|drop|];
    } else {
      TraceKeyed(trace, drop, state, |drop|);
    }
  }

  lemma {:induction false} TraceKeyed(trace: seq<Snapshot>, drop: seq<Tx>, state: ChainState, i: nat)
    requires Trace(trace, drop, state) && i <= |drop| && HashKeyed(trace[0].view.all)
    ensures HashKeyed(trace[i].view.all)
  {
    if i > 0 {
      TraceKeyed(trace, drop, state, i - 1);
      assert RemovedOne(trace[i - 1], trace[i], drop[i - 1], state);
    }
  }

  lemma InsertedSpares(rules: Rules, tx: Tx, s: Snapshot, t: Snapshot, r: AddResult, x: Tx)
    requires Inserted(rules, tx, s, t, r) && HashKeyed(s.view.all) && tx.sigOk && Held(s.view, x)
    ensures Held(t.view, x) || (r.Added? && Displaces(tx, x))
  {
    hide BumpThreshold;
  }

  /** What a submission takes off the lists it pushed out. */
  lemma DecidedSpares(rules: Rules, tx: Tx, s: Submission, r: AddResult, x: Tx)
    requires Decided(rules, tx, s, r) && HashKeyed(s.before.view.all)
    ensures HashKeyed(s.after.view.all) && s.before.locals <= s.after.locals
    ensures Held(s.before.view, x) ==> Held(s.after.view, x) || PushedOut(tx, s, r, x)
  {
    hide Inserted, RemovedInTurn, Rules.Acceptable, Rules.Reports, Underpriced, HashKeyed;
    if !TurnedAway(rules, tx, s.before) {
      if rules.Full(s.before.view) {
        RemovedSpares(s.before, s.room, s.drop, rules.state, x.from);
      }
      InsertedKeyed(rules, tx, s.room, s.after, r);
      if Held(s.room.view, x) {
        InsertedSpares(rules, tx, s.room, s.after, r, x);
      }
    }
  }

  lemma InsertedKeyed(rules: Rules, tx: Tx, s: Snapshot, t: Snapshot, r: AddResult)
    requires Inserted(rules, tx, s, t, r) && HashKeyed(s.view.all) && tx.sigOk
    ensures HashKeyed(t.view.all) && s.locals <= t.locals
  {
    hide BumpThreshold;
  }

  lemma {:induction false} AllDecidedSpares(rules: Rules, txs: seq<Tx>, start: Snapshot, subs: seq<Submission>,
                                            rs: seq<AddResult>, i: nat, x: Tx)
    requires AllDecided(rules, txs, start, subs, rs) && i <= |rs| && HashKeyed(start.view.all)
    ensures HashKeyed(Last(start, subs[..i]).view.all) && start.locals <= Last(start, subs[..i]).locals
    ensures Held(start.view, x) ==> Held(Last(start, subs[..i]).view, x) || PushedOutOf(txs, subs, rs, x)
  {
    hide Decided, Held, HashKeyed, PushedOut;
    if i > 0 {
      AllDecidedSpares(rules, txs, start, subs, rs, i - 1, x);
      assert DecidedAt(rules, txs, start, subs, rs, i - 1);
      assert Last(start, subs[..i - 1]) == subs[i - 1].before;
      DecidedSpares(rules, txs[i - 1], subs[i - 1], rs[i - 1], x);
    }
  }

  // ---------------------------------------------------------------------------------------------
  // Promotion and demotion

  lemma PayableKeeps(l: ListValue, state: ChainState, a: Address, maxGas: nat, lampHeight: nat, t: Tx)
    requires t.from == a && t.nonce in l.items && l.items[t.nonce] == t && !Outdated(t, state, maxGas, lampHeight)
    ensures !l.strict ==> var kept := Payable(l, state, a, maxGas, lampHeight).items; t.nonce in kept && kept[t.nonce] == t
    ensures l.strict ==>
      var kept, later := Payable(l, state, a, maxGas, lampHeight).items, Postponed(l, state, a, maxGas, lampHeight);
      (t.nonce in kept && kept[t.nonce] == t) || (t.nonce in later && later[t.nonce] == t)
  {
  }

  lemma PayableParts(l: ListValue, state: ChainState, a: Address, maxGas: nat, lampHeight: nat)
    ensures SubItems(Payable(l, state, a, maxGas, lampHeight).items, l.items)
    ensures SubItems(Postponed(l, state, a, maxGas, lampHeight), l.items)
  {
  }

  lemma RunOrAfter(m: Items, start: nat, n: nat)
    requires n in m
    ensures n in ReadyRun(m, start) || n in AfterReady(m, start)
    ensures SubItems(ReadyRun(m, start), m) && SubItems(AfterReady(m, start), m)
  {
  }

  lemma LowestOfFew(m: Items, limit: nat)
    requires |m| <= limit
    ensures Lowest(m, limit) == m
  {
    LowestAll(m);
    forall n | n in m
      ensures Rank(m, n) < limit
    {
      assert Rank(m, n) < |m| by {
        assert n in Lowest(m, |m|);
      }
    }
  }

  lemma PartSize(m: Items, of: Items)
    requires SubItems(m, of)
    ensures |m| <= |of|
  {
    assert m.Keys <= of.Keys;
    SubsetSize(m.Keys, of.Keys);
    assert |m.Keys| == |m| && |of.Keys| == |of|;
  }

  lemma ApartAt(v: View, t: Tx)
    requires Consistent(v) && HeldIn(v.pending, t)
    ensures t.nonce !in ItemsOf(v.queue, t.from)
  {
    assert ItemsOf(v.pending, t.from).Keys !! ItemsOf(v.queue, t.from).Keys;
  }

  lemma QueuedIsLoose(v: View, a: Address)
    requires Consistent(v)
    ensures a in v.queue ==> !v.queue[a].strict
    ensures a in v.pending ==> v.pending[a].strict
  {
  }

  /** Promotion keeps what is up to date, unless the cap on a remote account's queue cuts it off. */
  lemma PromotedSpares(v: View, w: View, m: map<Address, nat>, m': map<Address, nat>, state: ChainState, maxGas: nat,
                       lampHeight: nat, cap: Option<nat>, t: Tx)
    requires Consistent(v) && PromotedAt(v, w, m, m', state, t.from, maxGas, lampHeight, cap)
    requires Held(v, t) && !Outdated(t, state, maxGas, lampHeight)
    requires cap.Some? ==> Len(v.queue, t.from) <= cap.value
    ensures Held(w, t)
  {
    hide Consistent, Outdated, Payable, ReadyRun, AfterReady, Lowest;
    var a, n := t.from, t.nonce;
    var payable, expected := PayableOf(v, state, a, maxGas, lampHeight), NonceIn(m, state, a);
    QueuedIsLoose(v, a);
    if a in v.queue {
      PayableParts(v.queue[a], state, a, maxGas, lampHeight);
    }
    if HeldIn(v.pending, t) {
      ApartAt(v, t);
      assert n !in payable;
      NotInRun(payable, expected, n);
    } else {
      PayableKeeps(v.queue[a], state, a, maxGas, lampHeight, t);
      RunOrAfter(payable, expected, n);
      if cap.Some? {
        PartSize(AfterReady(payable, expected), payable);
        PartSize(payable, v.queue[a].items);
        LowestOfFew(AfterReady(payable, expected), cap.value);
      }
    }
  }

  lemma NotInRun(m: Items, start: nat, n: nat)
    requires n !in m
    ensures n !in ReadyRun(m, start)
  {
  }

  /** Promotion and truncation take off the lists only what is outdated and what exceeds a limit. */
  lemma AdvancedSpares(rules: Rules, p: Promotion, t: Tx)
    requires Advanced(rules, p) && Held(p.before.view, t) && !LeftOut(rules, p, t)
    ensures Held(p.after.view, t)
  {
    hide Consistent, Outdated, Total, PromotedAt;
    var v, w, a := p.before.view, p.promoted.view, t.from;
    if a in p.accounts {
      PromotedSpares(v, w, p.before.managed, p.promoted.managed, rules.state, rules.maxGas, rules.lampHeight,
                     if a in p.before.locals then None else Some(rules.config.accountQueue), t);
    } else {
      assert SameAt(v, w, p.before.managed, p.promoted.managed, rules.state, a);
    }
    assert Held(w, t);
  }

  /** Demotion takes off the lists only what is outdated. */
  lemma DemotedSpares(v: View, w: View, state: ChainState, maxGas: nat, lampHeight: nat, t: Tx)
    requires Consistent(v) && AllDemoted(v, w, state, v.pending.Keys, maxGas, lampHeight)
    requires Held(v, t) && !Outdated(t, state, maxGas, lampHeight)
    ensures Held(w, t)
  {
    hide Consistent, Outdated, Payable, Postponed, DemotedAt;
    var a := t.from;
    if a in v.pending {
      assert DemotedAt(v, w, state, a, maxGas, lampHeight);
      DemotedAtSpares(v, w, state, maxGas, lampHeight, t);
    } else {
      assert ListsSameAt(v, w, a);
    }
  }

  lemma DemotedAtSpares(v: View, w: View, state: ChainState, maxGas: nat, lampHeight: nat, t: Tx)
    requires Consistent(v) && t.from in v.pending && DemotedAt(v, w, state, t.from, maxGas, lampHeight)
    requires Held(v, t) && !Outdated(t, state, maxGas, lampHeight)
    ensures Held(w, t)
  {
    hide Consistent, Outdated, Payable, Postponed;
    var l := v.pending[t.from];
    QueuedIsLoose(v, t.from);
    PayableParts(l, state, t.from, maxGas, lampHeight);
    if HeldIn(v.pending, t) {
      PayableKeeps(l, state, t.from, maxGas, lampHeight, t);
    } else {
      ApartQueued(v, t);
    }
  }

  lemma ApartQueued(v: View, t: Tx)
    requires Consistent(v) && HeldIn(v.queue, t)
    ensures t.nonce !in ItemsOf(v.pending, t.from)
  {
    assert ItemsOf(v.pending, t.from).Keys !! ItemsOf(v.queue, t.from).Keys;
  }

  // ---------------------------------------------------------------------------------------------
  // Events and runs

  lemma AllSubmittedSpares(rules: Rules, txs: seq<Tx>, start: Snapshot, subs: seq<Submission>, p: Promotion,
                           rs: seq<AddResult>, end: Snapshot, t: Tx)
    requires AllSubmitted(rules, txs, start, subs, p, rs, end) && HashKeyed(start.view.all)
    ensures Held(start.view, t) ==>
      Held(end.view, t) || PushedOutOf(txs, subs, rs, t) || (Promotes(txs, rs) && LeftOut(rules, p, t))
    ensures start.locals <= end.locals && (Promotes(txs, rs) ==> start.locals <= p.before.locals)
  {
    hide AllDecided, Held, HashKeyed, PushedOutOf, LeftOut, Dirty, AllPromoted, FairlyTruncated, QueueTruncated, Total;
    AsManySubs(rules, txs, start, subs, rs);
    assert subs[..|rs|] == subs;
    AllDecidedSpares(rules, txs, start, subs, rs, |rs|, t);
    if Promotes(txs, rs) && Held(p.before.view, t) && !LeftOut(rules, p, t) {
      AdvancedSpares(rules, p, t);
    }
  }

  lemma TurnedSpares(rules: Rules, reinject: seq<Tx>, start: Snapshot, turn: Turn, end: Snapshot, t: Tx)
    requires Turned(rules, reinject, start, turn, end) && HashKeyed(start.view.all)
    ensures Held(start.view, t) ==>
      || Held(end.view, t) || PushedOutOf(reinject, turn.subs, turn.rs, t)
      || (Promotes(reinject, turn.rs) && LeftOut(rules, turn.added, t))
      || (!Crashed(turn.rs) && LeftOut(rules, turn.promotion, t))
    ensures start.locals <= end.locals && (Promotes(reinject, turn.rs) ==> start.locals <= turn.added.before.locals)
    ensures !Crashed(turn.rs) ==> start.locals <= turn.promotion.before.locals
  {
    hide AllSubmitted, Held, HashKeyed, PushedOutOf, Promotes, AllDemoted, Raised, Consistent, AllPromoted, FairlyTruncated,
      QueueTruncated, Total, Outdated;
    AllSubmittedSpares(rules, reinject, start, turn.subs, turn.added, turn.rs, turn.reinjected, t);
    if !Crashed(turn.rs) && Held(turn.reinjected.view, t) && !LeftOut(rules, turn.promotion, t) {
      DemotedSpares(turn.reinjected.view, turn.demoted, rules.state, rules.maxGas, rules.lampHeight, t);
      AdvancedSpares(rules, turn.promotion, t);
    }
  }

  /** An event takes a transaction off the lists only for one of its reasons, and no account stops being local. */
  lemma HandledSpares(f: Frame, e: Event, m: Moment, o: Answer, n: Moment, t: Tx)
    requires Handled(f, e, m, o, n) && HashKeyed(m.pool.view.all)
    ensures Held(m.pool.view, t) ==> Held(n.pool.view, t) || WhyGone(f, e, m, o, n, t)
    ensures m.pool.locals <= n.pool.locals
  {
    hide Decided, AllSubmitted, Turned, HashKeyed, RemovedInTurn, PushedOut, PushedOutOf, LeftOut, Promotes, AllPromoted,
      FairlyTruncated, QueueTruncated, Total, SendersIn;
    match e {
      case Submit(tx, local, lampHeight) =>
        var rules := f.RulesIn(m, local, lampHeight);
        DecidedSpares(rules, tx, o.s, o.r, t);
        if o.r == Added(false) && Held(o.s.after.view, t) && !LeftOut(rules, o.p, t) {
          AdvancedSpares(rules, o.p, t);
        }
      case SubmitAll(txs, local, lampHeight) =>
        AllSubmittedSpares(f.RulesIn(m, local, lampHeight), txs, m.pool, o.subs, o.p, o.rs, n.pool, t);
      case Reprice(price) =>
        RemovedSpares(m.pool, n.pool, o.drop, m.state, t.from);
      case Expire(inactive) =>
      case NewHead(state, maxGas, reinject, lampHeight) =>
        TurnedSpares(f.RulesIn(n, false, lampHeight), reinject, Snapshot(m.pool.view, map[], m.pool.locals), o.turn,
                     n.pool, t);
    }
  }

  /** What a pool lists stays listed until an event has a reason to take it off. */
  lemma {:induction false} NothingLost(f: Frame, events: seq<Event>, moments: seq<Moment>, answers: seq<Answer>, i: nat,
                                       k: nat, t: Tx)
    requires History(f, events, moments, answers) && i <= k < |moments| && Held(moments[i].pool.view, t)
    ensures Held(moments[k].pool.view, t)
            || exists j :: i <= j < k && WhyGone(f, events[j], moments[j], answers[j], moments[j + 1], t)
    ensures moments[i].pool.locals <= moments[k].pool.locals
    decreases k - i
  {
    hide Handled, Held, WhyGone, HashKeyed, Consistent;
    if i < k {
      NothingLost(f, events, moments, answers, i, k - 1, t);
      assert HandledAt(f, events, moments, answers, k - 1);
      ConsistentKeyed(moments[k - 1].pool.view);
      HandledSpares(f, events[k - 1], moments[k - 1], answers[k - 1], moments[k], t);
    }
  }

  /** The event took a dearer transaction of the same account and nonce. */
  ghost predicate Superseded(e: Event, o: Answer, t: Tx) {
    exists x :: Took(e, o, x) && Displaces(x, t)
  }

  /** The transaction is outdated under the state, the gas limit and the lamp height that the event goes by. */
  predicate OutdatedBy(e: Event, n: Moment, t: Tx) {
    match e
    case Submit(_, _, lampHeight) => Outdated(t, n.state, n.maxGas, lampHeight)
    case SubmitAll(_, _, lampHeight) => Outdated(t, n.state, n.maxGas, lampHeight)
    case NewHead(_, _, _, lampHeight) => Outdated(t, n.state, n.maxGas, lampHeight)
    case _ => false
  }

  lemma {:induction false} LocalPushed(rules: Rules, txs: seq<Tx>, start: Snapshot, subs: seq<Submission>, rs: seq<AddResult>,
                                       t: Tx)
    requires AllDecided(rules, txs, start, subs, rs) && HashKeyed(start.view.all)
    requires t.from in start.locals && PushedOutOf(txs, subs, rs, t)
    ensures exists x :: TookOf(txs, rs, x) && Displaces(x, t)
  {
    hide Decided, Held, HashKeyed, Displaces;
    var i :| 0 <= i < |rs| && i < |subs| && i < |txs| && PushedOut(txs[i], subs[i], rs[i], t);
    assert DecidedAt(rules, txs, start, subs, rs, i);
    AllDecidedSpares(rules, txs, start, subs, rs, i, t);
    assert Last(start, subs[..i]) == subs[i].before;
    assert TookOf(txs, rs, txs[i]) && Displaces(txs[i], t);
  }

  /** For a transaction of a local account there are only two reasons: it is superseded or outdated. */
  lemma LocalReasons(f: Frame, e: Event, m: Moment, o: Answer, n: Moment, t: Tx)
    requires Handled(f, e, m, o, n) && HashKeyed(m.pool.view.all)
    requires t.from in m.pool.locals && WhyGone(f, e, m, o, n, t)
    ensures Superseded(e, o, t) || OutdatedBy(e, n, t)
  {
    hide Decided, HashKeyed, RemovedInTurn, PushedOutOf, Promotes, Held, AllDecided, Displaces, Outdated,
      AllDemoted, Raised, Consistent, AllPromoted, FairlyTruncated, QueueTruncated, Total, TookOf;
    match e {
      case Submit(tx, local, lampHeight) =>
        DecidedSpares(f.RulesIn(m, local, lampHeight), tx, o.s, o.r, t);
        assert o.r.Added? ==> Took(e, o, tx);
      case SubmitAll(txs, local, lampHeight) =>
        var rules := f.RulesIn(m, local, lampHeight);
        AllSubmittedSpares(rules, txs, m.pool, o.subs, o.p, o.rs, n.pool, t);
        if PushedOutOf(txs, o.subs, o.rs, t) {
          LocalPushed(rules, txs, m.pool, o.subs, o.rs, t);
          var x :| TookOf(txs, o.rs, x) && Displaces(x, t);
          assert Took(e, o, x);
        }
      case Reprice(price) =>
      case Expire(inactive) =>
      case NewHead(state, maxGas, reinject, lampHeight) =>
        var rules, start := f.RulesIn(n, false, lampHeight), Snapshot(m.pool.view, map[], m.pool.locals);
        TurnedSpares(rules, reinject, start, o.turn, n.pool, t);
        if PushedOutOf(reinject, o.turn.subs, o.turn.rs, t) {
          LocalPushed(rules, reinject, start, o.turn.subs, o.turn.rs, t);
          var x :| TookOf(reinject, o.turn.rs, x) && Displaces(x, t);
          assert Took(e, o, x);
        }
    }
  }

  /** A local account's transaction stays listed, through whatever events, until it is superseded or outdated. */
  lemma {:induction false} LocalsStay(f: Frame, events: seq<Event>, moments: seq<Moment>, answers: seq<Answer>, i: nat,
                                      k: nat, t: Tx)
    requires History(f, events, moments, answers) && i <= k < |moments|
    requires Held(moments[i].pool.view, t) && t.from in moments[i].pool.locals
    ensures Held(moments[k].pool.view, t)
            || exists j :: i <= j < k && (Superseded(events[j], answers[j], t) || OutdatedBy(events[j], moments[j + 1], t))
    decreases k - i
  {
    hide Handled, Held, WhyGone, HashKeyed, Superseded, OutdatedBy, Consistent;
    if i < k {
      LocalsStay(f, events, moments, answers, i, k - 1, t);
      NothingLost(f, events, moments, answers, i, k - 1, t);
      assert HandledAt(f, events, moments, answers, k - 1);
      var e, m, o, n := events[k - 1], moments[k - 1], answers[k - 1], moments[k];
      ConsistentKeyed(m.pool.view);
      HandledSpares(f, e, m, o, n, t);
      if WhyGone(f, e, m, o, n, t) {
        LocalReasons(f, e, m, o, n, t);
      }
    }
  }

  /**
    A submission answered as added is in the lists right after its insertion, and after its event it is gone only if
    its sender is remote and promotion or truncation had a limit to keep.
   */
  lemma AddedStays(f: Frame, tx: Tx, local: bool, lampHeight: nat, m: Moment, o: Answer, n: Moment)
    requires Handled(f, Submit(tx, local, lampHeight), m, o, n) && o.r.Added?
    ensures Held(o.s.after.view, tx)
    ensures Held(n.pool.view, tx) || (o.r == Added(false) && Squeezed(f.config, o.p, tx))
    ensures local && (tx.nonce !in ItemsOf(o.s.room.view.pending, tx.from)) ==> Held(n.pool.view, tx)
  {
    hide RoomMade, Rules.Acceptable, Rules.Reports, Underpriced, AllPromoted, FairlyTruncated, QueueTruncated, Total, Held,
      Outdated, Consistent;
    var rules := f.RulesIn(m, local, lampHeight);
    DecidedOnly(rules, tx, o.s, o.r);
    AcceptableNotOutdated(rules, tx, m.pool.locals);
    if o.r == Added(false) && !LeftOut(rules, o.p, tx) {
      AdvancedSpares(rules, o.p, tx);
    }
  }

  /**
    What comes next is executed next: a transaction added at the expected nonce of a settled account is pending after its
    event, unless a limit had to be kept.
   */
  lemma NextIsPending(f: Frame, tx: Tx, local: bool, lampHeight: nat, m: Moment, o: Answer, n: Moment)
    requires Handled(f, Submit(tx, local, lampHeight), m, o, n) && o.r == Added(false)
    requires Settling(o.s.after.view, o.s.after.managed, m.state, tx.from)
    requires tx.nonce == NonceIn(o.s.after.managed, m.state, tx.from) && !Squeezed(f.config, o.p, tx)
    ensures HeldIn(n.pool.view.pending, tx)
  {
    hide RoomMade, Rules.Acceptable, Rules.Reports, Underpriced, AllPromoted, FairlyTruncated, QueueTruncated, Total, Held,
      Outdated, Consistent, Settling;
    var rules := f.RulesIn(m, local, lampHeight);
    DecidedOnly(rules, tx, o.s, o.r);
    AcceptableNotOutdated(rules, tx, m.pool.locals);
    NextAdvances(rules, o.p, tx);
  }

  lemma NextAdvances(rules: Rules, p: Promotion, t: Tx)
    requires Advanced(rules, p) && t.from in p.accounts && Held(p.before.view, t)
    requires Settling(p.before.view, p.before.managed, rules.state, t.from)
    requires t.nonce == NonceIn(p.before.managed, rules.state, t.from) && !LeftOut(rules, p, t)
    ensures HeldIn(p.after.view.pending, t)
  {
    hide Consistent, Outdated, Total, PromotedAt, Settling, QueueTruncated;
    NextPromotes(p.before.view, p.promoted.view, p.before.managed, p.promoted.managed, rules.state, rules.maxGas,
                 rules.lampHeight, if t.from in p.before.locals then None else Some(rules.config.accountQueue), t);
  }

  lemma NextPromotes(v: View, w: View, m: map<Address, nat>, m': map<Address, nat>, state: ChainState, maxGas: nat,
                     lampHeight: nat, cap: Option<nat>, t: Tx)
    requires Consistent(v) && PromotedAt(v, w, m, m', state, t.from, maxGas, lampHeight, cap) && Held(v, t)
    requires Settling(v, m, state, t.from) && t.nonce == NonceIn(m, state, t.from)
    requires !Outdated(t, state, maxGas, lampHeight)
    ensures HeldIn(w.pending, t)
  {
    hide Consistent, Outdated, Payable, ReadyRun, AfterReady, CappedBy;
    var a, n := t.from, t.nonce;
    var payable := PayableOf(v, state, a, maxGas, lampHeight);
    QueuedIsLoose(v, a);
    if HeldIn(v.queue, t) {
      PayableParts(v.queue[a], state, a, maxGas, lampHeight);
      PayableIsPart(v.queue[a], state, a, maxGas, lampHeight);
      PayableKeeps(v.queue[a], state, a, maxGas, lampHeight, t);
      RunHasStart(payable, n);
      RunOrAfter(payable, n, n);
    }
  }

  lemma AcceptableNotOutdated(rules: Rules, tx: Tx, locals: set<Address>)
    ensures rules.Acceptable(tx, locals) ==> !Outdated(tx, rules.state, rules.maxGas, rules.lampHeight)
  {
    hide Gas.Charge;
    var demands := rules.Demands(tx, locals);
    assert |demands| == 9;
    if rules.Acceptable(tx, locals) {
      assert demands[2].met && demands[5].met && demands[6].met;
    }
  }

  // ---------------------------------------------------------------------------------------------
  // The minimum price

  /** A full pool takes a remote transaction only if it is dearer than some known one, and refuses no other for its price. */
  lemma FullPoolTakesDearer(rules: Rules, tx: Tx, s: Submission, r: AddResult)
    requires Decided(rules, tx, s, r) && !IsLocal(s.before.locals, tx) && s.before.view.all != map[]
    requires |s.before.view.all| >= rules.config.globalSlots + rules.config.globalQueue
    ensures r.Added? ==> exists h :: h in s.before.view.all && s.before.view.all[h].gasPrice < tx.gasPrice
    ensures r == Rejected(TooCheap) && rules.Acceptable(tx, s.before.locals) ==>
      forall h | h in s.before.view.all :: s.before.view.all[h].gasPrice >= tx.gasPrice
  {
    hide Rules.Acceptable, Rules.Reports, Inserted, RoomMade;
    if !TurnedAway(rules, tx, s.before) && r == Rejected(TooCheap) {
      RefusedInsert(rules, tx, s.room, s.after, r);
    }
  }

  /** A transaction submitted as local makes its account local, unless it replaces a pending one. */
  lemma WhitelistedIff(rules: Rules, tx: Tx, s: Submission, r: AddResult)
    requires Decided(rules, tx, s, r) && r.Added? && rules.local
    ensures tx.from in s.after.locals <==>
      tx.from in s.before.locals || tx.nonce !in ItemsOf(s.room.view.pending, tx.from)
  {
    hide Rules.Acceptable, Rules.Reports, Underpriced, RemovedInTurn, AddedTo;
    if !TurnedAway(rules, tx, s.before) && rules.Full(s.before.view) {
      RemovalKeepsLocals(s.before, s.room, s.drop, rules.state);
    }
  }

  lemma DecidedLocals(rules: Rules, tx: Tx, s: Submission, r: AddResult)
    requires Decided(rules, tx, s, r)
    ensures s.before.locals <= s.after.locals
    ensures r.Added? ==> rules.local || tx.gasPrice >= rules.gasPrice || tx.from in s.before.locals
  {
    hide Rules.Reports, Underpriced, RemovedInTurn, Gas.Charge;
    var demands := rules.Demands(tx, s.before.locals);
    assert |demands| == 9;
    if !TurnedAway(rules, tx, s.before) {
      assert demands[4].met;
      if rules.Full(s.before.view) {
        RemovalKeepsLocals(s.before, s.room, s.drop, rules.state);
      }
    }
  }

  lemma {:induction false} LocalsGrow(rules: Rules, txs: seq<Tx>, start: Snapshot, subs: seq<Submission>, rs: seq<AddResult>,
                                      i: nat, j: nat)
    requires AllDecided(rules, txs, start, subs, rs) && i <= j <= |rs|
    ensures Last(start, subs[..i]).locals <= Last(start, subs[..j]).locals
    decreases j - i
  {
    hide Decided;
    if i < j {
      LocalsGrow(rules, txs, start, subs, rs, i, j - 1);
      assert DecidedAt(rules, txs, start, subs, rs, j - 1);
      assert Last(start, subs[..j - 1]) == subs[j - 1].before;
      DecidedLocals(rules, txs[j - 1], subs[j - 1], rs[j - 1]);
    }
  }

  /** What was added offered the minimum price, or was local in some way. */
  lemma TookOfFloor(rules: Rules, txs: seq<Tx>, start: Snapshot, subs: seq<Submission>, rs: seq<AddResult>, t: Tx)
    requires AllDecided(rules, txs, start, subs, rs) && TookOf(txs, rs, t)
    ensures rules.local || t.gasPrice >= rules.gasPrice || t.from in Last(start, subs).locals
  {
    hide Decided;
    var i :| 0 <= i < |rs| && i < |txs| && txs[i] == t && rs[i].Added?;
    assert DecidedAt(rules, txs, start, subs, rs, i);
    DecidedLocals(rules, txs[i], subs[i], rs[i]);
    LocalsGrow(rules, txs, start, subs, rs, i, |rs|);
    assert Last(start, subs[..i]) == subs[i].before && subs[..|rs|] == subs;
  }

  /** The event submits transactions as local ones. */
  predicate SubmitsLocal(e: Event) {
    (e.Submit? && e.local) || (e.SubmitAll? && e.local)
  }

  lemma AllSubmittedEnds(rules: Rules, txs: seq<Tx>, start: Snapshot, subs: seq<Submission>, p: Promotion, rs: seq<AddResult>,
                         end: Snapshot)
    requires AllSubmitted(rules, txs, start, subs, p, rs, end)
    ensures AllDecided(rules, txs, start, subs, rs) && Last(start, subs).locals <= end.locals
  {
    hide AllDecided, AllPromoted, FairlyTruncated, QueueTruncated, Total, Consistent;
  }

  lemma TookFloor(f: Frame, e: Event, m: Moment, o: Answer, n: Moment, t: Tx)
    requires Handled(f, e, m, o, n) && Took(e, o, t)
    ensures SubmitsLocal(e) || t.gasPrice >= n.gasPrice || t.from in n.pool.locals
  {
    hide Decided, AllDecided, TookOf, AllSubmitted, AllDemoted, Raised, Consistent, AllPromoted, FairlyTruncated,
      QueueTruncated, Total;
    match e {
      case Submit(tx, local, lampHeight) =>
        DecidedLocals(f.RulesIn(m, local, lampHeight), tx, o.s, o.r);
      case SubmitAll(txs, local, lampHeight) =>
        var rules := f.RulesIn(m, local, lampHeight);
        AllSubmittedEnds(rules, txs, m.pool, o.subs, o.p, o.rs, n.pool);
        TookOfFloor(rules, txs, m.pool, o.subs, o.rs, t);
      case NewHead(state, maxGas, reinject, lampHeight) =>
        var rules, start := f.RulesIn(n, false, lampHeight), Snapshot(m.pool.view, map[], m.pool.locals);
        AllSubmittedEnds(rules, reinject, start, o.turn.subs, o.turn.added, o.turn.rs, o.turn.reinjected);
        TookOfFloor(rules, reinject, start, o.turn.subs, o.turn.rs, t);
      case _ =>
    }
  }

  /** A new minimum price leaves no cheaper transaction of a remote account listed. */
  lemma RepricedFloor(price: nat, m: Moment, drop: seq<Tx>, n: Moment, t: Tx)
    requires Repriced(price, m, drop, n) && Consistent(m.pool.view) && Consistent(n.pool.view) && Held(n.pool.view, t)
    ensures n.gasPrice == price && (t.gasPrice >= price || t.from in m.pool.locals)
  {
    hide RemovedInTurn;
    assert t.Hash() in n.pool.view.all;
    assert m.pool.view.all[t.Hash()].Hash() == t.Hash();
  }

  lemma PriceSteps(f: Frame, e: Event, m: Moment, o: Answer, n: Moment, t: Tx)
    requires Handled(f, e, m, o, n) && Consistent(m.pool.view) && Consistent(n.pool.view) && Held(n.pool.view, t)
    ensures e.Reprice? ==> t.gasPrice >= n.gasPrice || t.from in m.pool.locals
    ensures !e.Reprice? ==> n.gasPrice == m.gasPrice
  {
    hide Submitted, AllSubmitted, Turned, Repriced, Consistent, Held;
    if e.Reprice? {
      RepricedFloor(e.price, m, o.drop, n, t);
    }
  }

  ghost predicate CameLocal(events: seq<Event>, answers: seq<Answer>, k: nat, t: Tx)
    requires k <= |answers| <= |events|
  {
    exists i :: 0 <= i < k && SubmitsLocal(events[i]) && Took(events[i], answers[i], t)
  }

  /**
    At any moment of a pool that started empty every listed transaction offers the minimum price then in force, unless
    its account is local or it was itself submitted as a local one.
   */
  lemma {:induction false} FloorHolds(f: Frame, events: seq<Event>, moments: seq<Moment>, answers: seq<Answer>, k: nat, t: Tx)
    requires History(f, events, moments, answers) && moments[0].pool.view == View(map[], map[], map[])
    requires k < |moments| && Held(moments[k].pool.view, t)
    ensures t.gasPrice >= moments[k].gasPrice || t.from in moments[k].pool.locals || CameLocal(events, answers, k, t)
    decreases k
  {
    hide Took, Consistent, SubmitsLocal, Handled, HashKeyed;
    if k > 0 {
      ConsistentAt(f, events, moments, answers, k);
      ConsistentAt(f, events, moments, answers, k - 1);
      assert HandledAt(f, events, moments, answers, k - 1);
      var e, m, o, n := events[k - 1], moments[k - 1], answers[k - 1], moments[k];
      ConsistentKeyed(m.pool.view);
      HandledSpares(f, e, m, o, n, t);
      HandledOnly(f, e, m, o, n, t);
      if Took(e, o, t) {
        TookFloor(f, e, m, o, n, t);
      } else {
        FloorHolds(f, events, moments, answers, k - 1, t);
        PriceSteps(f, e, m, o, n, t);
      }
    }
  }

  lemma ConsistentAt(f: Frame, events: seq<Event>, moments: seq<Moment>, answers: seq<Answer>, k: nat)
    requires History(f, events, moments, answers) && k < |moments|
    ensures Consistent(moments[k].pool.view)
  {
    hide Consistent, Handled;
    if k < |answers| {
      assert HandledAt(f, events, moments, answers, k);
    }
  }

  // ---------------------------------------------------------------------------------------------
  // What a new head and the clock leave

  /** An account's list whose caps are within what its sender and a block allow is taken to need no look at each
      transaction. */
  ghost predicate Waved(lists: Lists, a: Address, state: ChainState, maxGas: nat) {
    a in lists && lists[a].costcap <= state.BalanceOf(a) && lists[a].gascap <= maxGas
  }

  lemma PayableIsPayable(l: ListValue, state: ChainState, a: Address, maxGas: nat, lampHeight: nat, n: nat)
    requires n in Payable(l, state, a, maxGas, lampHeight).items
    ensures n >= state.NonceOf(a)
    ensures (l.costcap <= state.BalanceOf(a) && l.gascap <= maxGas)
            || !Unpayable(l.items[n], state.BalanceOf(a), maxGas, lampHeight)
  {
  }

  /** Once demoted, an account's pending transactions are due and payable, unless its list was waved through. */
  lemma DemotedDue(v: View, w: View, state: ChainState, maxGas: nat, lampHeight: nat, t: Tx)
    requires Consistent(v) && AllDemoted(v, w, state, v.pending.Keys, maxGas, lampHeight) && HeldIn(w.pending, t)
    ensures !Outdated(t, state, maxGas, lampHeight)
            || (t.nonce >= state.NonceOf(t.from) && Waved(v.pending, t.from, state, maxGas))
  {
    hide Consistent, Payable, Postponed, Unpayable;
    var a := t.from;
    DemotedNonEmpty(v, w, state, maxGas, lampHeight);
    assert a in v.pending && DemotedAt(v, w, state, a, maxGas, lampHeight);
    PayableParts(v.pending[a], state, a, maxGas, lampHeight);
    PayableIsPayable(v.pending[a], state, a, maxGas, lampHeight, t.nonce);
  }

  lemma PromotedDue(v: View, w: View, m: map<Address, nat>, m': map<Address, nat>, state: ChainState, maxGas: nat,
                    lampHeight: nat, cap: Option<nat>, t: Tx)
    requires Consistent(v) && PromotedAt(v, w, m, m', state, t.from, maxGas, lampHeight, cap) && Held(w, t)
    ensures || HeldIn(v.pending, t) || !Outdated(t, state, maxGas, lampHeight)
            || (t.nonce >= state.NonceOf(t.from) && Waved(v.queue, t.from, state, maxGas))
  {
    hide Consistent, Payable, ReadyRun, AfterReady, Lowest, Unpayable;
    var a, n := t.from, t.nonce;
    var payable, expected := PayableOf(v, state, a, maxGas, lampHeight), NonceIn(m, state, a);
    if !HeldIn(v.pending, t) {
      PartsOfPayable(payable, expected, cap);
      if a in v.queue {
        PayableParts(v.queue[a], state, a, maxGas, lampHeight);
        if n in payable {
          PayableIsPayable(v.queue[a], state, a, maxGas, lampHeight, n);
        }
      }
    }
  }

  lemma PartsOfPayable(m: Items, start: nat, cap: Option<nat>)
    ensures SubItems(ReadyRun(m, start), m) && SubItems(CappedBy(AfterReady(m, start), cap), m)
  {
  }

  lemma TruncatedPart(v: View, w: View, locals: set<Address>, slots: nat, t: Tx)
    requires FairlyTruncated(v.pending, w.pending, locals, slots) && QueueTruncated(v.queue, w.queue, locals) && Held(w, t)
    ensures Held(v, t) && (HeldIn(w.pending, t) ==> HeldIn(v.pending, t))
  {
  }

  /**
    After a new head that does not crash the pool no listed transaction has a used nonce, and all are payable but those
    whose list was waved through by its caps when it was demoted or promoted.
   */
  lemma TurnLeavesDue(rules: Rules, reinject: seq<Tx>, start: Snapshot, turn: Turn, end: Snapshot, t: Tx)
    requires Turned(rules, reinject, start, turn, end) && !Crashed(turn.rs) && Held(end.view, t)
    ensures t.nonce >= rules.state.NonceOf(t.from)
    ensures || !Unpayable(t, rules.state.BalanceOf(t.from), rules.maxGas, rules.lampHeight)
            || Waved(turn.reinjected.view.pending, t.from, rules.state, rules.maxGas)
            || Waved(turn.demoted.queue, t.from, rules.state, rules.maxGas)
  {
    hide AllSubmitted, Consistent, Raised, Total, AllDemoted, FairlyTruncated, QueueTruncated, PromotedAt, Waved,
      Unpayable, Held;
    var p, a := turn.promotion, t.from;
    var v, w := p.before.view, p.promoted.view;
    TruncatedPart(w, end.view, p.before.locals, rules.config.accountSlots, t);
    if a in p.accounts {
      PromotedDue(v, w, p.before.managed, p.promoted.managed, rules.state, rules.maxGas, rules.lampHeight,
                  if a in p.before.locals then None else Some(rules.config.accountQueue), t);
    } else {
      assert SameAt(v, w, p.before.managed, p.promoted.managed, rules.state, a);
      SameHeld(v, w, p.before.managed, p.promoted.managed, rules.state, t);
    }
    if HeldIn(v.pending, t) {
      DemotedDue(turn.reinjected.view, turn.demoted, rules.state, rules.maxGas, rules.lampHeight, t);
    }
  }

  lemma SameHeld(v: View, w: View, m: map<Address, nat>, m': map<Address, nat>, state: ChainState, t: Tx)
    requires SameAt(v, w, m, m', state, t.from) && Held(w, t) && t.from !in v.queue
    ensures HeldIn(v.pending, t)
  {
  }

  /**
    Promotion leaves every remote account it promotes with a queue within its share, and the pool within its two totals,
    unless no remote account has more pending than it is guaranteed, or none has anything queued.
   */
  lemma LimitsKept(rules: Rules, p: Promotion, a: Address)
    requires Advanced(rules, p) && a !in p.before.locals
    ensures a in p.accounts ==> Len(p.after.view.queue, a) <= rules.config.accountQueue
    ensures Total(p.after.view.pending) <= rules.config.globalSlots
            || Len(p.after.view.pending, a) <= rules.config.accountSlots
    ensures Total(p.after.view.queue) <= rules.config.globalQueue || Len(p.after.view.queue, a) == 0
  {
    hide Total, FairlyTruncated, Consistent, PromotedAt;
    var v, w := p.before.view, p.promoted.view;
    if a in p.accounts {
      CapHolds(v, w, p.before.managed, p.promoted.managed, rules.state, a, rules.maxGas, rules.lampHeight,
               rules.config.accountQueue);
      QueueShrinks(w.queue, p.after.view.queue, p.before.locals, a);
    }
  }

  lemma CapHolds(v: View, w: View, m: map<Address, nat>, m': map<Address, nat>, state: ChainState, a: Address, maxGas: nat,
                 lampHeight: nat, cap: nat)
    requires Consistent(v) && PromotedAt(v, w, m, m', state, a, maxGas, lampHeight, Some(cap))
    ensures Len(w.queue, a) <= cap
  {
    hide Consistent, Payable, ReadyRun, AfterReady, Lowest, Keyed;
    var payable, expected := PayableOf(v, state, a, maxGas, lampHeight), NonceIn(m, state, a);
    var rest := AfterReady(payable, expected);
    PendingKeyed(v, a);
    if a in v.queue {
      PayableParts(v.queue[a], state, a, maxGas, lampHeight);
    }
    PartKeyed(payable, ItemsOf(v.queue, a));
    PartsOfPayable(payable, expected, None);
    PartKeyed(rest, payable);
    LowestSize(rest, cap);
  }

  lemma PartKeyed(m: Items, of: Items)
    requires SubItems(m, of) && Keyed(of)
    ensures Keyed(m)
  {
  }

  lemma QueueShrinks(was: Lists, now: Lists, locals: set<Address>, a: Address)
    requires QueueTruncated(was, now, locals)
    ensures Len(now, a) <= Len(was, a)
  {
    assert SubItems(ItemsOf(now, a), ItemsOf(was, a));
    PartSize(ItemsOf(now, a), ItemsOf(was, a));
  }

  /** Nothing an inactive remote account had queued is listed any more, and whatever else was is. */
  lemma ExpiredGone(f: Frame, inactive: set<Address>, m: Moment, o: Answer, n: Moment, t: Tx)
    requires Handled(f, Expire(inactive), m, o, n) && Consistent(m.pool.view)
    ensures Held(n.pool.view, t) <==>
      HeldIn(m.pool.view.pending, t)
      || (HeldIn(m.pool.view.queue, t) && (t.from in m.pool.locals || t.from !in inactive))
  {
  }
}
