/** Whole lives of a pool: what each event does, where transactions come from, and why they go. */
module PoolHistories {
  import opened Types
  import opened TxLists
  import opened PricedList
  import opened PoolViews
  import opened PoolNonces
  import opened PoolSteps
  import opened PoolRules
  import opened PoolSizes
  import Gas

  /** What can happen to a pool: submissions, a new minimum price, eviction of inactive accounts, a new head. */
  datatype Event =
    | Submit(tx: Tx, local: bool, lampHeight: nat)
    | SubmitAll(txs: seq<Tx>, local: bool, lampHeight: nat)
    | Reprice(price: nat)
    | Expire(inactive: set<Address>)
    | NewHead(state: ChainState, maxGas: nat, reinject: seq<Tx>, lampHeight: nat)

  /** Every submitted transaction has a recoverable sender. */
  predicate Signed(e: Event) {
    match e
    case Submit(tx, _, _) => tx.sigOk
    case SubmitAll(txs, _, _) => forall tx | tx in txs :: tx.sigOk
    case NewHead(_, _, reinject, _) => forall tx | tx in reinject :: tx.sigOk
    case _ => true
  }

  /** Every new head extends the chain: nothing is reinjected and no account's nonce goes back. */
  ghost predicate OnlyAdvances(events: seq<Event>, state: ChainState) {
    events == [] ||
    match events[0]
    case NewHead(next, _, reinject, _) => reinject == [] && Advances(state, next) && OnlyAdvances(events[1..], next)
    case _ => OnlyAdvances(events[1..], state)
  }

  // ---------------------------------------------------------------------------------------------
  // What each event does

  /** The pool between two events. */
  datatype Moment = Moment(pool: Snapshot, gasPrice: nat, state: ChainState, maxGas: nat)

  /** What never changes. */
  datatype Frame = Frame(config: Config, home: (Address, nat) -> bool)
  {
    function RulesIn(m: Moment, local: bool, lampHeight: nat): Rules {
      Rules(config, home, m.gasPrice, m.state, m.maxGas, local, lampHeight)
    }
  }

  /** How an event went. */
  datatype Answer =
    | OneAnswer(s: Submission, p: Promotion, r: AddResult)
    | ManyAnswers(subs: seq<Submission>, p: Promotion, rs: seq<AddResult>)
    | DropAnswer(drop: seq<Tx>)
    | NoAnswer
    | TurnAnswer(turn: Turn)

  /** The new minimum price holds, and exactly the remote transactions below it are gone, one after the other. */
  ghost predicate Repriced(price: nat, m: Moment, drop: seq<Tx>, n: Moment) {
    var was, now := m.pool, n.pool;
    && n == Moment(now, price, m.state, m.maxGas)
    && RemovedInTurn(was, now, drop, m.state)
    && (forall h :: h in now.view.all <==>
          h in was.view.all && (was.view.all[h].gasPrice >= price || IsLocal(was.locals, was.view.all[h])))
    && forall d | d in drop :: d.Hash() in was.view.all && !IsLocal(was.locals, d) && d.gasPrice < price
  }

  /** Exactly the queues of inactive remote accounts are emptied. */
  ghost predicate Expired(inactive: set<Address>, m: Moment, n: Moment) {
    var was, now := m.pool, n.pool;
    && n == Moment(Snapshot(now.view, was.managed, was.locals), m.gasPrice, m.state, m.maxGas)
    && now.view.pending == was.view.pending
    && forall a :: ItemsOf(now.view.queue, a) ==
                   if a in inactive && a !in was.locals then map[] else ItemsOf(was.view.queue, a)
  }

  /** Removing what a price cap drops makes the new minimum price hold. */
  lemma IsRepriced(price: nat, m: Moment, kept: seq<Tx>, drop: seq<Tx>, n: Moment, limit: nat)
    requires HashKeyed(m.pool.view.all) && HashKeyed(n.pool.view.all)
    requires n == Moment(n.pool, price, m.state, m.maxGas) && RemovedInTurn(m.pool, n.pool, drop, m.state)
    requires n.pool.view.all == m.pool.view.all - HashesIn(drop) && n.pool.locals == m.pool.locals
    requires forall h | h in m.pool.view.all :: m.pool.view.all[h] in kept || m.pool.view.all[h] in drop
    requires forall t | t in drop :: Live(m.pool.view.all, t) && !IsLocal(m.pool.locals, t) && t.gasPrice < price
    requires forall t | t in kept && Live(m.pool.view.all, t) :: t.gasPrice >= price || IsLocal(m.pool.locals, t)
    ensures Repriced(price, m, drop, n) && (Within(m.pool, limit) ==> Within(n.pool, limit))
    ensures forall h | h in n.pool.view.all :: h in m.pool.view.all && n.pool.view.all[h] == m.pool.view.all[h]
  {
    hide RemovedInTurn, Within, IsLocal, HashKeyed, HashesIn;
    CheapDropped(m.pool.view.all, kept, drop, m.pool.locals, price);
    if Within(m.pool, limit) {
      FewerStays(m.pool, n.pool, limit);
    }
  }

  lemma IsExpired(inactive: set<Address>, m: Moment, n: Moment, emptied: set<Address>)
    requires n == m.(pool := Snapshot(n.pool.view, m.pool.managed, m.pool.locals))
    requires n.pool.view.pending == m.pool.view.pending && Emptied(m.pool.view.queue, n.pool.view.queue, emptied)
    requires emptied == set a | a in m.pool.view.queue && a in inactive && a !in m.pool.locals
    ensures Expired(inactive, m, n)
    ensures forall a :: ItemsOf(n.pool.view.queue, a) ==
                        if a in inactive && a !in m.pool.locals then map[] else ItemsOf(m.pool.view.queue, a)
  {
  }

  /** The event happened to the pool as at `m`, went as `o` says, and left it as at `n`. */
  ghost predicate Handled(f: Frame, e: Event, m: Moment, o: Answer, n: Moment) {
    match e
    case Submit(tx, local, lampHeight) =>
      && o.OneAnswer? && n == m.(pool := n.pool) && o.s.before == m.pool
      && Submitted(f.RulesIn(m, local, lampHeight), tx, o.s, o.p, o.r, n.pool)
    case SubmitAll(txs, local, lampHeight) =>
      && o.ManyAnswers? && n == m.(pool := n.pool)
      && AllSubmitted(f.RulesIn(m, local, lampHeight), txs, m.pool, o.subs, o.p, o.rs, n.pool)
    case Reprice(price) => o.DropAnswer? && Repriced(price, m, o.drop, n)
    case Expire(inactive) => Expired(inactive, m, n)
    case NewHead(state, maxGas, reinject, lampHeight) =>
      && o.TurnAnswer? && n == Moment(n.pool, m.gasPrice, state, maxGas)
      && Turned(f.RulesIn(n, false, lampHeight), reinject, Snapshot(m.pool.view, map[], m.pool.locals), o.turn, n.pool)
  }

  lemma HandlesSubmit(f: Frame, tx: Tx, local: bool, lampHeight: nat, m: Moment, s: Submission, p: Promotion, r: AddResult,
                      n: Moment)
    requires n == m.(pool := n.pool) && s.before == m.pool
    requires Submitted(f.RulesIn(m, local, lampHeight), tx, s, p, r, n.pool)
    ensures Handled(f, Submit(tx, local, lampHeight), m, OneAnswer(s, p, r), n)
  {
    hide Submitted;
  }

  lemma HandlesSubmitAll(f: Frame, txs: seq<Tx>, local: bool, lampHeight: nat, m: Moment, subs: seq<Submission>,
                         p: Promotion, rs: seq<AddResult>, n: Moment)
    requires n == m.(pool := n.pool)
    requires AllSubmitted(f.RulesIn(m, local, lampHeight), txs, m.pool, subs, p, rs, n.pool)
    ensures Handled(f, SubmitAll(txs, local, lampHeight), m, ManyAnswers(subs, p, rs), n)
  {
    hide AllSubmitted;
  }

  lemma HandlesReprice(f: Frame, price: nat, m: Moment, drop: seq<Tx>, n: Moment)
    requires Repriced(price, m, drop, n)
    ensures Handled(f, Reprice(price), m, DropAnswer(drop), n)
  {
    hide Repriced;
  }

  lemma HandlesExpire(f: Frame, inactive: set<Address>, m: Moment, n: Moment)
    requires Expired(inactive, m, n)
    ensures Handled(f, Expire(inactive), m, NoAnswer, n)
  {
    hide Expired;
  }

  lemma HandlesNewHead(f: Frame, state: ChainState, maxGas: nat, reinject: seq<Tx>, lampHeight: nat, m: Moment, turn: Turn,
                       n: Moment)
    requires n == Moment(n.pool, m.gasPrice, state, maxGas)
    requires Turned(f.RulesIn(n, false, lampHeight), reinject, Snapshot(m.pool.view, map[], m.pool.locals), turn, n.pool)
    ensures Handled(f, NewHead(state, maxGas, reinject, lampHeight), m, TurnAnswer(turn), n)
  {
    hide Turned;
  }

  ghost predicate HandledAt(f: Frame, events: seq<Event>, moments: seq<Moment>, answers: seq<Answer>, i: nat)
    requires i < |answers| <= |events| && |moments| == |answers| + 1
  {
    Consistent(moments[i].pool.view) && Handled(f, events[i], moments[i], answers[i], moments[i + 1])
  }

  /** A pool's history: the moments before and after each event, at all of which it is consistent. */
  ghost predicate History(f: Frame, events: seq<Event>, moments: seq<Moment>, answers: seq<Answer>) {
    && |answers| <= |events| && |moments| == |answers| + 1
    && (forall i | 0 <= i < |answers| :: HandledAt(f, events, moments, answers, i))
    && Consistent(moments[|answers|].pool.view)
  }

  lemma HistoryStarts(f: Frame, events: seq<Event>, m: Moment)
    requires Consistent(m.pool.view)
    ensures History(f, events, [m], [])
  {
  }

  lemma HistoryGoesOn(f: Frame, events: seq<Event>, moments: seq<Moment>, answers: seq<Answer>, o: Answer, n: Moment)
    requires History(f, events, moments, answers) && |answers| < |events|
    requires Handled(f, events[|answers|], moments[|answers|], o, n) && Consistent(n.pool.view)
    ensures History(f, events, moments + [n], answers + [o])
  {
    hide Handled, Consistent;
    forall i | 0 <= i < |answers| + 1
      ensures HandledAt(f, events, moments + [n], answers + [o], i)
    {
      assert i < |answers| ==> HandledAt(f, events, moments, answers, i);
    }
  }

  // ---------------------------------------------------------------------------------------------
  // Where transactions come from

  ghost predicate TookOf(txs: seq<Tx>, rs: seq<AddResult>, t: Tx) {
    exists i :: 0 <= i < |rs| && i < |txs| && txs[i] == t && rs[i].Added?
  }

  /** The event submitted the transaction and it was answered as added. */
  ghost predicate Took(e: Event, o: Answer, t: Tx) {
    match e
    case Submit(tx, _, _) => o.OneAnswer? && tx == t && o.r.Added?
    case SubmitAll(txs, _, _) => o.ManyAnswers? && TookOf(txs, o.rs, t)
    case NewHead(_, _, reinject, _) => o.TurnAnswer? && TookOf(reinject, o.turn.rs, t)
    case _ => false
  }

  lemma RemovalNothingNew(v: View, w: View, tx: Tx)
    requires Removes(v, w, tx)
    ensures NothingNew(v, w)
  {
    forall t | Held(w, t)
      ensures Held(v, t)
    {
      var n: nat := t.nonce;
      assert n in ItemsOf(w.pending, t.from) || n in ItemsOf(w.queue, t.from);
    }
  }

  lemma {:induction false} TraceNothingNew(trace: seq<Snapshot>, drop: seq<Tx>, state: ChainState, i: nat)
    requires Trace(trace, drop, state) && i <= |drop|
    ensures NothingNew(trace[0].view, trace[i].view)
  {
    hide Removes, NothingNew;
    if i == 0 {
      NothingNewSame(trace[0].view);
    } else {
      TraceNothingNew(trace, drop, state, i - 1);
      assert RemovedOne(trace[i - 1], trace[i], drop[i - 1], state);
      if drop[i - 1].Hash() in trace[i - 1].view.all {
        RemovalNothingNew(trace[i - 1].view, trace[i].view, trace[i - 1].view.all[drop[i - 1].Hash()]);
        NothingNewTrans(trace[0].view, trace[i - 1].view, trace[i].view);
      }
    }
  }

  lemma NothingNewSame(v: View)
    ensures NothingNew(v, v)
  {
  }

  lemma RemovedNothingNew(s: Snapshot, t: Snapshot, drop: seq<Tx>, state: ChainState)
    requires RemovedInTurn(s, t, drop, state)
    ensures NothingNew(s.view, t.view)
  {
    hide RemovedOne, NothingNew;
    var trace: seq<Snapshot> :| Trace(trace, drop, state) && trace[0] == s && trace[|drop|] == t;
    TraceNothingNew(trace, drop, state, |drop|);
  }

  /** Nothing is listed but what was listed before and what was added. */
  ghost predicate OnlyNew(v: View, w: View, tx: Tx, added: bool) {
    forall t | Held(w, t) :: Held(v, t) || (t == tx && added)
  }

  lemma InsertedOnly(rules: Rules, tx: Tx, s: Snapshot, t: Snapshot, r: AddResult)
    requires Inserted(rules, tx, s, t, r)
    ensures OnlyNew(s.view, t.view, tx, r.Added?)
    ensures r.Added? ==> Held(t.view, tx)
  {
    hide BumpThreshold;
    var v, w := s.view, t.view;
    forall x | Held(w, x)
      ensures Held(v, x) || (x == tx && r.Added?)
    {
      var n: nat := x.nonce;
      assert n in ItemsOf(w.pending, x.from) || n in ItemsOf(w.queue, x.from);
    }
  }

  /** A submission lists nothing but its own transaction, and lists it if it was added. */
  lemma DecidedOnly(rules: Rules, tx: Tx, s: Submission, r: AddResult)
    requires Decided(rules, tx, s, r)
    ensures OnlyNew(s.before.view, s.after.view, tx, r.Added?)
    ensures r.Added? ==> Held(s.after.view, tx)
  {
    hide Inserted, RemovedInTurn, Rules.Acceptable, Rules.Reports, Underpriced, Held;
    if !TurnedAway(rules, tx, s.before) {
      InsertedOnly(rules, tx, s.room, s.after, r);
      if rules.Full(s.before.view) {
        RemovedNothingNew(s.before, s.room, s.drop, rules.state);
      }
    }
  }

  lemma {:induction false} AllDecidedOnly(rules: Rules, txs: seq<Tx>, start: Snapshot, subs: seq<Submission>,
                                          rs: seq<AddResult>, i: nat, t: Tx)
    requires AllDecided(rules, txs, start, subs, rs) && i <= |rs| && Held(Last(start, subs[..i]).view, t)
    ensures Held(start.view, t) || TookOf(txs, rs, t)
  {
    hide Decided, Held;
    if i > 0 {
      assert DecidedAt(rules, txs, start, subs, rs, i - 1);
      DecidedOnly(rules, txs[i - 1], subs[i - 1], rs[i - 1]);
      if Held(subs[i - 1].before.view, t) {
        assert Last(start, subs[..i - 1]) == subs[i - 1].before;
        AllDecidedOnly(rules, txs, start, subs, rs, i - 1, t);
      }
    }
  }

  lemma AllSubmittedOnly(rules: Rules, txs: seq<Tx>, start: Snapshot, subs: seq<Submission>, p: Promotion,
                         rs: seq<AddResult>, end: Snapshot, t: Tx)
    requires AllSubmitted(rules, txs, start, subs, p, rs, end) && Held(end.view, t)
    ensures Held(start.view, t) || TookOf(txs, rs, t)
  {
    hide AllDecided, Advanced, Held;
    assert subs[..|rs|] == subs by {
      AsManySubs(rules, txs, start, subs, rs);
    }
    if !(Crashed(rs) || Dirty(txs, rs) == {}) {
      AdvancedOld(rules, p);
    }
    AllDecidedOnly(rules, txs, start, subs, rs, |rs|, t);
  }

  lemma AsManySubs(rules: Rules, txs: seq<Tx>, start: Snapshot, subs: seq<Submission>, rs: seq<AddResult>)
    requires AllDecided(rules, txs, start, subs, rs)
    ensures |subs| == |rs| <= |txs|
  {
  }

  lemma TurnedOnly(rules: Rules, reinject: seq<Tx>, start: Snapshot, turn: Turn, end: Snapshot, t: Tx)
    requires Turned(rules, reinject, start, turn, end) && Held(end.view, t)
    ensures Held(start.view, t) || TookOf(reinject, turn.rs, t)
  {
    hide AllSubmitted, AllDemoted, Advanced, Held, Raised, Consistent;
    if !Crashed(turn.rs) {
      AdvancedOld(rules, turn.promotion);
      DemotedOld(turn.reinjected.view, turn.demoted, rules.state, rules.maxGas, rules.lampHeight);
    }
    AllSubmittedOnly(rules, reinject, start, turn.subs, turn.added, turn.rs, turn.reinjected, t);
  }

  /** After an event nothing is listed but what was before and what the event took. */
  lemma HandledOnly(f: Frame, e: Event, m: Moment, o: Answer, n: Moment, t: Tx)
    requires Handled(f, e, m, o, n) && Held(n.pool.view, t)
    ensures Held(m.pool.view, t) || Took(e, o, t)
  {
    hide Decided, AllSubmitted, Turned, Advanced, Held, RemovedInTurn;
    match e {
      case Submit(tx, local, lampHeight) =>
        var rules := f.RulesIn(m, local, lampHeight);
        DecidedOnly(rules, tx, o.s, o.r);
        if o.r == Added(false) {
          AdvancedOld(rules, o.p);
        }
      case SubmitAll(txs, local, lampHeight) =>
        AllSubmittedOnly(f.RulesIn(m, local, lampHeight), txs, m.pool, o.subs, o.p, o.rs, n.pool, t);
      case Reprice(price) =>
        RemovedNothingNew(m.pool, n.pool, o.drop, m.state);
      case Expire(inactive) =>
        EvictedOld(m.pool.view, n.pool.view);
      case NewHead(state, maxGas, reinject, lampHeight) =>
        TurnedOnly(f.RulesIn(n, false, lampHeight), reinject, Snapshot(m.pool.view, map[], m.pool.locals), o.turn, n.pool, t);
    }
  }

  /** Whatever a pool lists at any moment it listed at the start or has taken since. */
  lemma {:induction false} Provenance(f: Frame, events: seq<Event>, moments: seq<Moment>, answers: seq<Answer>, k: nat, t: Tx)
    requires History(f, events, moments, answers) && k < |moments| && Held(moments[k].pool.view, t)
    ensures Held(moments[0].pool.view, t) || exists i :: 0 <= i < k && Took(events[i], answers[i], t)
    decreases k
  {
    hide Handled, Held, Took, Consistent;
    if k > 0 {
      assert HandledAt(f, events, moments, answers, k - 1);
      HandledOnly(f, events[k - 1], moments[k - 1], answers[k - 1], moments[k], t);
      if Held(moments[k - 1].pool.view, t) {
        Provenance(f, events, moments, answers, k - 1, t);
      }
    }
  }

  /** A pool that starts empty lists only what it has taken. */
  lemma AllTaken(f: Frame, events: seq<Event>, moments: seq<Moment>, answers: seq<Answer>)
    requires History(f, events, moments, answers) && moments[0].pool.view == View(map[], map[], map[])
    ensures |moments| == |answers| + 1
    ensures forall t | Held(moments[|answers|].pool.view, t) ::
      exists i :: 0 <= i < |answers| && Took(events[i], answers[i], t)
  {
    hide HandledAt, Took, Consistent;
    forall t | Held(moments[|answers|].pool.view, t)
      ensures exists i :: 0 <= i < |answers| && Took(events[i], answers[i], t)
    {
      Provenance(f, events, moments, answers, |answers|, t);
    }
  }

  /** What admission asks once and for all: a recoverable sender, a limited size, no negative value, gas for the charge. */
  predicate Sound(t: Tx) {
    t.sigOk && t.size <= MAX_TX_SIZE && t.value >= 0 && Gas.Charge(t.data, t.to.None?) <= t.gas
  }

  lemma DecidedSound(rules: Rules, tx: Tx, s: Submission, r: AddResult)
    requires Decided(rules, tx, s, r) && r.Added?
    ensures Sound(tx)
  {
    hide Gas.Charge, Inserted, RoomMade, Rules.Reports, Underpriced;
    var demands := rules.Demands(tx, s.before.locals);
    assert |demands| == 9;
    assert demands[0].met && demands[1].met && demands[8].met;
  }

  lemma TookOfSound(rules: Rules, txs: seq<Tx>, start: Snapshot, subs: seq<Submission>, rs: seq<AddResult>, t: Tx)
    requires AllDecided(rules, txs, start, subs, rs) && TookOf(txs, rs, t)
    ensures Sound(t)
  {
    hide Decided, Sound;
    var i :| 0 <= i < |rs| && i < |txs| && txs[i] == t && rs[i].Added?;
    assert DecidedAt(rules, txs, start, subs, rs, i);
    DecidedSound(rules, txs[i], subs[i], rs[i]);
  }

  lemma TookSound(f: Frame, e: Event, m: Moment, o: Answer, n: Moment, t: Tx)
    requires Handled(f, e, m, o, n) && Took(e, o, t)
    ensures Sound(t)
  {
    hide Decided, AllDecided, Advanced, Sound, RemovedInTurn, TookOf, AllDemoted, Raised, Consistent;
    match e {
      case Submit(tx, local, lampHeight) =>
        DecidedSound(f.RulesIn(m, local, lampHeight), tx, o.s, o.r);
      case SubmitAll(txs, local, lampHeight) =>
        TookOfSound(f.RulesIn(m, local, lampHeight), txs, m.pool, o.subs, o.rs, t);
      case NewHead(state, maxGas, reinject, lampHeight) =>
        TookOfSound(f.RulesIn(n, false, lampHeight), reinject, Snapshot(m.pool.view, map[], m.pool.locals), o.turn.subs,
                    o.turn.rs, t);
      case _ =>
    }
  }

  /** Whatever a pool that started empty lists has passed admission. */
  lemma ListedIsSound(f: Frame, events: seq<Event>, moments: seq<Moment>, answers: seq<Answer>, k: nat, t: Tx)
    requires History(f, events, moments, answers) && moments[0].pool.view == View(map[], map[], map[])
    requires k < |moments| && Held(moments[k].pool.view, t)
    ensures Sound(t)
  {
    hide Handled, Took, Sound, Consistent;
    Provenance(f, events, moments, answers, k, t);
    var i :| 0 <= i < k && Took(events[i], answers[i], t);
    assert HandledAt(f, events, moments, answers, i);
    TookSound(f, events[i], moments[i], answers[i], moments[i + 1], t);
  }
}
