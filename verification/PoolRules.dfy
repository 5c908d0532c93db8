/** What the pool promises about a submission: its outcome, what is evicted for it, and what is promoted after it. */
module PoolRules {
  import opened Types
  import opened NonceMap
  import opened TxLists
  import opened PricedList
  import opened PoolViews
  import opened PoolNonces
  import opened PoolTotals
  import opened PoolSteps
  import Gas

  datatype Config = Config(priceBump: nat, accountSlots: nat, globalSlots: nat, accountQueue: nat, globalQueue: nat)

  datatype PoolError =
    | NotLocalOrOutput | KnownTransaction | OversizedData | NegativeValue | GasLimitExceeded | InvalidSender
    | TooCheap | NonceTooLow | InsufficientFunds | OutOfGas | IntrinsicGasTooHigh | ReplaceUnderpriced

  /** An addition says whether it replaced an older transaction, or fails, or panics. */
  datatype AddResult = Added(replaced: bool) | Rejected(error: PoolError) | Panicked

  const MAX_TX_SIZE: nat := 32 * 1024

  /** All that submissions change. */
  datatype Snapshot = Snapshot(view: View, managed: map<Address, nat>, locals: set<Address>)

  // ---------------------------------------------------------------------------------------------
  // Admission

  /** A demand on a transaction, and the error that reports it broken. */
  datatype Demand = Demand(met: bool, error: PoolError)

  /** What decides on a submission besides the pool's contents. */
  datatype Rules = Rules(config: Config, home: (Address, nat) -> bool, gasPrice: nat, state: ChainState, maxGas: nat,
                         local: bool, lampHeight: nat)
  {
    /** Only local transactions and outputs, that is those sent from the node's own shard, are taken. */
    predicate Routable(tx: Tx) {
      home(tx.from, lampHeight)
    }

    /** What is demanded of a transaction by itself, in the order in which it is checked. */
    function Demands(tx: Tx, locals: set<Address>): seq<Demand> {
      [ Demand(tx.size <= MAX_TX_SIZE, OversizedData),
        Demand(tx.value >= 0, NegativeValue),
        Demand(tx.gas <= maxGas, GasLimitExceeded),
        Demand(tx.sigOk, InvalidSender),
        Demand(local || tx.from in locals || tx.gasPrice >= gasPrice, TooCheap),
        Demand(tx.nonce >= state.NonceOf(tx.from), NonceTooLow),
        Demand(tx.IsFreeAct(lampHeight) || tx.Cost() <= state.BalanceOf(tx.from), InsufficientFunds),
        Demand(Gas.Charge(tx.data, tx.to.None?) <= MAX_UINT64, OutOfGas),
        Demand(Gas.Charge(tx.data, tx.to.None?) <= tx.gas, IntrinsicGasTooHigh) ]
    }

    predicate Acceptable(tx: Tx, locals: set<Address>) {
      var demands := Demands(tx, locals);
      forall i | 0 <= i < |demands| :: demands[i].met
    }

    /** The error is that of the first broken demand. */
    ghost predicate Reports(e: PoolError, tx: Tx, locals: set<Address>) {
      var demands := Demands(tx, locals);
      exists i | 0 <= i < |demands| :: FirstBroken(demands, i) && demands[i].error == e
    }

    function Limit(): nat {
      config.globalSlots + config.globalQueue
    }

    predicate Full(v: View) {
      |v.all| >= Limit()
    }
  }

  /** Whether a transaction is remote and no dearer than the cheapest one in the pool. */
  predicate Underpriced(v: View, tx: Tx, locals: set<Address>) {
    !IsLocal(locals, tx) && v.all != map[] && forall h | h in v.all :: v.all[h].gasPrice >= tx.gasPrice
  }

  predicate FirstBroken(demands: seq<Demand>, i: nat)
    requires i < |demands|
  {
    !demands[i].met && forall j | 0 <= j < i :: demands[j].met
  }

  // ---------------------------------------------------------------------------------------------
  // Making room

  /** Removing one transaction by its hash, and lowering the sender's expected nonce to a pending one's. */
  ghost predicate RemovedOne(s: Snapshot, t: Snapshot, d: Tx, state: ChainState) {
    if d.Hash() !in s.view.all then t == s
    else
      var tx := s.view.all[d.Hash()];
      && t.locals == s.locals && Removes(s.view, t.view, tx)
      && t.managed == if tx.nonce in ItemsOf(s.view.pending, tx.from) && NonceIn(s.managed, state, tx.from) > tx.nonce
                      then s.managed[tx.from := tx.nonce] else s.managed
  }

  /** The pool before, between and after removing transactions one after the other. */
  ghost predicate Trace(trace: seq<Snapshot>, drop: seq<Tx>, state: ChainState) {
    |trace| == |drop| + 1 && forall i | 0 <= i < |drop| :: RemovedOne(trace[i], trace[i + 1], drop[i], state)
  }

  ghost predicate RemovedInTurn(s: Snapshot, t: Snapshot, drop: seq<Tx>, state: ChainState) {
    exists trace :: Trace(trace, drop, state) && trace[0] == s && trace[|drop|] == t
  }

  /** The cheapest remote transactions are removed, until one more fits or none is left. */
  ghost predicate RoomMade(s: Snapshot, t: Snapshot, drop: seq<Tx>, limit: nat, state: ChainState) {
    && RemovedInTurn(s, t, drop, state) && t.view.all == s.view.all - HashesIn(drop)
    && (forall d | d in drop :: d.Hash() in s.view.all && !IsLocal(s.locals, d))
    && (forall d, h | d in drop && h in t.view.all && !IsLocal(s.locals, t.view.all[h]) ::
          d.gasPrice <= t.view.all[h].gasPrice)
    && |drop| <= |s.view.all| - limit + 1
    && (|drop| == |s.view.all| - limit + 1 || forall h | h in t.view.all :: IsLocal(s.locals, t.view.all[h]))
  }

  lemma NothingRemoved(s: Snapshot, state: ChainState)
    ensures RemovedInTurn(s, s, [], state)
    ensures forall t | RemovedInTurn(s, t, [], state) :: t == s
  {
    assert Trace([s], [], state);
  }

  lemma RemovedNext(s: Snapshot, u: Snapshot, t: Snapshot, drop: seq<Tx>, i: nat, state: ChainState)
    requires i < |drop| && RemovedInTurn(s, u, drop[..i], state) && RemovedOne(u, t, drop[i], state)
    ensures RemovedInTurn(s, t, drop[..i + 1], state)
  {
    hide RemovedOne;
    var trace :| Trace(trace, drop[..i], state) && trace[0] == s && trace[i] == u;
    var more := trace + [t];
    forall k | 0 <= k < i + 1
      ensures RemovedOne(more[k], more[k + 1], drop[..i + 1][k], state)
    {
      assert k < i ==> drop[..i][k] == drop[..i + 1][k] && RemovedOne(trace[k], trace[k + 1], drop[..i][k], state);
    }
    assert Trace(more, drop[..i + 1], state);
  }

  /** What the price heap discards makes room: `kept` are the entries it keeps. */
  lemma DiscardMakesRoom(s: Snapshot, t: Snapshot, kept: seq<Tx>, drop: seq<Tx>, limit: nat, state: ChainState)
    requires HashKeyed(s.view.all) && |s.view.all| >= limit && RemovedInTurn(s, t, drop, state)
    requires t.view.all == s.view.all - HashesIn(drop)
    requires forall h | h in s.view.all :: s.view.all[h] in kept || s.view.all[h] in drop
    requires forall d | d in drop :: Live(s.view.all, d) && !IsLocal(s.locals, d)
    requires forall d, x | d in drop && x in kept && Live(s.view.all, x) && !IsLocal(s.locals, x) ::
      d.gasPrice <= x.gasPrice
    requires |drop| <= |s.view.all| - limit + 1
    requires |drop| < |s.view.all| - limit + 1 ==> forall x | x in kept :: IsLocal(s.locals, x)
    ensures RoomMade(s, t, drop, limit, state)
  {
    hide RemovedInTurn;
    forall h | h in t.view.all
      ensures s.view.all[h] in kept && Live(s.view.all, s.view.all[h])
    {
      assert s.view.all[h].Hash() == h;
    }
  }

  /** Room is made from something exactly if a known transaction is remote, and then the pool shrinks. */
  lemma RoomRemoves(s: Snapshot, t: Snapshot, drop: seq<Tx>, limit: nat, state: ChainState)
    requires HashKeyed(s.view.all) && |s.view.all| >= limit && RoomMade(s, t, drop, limit, state)
    ensures (exists h :: h in s.view.all && !IsLocal(s.locals, s.view.all[h])) <==> drop != []
    ensures drop != [] ==> t.view.all != s.view.all
    ensures drop == [] ==> t == s
  {
    hide Trace;
    if drop == [] {
      NothingRemoved(s, state);
    } else {
      assert drop[0].Hash() in HashesIn(drop);
      assert s.view.all[drop[0].Hash()].Hash() == drop[0].Hash();
    }
  }

  // ---------------------------------------------------------------------------------------------
  // The outcome of a submission

  /** One submission: the pool before it, what was removed to make room, the pool with room, and the pool after it. */
  datatype Submission = Submission(before: Snapshot, drop: seq<Tx>, room: Snapshot, after: Snapshot)

  /** The list that a transaction would join: pending if its nonce is pending, else the queue. */
  function Slot(v: View, tx: Tx): ListValue {
    if tx.nonce in ItemsOf(v.pending, tx.from) then v.pending[tx.from] else ListOf(v.queue, tx.from, false)
  }

  /** Once there is room, a transaction replaces a pending one, is queued, or is refused for its price. */
  ghost predicate Inserted(rules: Rules, tx: Tx, s: Snapshot, t: Snapshot, r: AddResult) {
    var l, bump := Slot(s.view, tx), rules.config.priceBump;
    && r == (if l.Admits(tx, bump) then Added(tx.nonce in l.items) else Rejected(ReplaceUnderpriced))
    && t.managed == s.managed
    && t.view == (if l.Admits(tx, bump) then AddedTo(s.view, tx, bump) else s.view)
    && t.locals == if l.Admits(tx, bump) && rules.local && tx.nonce !in ItemsOf(s.view.pending, tx.from)
                   then s.locals + {tx.from} else s.locals
  }

  /** Refusals and panics change nothing. */
  predicate Idle(s: Submission) {
    s.drop == [] && s.room == s.before && s.after == s.before
  }

  /** Whether a submission is turned away before anything changes. */
  predicate TurnedAway(rules: Rules, tx: Tx, s: Snapshot) {
    || !tx.sigOk || !rules.Routable(tx) || tx.Hash() in s.view.all || !rules.Acceptable(tx, s.locals)
    || (rules.Full(s.view) && Underpriced(s.view, tx, s.locals))
  }

  /**
    The outcome of a submission. One whose sender cannot be recovered panics. One that is not sent from this shard, is
    known, is not acceptable, or does not beat the cheapest of a full pool is turned away. Any other is inserted, in a
    full pool after room was made.
   */
  ghost predicate Decided(rules: Rules, tx: Tx, s: Submission, r: AddResult) {
    if TurnedAway(rules, tx, s.before) then
      && Idle(s)
      && if !tx.sigOk then r == Panicked
         else if !rules.Routable(tx) then r == Rejected(NotLocalOrOutput)
         else if tx.Hash() in s.before.view.all then r == Rejected(KnownTransaction)
         else if !rules.Acceptable(tx, s.before.locals) then r.Rejected? && rules.Reports(r.error, tx, s.before.locals)
         else r == Rejected(TooCheap)
    else
      && Inserted(rules, tx, s.room, s.after, r)
      && if rules.Full(s.before.view) then RoomMade(s.before, s.room, s.drop, rules.Limit(), rules.state)
         else s.drop == [] && s.room == s.before
  }

  /** What the rest of an addition may rely on. */
  lemma NotTurnedAway(rules: Rules, tx: Tx, s: Snapshot)
    requires !TurnedAway(rules, tx, s)
    ensures tx.sigOk && tx.Hash() !in s.view.all && tx.nonce >= rules.state.NonceOf(tx.from)
  {
    var demands := rules.Demands(tx, s.locals);
    assert demands[5].met;
  }

  lemma RoomAndInsert(rules: Rules, tx: Tx, s: Submission, r: AddResult)
    requires !TurnedAway(rules, tx, s.before) && Inserted(rules, tx, s.room, s.after, r)
    requires if rules.Full(s.before.view) then RoomMade(s.before, s.room, s.drop, rules.Limit(), rules.state)
             else s.drop == [] && s.room == s.before
    ensures Decided(rules, tx, s, r)
  {
  }

  /** No demand is reported by the errors that are given for other reasons. */
  lemma ReportedErrors(rules: Rules, e: PoolError, tx: Tx, locals: set<Address>)
    requires rules.Reports(e, tx, locals)
    ensures e !in {NotLocalOrOutput, KnownTransaction, ReplaceUnderpriced} && !rules.Acceptable(tx, locals)
  {
  }

  /**
    A refusal leaves the pool as it was, except that a replacement refused for its price may have evicted others
    already: it did exactly if the pool was full and some transaction in it was remote.
   */
  lemma RefusalKeepsIff(rules: Rules, tx: Tx, s: Submission, r: AddResult)
    requires HashKeyed(s.before.view.all) && Decided(rules, tx, s, r) && !r.Added?
    ensures r != Rejected(ReplaceUnderpriced) ==> s.after == s.before
    ensures r == Rejected(ReplaceUnderpriced) ==>
      (s.after.view == s.before.view <==>
         !rules.Full(s.before.view) || forall h | h in s.before.view.all :: IsLocal(s.before.locals, s.before.view.all[h]))
    ensures s.after.view == s.before.view ==> s.after == s.before
  {
    hide Inserted, RoomMade, Rules.Demands, Rules.Acceptable, Rules.Reports, Underpriced, HashKeyed;
    if TurnedAway(rules, tx, s.before) {
      if tx.sigOk && rules.Routable(tx) && tx.Hash() !in s.before.view.all && !rules.Acceptable(tx, s.before.locals) {
        ReportedErrors(rules, r.error, tx, s.before.locals);
      }
    } else {
      RefusedInsert(rules, tx, s.room, s.after, r);
      if rules.Full(s.before.view) {
        RoomRemoves(s.before, s.room, s.drop, rules.Limit(), rules.state);
      }
    }
  }

  lemma RefusedInsert(rules: Rules, tx: Tx, s: Snapshot, t: Snapshot, r: AddResult)
    requires Inserted(rules, tx, s, t, r) && !r.Added?
    ensures r == Rejected(ReplaceUnderpriced) && t == s
  {
  }

  // ---------------------------------------------------------------------------------------------
  // Promotion after submissions

  /** Promotion of some accounts, and the pool before truncation. */
  datatype Promotion = Promotion(accounts: set<Address>, before: Snapshot, promoted: Snapshot, after: Snapshot)

  /** The accounts of a consistent pool are promoted, and what is too much is truncated fairly. */
  ghost predicate Advanced(rules: Rules, p: Promotion) {
    var config, locals := rules.config, p.before.locals;
    var was, now := p.promoted.view, p.after.view;
    && Consistent(p.before.view)
    && p.promoted.locals == p.after.locals == locals
    && AllPromoted(p.before.view, was, p.before.managed, p.promoted.managed, rules.state, p.accounts, locals,
                   rules.maxGas, rules.lampHeight, config.accountQueue)
    && FairlyTruncated(was.pending, now.pending, locals, config.accountSlots)
    && (Total(was.pending) <= config.globalSlots ==> now.pending == was.pending && p.after.managed == p.promoted.managed)
    && (Total(now.pending) <= config.globalSlots
        || forall a | Remote(now.pending, locals, a) :: Len(now.pending, a) <= config.accountSlots)
    && (Total(was.pending) > config.globalSlots ==> Total(now.pending) + |now.pending| > config.globalSlots)
    && QueueTruncated(was.queue, now.queue, locals)
    && if Total(was.queue) <= config.globalQueue then now.queue == was.queue
       else Total(now.queue) == config.globalQueue
            || (Total(now.queue) > config.globalQueue
                && forall a | a in now.queue && a !in locals :: Len(now.queue, a) == 0)
  }

  /** One submission and, if it added without replacing, the promotion of its sender. */
  ghost predicate Submitted(rules: Rules, tx: Tx, s: Submission, p: Promotion, r: AddResult, end: Snapshot) {
    && Decided(rules, tx, s, r)
    && if r == Added(false) then p.accounts == {tx.from} && p.before == s.after && p.after == end && Advanced(rules, p)
       else end == s.after
  }

  function Last(start: Snapshot, subs: seq<Submission>): Snapshot {
    if subs == [] then start else subs[|subs| - 1].after
  }

  /** A submission starts where the one before it ended. */
  ghost predicate DecidedAt(rules: Rules, txs: seq<Tx>, start: Snapshot, subs: seq<Submission>, rs: seq<AddResult>, i: nat)
    requires i < |subs| == |rs| <= |txs|
  {
    && subs[i].before == (if i == 0 then start else subs[i - 1].after)
    && Decided(rules, txs[i], subs[i], rs[i])
    && (rs[i].Panicked? ==> i == |rs| - 1)
  }

  /** Submissions one after the other, up to the first that panics. */
  ghost predicate AllDecided(rules: Rules, txs: seq<Tx>, start: Snapshot, subs: seq<Submission>, rs: seq<AddResult>) {
    |subs| == |rs| <= |txs| && forall i | 0 <= i < |rs| :: DecidedAt(rules, txs, start, subs, rs, i)
  }

  predicate Crashed(rs: seq<AddResult>) {
    rs != [] && rs[|rs| - 1].Panicked?
  }

  /** The senders of what was added without replacing. */
  function Dirty(txs: seq<Tx>, rs: seq<AddResult>): set<Address>
    requires |rs| <= |txs|
  {
    set i | 0 <= i < |rs| && rs[i] == Added(false) :: txs[i].from
  }

  /** Submissions in order and, unless one panics, the promotion of all senders of what was added. */
  ghost predicate AllSubmitted(rules: Rules, txs: seq<Tx>, start: Snapshot, subs: seq<Submission>, p: Promotion,
                               rs: seq<AddResult>, end: Snapshot) {
    && AllDecided(rules, txs, start, subs, rs)
    && (|rs| == |txs| || Crashed(rs))
    && if Crashed(rs) || Dirty(txs, rs) == {} then end == Last(start, subs)
       else p.accounts == Dirty(txs, rs) && p.before == Last(start, subs) && p.after == end && Advanced(rules, p)
  }

  lemma NoneDecided(rules: Rules, txs: seq<Tx>, start: Snapshot)
    ensures AllDecided(rules, txs, start, [], []) && Dirty(txs, []) == {} && Last(start, []) == start
  {
  }

  lemma NextDecided(rules: Rules, txs: seq<Tx>, start: Snapshot, subs: seq<Submission>, rs: seq<AddResult>, s: Submission,
                    r: AddResult)
    requires AllDecided(rules, txs, start, subs, rs) && !Crashed(rs) && |rs| < |txs|
    requires s.before == Last(start, subs) && Decided(rules, txs[|rs|], s, r)
    ensures AllDecided(rules, txs, start, subs + [s], rs + [r]) && Last(start, subs + [s]) == s.after
    ensures Dirty(txs, rs + [r]) == if r == Added(false) then Dirty(txs, rs) + {txs[|rs|].from} else Dirty(txs, rs)
  {
    hide Decided, DecidedAt, Dirty;
    var subs', rs' := subs + [s], rs + [r];
    forall i | 0 <= i < |rs'|
      ensures DecidedAt(rules, txs, start, subs', rs', i)
    {
      assert i < |rs| ==> DecidedAt(rules, txs, start, subs, rs, i);
      StillDecided(rules, txs, start, subs, rs, s, r, i);
    }
    DirtyNext(txs, rs, r);
  }

  lemma StillDecided(rules: Rules, txs: seq<Tx>, start: Snapshot, subs: seq<Submission>, rs: seq<AddResult>, s: Submission,
                     r: AddResult, i: nat)
    requires |subs| == |rs| < |txs| && i <= |rs| && !Crashed(rs)
    requires if i < |rs| then DecidedAt(rules, txs, start, subs, rs, i)
             else s.before == Last(start, subs) && Decided(rules, txs[i], s, r)
    ensures DecidedAt(rules, txs, start, subs + [s], rs + [r], i)
  {
    hide Decided;
  }

  lemma DirtyNext(txs: seq<Tx>, rs: seq<AddResult>, r: AddResult)
    requires |rs| < |txs|
    ensures Dirty(txs, rs + [r]) == if r == Added(false) then Dirty(txs, rs) + {txs[|rs|].from} else Dirty(txs, rs)
  {
    var more := rs + [r];
    forall a
      ensures a in Dirty(txs, more) <==> a in Dirty(txs, rs) || (r == Added(false) && a == txs[|rs|].from)
    {
      if a in Dirty(txs, rs) {
        var i :| 0 <= i < |rs| && rs[i] == Added(false) && txs[i].from == a;
        assert more[i] == Added(false);
      }
      if r == Added(false) {
        assert more[|rs|] == Added(false);
      }
    }
  }

  /** Submissions panic exactly if some sender cannot be recovered. */
  lemma PanicsIff(rules: Rules, txs: seq<Tx>, start: Snapshot, subs: seq<Submission>, rs: seq<AddResult>)
    requires AllDecided(rules, txs, start, subs, rs) && (|rs| == |txs| || Crashed(rs))
    ensures Crashed(rs) <==> exists tx | tx in txs :: !tx.sigOk
  {
    hide Inserted, RoomMade, Rules.Acceptable, Rules.Reports, Underpriced;
    forall i | 0 <= i < |rs|
      ensures rs[i].Panicked? <==> !txs[i].sigOk
    {
      assert DecidedAt(rules, txs, start, subs, rs, i);
      PanickedIff(rules, txs[i], subs[i], rs[i]);
    }
    if Crashed(rs) {
      assert !txs[|rs| - 1].sigOk && txs[|rs| - 1] in txs;
    } else {
      forall i | 0 <= i < |txs|
        ensures txs[i].sigOk
      {
        assert DecidedAt(rules, txs, start, subs, rs, i);
      }
    }
  }

  lemma PanickedIff(rules: Rules, tx: Tx, s: Submission, r: AddResult)
    requires Decided(rules, tx, s, r)
    ensures r.Panicked? <==> !tx.sigOk
  {
    hide RoomMade, Rules.Acceptable, Rules.Reports, Underpriced;
  }

  // ---------------------------------------------------------------------------------------------
  // Following a new head

  /** The expected nonce of each account with pending transactions is past the highest one; others keep theirs. */
  ghost predicate Raised(pending: Lists, managed: map<Address, nat>, managed': map<Address, nat>) {
    forall a :: if a in pending
                then a in managed' && managed'[a] > 0 && IsTop(pending[a].items, managed'[a] - 1)
                else (a in managed' <==> a in managed) && (a in managed' ==> managed'[a] == managed[a])
  }

  /** With no nonces expected before, lined-up accounts are settled after raising. */
  lemma RaisedAlone(v: View, managed: map<Address, nat>, state: ChainState)
    requires Raised(v.pending, map[], managed) && forall a :: LinedBySize(v, state, a)
    ensures forall a :: Settling(v, managed, state, a)
  {
    hide LinedBySize, Settling;
    RaisedSettles(v, managed, state);
  }

  /** A reset: what became of the reinjected transactions, the pool then, the pool after demotion, the raised nonces,
      and the promotion that ends it. */
  datatype Turn = Turn(rs: seq<AddResult>, subs: seq<Submission>, added: Promotion, reinjected: Snapshot, demoted: View,
                       raised: map<Address, nat>, promotion: Promotion)

  /**
    Abandoned transactions are submitted against the new state as remote ones. Unless one panics, all pending lists
    are then demoted, expected nonces raised past what stays pending, and all accounts with a queue promoted.
   */
  ghost predicate Turned(rules: Rules, reinject: seq<Tx>, start: Snapshot, turn: Turn, end: Snapshot) {
    && AllSubmitted(rules, reinject, start, turn.subs, turn.added, turn.rs, turn.reinjected)
    && Consistent(turn.reinjected.view)
    && if Crashed(turn.rs) then end == turn.reinjected
       else
         && AllDemoted(turn.reinjected.view, turn.demoted, rules.state, turn.reinjected.view.pending.Keys, rules.maxGas,
                       rules.lampHeight)
         && Raised(turn.demoted.pending, turn.reinjected.managed, turn.raised)
         && turn.promotion.accounts == turn.demoted.queue.Keys
         && turn.promotion.before == Snapshot(turn.demoted, turn.raised, turn.reinjected.locals)
         && turn.promotion.after == end && Advanced(rules, turn.promotion)
  }

  lemma TurnCut(rules: Rules, reinject: seq<Tx>, start: Snapshot, subs: seq<Submission>, added: Promotion,
                rs: seq<AddResult>, end: Snapshot) returns (turn: Turn)
    requires AllSubmitted(rules, reinject, start, subs, added, rs, end) && Crashed(rs) && Consistent(end.view)
    ensures Turned(rules, reinject, start, turn, end) && turn.rs == rs
  {
    hide AllSubmitted, Consistent;
    turn := Turn(rs, subs, added, end, end.view, end.managed, added);
  }

  lemma TurnMade(rules: Rules, reinject: seq<Tx>, start: Snapshot, subs: seq<Submission>, added: Promotion,
                 rs: seq<AddResult>, reinjected: Snapshot, demoted: View, raised: map<Address, nat>, p: Promotion,
                 end: Snapshot) returns (turn: Turn)
    requires AllSubmitted(rules, reinject, start, subs, added, rs, reinjected) && !Crashed(rs)
    requires Consistent(reinjected.view)
    requires AllDemoted(reinjected.view, demoted, rules.state, reinjected.view.pending.Keys, rules.maxGas, rules.lampHeight)
    requires Raised(demoted.pending, reinjected.managed, raised)
    requires p.accounts == demoted.queue.Keys && p.after == end && p.before == Snapshot(demoted, raised, reinjected.locals)
    requires Advanced(rules, p)
    ensures Turned(rules, reinject, start, turn, end) && turn.rs == rs
  {
    hide AllSubmitted, AllDemoted, Raised, Advanced, Consistent;
    turn := Turn(rs, subs, added, reinjected, demoted, raised, p);
  }
}
