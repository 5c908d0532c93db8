/** What the pool's admission means for execution: acceptable transactions are the ones that can be executed. */
module Admissions {
  import opened Types
  import opened TxLists
  import opened PoolViews
  import opened PoolRules
  import opened PoolHistories
  import opened PoolFates
  import Gas
  import L = Ledger
  import S = StateTransitions

  /** The accounts that the pool validates against, as execution sees them. */
  function AccountsOf(state: ChainState): S.Accounts {
    S.Accounts(state.balances, state.nonces)
  }

  /** The addresses in the node's own shard at the lamp height of a submission. */
  function HomeOf(rules: Rules): Address -> bool {
    (a: Address) => rules.home(a, rules.lampHeight)
  }

  /** A transaction on its way into the virtual machine, whatever that makes of it. */
  function TaskFor(tx: Tx, lampHeight: nat, created: Address, code: bool, run: S.Execution): S.Task
    requires tx.sigOk
  {
    S.Task(S.AsMessage(tx, lampHeight).value, created, code, run)
  }

  lemma ChargeFits(tx: Tx)
    ensures Gas.Charge(tx.data, tx.to.None?) ==
      (if tx.to.None? then 53000 else 21000) + 68 * |tx.data| - 64 * multiset(tx.data)[0]
    ensures Gas.Charge(tx.data, tx.to.None?) <= tx.gas ==> Gas.Charge(tx.data, tx.to.None?) <= MAX_UINT64
  {
    Gas.ChargeIs(tx.data, tx.to.None?);
  }

  /** Each demand, in the order in which it is checked: a report means that it is broken, or a later one is. */
  lemma ReportMeans(rules: Rules, e: PoolError, tx: Tx, locals: set<Address>)
    requires rules.Reports(e, tx, locals)
    ensures e == OversizedData <==> tx.size > 32768
    ensures tx.size <= 32768 ==> (e == NegativeValue <==> tx.value < 0)
    ensures tx.size <= 32768 && tx.value >= 0 ==> (e == GasLimitExceeded <==> tx.gas > rules.maxGas)
    ensures tx.size <= 32768 && tx.value >= 0 && tx.gas <= rules.maxGas ==> (e == InvalidSender <==> !tx.sigOk)
    ensures e in {TooCheap, NonceTooLow, InsufficientFunds, OutOfGas, IntrinsicGasTooHigh} <==>
      tx.size <= 32768 && tx.value >= 0 && tx.gas <= rules.maxGas && tx.sigOk
    ensures var cheap := !rules.local && tx.from !in locals && tx.gasPrice < rules.gasPrice;
      var stale := tx.nonce < rules.state.NonceOf(tx.from);
      var free := rules.lampHeight <= 1000 && tx.actType in {1, 2};
      var poor := !free && rules.state.BalanceOf(tx.from) < tx.gas * tx.gasPrice + tx.value;
      var charge := (if tx.to.None? then 53000 else 21000) + 68 * |tx.data| - 64 * multiset(tx.data)[0];
      match e
      case TooCheap => cheap
      case NonceTooLow => !cheap && stale
      case InsufficientFunds => !cheap && !stale && poor
      case OutOfGas => !cheap && !stale && !poor && charge > 0xFFFF_FFFF_FFFF_FFFF
      case IntrinsicGasTooHigh => !cheap && !stale && !poor && tx.gas < charge <= 0xFFFF_FFFF_FFFF_FFFF
      case _ => true
  {
    hide Gas.Charge;
    ChargeFits(tx);
    var demands := rules.Demands(tx, locals);
    var i :| 0 <= i < |demands| && FirstBroken(demands, i) && demands[i].error == e;
    assert |demands| == 9 && forall k | 0 <= k < 9 :: demands[k].met ==> i != k;
    assert forall k | 0 <= k < i :: demands[k].met;
    assert 0 < i ==> demands[0].met;
    assert 1 < i ==> demands[1].met;
    assert 2 < i ==> demands[2].met;
    assert 3 < i ==> demands[3].met;
    assert 4 < i ==> demands[4].met;
    assert 5 < i ==> demands[5].met;
    assert 6 < i ==> demands[6].met;
    assert 7 < i ==> demands[7].met;
  }

  /**
    A transaction that pays for its gas is acceptable exactly if, once its nonce is due, execution on the same state in
    an empty block of the same gas limit applies it, provided it is small enough, carries no negative value and offers
    the pool's price.
   */
  lemma AcceptableIff(rules: Rules, tx: Tx, locals: set<Address>, created: Address, code: bool, run: S.Execution)
    requires tx.sigOk && rules.Routable(tx) && !tx.IsFreeAct(rules.lampHeight)
    requires tx.nonce == rules.state.NonceOf(tx.from)
    requires TaskFor(tx, rules.lampHeight, created, code, run).VmErrorIn(AccountsOf(rules.state))
          != Some(S.InsufficientBalance)
    ensures rules.Acceptable(tx, locals) <==>
      && tx.size <= 32768 && tx.value >= 0 && (rules.local || tx.from in locals || tx.gasPrice >= rules.gasPrice)
      && TaskFor(tx, rules.lampHeight, created, code, run).Applicable(AccountsOf(rules.state), HomeOf(rules), rules.maxGas)
  {
    hide Gas.Charge;
    ChargeFits(tx);
    AcceptableMeans(rules, tx, locals);
  }

  lemma AcceptableMeans(rules: Rules, tx: Tx, locals: set<Address>)
    ensures rules.Acceptable(tx, locals) <==>
      && tx.size <= 32768 && tx.value >= 0 && tx.gas <= rules.maxGas && tx.sigOk
      && (rules.local || tx.from in locals || tx.gasPrice >= rules.gasPrice)
      && tx.nonce >= rules.state.NonceOf(tx.from)
      && (tx.IsFreeAct(rules.lampHeight) || rules.state.BalanceOf(tx.from) >= tx.gas * tx.gasPrice + tx.value)
      && Gas.Charge(tx.data, tx.to.None?) <= tx.gas
  {
    hide Gas.Charge;
    ChargeFits(tx);
    var d := rules.Demands(tx, locals);
    assert |d| == 9;
    assert rules.Acceptable(tx, locals) <==>
      d[0].met && d[1].met && d[2].met && d[3].met && d[4].met && d[5].met && d[6].met && d[7].met && d[8].met;
  }

  /** What the pool takes, execution applies once the nonce is due, unless it is a free act that carries value. */
  lemma AddedExecutes(rules: Rules, tx: Tx, s: Submission, r: AddResult, created: Address, code: bool, run: S.Execution)
    requires Decided(rules, tx, s, r) && r.Added? && tx.nonce == rules.state.NonceOf(tx.from)
    requires tx.IsFreeAct(rules.lampHeight) ==> tx.value == 0 && rules.state.BalanceOf(tx.from) >= 0
    ensures tx.sigOk
    ensures var task, acc := TaskFor(tx, rules.lampHeight, created, code, run), AccountsOf(rules.state);
      task.VmErrorIn(acc) != Some(S.InsufficientBalance) ==> task.Applicable(acc, HomeOf(rules), rules.maxGas)
  {
    hide Gas.Charge, Rules.Acceptable, Rules.Reports, Inserted, RoomMade, Underpriced, S.Task.Applicable;
    NotTurnedAway(rules, tx, s.before);
    var task, acc := TaskFor(tx, rules.lampHeight, created, code, run), AccountsOf(rules.state);
    if task.VmErrorIn(acc) != Some(S.InsufficientBalance) {
      if tx.IsFreeAct(rules.lampHeight) {
        FreeActsUnfunded(rules, tx, s.before.locals, created, code, run);
      } else {
        AcceptableIff(rules, tx, s.before.locals, created, code, run);
      }
    }
  }

  /**
    An acceptable free act meets all that execution demands of it but one: that its sender owns the value it carries,
    for which the pool does not ask.
   */
  lemma FreeActsUnfunded(rules: Rules, tx: Tx, locals: set<Address>, created: Address, code: bool, run: S.Execution)
    requires rules.Acceptable(tx, locals) && rules.Routable(tx) && tx.IsFreeAct(rules.lampHeight)
    requires tx.sigOk && tx.nonce == rules.state.NonceOf(tx.from)
    requires TaskFor(tx, rules.lampHeight, created, code, run).VmErrorIn(AccountsOf(rules.state))
          != Some(S.InsufficientBalance)
    ensures var task := TaskFor(tx, rules.lampHeight, created, code, run);
      task.Applicable(AccountsOf(rules.state), HomeOf(rules), rules.maxGas) <==> rules.state.BalanceOf(tx.from) >= tx.value
  {
    hide Gas.Charge;
  }

  /**
    What execution has to say about a refused transaction that pays for its gas: one over the gas limit does not fit a
    block, one under the intrinsic charge cannot cover it, one with a used nonce comes too late, and one without funds
    cannot buy its gas or has no funds to transfer.
   */
  lemma RefusedMeans(rules: Rules, e: PoolError, tx: Tx, locals: set<Address>, created: Address, code: bool,
                     run: S.Execution)
    requires rules.Reports(e, tx, locals) && tx.sigOk && rules.Routable(tx) && !tx.IsFreeAct(rules.lampHeight)
    ensures var task := TaskFor(tx, rules.lampHeight, created, code, run);
      var acc, home := AccountsOf(rules.state), HomeOf(rules);
      match e
      case GasLimitExceeded => !task.FitsBlock(rules.maxGas)
      case NonceTooLow => task.Reported(S.NonceTooLow, acc, home, rules.maxGas)
      case InsufficientFunds => !task.Affordable(acc) || !L.CanTransfer(task.Charged(acc.balances), home, tx.from, tx.value)
      case OutOfGas => !task.CoversIntrinsic()
      case IntrinsicGasTooHigh => !task.CoversIntrinsic()
      case _ => true
  {
    hide Gas.Charge;
    ReportMeans(rules, e, tx, locals);
    ChargeFits(tx);
  }

  /** A listed transaction that pays for its gas stays payable exactly if a block has room for it and its sender funds. */
  lemma PayableIff(rules: Rules, tx: Tx, created: Address, code: bool, run: S.Execution)
    requires tx.sigOk && tx.value >= 0 && rules.Routable(tx) && !tx.IsFreeAct(rules.lampHeight)
    ensures var task := TaskFor(tx, rules.lampHeight, created, code, run);
      var acc, home := AccountsOf(rules.state), HomeOf(rules);
      !Unpayable(tx, rules.state.BalanceOf(tx.from), rules.maxGas, rules.lampHeight) <==>
        && task.FitsBlock(rules.maxGas) && task.Affordable(acc)
        && L.CanTransfer(task.Charged(acc.balances), home, tx.from, tx.value)
  {
  }

  /**
    At any moment of a pool that started empty, and whatever happened to it: a listed transaction that pays for its gas,
    is not outdated and has its nonce due is applied if it is executed now, in an empty block and in its sender's shard.
   */
  lemma ListedExecutes(f: Frame, events: seq<Event>, moments: seq<Moment>, answers: seq<Answer>, k: nat, t: Tx,
                       lampHeight: nat, created: Address, code: bool, run: S.Execution)
    requires History(f, events, moments, answers) && moments[0].pool.view == View(map[], map[], map[])
    requires k < |moments| && Held(moments[k].pool.view, t) && f.home(t.from, lampHeight) && !t.IsFreeAct(lampHeight)
    requires var m := moments[k]; !Outdated(t, m.state, m.maxGas, lampHeight) && t.nonce == m.state.NonceOf(t.from)
    ensures t.sigOk
    ensures var task, acc := TaskFor(t, lampHeight, created, code, run), AccountsOf(moments[k].state);
      task.VmErrorIn(acc) != Some(S.InsufficientBalance) ==>
        task.Applicable(acc, HomeOf(f.RulesIn(moments[k], false, lampHeight)), moments[k].maxGas)
  {
    hide Gas.Charge, History, Held;
    ListedIsSound(f, events, moments, answers, k, t);
  }
}
