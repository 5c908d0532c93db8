/** Executing one message: buying gas, intrinsic gas, the call, refunds and fees. */
module StateTransitions {
  import opened Types
  import opened Ledger
  import Gas

  datatype Move = Move(sender: Address, recipient: Address, amount: int)

  /** A change of balance that a storage act makes by itself. */
  datatype Adjustment = Adjustment(account: Address, amount: int)

  datatype VmError = InsufficientBalance | Reverted | OtherFailure

  /**
    What the virtual machine and the storage acts do, for any code: which transfers are attempted, how much gas is
    spent, how execution ends, and what the refund counter shows.
   */
  datatype Execution = Execution(acts: seq<Adjustment>, moves: seq<Move>, spent: nat, error: Option<VmError>, refund: nat)

  datatype Message = Message(
    from: Address, to: Option<Address>, nonce: Nonce, checkNonce: bool, gasPrice: nat, gas: Uint64, value: int,
    data: seq<Byte>, free: bool)

  datatype TransitionError =
    NonceTooHigh | NonceTooLow | InsufficientBalanceForGas | GasLimitReached | OutOfGas | NoFundsToTransfer

  datatype Outcome = Applied(usedGas: nat, failed: bool) | Invalid(error: TransitionError) | Panicked

  /** What a transaction asks for, if its sender can be recovered. */
  function AsMessage(tx: Tx, lamp: nat): Option<Message> {
    if tx.sigOk
    then Some(Message(tx.from, tx.to, tx.nonce, true, tx.gasPrice, tx.gas, tx.value, tx.data, tx.IsFreeAct(lamp)))
    else None
  }

  function Adjusted(m: Balances, acts: seq<Adjustment>): Balances {
    if acts == [] then m
    else
      var last := acts[|acts| - 1];
      Plus(Adjusted(m, acts[..|acts| - 1]), last.account, last.amount)
  }

  function AdjustedBy(acts: seq<Adjustment>): int {
    if acts == [] then 0 else AdjustedBy(acts[..|acts| - 1]) + acts[|acts| - 1].amount
  }

  /** The attempted transfers in order; one that is not funded does not happen. */
  function MovesMade(m: Balances, home: Address -> bool, moves: seq<Move>): Balances {
    if moves == [] then m
    else
      var before := MovesMade(m, home, moves[..|moves| - 1]);
      var last := moves[|moves| - 1];
      if CanTransfer(before, home, last.sender, last.amount)
      then Transferred(before, home, last.sender, last.recipient, last.amount) else before
  }

  function MovesInflow(m: Balances, home: Address -> bool, moves: seq<Move>): int {
    if moves == [] then 0
    else
      var init := moves[..|moves| - 1];
      var last := moves[|moves| - 1];
      MovesInflow(m, home, init)
      + if CanTransfer(MovesMade(m, home, init), home, last.sender, last.amount)
        then Inflow(home, last.sender, last.recipient, last.amount) else 0
  }

  lemma {:induction false} AdjustedTotal(m: Balances, acts: seq<Adjustment>)
    ensures Sum(Adjusted(m, acts)) == Sum(m) + AdjustedBy(acts)
    decreases |acts|
  {
    if acts != [] {
      var init := acts[..|acts| - 1];
      AdjustedTotal(m, init);
      SumPlus(Adjusted(m, init), acts[|acts| - 1].account, acts[|acts| - 1].amount);
    }
  }

  lemma {:induction false} MovesTotal(m: Balances, home: Address -> bool, moves: seq<Move>)
    ensures Sum(MovesMade(m, home, moves)) == Sum(m) + MovesInflow(m, home, moves)
    ensures Solvent(m) && (forall t | t in moves :: t.amount >= 0) ==> Solvent(MovesMade(m, home, moves))
    decreases |moves|
  {
    if moves != [] {
      var init := moves[..|moves| - 1];
      var last := moves[|moves| - 1];
      MovesTotal(m, home, init);
      TransferInflow(MovesMade(m, home, init), home, last.sender, last.recipient, last.amount);
    }
  }

  /** Transfers among accounts of the node's own shard leave its total alone. */
  lemma {:induction false} HomeMovesNothing(m: Balances, home: Address -> bool, moves: seq<Move>)
    requires forall t | t in moves :: home(t.sender) && home(t.recipient)
    ensures MovesInflow(m, home, moves) == 0
    decreases |moves|
  {
    if moves != [] {
      var init := moves[..|moves| - 1];
      HomeMovesNothing(m, home, init);
    }
  }

  /** The balances once a call to `to` carrying `value` has executed to its end. */
  function Executed(m: Balances, home: Address -> bool, from: Address, to: Address, value: int,
                    run: Execution): Balances {
    MovesMade(Adjusted(Transferred(m, home, from, to, value), run.acts), home, run.moves)
  }

  function ExecutedInflow(m: Balances, home: Address -> bool, from: Address, to: Address, value: int,
                          run: Execution): int {
    Inflow(home, from, to, value) + AdjustedBy(run.acts)
    + MovesInflow(Adjusted(Transferred(m, home, from, to, value), run.acts), home, run.moves)
  }

  lemma ExecutedTotal(m: Balances, home: Address -> bool, from: Address, to: Address, value: int, run: Execution)
    ensures Sum(Executed(m, home, from, to, value, run)) == Sum(m) + ExecutedInflow(m, home, from, to, value, run)
    ensures Solvent(m) && value >= 0 && CanTransfer(m, home, from, value) && run.acts == []
            && (forall t | t in run.moves :: t.amount >= 0) ==>
      Solvent(Executed(m, home, from, to, value, run))
  {
    TransferInflow(m, home, from, to, value);
    AdjustedTotal(Transferred(m, home, from, to, value), run.acts);
    MovesTotal(Adjusted(Transferred(m, home, from, to, value), run.acts), home, run.moves);
  }

  /** What is paid back and what is passed on add up to what was paid in advance. */
  lemma FeeParts(bought: nat, used: nat, price: nat)
    requires used <= bought
    ensures (bought - used) * price + used * price == bought * price
    ensures (bought - used) * price >= 0 && used * price >= 0 && bought * price >= 0
  {
  }

  lemma CreditSolvent(m: Balances, a: Address, x: int)
    requires Solvent(m) && Get(m, a) + x >= 0
    ensures Solvent(Plus(m, a, x))
  {
  }

  lemma SolventGet(m: Balances, a: Address)
    requires Solvent(m)
    ensures Get(m, a) >= 0
  {
  }

  // ---------------------------------------------------------------------------------------------
  // When a message is applied, and to what effect

  /** What messages change. */
  datatype Accounts = Accounts(balances: Balances, nonces: map<Address, nat>)
  {
    function NonceOf(a: Address): nat {
      if a in nonces then nonces[a] else 0
    }
  }

  /** A message with what the virtual machine makes of it; `created` is where a contract would be, `code` whether one
      is there. */
  datatype Task = Task(msg: Message, created: Address, code: bool, run: Execution)
  {
    function Bought(): nat {
      if msg.free then 0 else msg.gas
    }

    /** What so much gas costs. */
    function Fee(gas: nat): int {
      gas * msg.gasPrice
    }

    function Prepaid(): int {
      Fee(Bought())
    }

    function Intrinsic(): int {
      if msg.free then 0 else Gas.Charge(msg.data, msg.to.None?)
    }

    function Target(): Address {
      if msg.to.Some? then msg.to.value else created
    }

    /** A contract is created only where neither code nor a nonce is. */
    predicate Collides(acc: Accounts) {
      msg.to.None? && (code || acc.NonceOf(created) != 0)
    }

    function VmErrorIn(acc: Accounts): Option<VmError> {
      if Collides(acc) then Some(OtherFailure) else run.error
    }

    predicate Fails(acc: Accounts) {
      VmErrorIn(acc).Some?
    }

    function Charged(m: Balances): Balances {
      if msg.free then m else Plus(m, msg.from, -Prepaid())
    }

    predicate RightNonce(acc: Accounts) {
      msg.checkNonce ==> acc.NonceOf(msg.from) == msg.nonce
    }

    predicate Affordable(acc: Accounts) {
      msg.free || Get(acc.balances, msg.from) >= Prepaid()
    }

    predicate FitsBlock(blockGas: nat) {
      Bought() <= blockGas
    }

    predicate CoversIntrinsic() {
      Intrinsic() <= Bought()
    }

    predicate Funded(acc: Accounts, home: Address -> bool) {
      CanTransfer(Charged(acc.balances), home, msg.from, msg.value) && VmErrorIn(acc) != Some(InsufficientBalance)
    }

    /** Everything that is demanded of a message before it may change anything. */
    predicate Applicable(acc: Accounts, home: Address -> bool, blockGas: nat) {
      RightNonce(acc) && Affordable(acc) && FitsBlock(blockGas) && CoversIntrinsic() && Funded(acc, home)
    }

    /** The error is that of the first demand the message does not meet. */
    predicate Reported(e: TransitionError, acc: Accounts, home: Address -> bool, blockGas: nat) {
      match e
      case NonceTooHigh => msg.checkNonce && acc.NonceOf(msg.from) < msg.nonce
      case NonceTooLow => msg.checkNonce && acc.NonceOf(msg.from) > msg.nonce
      case InsufficientBalanceForGas => RightNonce(acc) && !Affordable(acc)
      case GasLimitReached => RightNonce(acc) && Affordable(acc) && !FitsBlock(blockGas)
      case OutOfGas => RightNonce(acc) && Affordable(acc) && FitsBlock(blockGas) && !CoversIntrinsic()
      case NoFundsToTransfer =>
        RightNonce(acc) && Affordable(acc) && FitsBlock(blockGas) && CoversIntrinsic() && !Funded(acc, home)
    }

    /** What the virtual machine leaves of the gas beyond the intrinsic charge. */
    function Left(acc: Accounts): nat
      requires CoversIntrinsic()
    {
      var gas := Bought() - Intrinsic();
      if VmErrorIn(acc).Some? && (Collides(acc) || run.error != Some(Reverted)) then 0
      else if run.spent <= gas then gas - run.spent else 0
    }

    /** The gas used: what was not left, less the refund, which is at most half of it. */
    function Used(acc: Accounts): nat
      requires CoversIntrinsic()
    {
      ChargeNotNegative(msg.data, msg.to.None?);
      var spent: nat := Bought() - Left(acc);
      spent - if spent / 2 > run.refund then run.refund else spent / 2
    }

    /** Balances after the call, before unused gas is paid back. */
    function Called(acc: Accounts, home: Address -> bool): Balances {
      if Fails(acc) then Charged(acc.balances)
      else Executed(Charged(acc.balances), home, msg.from, Target(), msg.value, run)
    }

    /** The sender's nonce is used up; a contract starts with nonce 1. */
    function NoncesAfter(acc: Accounts): map<Address, nat> {
      var nonces := acc.nonces[msg.from := acc.NonceOf(msg.from) + 1];
      if msg.to.None? && !Fails(acc) then nonces[created := 1] else nonces
    }

    /** Unused gas goes back to the sender, used gas to the block's author. */
    function Applied(acc: Accounts, home: Address -> bool, coinbase: Address): Accounts
      requires CoversIntrinsic()
    {
      Accounts(Plus(Plus(Called(acc, home), msg.from, Fee(Bought() - Used(acc))), coinbase, Fee(Used(acc))), NoncesAfter(acc))
    }

    /** What applying the message brings into the node's own shard. */
    function InflowInto(acc: Accounts, home: Address -> bool): int {
      if Fails(acc) then 0 else ExecutedInflow(Charged(acc.balances), home, msg.from, Target(), msg.value, run)
    }
  }

  lemma ChargeNotNegative(data: seq<Byte>, creation: bool)
    ensures Gas.Charge(data, creation) >= 0
  {
    Gas.NonZeroAtMost(data);
  }

  /** The gas that a block has left. */
  class GasPool {
    var gas: Uint64

    constructor (limit: Uint64)
      ensures gas == limit
    {
      gas := limit;
    }

    /** Fails exactly when the sum would not fit 64 bits, where the program panics. */
    method AddGas(amount: Uint64) returns (ok: bool)
      modifies this
      ensures ok <==> old(gas) + amount <= MAX_UINT64
      ensures gas == if ok then old(gas) + amount else old(gas)
    {
      if gas > MAX_UINT64 - amount {
        return false;
      }
      gas := gas + amount;
      return true;
    }

    method SubGas(amount: Uint64) returns (ok: bool)
      modifies this
      ensures ok <==> old(gas) >= amount
      ensures gas == if ok then old(gas) - amount else old(gas)
    {
      if gas < amount {
        return false;
      }
      gas := gas - amount;
      return true;
    }
  }

  /** The account state a block is executed on. */
  class StateDB {
    var balances: Balances
    var nonces: map<Address, nat>

    /** By shard key: the height and the number of the last batch of inputs. */
    var shardingHeight: map<nat, nat>
    var batchNonce: map<nat, nat>

    constructor (balances: Balances, nonces: map<Address, nat>)
      ensures this.balances == balances && this.nonces == nonces && shardingHeight == batchNonce == map[]
    {
      this.balances, this.nonces := balances, nonces;
      shardingHeight, batchNonce := map[], map[];
    }

    function NonceOf(a: Address): nat
      reads this`nonces
    {
      if a in nonces then nonces[a] else 0
    }

    function Current(): Accounts
      reads this`balances, this`nonces
    {
      Accounts(balances, nonces)
    }

    method AddBalance(a: Address, x: int)
      modifies this`balances
      ensures balances == Plus(old(balances), a, x)
    {
      balances := Plus(balances, a, x);
    }

    method SubBalance(a: Address, x: int)
      modifies this`balances
      ensures balances == Plus(old(balances), a, -x)
    {
      balances := Plus(balances, a, -x);
    }

    method Transfer(home: Address -> bool, sender: Address, recipient: Address, amount: int)
      modifies this`balances
      ensures balances == Transferred(old(balances), home, sender, recipient, amount)
    {
      if home(sender) {
        SubBalance(sender, amount);
      }
      if home(recipient) {
        AddBalance(recipient, amount);
      }
    }
  }

  /** Where and when a block is executed: which addresses are in the node's own shard, who is paid, the lamp height. */
  datatype Setting = Setting(home: Address -> bool, coinbase: Address, lamp: nat)

  /** The virtual machine on one message: transfers the value, runs code, and reverts on failure. */
  class Evm {
    const state: StateDB
    const home: Address -> bool
    const coinbase: Address
    const lamp: nat

    constructor (state: StateDB, at: Setting)
      ensures this.state == state && At() == at
    {
      this.state, this.home, this.coinbase, this.lamp := state, at.home, at.coinbase, at.lamp;
    }

    function At(): Setting {
      Setting(home, coinbase, lamp)
    }

    /** Runs code: storage acts and transfers, whatever they are. */
    method Execute(run: Execution)
      modifies state`balances
      ensures state.balances == MovesMade(Adjusted(old(state.balances), run.acts), home, run.moves)
    {
      for i := 0 to |run.acts|
        invariant state.balances == Adjusted(old(state.balances), run.acts[..i])
      {
        assert run.acts[..i + 1][..i] == run.acts[..i];
        state.AddBalance(run.acts[i].account, run.acts[i].amount);
      }
      assert run.acts[..|run.acts|] == run.acts;
      ghost var acted := state.balances;
      for i := 0 to |run.moves|
        invariant state.balances == MovesMade(acted, home, run.moves[..i])
      {
        assert run.moves[..i + 1][..i] == run.moves[..i];
        var t := run.moves[i];
        if CanTransfer(state.balances, home, t.sender, t.amount) {
          state.Transfer(home, t.sender, t.recipient, t.amount);
        }
      }
      assert run.moves[..|run.moves|] == run.moves;
    }

    /** A call that fails for lack of funds keeps its gas; one that fails later gives up everything but the nonce. */
    method Call(caller: Address, addr: Address, gas: Uint64, value: int, run: Execution)
      returns (left: Uint64, error: Option<VmError>)
      modifies state`balances
      ensures left <= gas
      ensures !CanTransfer(old(state.balances), home, caller, value) ==>
        error == Some(InsufficientBalance) && left == gas && state.balances == old(state.balances)
      ensures CanTransfer(old(state.balances), home, caller, value) ==>
        && error == run.error
        && state.balances == (if error.Some? then old(state.balances)
                              else Executed(old(state.balances), home, caller, addr, value, run))
        && left == if error.Some? && error != Some(Reverted) then 0 else if run.spent <= gas then gas - run.spent else 0
    {
      if !CanTransfer(state.balances, home, caller, value) {
        return gas, Some(InsufficientBalance);
      }
      var snapshot := state.balances;
      state.Transfer(home, caller, addr, value);
      Execute(run);
      left := if run.spent <= gas then gas - run.spent else 0;
      error := run.error;
      if error.Some? {
        state.balances := snapshot;
        if error != Some(Reverted) {
          left := 0;
        }
      }
    }

    /** Creates a contract at an address derived from the caller's nonce, which is used up even if creation fails. */
    method Create(caller: Address, created: Address, code: bool, gas: Uint64, value: int, run: Execution)
      returns (left: Uint64, error: Option<VmError>)
      requires created != caller
      modifies state`balances, state`nonces
      ensures left <= gas
      ensures !CanTransfer(old(state.balances), home, caller, value) ==>
        error == Some(InsufficientBalance) && left == gas && state.balances == old(state.balances)
            && state.nonces == old(state.nonces)
      ensures CanTransfer(old(state.balances), home, caller, value) ==>
        var collides := code || old(state.NonceOf(created)) != 0;
        var used := old(state.nonces)[caller := old(state.NonceOf(caller)) + 1];
        && error == (if collides then Some(OtherFailure) else run.error)
        && state.balances == (if error.Some? then old(state.balances)
                              else Executed(old(state.balances), home, caller, created, value, run))
        && state.nonces == (if error.Some? then used else used[created := 1])
        && left == if error.Some? && (collides || error != Some(Reverted)) then 0
                   else if run.spent <= gas then gas - run.spent else 0
    {
      if !CanTransfer(state.balances, home, caller, value) {
        return gas, Some(InsufficientBalance);
      }
      state.nonces := state.nonces[caller := state.NonceOf(caller) + 1];
      if code || state.NonceOf(created) != 0 {
        return 0, Some(OtherFailure);
      }
      var snapshot, nonces := state.balances, state.nonces;
      state.nonces := state.nonces[created := 1];
      state.Transfer(home, caller, created, value);
      Execute(run);
      left := if run.spent <= gas then gas - run.spent else 0;
      error := run.error;
      if error.Some? {
        state.balances := snapshot;
        state.nonces := nonces;
        if error != Some(Reverted) {
          left := 0;
        }
      }
    }
  }

  /** One message on its way: the gas it still has and the gas it bought. */
  class StateTransition {
    const gp: GasPool
    const task: Task
    const evm: Evm

    var gas: Uint64
    var initialGas: Uint64

    constructor (gp: GasPool, task: Task, evm: Evm)
      ensures this.gp == gp && this.task == task && this.evm == evm
      ensures gas == initialGas == 0
    {
      this.gp, this.task, this.evm := gp, task, evm;
      gas, initialGas := 0, 0;
    }

    /** Buys all the message's gas from the block and makes the sender pay for it. */
    method BuyGas() returns (error: Option<TransitionError>)
      requires gas == 0
      modifies this, gp, evm.state`balances
      ensures error.Some? ==>
        gas == old(gas) && initialGas == old(initialGas) && gp.gas == old(gp.gas) && evm.state.balances == old(evm.state.balances)
      ensures error == if Get(old(evm.state.balances), task.msg.from) < task.Fee(task.msg.gas)
                       then Some(InsufficientBalanceForGas)
                       else if old(gp.gas) < task.msg.gas then Some(GasLimitReached) else None
      ensures error.None? ==>
        && gas == initialGas == task.msg.gas && gp.gas == old(gp.gas) - task.msg.gas
        && evm.state.balances == Plus(old(evm.state.balances), task.msg.from, -task.Fee(task.msg.gas))
    {
      var mgval := task.msg.gas * task.msg.gasPrice;
      if Get(evm.state.balances, task.msg.from) < mgval {
        return Some(InsufficientBalanceForGas);
      }
      var ok := gp.SubGas(task.msg.gas);
      if !ok {
        return Some(GasLimitReached);
      }
      gas := gas + task.msg.gas;
      initialGas := task.msg.gas;
      evm.state.SubBalance(task.msg.from, mgval);
      return None;
    }

    /** Checks the nonce and, unless the act is free, buys gas. Passes exactly if nonce, funds and block allow it. */
    method PreCheck() returns (error: Option<TransitionError>)
      requires gas == initialGas == 0
      modifies this, gp, evm.state`balances
      ensures error.None? <==>
        var acc := old(evm.state.Current());
        task.RightNonce(acc) && task.Affordable(acc) && task.FitsBlock(old(gp.gas))
      ensures error.Some? ==>
        && gp.gas == old(gp.gas) && evm.state.balances == old(evm.state.balances)
        && task.Reported(error.value, old(evm.state.Current()), evm.home, old(gp.gas))
      ensures error.None? ==>
        && gas == initialGas == task.Bought()
        && gp.gas == old(gp.gas) - initialGas
        && evm.state.balances == task.Charged(old(evm.state.balances))
    {
      var msg := task.msg;
      if msg.checkNonce {
        var nonce := evm.state.NonceOf(msg.from);
        if nonce < msg.nonce {
          return Some(NonceTooHigh);
        } else if nonce > msg.nonce {
          return Some(NonceTooLow);
        }
      }
      if msg.free {
        return None;
      }
      error := BuyGas();
    }

    method UseGas(amount: nat) returns (ok: bool)
      modifies this`gas
      ensures ok <==> old(gas) >= amount
      ensures gas == if ok then old(gas) - amount else old(gas)
    {
      if gas < amount {
        return false;
      }
      gas := gas - amount;
      return true;
    }

    /** Gives back what is left, and half of what was used at most for refunds, to the sender and to the block. */
    method RefundGas(refundCounter: nat) returns (ok: bool)
      requires gas <= initialGas
      modifies this`gas, gp, evm.state`balances
      ensures var refund := if (initialGas - old(gas)) / 2 > refundCounter then refundCounter else (initialGas - old(gas)) / 2;
        && gas == old(gas) + refund && gas <= initialGas && 2 * (initialGas - gas) >= initialGas - old(gas)
        && evm.state.balances == Plus(old(evm.state.balances), task.msg.from, task.Fee(gas))
        && (ok <==> old(gp.gas) + gas <= MAX_UINT64) && (ok ==> gp.gas == old(gp.gas) + gas)
    {
      var refund: nat := (initialGas - gas) / 2;
      if refund > refundCounter {
        refund := refundCounter;
      }
      gas := gas + refund;
      evm.state.AddBalance(task.msg.from, gas * task.msg.gasPrice);
      ok := gp.AddGas(gas);
    }

    /** Runs the message as a creation or as a call, once its gas is bought and its intrinsic gas is paid. */
    method Perform(ghost acc: Accounts) returns (vmError: Option<VmError>)
      requires task.created != task.msg.from && task.CoversIntrinsic() && gas == task.Bought() - task.Intrinsic()
      requires evm.state.balances == task.Charged(acc.balances) && evm.state.nonces == acc.nonces
      modifies this`gas, evm.state`balances, evm.state`nonces
      ensures gas <= old(gas) && (vmError == Some(InsufficientBalance) <==> !task.Funded(acc, evm.home))
      ensures task.Funded(acc, evm.home) ==>
        && vmError == task.VmErrorIn(acc) && gas == task.Left(acc)
        && evm.state.balances == task.Called(acc, evm.home) && evm.state.nonces == task.NoncesAfter(acc)
        && (vmError.Some? <==> task.Fails(acc))
    {
      hide Executed, Get, Plus, CanTransfer, Task.Charged, Task.Called, Task.NoncesAfter, Task.Left, Task.Fee;
      var left;
      if task.msg.to.None? {
        left, vmError := evm.Create(task.msg.from, task.created, task.code, gas, task.msg.value, task.run);
      } else {
        evm.state.nonces := evm.state.nonces[task.msg.from := evm.state.NonceOf(task.msg.from) + 1];
        left, vmError := evm.Call(task.msg.from, task.msg.to.value, gas, task.msg.value, task.run);
      }
      gas := left;
      if vmError != Some(InsufficientBalance) {
        Ended(task, acc, evm.home, vmError, gas, evm.state.balances, evm.state.nonces);
      }
    }

    /**
      Executes the message. It is applied exactly if it is applicable, and otherwise the error is that of the first
      demand it does not meet. If it is applied, the block's gas falls by exactly the gas used and the accounts become
      those of `Applied`. The block's gas never overflows.
     */
    method TransitionDb() returns (r: Outcome)
      requires gas == initialGas == 0 && task.created != task.msg.from
      modifies this, gp, evm.state`balances, evm.state`nonces
      ensures !r.Panicked?
      ensures r.Applied? <==> task.Applicable(old(evm.state.Current()), evm.home, old(gp.gas))
      ensures r.Invalid? ==>
        task.Reported(r.error, old(evm.state.Current()), evm.home, old(gp.gas)) && gp.gas <= old(gp.gas)
      ensures r.Applied? ==>
        && r == Applied(task.Used(old(evm.state.Current())), task.Fails(old(evm.state.Current())))
        && gp.gas == old(gp.gas) - r.usedGas
        && evm.state.Current() == task.Applied(old(evm.state.Current()), evm.home, evm.coinbase)
      ensures r.Applied? && Simple(task) ==> forall a ::
        Get(evm.state.balances, a) == Get(old(evm.state.balances), a)
                                      + Share(task, old(evm.state.Current()), evm.home, evm.coinbase, a)
    {
      hide Get, Plus, Share, Simple, Task.Used, Task.Applied, Task.Charged, Task.Called, Task.NoncesAfter, Task.Left, Task.Fee,
        Task.Funded, Task.VmErrorIn;
      ghost var acc := evm.state.Current();
      var msg := task.msg;
      var pre := PreCheck();
      if pre.Some? {
        return Invalid(pre.value);
      }
      var contractCreation := msg.to.None?;
      var intrinsic: nat := 0;
      if !msg.free {
        var charge := Gas.IntrinsicGas(msg.data, contractCreation);
        if charge.None? {
          return Invalid(OutOfGas);
        }
        intrinsic := charge.value;
      }
      var paid := UseGas(intrinsic);
      if !paid {
        return Invalid(OutOfGas);
      }
      var vmError := Perform(acc);
      if vmError == Some(InsufficientBalance) {
        return Invalid(NoFundsToTransfer);
      }
      var ok := RefundGas(task.run.refund);
      if !ok {
        return Panicked;
      }
      Settled(task, acc, evm.home, evm.coinbase, gas);
      evm.state.AddBalance(evm.coinbase, task.Fee(initialGas - gas));
      Shares(task, acc, evm.home, evm.coinbase);
      return Applied(initialGas - gas, vmError.Some?);
    }
  }

  /** The virtual machine's outcome, for a call as for a creation. */
  lemma Ended(task: Task, acc: Accounts, home: Address -> bool, error: Option<VmError>, left: nat, balances: Balances,
              nonces: map<Address, nat>)
    requires task.CoversIntrinsic() && error == task.VmErrorIn(acc)
    requires balances == if error.Some? then task.Charged(acc.balances)
                         else Executed(task.Charged(acc.balances), home, task.msg.from, task.Target(), task.msg.value, task.run)
    requires left == if error.Some? && (task.Collides(acc) || error != Some(Reverted)) then 0
                     else if task.run.spent <= task.Bought() - task.Intrinsic() then task.Bought() - task.Intrinsic() - task.run.spent
                     else 0
    requires var used := acc.nonces[task.msg.from := acc.NonceOf(task.msg.from) + 1];
      nonces == if task.msg.to.None? && error.None? then used[task.created := 1] else used
    ensures left == task.Left(acc) && balances == task.Called(acc, home) && nonces == task.NoncesAfter(acc)
    ensures task.Fails(acc) == error.Some?
  {
    hide Executed, Task.Charged;
  }

  lemma Settled(task: Task, acc: Accounts, home: Address -> bool, coinbase: Address, gas: nat)
    requires task.CoversIntrinsic() && task.Left(acc) <= gas <= task.Bought()
    requires var spent := task.Bought() - task.Left(acc);
      gas == task.Left(acc) + if spent / 2 > task.run.refund then task.run.refund else spent / 2
    ensures task.Used(acc) == task.Bought() - gas
    ensures task.Applied(acc, home, coinbase).balances ==
      Plus(Plus(task.Called(acc, home), task.msg.from, task.Fee(gas)), coinbase, task.Fee(task.Bought() - gas))
    ensures task.Applied(acc, home, coinbase).nonces == task.NoncesAfter(acc)
  {
    hide Plus, Task.Called, Task.Left, Task.NoncesAfter, Task.Fee;
  }

  /** The gas used is at most what was bought, and at least half the intrinsic charge. */
  lemma UsedBounds(task: Task, acc: Accounts)
    requires task.CoversIntrinsic()
    ensures task.Used(acc) <= task.Bought() && 2 * task.Used(acc) >= task.Intrinsic()
  {
    ChargeNotNegative(task.msg.data, task.msg.to.None?);
  }

  /**
    Whoever sender, recipient and coinbase are, even if they coincide: applying a message changes the total by exactly
    what its transfers and acts bring in, which is nothing if the call failed.
   */
  lemma AppliedTotal(task: Task, acc: Accounts, home: Address -> bool, coinbase: Address)
    requires task.CoversIntrinsic()
    ensures Sum(task.Applied(acc, home, coinbase).balances) == Sum(acc.balances) + task.InflowInto(acc, home)
  {
    hide Executed, ExecutedInflow, Plus, Sum;
    var msg := task.msg;
    var used := task.Used(acc);
    UsedBounds(task, acc);
    FeeParts(task.Bought(), used, msg.gasPrice);
    SumPlus(acc.balances, msg.from, -task.Prepaid());
    var charged := task.Charged(acc.balances);
    ExecutedTotal(charged, home, msg.from, task.Target(), msg.value, task.run);
    var called := task.Called(acc, home);
    SumPlus(called, msg.from, task.Fee(task.Bought() - used));
    SumPlus(Plus(called, msg.from, task.Fee(task.Bought() - used)), coinbase, task.Fee(used));
  }

  /**
    A plain transfer within the shard keeps the total; an output to another shard lowers it by exactly its value,
    an input would raise it.
   */
  lemma PlainTransferInflow(m: Balances, home: Address -> bool, from: Address, target: Address, value: int,
                            run: Execution)
    requires run.acts == [] && forall t | t in run.moves :: home(t.sender) && home(t.recipient)
    ensures home(from) && home(target) ==> ExecutedInflow(m, home, from, target, value, run) == 0
    ensures home(from) && !home(target) ==> ExecutedInflow(m, home, from, target, value, run) == -value
    ensures !home(from) && home(target) ==> ExecutedInflow(m, home, from, target, value, run) == value
    ensures !home(from) && !home(target) ==> ExecutedInflow(m, home, from, target, value, run) == 0
  {
    HomeMovesNothing(Adjusted(Transferred(m, home, from, target, value), run.acts), home, run.moves);
  }

  /** Whether the message moves nothing but by transfers of non-negative amounts. */
  ghost predicate TransfersOnly(task: Task) {
    task.msg.value >= 0 && task.run.acts == [] && forall t | t in task.run.moves :: t.amount >= 0
  }

  /** Without storage acts nobody is overdrawn by an applied message. */
  lemma AppliedSolvent(task: Task, acc: Accounts, home: Address -> bool, coinbase: Address, blockGas: nat)
    requires Solvent(acc.balances) && TransfersOnly(task) && task.Applicable(acc, home, blockGas)
    ensures Solvent(task.Applied(acc, home, coinbase).balances)
  {
    hide Executed, Plus, Solvent, Get;
    var msg := task.msg;
    var used := task.Used(acc);
    UsedBounds(task, acc);
    FeeParts(task.Bought(), used, msg.gasPrice);
    if !msg.free {
      CreditSolvent(acc.balances, msg.from, -task.Prepaid());
    }
    var charged := task.Charged(acc.balances);
    ExecutedTotal(charged, home, msg.from, task.Target(), msg.value, task.run);
    var called := task.Called(acc, home);
    var refunded := Plus(called, msg.from, task.Fee(task.Bought() - used));
    SolventGet(called, msg.from);
    CreditSolvent(called, msg.from, task.Fee(task.Bought() - used));
    SolventGet(refunded, coinbase);
    CreditSolvent(refunded, coinbase, task.Fee(used));
  }

  // ---------------------------------------------------------------------------------------------
  // What an applied message does to each account

  /** The message runs no code that moves value: neither transfers nor storage acts. */
  predicate Simple(task: Task) {
    task.run.acts == [] && task.run.moves == []
  }

  /** What an applied simple message changes an account's balance by. */
  function Share(task: Task, acc: Accounts, home: Address -> bool, coinbase: Address, a: Address): int
    requires task.CoversIntrinsic()
  {
    var msg := task.msg;
    var moved := if task.Fails(acc) || !home(a) then 0 else msg.value;
    var recipient := if msg.to.Some? then msg.to.value else task.created;
    (if a == recipient then moved else 0) - (if a == msg.from then moved + task.Used(acc) * msg.gasPrice else 0)
    + (if a == coinbase then task.Used(acc) * msg.gasPrice else 0)
  }

  lemma ExecutedSimple(m: Balances, home: Address -> bool, from: Address, to: Address, value: int, run: Execution)
    requires run.acts == [] && run.moves == []
    ensures Executed(m, home, from, to, value, run) == Transferred(m, home, from, to, value)
  {
  }

  lemma PlusGet(m: Balances, a: Address, x: int, b: Address)
    ensures Get(Plus(m, a, x), b) == Get(m, b) + if b == a then x else 0
  {
  }

  /**
    The recipient gets exactly the value, if it is in this shard and the call did not fail; the sender pays it, if it is
    in this shard, and the gas used; the block's author gets paid the gas; nobody else notices.
   */
  lemma AppliedShares(task: Task, acc: Accounts, home: Address -> bool, coinbase: Address, a: Address)
    requires task.CoversIntrinsic() && Simple(task)
    ensures Get(task.Applied(acc, home, coinbase).balances, a) == Get(acc.balances, a) + Share(task, acc, home, coinbase, a)
  {
    hide Plus, Get, Transferred, Executed, Task.Used, Task.Fails;
    var msg, used := task.msg, task.Used(acc);
    UsedBounds(task, acc);
    FeeParts(task.Bought(), used, msg.gasPrice);
    var charged := task.Charged(acc.balances);
    PlusGet(acc.balances, msg.from, -task.Prepaid(), a);
    ExecutedSimple(charged, home, msg.from, task.Target(), msg.value, task.run);
    TransferMoves(charged, home, msg.from, task.Target(), msg.value, a);
    var called := task.Called(acc, home);
    PlusGet(called, msg.from, task.Fee(task.Bought() - used), a);
    PlusGet(Plus(called, msg.from, task.Fee(task.Bought() - used)), coinbase, task.Fee(used), a);
  }

  /**
    The gas used: the intrinsic charge and what execution spends, if that is within the gas bought and nothing is
    refunded; all of it if execution fails otherwise than by reverting. A refund lowers it by half at most.
   */
  lemma UsedIs(task: Task, acc: Accounts)
    requires task.CoversIntrinsic()
    ensures task.run.refund == 0 && !task.Collides(acc) && task.VmErrorIn(acc) in {None, Some(Reverted)}
            && task.run.spent <= task.Bought() - task.Intrinsic() ==>
      task.Used(acc) == task.Intrinsic() + task.run.spent
    ensures task.run.refund == 0 && task.VmErrorIn(acc) == Some(OtherFailure) ==> task.Used(acc) == task.Bought()
    ensures var unrefunded := task.(run := task.run.(refund := 0));
      && unrefunded.CoversIntrinsic()
      && var full := unrefunded.Used(acc);
      task.Used(acc) == full - if 2 * task.run.refund <= full then task.run.refund else full / 2
    ensures !task.msg.free ==>
      task.Intrinsic() == (if task.msg.to.None? then 53000 else 21000) + 68 * |task.msg.data| - 64 * multiset(task.msg.data)[0]
    ensures task.msg.free ==> task.Used(acc) == 0
  {
    ChargeNotNegative(task.msg.data, task.msg.to.None?);
    Gas.ChargeIs(task.msg.data, task.msg.to.None?);
  }

  lemma Shares(task: Task, acc: Accounts, home: Address -> bool, coinbase: Address)
    requires task.CoversIntrinsic()
    ensures Simple(task) ==> forall a ::
      Get(task.Applied(acc, home, coinbase).balances, a) == Get(acc.balances, a) + Share(task, acc, home, coinbase, a)
  {
    if Simple(task) {
      forall a
        ensures Get(task.Applied(acc, home, coinbase).balances, a)
             == Get(acc.balances, a) + Share(task, acc, home, coinbase, a)
      {
        AppliedShares(task, acc, home, coinbase, a);
      }
    }
  }

  /** Execution fails if the virtual machine says so, or if a contract would be created where code or a nonce already is. */
  lemma FailsIff(task: Task, acc: Accounts)
    ensures task.Fails(acc) <==>
      task.run.error.Some? || (task.msg.to.None? && (task.code || (task.created in acc.nonces && acc.nonces[task.created] != 0)))
  {
  }

  /** A failed execution leaves no trace but the nonce and what is paid for gas, whatever its code did. */
  lemma FailureRestores(task: Task, acc: Accounts, home: Address -> bool, coinbase: Address, a: Address)
    requires task.CoversIntrinsic()
    requires task.run.error.Some? || (task.msg.to.None? && (task.code || acc.NonceOf(task.created) != 0))
    ensures var fee := task.Used(acc) * task.msg.gasPrice;
      Get(task.Applied(acc, home, coinbase).balances, a) ==
        Get(acc.balances, a) - (if a == task.msg.from then fee else 0) + (if a == coinbase then fee else 0)
    ensures a != task.msg.from ==> task.Applied(acc, home, coinbase).NonceOf(a) == acc.NonceOf(a)
  {
    hide Get, Plus, Task.Used;
    var used := task.Used(acc);
    UsedBounds(task, acc);
    FeeParts(task.Bought(), used, task.msg.gasPrice);
    var charged := task.Charged(acc.balances);
    PlusGet(acc.balances, task.msg.from, -task.Prepaid(), a);
    PlusGet(charged, task.msg.from, task.Fee(task.Bought() - used), a);
    PlusGet(Plus(charged, task.msg.from, task.Fee(task.Bought() - used)), coinbase, task.Fee(used), a);
  }

  /**
    When a message is applied: its nonce is the next one, the sender can pay for the gas and then, if it is in this shard,
    for the value, the block has the gas, and the gas covers the intrinsic charge. A free act needs no gas.
   */
  lemma ApplicableMeans(task: Task, acc: Accounts, home: Address -> bool, blockGas: nat)
    requires task.VmErrorIn(acc) != Some(InsufficientBalance)
    ensures var msg, balance := task.msg, Get(acc.balances, task.msg.from);
      task.Applicable(acc, home, blockGas) <==>
        && (msg.checkNonce ==> msg.nonce == if msg.from in acc.nonces then acc.nonces[msg.from] else 0)
        && (home(msg.from) ==> balance >= msg.value + if msg.free then 0 else msg.gas * msg.gasPrice)
        && (!msg.free ==>
              && balance >= msg.gas * msg.gasPrice && msg.gas <= blockGas
              && (if msg.to.None? then 53000 else 21000) + 68 * |msg.data| - 64 * multiset(msg.data)[0] <= msg.gas)
  {
    Gas.ChargeIs(task.msg.data, task.msg.to.None?);
  }

  /**
    A successful transfer between accounts that are not the block's author: the recipient rises by exactly the value, if
    it is in this shard, the sender falls by it, if it is in this shard, and by the gas used, which the author gets.
   */
  lemma TransferIs(task: Task, acc: Accounts, home: Address -> bool, coinbase: Address)
    requires task.CoversIntrinsic() && Simple(task) && task.run.error.None? && task.msg.to.Some?
    requires task.msg.from != task.msg.to.value && coinbase != task.msg.from && coinbase != task.msg.to.value
    ensures var m, after, from, to := acc.balances, task.Applied(acc, home, coinbase).balances, task.msg.from, task.msg.to.value;
      var fee := task.Used(acc) * task.msg.gasPrice;
      && Get(after, to) == Get(m, to) + (if home(to) then task.msg.value else 0)
      && Get(after, from) == Get(m, from) - (if home(from) then task.msg.value else 0) - fee
      && Get(after, coinbase) == Get(m, coinbase) + fee
      && forall a | a !in {from, to, coinbase} :: Get(after, a) == Get(m, a)
  {
    hide Get, Task.Applied, Task.Used;
    Shares(task, acc, home, coinbase);
  }

  /** Each transfer shows in the balance of its accounts. */
  lemma MoveShows(m: Balances, home: Address -> bool, moves: seq<Move>, t: Move, a: Address)
    ensures var before, after := MovesMade(m, home, moves), MovesMade(m, home, moves + [t]);
      Get(after, a) == Get(before, a) +
        if home(t.sender) && Get(before, t.sender) < t.amount then 0
        else (if a == t.recipient && home(a) then t.amount else 0) - (if a == t.sender && home(a) then t.amount else 0)
  {
    assert (moves + [t])[..|moves|] == moves;
    TransferMoves(MovesMade(m, home, moves), home, t.sender, t.recipient, t.amount, a);
  }

  /** Exactly one nonce of the sender is used up, a new contract starts with nonce 1, and no other nonce changes. */
  lemma NoncesAre(task: Task, acc: Accounts, home: Address -> bool, coinbase: Address, a: Address)
    requires task.CoversIntrinsic() && task.created != task.msg.from
    ensures task.Applied(acc, home, coinbase).NonceOf(a) ==
      if a == task.msg.from then acc.NonceOf(a) + 1
      else if a == task.created && task.msg.to.None? && !task.Fails(acc) then 1 else acc.NonceOf(a)
  {
  }

  /** Nonces never fall, and the sender's grows: a transaction that was applied is refused ever after. */
  lemma NoncesGrow(task: Task, acc: Accounts, home: Address -> bool, coinbase: Address, a: Address)
    requires task.CoversIntrinsic() && task.created != task.msg.from
    ensures task.Applied(acc, home, coinbase).NonceOf(a) >= acc.NonceOf(a) + if a == task.msg.from then 1 else 0
  {
  }

  /**
    Applies a message to the state. If it is applied, the total changes by exactly what its transfers and acts bring
    in, the block's gas falls by exactly the gas used, and without storage acts nobody is overdrawn.
   */
  method ApplyMessage(evm: Evm, task: Task, gp: GasPool) returns (r: Outcome)
    requires task.created != task.msg.from
    modifies gp, evm.state`balances, evm.state`nonces
    ensures !r.Panicked?
    ensures r.Applied? <==> task.Applicable(old(evm.state.Current()), evm.home, old(gp.gas))
    ensures r.Invalid? ==>
      task.Reported(r.error, old(evm.state.Current()), evm.home, old(gp.gas)) && gp.gas <= old(gp.gas)
    ensures r.Applied? ==>
      && r == Applied(task.Used(old(evm.state.Current())), task.Fails(old(evm.state.Current())))
      && r.usedGas <= task.Bought() && 2 * r.usedGas >= task.Intrinsic() && gp.gas == old(gp.gas) - r.usedGas
      && evm.state.Current() == task.Applied(old(evm.state.Current()), evm.home, evm.coinbase)
    ensures r.Applied? ==>
      Sum(evm.state.balances) == Sum(old(evm.state.balances)) + task.InflowInto(old(evm.state.Current()), evm.home)
    ensures r.Applied? && Solvent(old(evm.state.balances)) && TransfersOnly(task) ==> Solvent(evm.state.balances)
    ensures r.Applied? && Simple(task) ==> forall a ::
      Get(evm.state.balances, a) == Get(old(evm.state.balances), a)
                                    + Share(task, old(evm.state.Current()), evm.home, evm.coinbase, a)
  {
    hide Executed, ExecutedInflow, Sum, Solvent, Plus, Get, Share, Simple, Task.Applied, Task.Used, Task.Fails, Task.InflowInto;
    ghost var acc, blockGas := evm.state.Current(), gp.gas;
    var st := new StateTransition(gp, task, evm);
    r := st.TransitionDb();
    if r.Applied? {
      UsedBounds(task, acc);
      AppliedTotal(task, acc, evm.home, evm.coinbase);
      if Solvent(acc.balances) && TransfersOnly(task) {
        AppliedSolvent(task, acc, evm.home, evm.coinbase, blockGas);
      }
    }
  }
}
