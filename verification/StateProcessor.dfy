/** Processing a block: its transactions, the rewards, the inputs from other shards, and the receipts. */
module StateProcessors {
  import opened Types
  import opened Ledger
  import opened Batches
  import opened StateTransitions

  datatype Receipt = Receipt(
    failed: bool, cumulativeGasUsed: Uint64, gasUsed: Uint64, txHash: Option<nat>, contractAddress: Option<Address>)

  /** A transaction as executed: what the virtual machine makes of it, where its contract would be, and whether code is
      there already. */
  datatype Job = Job(tx: Tx, created: Address, code: bool, run: Execution)

  /** Each receipt's cumulative gas is the previous one's plus its own gas. */
  ghost predicate Cumulates(receipts: seq<Receipt>) {
    forall i | 0 <= i < |receipts| :: CumulatesAt(receipts, i)
  }

  predicate CumulatesAt(receipts: seq<Receipt>, i: nat)
    requires i < |receipts|
  {
    receipts[i].cumulativeGasUsed == receipts[i].gasUsed + if i == 0 then 0 else receipts[i - 1].cumulativeGasUsed
  }

  lemma CumulatesNext(receipts: seq<Receipt>, r: Receipt)
    requires Cumulates(receipts) && r.cumulativeGasUsed == LastCumulative(receipts) + r.gasUsed
    ensures Cumulates(receipts + [r]) && LastCumulative(receipts + [r]) == r.cumulativeGasUsed
  {
    var more := receipts + [r];
    forall i | 0 <= i < |more|
      ensures CumulatesAt(more, i)
    {
      if i < |receipts| {
        assert more[i] == receipts[i] && CumulatesAt(receipts, i);
        assert i > 0 ==> more[i - 1] == receipts[i - 1];
      }
    }
  }

  function LastCumulative(receipts: seq<Receipt>): nat {
    if receipts == [] then 0 else receipts[|receipts| - 1].cumulativeGasUsed
  }

  function TaskOf(job: Job, lamp: nat): Task
    requires job.tx.sigOk
  {
    Task(AsMessage(job.tx, lamp).value, job.created, job.code, job.run)
  }

  /** The accounts and the receipts once some transactions of a block are applied. */
  datatype Progress = Progress(accounts: Accounts, receipts: seq<Receipt>)

  predicate Joins(p: Progress, job: Job, at: Setting, gasLimit: Uint64) {
    && job.tx.sigOk && LastCumulative(p.receipts) <= gasLimit
    && TaskOf(job, at.lamp).Applicable(p.accounts, at.home, gasLimit - LastCumulative(p.receipts))
  }

  function ReceiptOf(p: Progress, job: Job, at: Setting, gasLimit: Uint64): Receipt
    requires Joins(p, job, at, gasLimit)
  {
    var task := TaskOf(job, at.lamp);
    UsedBounds(task, p.accounts);
    Receipt(task.Fails(p.accounts), LastCumulative(p.receipts) + task.Used(p.accounts), task.Used(p.accounts), None,
            if job.tx.to.None? then Some(job.created) else None)
  }

  function Joined(p: Progress, job: Job, at: Setting, gasLimit: Uint64): Progress
    requires Joins(p, job, at, gasLimit)
  {
    Progress(TaskOf(job, at.lamp).Applied(p.accounts, at.home, at.coinbase), p.receipts + [ReceiptOf(p, job, at, gasLimit)])
  }

  /** All transactions in order, each with a recoverable sender and applicable when its turn comes. */
  function RunJobs(acc: Accounts, jobs: seq<Job>, at: Setting, gasLimit: Uint64): Option<Progress> {
    if jobs == [] then Some(Progress(acc, []))
    else
      var before := RunJobs(acc, jobs[..|jobs| - 1], at, gasLimit);
      if before.Some? && Joins(before.value, jobs[|jobs| - 1], at, gasLimit)
      then Some(Joined(before.value, jobs[|jobs| - 1], at, gasLimit)) else None
  }

  /** What executing the transactions brings into the shard. */
  function Inflows(acc: Accounts, jobs: seq<Job>, at: Setting, gasLimit: Uint64): int
    requires RunJobs(acc, jobs, at, gasLimit).Some?
  {
    if jobs == [] then 0
    else
      var init, last := jobs[..|jobs| - 1], jobs[|jobs| - 1];
      Inflows(acc, init, at, gasLimit)
      + TaskOf(last, at.lamp).InflowInto(RunJobs(acc, init, at, gasLimit).value.accounts, at.home)
  }

  /** The total changes by the inflows, whatever is paid for gas; the gas used stays within the block's limit. */
  lemma {:induction false} RunTotals(acc: Accounts, jobs: seq<Job>, at: Setting, gasLimit: Uint64)
    requires RunJobs(acc, jobs, at, gasLimit).Some?
    ensures var p := RunJobs(acc, jobs, at, gasLimit).value;
      && |p.receipts| == |jobs| && Cumulates(p.receipts) && LastCumulative(p.receipts) <= gasLimit
      && Sum(p.accounts.balances) == Sum(acc.balances) + Inflows(acc, jobs, at, gasLimit)
    decreases |jobs|
  {
    hide Sum, Task.Applied, Task.Used, Task.Fails, Task.InflowInto;
    if jobs != [] {
      var init, last := jobs[..|jobs| - 1], jobs[|jobs| - 1];
      RunTotals(acc, init, at, gasLimit);
      var before := RunJobs(acc, init, at, gasLimit).value;
      var task := TaskOf(last, at.lamp);
      AppliedTotal(task, before.accounts, at.home, at.coinbase);
      UsedBounds(task, before.accounts);
      CumulatesNext(before.receipts, ReceiptOf(before, last, at, gasLimit));
    }
  }

  lemma {:induction false} RunPrefix(acc: Accounts, jobs: seq<Job>, at: Setting, gasLimit: Uint64, i: nat)
    requires RunJobs(acc, jobs, at, gasLimit).Some? && i <= |jobs|
    ensures RunJobs(acc, jobs[..i], at, gasLimit).Some?
    decreases |jobs|
  {
    hide Joins, Joined;
    if i < |jobs| {
      RunPrefix(acc, jobs[..|jobs| - 1], at, gasLimit, i);
      assert jobs[..|jobs| - 1][..i] == jobs[..i];
    } else {
      assert jobs[..i] == jobs;
    }
  }

  /** Nonces only grow, and the sender of any of the transactions has used up its nonce. */
  lemma {:induction false} RunNonces(acc: Accounts, jobs: seq<Job>, at: Setting, gasLimit: Uint64, a: Address)
    requires RunJobs(acc, jobs, at, gasLimit).Some? && forall job | job in jobs :: job.created != job.tx.from
    ensures var after := RunJobs(acc, jobs, at, gasLimit).value.accounts;
      && after.NonceOf(a) >= acc.NonceOf(a)
      && forall job | job in jobs && job.tx.from == a :: acc.NonceOf(a) <= job.tx.nonce < after.NonceOf(a)
    decreases |jobs|
  {
    hide Task.Applied, Task.Used, Task.Fails, Task.Affordable, Task.Funded;
    if jobs != [] {
      var init, last := jobs[..|jobs| - 1], jobs[|jobs| - 1];
      assert jobs == init + [last];
      RunNonces(acc, init, at, gasLimit, a);
      NoncesGrow(TaskOf(last, at.lamp), RunJobs(acc, init, at, gasLimit).value.accounts, at.home, at.coinbase, a);
    }
  }

  /** A sender's transactions execute in the order of their nonces, so none executes twice. */
  lemma NoReplay(acc: Accounts, jobs: seq<Job>, at: Setting, gasLimit: Uint64, i: nat, j: nat)
    requires RunJobs(acc, jobs, at, gasLimit).Some? && forall job | job in jobs :: job.created != job.tx.from
    requires i < j < |jobs| && jobs[i].tx.from == jobs[j].tx.from
    ensures jobs[i].tx.nonce < jobs[j].tx.nonce
  {
    hide Task.Applied, Task.Used, Task.Fails, Task.Affordable, Task.Funded;
    RunPrefix(acc, jobs, at, gasLimit, j + 1);
    RunPrefix(acc, jobs, at, gasLimit, j);
    assert jobs[..j + 1][..j] == jobs[..j];
    RunNonces(acc, jobs[..j], at, gasLimit, jobs[j].tx.from);
    assert jobs[..j][i] == jobs[i];
  }

  /** A transfer from the own shard whose execution moves nothing across shards and makes no storage act. */
  ghost predicate Plain(job: Job, home: Address -> bool) {
    && job.run.acts == [] && home(job.tx.from)
    && forall t | t in job.run.moves :: home(t.sender) && home(t.recipient)
  }

  function TargetOf(job: Job): Address {
    if job.tx.to.Some? then job.tx.to.value else job.created
  }

  /** What successful outputs carry out of the shard. */
  function OutputValue(jobs: seq<Job>, receipts: seq<Receipt>, home: Address -> bool): int
    requires |receipts| == |jobs|
  {
    if jobs == [] then 0
    else
      var n := |jobs| - 1;
      OutputValue(jobs[..n], receipts[..n], home)
      + if !receipts[n].failed && !home(TargetOf(jobs[n])) then jobs[n].tx.value else 0
  }

  /** Plain transactions bring in nothing; they take out what successful outputs carry. */
  lemma {:induction false} PlainInflows(acc: Accounts, jobs: seq<Job>, at: Setting, gasLimit: Uint64)
    requires RunJobs(acc, jobs, at, gasLimit).Some? && forall job | job in jobs :: Plain(job, at.home)
    ensures var p := RunJobs(acc, jobs, at, gasLimit).value;
      |p.receipts| == |jobs| && Inflows(acc, jobs, at, gasLimit) == -OutputValue(jobs, p.receipts, at.home)
    decreases |jobs|
  {
    hide ExecutedInflow, Task.Applied, Task.Used, Task.Fails, Task.Applicable;
    if jobs != [] {
      var init, last := jobs[..|jobs| - 1], jobs[|jobs| - 1];
      assert jobs == init + [last] && Plain(last, at.home);
      PlainInflows(acc, init, at, gasLimit);
      var before := RunJobs(acc, init, at, gasLimit).value;
      var p := RunJobs(acc, jobs, at, gasLimit).value;
      assert p.receipts[..|jobs| - 1] == before.receipts;
      var task := TaskOf(last, at.lamp);
      PlainTransferInflow(task.Charged(before.accounts.balances), at.home, last.tx.from, TargetOf(last), last.tx.value,
                          last.run);
    }
  }

  // ---------------------------------------------------------------------------------------------
  // What a block does to each account

  /** What a transaction that runs no code changes an account's balance by, told from its receipt. */
  function EarnedBy(job: Job, r: Receipt, at: Setting, a: Address): int {
    var moved := if r.failed || !at.home(a) then 0 else job.tx.value;
    var recipient := if job.tx.to.Some? then job.tx.to.value else job.created;
    (if a == recipient then moved else 0) - (if a == job.tx.from then moved + r.gasUsed * job.tx.gasPrice else 0)
    + (if a == at.coinbase then r.gasUsed * job.tx.gasPrice else 0)
  }

  function Earned(jobs: seq<Job>, receipts: seq<Receipt>, at: Setting, a: Address): int
    requires |receipts| == |jobs|
  {
    if jobs == [] then 0
    else
      var n := |jobs| - 1;
      Earned(jobs[..n], receipts[..n], at, a) + EarnedBy(jobs[n], receipts[n], at, a)
  }

  predicate Codeless(job: Job) {
    job.run.acts == [] && job.run.moves == []
  }

  /** Account by account, the receipts tell what the transactions have moved and what was paid for gas. */
  lemma {:induction false} RunShows(acc: Accounts, jobs: seq<Job>, at: Setting, gasLimit: Uint64, a: Address)
    requires RunJobs(acc, jobs, at, gasLimit).Some? && forall job | job in jobs :: Codeless(job)
    ensures var p := RunJobs(acc, jobs, at, gasLimit).value;
      |p.receipts| == |jobs| && Get(p.accounts.balances, a) == Get(acc.balances, a) + Earned(jobs, p.receipts, at, a)
    decreases |jobs|
  {
    hide Get, Task.Applied, Task.Used, Task.Fails, Task.Applicable;
    if jobs != [] {
      var init, last := jobs[..|jobs| - 1], jobs[|jobs| - 1];
      assert jobs == init + [last] && Codeless(last);
      RunShows(acc, init, at, gasLimit, a);
      var before := RunJobs(acc, init, at, gasLimit).value;
      var p := RunJobs(acc, jobs, at, gasLimit).value;
      assert p.receipts[..|jobs| - 1] == before.receipts;
      JoinedShows(before, last, at, gasLimit, a);
    }
  }

  lemma JoinedShows(p: Progress, job: Job, at: Setting, gasLimit: Uint64, a: Address)
    requires Joins(p, job, at, gasLimit) && Codeless(job)
    ensures Get(Joined(p, job, at, gasLimit).accounts.balances, a) ==
      Get(p.accounts.balances, a) + EarnedBy(job, ReceiptOf(p, job, at, gasLimit), at, a)
  {
    hide Get, Task.Applied, Task.Used, Task.Fails;
    AppliedShares(TaskOf(job, at.lamp), p.accounts, at.home, at.coinbase, a);
  }

  /** What acts that change balances by themselves add to one account. */
  function AdjustedOf(acts: seq<Adjustment>, a: Address): int {
    if acts == [] then 0
    else
      var last := acts[|acts| - 1];
      AdjustedOf(acts[..|acts| - 1], a) + if last.account == a then last.amount else 0
  }

  lemma {:induction false} AdjustedShows(m: Balances, acts: seq<Adjustment>, a: Address)
    ensures Get(Adjusted(m, acts), a) == Get(m, a) + AdjustedOf(acts, a)
    decreases |acts|
  {
    if acts != [] {
      AdjustedShows(m, acts[..|acts| - 1], a);
    }
  }

  /** A contract starts with nonce 1, and no other nonce falls. */
  lemma JoinedNonces(p: Progress, job: Job, at: Setting, gasLimit: Uint64, a: Address)
    requires Joins(p, job, at, gasLimit) && job.created != job.tx.from
    ensures var after := Joined(p, job, at, gasLimit);
      && after.accounts.NonceOf(a) >= p.accounts.NonceOf(a)
      && |after.receipts| == |p.receipts| + 1 && after.receipts[..|p.receipts|] == p.receipts
      && var r := after.receipts[|p.receipts|];
      && r.contractAddress == (if job.tx.to.None? then Some(job.created) else None)
      && (job.tx.to.None? && !r.failed ==> after.accounts.NonceOf(job.created) == 1)
  {
    hide Get, Task.Used, Task.Called, Task.Affordable, Task.Funded, Task.Fails;
    NoncesGrow(TaskOf(job, at.lamp), p.accounts, at.home, at.coinbase, a);
  }

  /**
    A receipt names a contract exactly if its transaction creates one, and a contract whose creation has not failed is
    there from then on.
   */
  lemma {:induction false} ContractsCreated(acc: Accounts, jobs: seq<Job>, at: Setting, gasLimit: Uint64, i: nat)
    requires RunJobs(acc, jobs, at, gasLimit).Some? && forall job | job in jobs :: job.created != job.tx.from
    requires i < |jobs|
    ensures var p := RunJobs(acc, jobs, at, gasLimit).value;
      && |p.receipts| == |jobs|
      && p.receipts[i].contractAddress == (if jobs[i].tx.to.None? then Some(jobs[i].created) else None)
      && (p.receipts[i].contractAddress.Some? && !p.receipts[i].failed ==>
            p.accounts.NonceOf(p.receipts[i].contractAddress.value) >= 1)
    decreases |jobs|
  {
    hide Joins, Joined, Accounts.NonceOf, Sum, Inflows, Cumulates, LastCumulative;
    var init, last := jobs[..|jobs| - 1], jobs[|jobs| - 1];
    assert jobs == init + [last];
    RunTotals(acc, jobs, at, gasLimit);
    RunTotals(acc, init, at, gasLimit);
    JoinedNonces(RunJobs(acc, init, at, gasLimit).value, last, at, gasLimit, jobs[i].created);
    if i < |init| {
      ContractsCreated(acc, init, at, gasLimit, i);
    }
  }

  /** Applies one transaction, adds its gas to the block's and makes its receipt. */
  method ApplyTransaction(evm: Evm, gp: GasPool, job: Job, usedGas: Uint64, ghost p: Progress, ghost gasLimit: Uint64)
    returns (r: Option<Receipt>)
    requires job.created != job.tx.from && gp.gas + usedGas == gasLimit
    requires p.accounts == evm.state.Current() && LastCumulative(p.receipts) == usedGas
    modifies gp, evm.state`balances, evm.state`nonces
    ensures r.Some? <==> Joins(p, job, evm.At(), gasLimit)
    ensures r.Some? ==>
      && Joined(p, job, evm.At(), gasLimit) == Progress(evm.state.Current(), p.receipts + [r.value])
      && gp.gas + r.value.cumulativeGasUsed == gasLimit
  {
    hide Sum, Solvent, Task.Applied, Task.Used, Task.Fails, Task.InflowInto, Task.Applicable, Task.Reported;
    var msg := AsMessage(job.tx, evm.lamp);
    if msg.None? {
      return None;
    }
    var outcome := ApplyMessage(evm, Task(msg.value, job.created, job.code, job.run), gp);
    if !outcome.Applied? {
      return None;
    }
    return Some(Receipt(outcome.failed, usedGas + outcome.usedGas, outcome.usedGas, None,
                        if job.tx.to.None? then Some(job.created) else None));
  }

  /** Applies all transactions: succeeds exactly if each is applicable in its turn, and then has applied them all. */
  method ApplyTransactions(evm: Evm, jobs: seq<Job>, gasLimit: Uint64) returns (r: Option<seq<Receipt>>)
    requires forall job | job in jobs :: job.created != job.tx.from
    modifies evm.state`balances, evm.state`nonces
    ensures r.Some? <==> RunJobs(old(evm.state.Current()), jobs, evm.At(), gasLimit).Some?
    ensures r.Some? ==>
      RunJobs(old(evm.state.Current()), jobs, evm.At(), gasLimit).value == Progress(evm.state.Current(), r.value)
  {
    hide Joins, Joined;
    var gp := new GasPool(gasLimit);
    var usedGas: Uint64 := 0;
    var receipts: seq<Receipt> := [];
    ghost var acc := evm.state.Current();
    for i := 0 to |jobs|
      invariant usedGas == LastCumulative(receipts) && fresh(gp) && gp.gas + usedGas == gasLimit
      invariant RunJobs(acc, jobs[..i], evm.At(), gasLimit) == Some(Progress(evm.state.Current(), receipts))
    {
      assert jobs[..i + 1][..i] == jobs[..i];
      assert jobs[i] in jobs;
      var receipt := ApplyTransaction(evm, gp, jobs[i], usedGas, Progress(evm.state.Current(), receipts), gasLimit);
      if receipt.None? {
        if RunJobs(acc, jobs, evm.At(), gasLimit).Some? {
          RunPrefix(acc, jobs, evm.At(), gasLimit, i + 1);
        }
        return None;
      }
      usedGas := receipt.value.cumulativeGasUsed;
      receipts := receipts + [receipt.value];
    }
    assert jobs[..|jobs|] == jobs;
    return Some(receipts);
  }

  ghost function CountersOf(state: StateDB): Counters
    reads state
  {
    Counters(state.shardingHeight, state.batchNonce)
  }

  /** Applies one input if it is one of this shard's. */
  method ApplyInputTx(state: StateDB, tx: Tx, lamp: nat, shardOf: Sharding, home: Address) returns (ok: bool)
    modifies state`balances
    ensures ok <==> KindOf(tx, shardOf, lamp, shardOf(home, lamp)) == Input
    ensures state.balances == if ok then Plus(old(state.balances), Recipient(tx), tx.value) else old(state.balances)
  {
    if KindOf(tx, shardOf, lamp, shardOf(home, lamp)) != Input {
      return false;
    }
    state.AddBalance(tx.to.value, tx.value);
    return true;
  }

  /** Applies one batch: its height, then its number, then its transactions are checked. */
  method ApplyBatch(state: StateDB, b: Batch, shardOf: Sharding, home: Address) returns (ok: bool)
    modifies state`balances, state`shardingHeight, state`batchNonce
    ensures ok <==> Accepts(old(CountersOf(state)), b, shardOf, home)
    ensures ok ==> CountersOf(state) == CountersAfter(old(CountersOf(state)), b, shardOf)
                   && state.balances == Credited(old(state.balances), b.txs)
  {
    var key := KeyOf(b, shardOf);
    var height := if key in state.shardingHeight then state.shardingHeight[key] else 0;
    if b.height <= height {
      return false;
    }
    state.shardingHeight := state.shardingHeight[key := b.height];
    var nonce := if key in state.batchNonce then state.batchNonce[key] else 0;
    if b.nonce != nonce + 1 {
      return false;
    }
    state.batchNonce := state.batchNonce[key := b.nonce];
    for i := 0 to |b.txs|
      invariant state.balances == Credited(old(state.balances), b.txs[..i])
      invariant forall tx | tx in b.txs[..i] :: KindOf(tx, shardOf, b.lamp, shardOf(home, b.lamp)) == Input
      invariant CountersOf(state) == CountersAfter(old(CountersOf(state)), b, shardOf)
    {
      assert b.txs[..i + 1][..i] == b.txs[..i];
      assert b.txs[..i + 1] == b.txs[..i] + [b.txs[i]];
      assert b.txs[i] in b.txs;
      var success := ApplyInputTx(state, b.txs[i], b.lamp, shardOf, home);
      if !success {
        return false;
      }
    }
    assert b.txs[..|b.txs|] == b.txs;
    return true;
  }

  /** Applies the batches in order; succeeds exactly if each is accepted in its turn, and then credits them all. */
  method ApplyBatches(state: StateDB, bs: seq<Batch>, shardOf: Sharding, home: Address) returns (ok: bool)
    modifies state`balances, state`shardingHeight, state`batchNonce
    ensures ok <==> AllAccepted(old(CountersOf(state)), bs, shardOf, home)
    ensures ok ==> CountersOf(state) == AllAfter(old(CountersOf(state)), bs, shardOf)
                   && state.balances == AllCredited(old(state.balances), bs)
  {
    hide Accepts, CountersAfter, Credited;
    ghost var c := CountersOf(state);
    for i := 0 to |bs|
      invariant AllAccepted(c, bs[..i], shardOf, home)
      invariant CountersOf(state) == AllAfter(c, bs[..i], shardOf)
      invariant state.balances == AllCredited(old(state.balances), bs[..i])
    {
      assert bs[..i + 1][..i] == bs[..i];
      var accepted := ApplyBatch(state, bs[i], shardOf, home);
      if !accepted {
        PrefixAccepted(c, bs, shardOf, home, i + 1);
        return false;
      }
    }
    assert bs[..|bs|] == bs;
    return true;
  }

  lemma {:induction false} PrefixAccepted(c: Counters, bs: seq<Batch>, shardOf: Sharding, home: Address, i: nat)
    requires i <= |bs|
    ensures AllAccepted(c, bs, shardOf, home) ==> AllAccepted(c, bs[..i], shardOf, home)
    decreases |bs|
  {
    if i < |bs| {
      PrefixAccepted(c, bs[..|bs| - 1], shardOf, home, i);
      assert bs[..|bs| - 1][..i] == bs[..i];
    } else {
      assert bs[..i] == bs;
    }
  }

  /** What a block says: its transactions with their gas limit, the rewards for it, and the inputs from other shards. */
  datatype Body = Body(jobs: seq<Job>, gasLimit: Uint64, rewards: seq<Adjustment>, inputs: seq<Batch>)

  /** A block is good if all its transactions apply and all its batches are accepted, each in its turn. */
  predicate Good(acc: Accounts, c: Counters, body: Body, at: Setting, shardOf: Sharding, home: Address) {
    RunJobs(acc, body.jobs, at, body.gasLimit).Some? && AllAccepted(c, body.inputs, shardOf, home)
  }

  function Processed(acc: Accounts, body: Body, at: Setting): Accounts
    requires RunJobs(acc, body.jobs, at, body.gasLimit).Some?
  {
    var ran := RunJobs(acc, body.jobs, at, body.gasLimit).value.accounts;
    Accounts(AllCredited(Adjusted(ran.balances, body.rewards), body.inputs), ran.nonces)
  }

  /** Processing changes the total by the inflows of the transactions, the rewards, and the inputs. */
  lemma ProcessedTotal(acc: Accounts, body: Body, at: Setting)
    requires RunJobs(acc, body.jobs, at, body.gasLimit).Some?
    ensures Sum(Processed(acc, body, at).balances) ==
      Sum(acc.balances) + Inflows(acc, body.jobs, at, body.gasLimit) + AdjustedBy(body.rewards) + TotalValue(body.inputs)
  {
    hide Sum, RunJobs, Inflows, AllCredited, Adjusted;
    var ran := RunJobs(acc, body.jobs, at, body.gasLimit).value.accounts;
    RunTotals(acc, body.jobs, at, body.gasLimit);
    AdjustedTotal(ran.balances, body.rewards);
    AllCreditedTotal(Adjusted(ran.balances, body.rewards), body.inputs);
  }

  /** Account by account, what a block moves: by its transactions, as its rewards, and as inputs from other shards. */
  lemma ProcessedShows(acc: Accounts, body: Body, at: Setting, a: Address)
    requires RunJobs(acc, body.jobs, at, body.gasLimit).Some? && forall job | job in body.jobs :: Codeless(job)
    ensures var receipts := RunJobs(acc, body.jobs, at, body.gasLimit).value.receipts;
      && |receipts| == |body.jobs|
      && Get(Processed(acc, body, at).balances, a) ==
           Get(acc.balances, a) + Earned(body.jobs, receipts, at, a) + AdjustedOf(body.rewards, a) + TotalTo(body.inputs, a)
  {
    hide Get, RunJobs, AllCredited, Adjusted, Earned, AdjustedOf, TotalTo, Codeless;
    var ran := RunJobs(acc, body.jobs, at, body.gasLimit).value.accounts;
    RunShows(acc, body.jobs, at, body.gasLimit, a);
    AdjustedShows(ran.balances, body.rewards, a);
    AllCreditedShows(Adjusted(ran.balances, body.rewards), body.inputs, a);
  }

  lemma ProcessedShowsAll(acc: Accounts, body: Body, at: Setting)
    requires RunJobs(acc, body.jobs, at, body.gasLimit).Some?
    ensures var receipts := RunJobs(acc, body.jobs, at, body.gasLimit).value.receipts;
      |receipts| == |body.jobs| && (forall job | job in body.jobs :: Codeless(job)) ==> forall a ::
        Get(Processed(acc, body, at).balances, a) ==
          Get(acc.balances, a) + Earned(body.jobs, receipts, at, a) + AdjustedOf(body.rewards, a) + TotalTo(body.inputs, a)
  {
    hide Get, RunJobs, Earned, AdjustedOf, TotalTo, Codeless, Processed;
    if forall job | job in body.jobs :: Codeless(job) {
      forall a {
        ProcessedShows(acc, body, at, a);
      }
    }
  }

  /**
    Processes a block. Succeeds exactly if the block is good; then the accounts and counters are as after all
    transactions, rewards and batches, used gas is within the limit, and the total changes by inflows, rewards and
    inputs, which for plain transactions is the rewards and the inputs minus the successful outputs.
   */
  method Process(evm: Evm, body: Body, shardOf: Sharding, home: Address) returns (r: Option<seq<Receipt>>)
    requires forall job | job in body.jobs :: job.created != job.tx.from
    modifies evm.state
    ensures r.Some? <==>
      Good(old(evm.state.Current()), old(CountersOf(evm.state)), body, evm.At(), shardOf, home)
    ensures r.Some? ==>
      && r.value == RunJobs(old(evm.state.Current()), body.jobs, evm.At(), body.gasLimit).value.receipts
      && evm.state.Current() == Processed(old(evm.state.Current()), body, evm.At())
      && CountersOf(evm.state) == AllAfter(old(CountersOf(evm.state)), body.inputs, shardOf)
    ensures r.Some? ==>
      && |r.value| == |body.jobs| && Cumulates(r.value) && LastCumulative(r.value) <= body.gasLimit
      && Sum(evm.state.balances) ==
           Sum(old(evm.state.balances)) + Inflows(old(evm.state.Current()), body.jobs, evm.At(), body.gasLimit)
           + AdjustedBy(body.rewards) + TotalValue(body.inputs)
    ensures r.Some? && (forall job | job in body.jobs :: Plain(job, evm.home)) ==>
      Sum(evm.state.balances) == Sum(old(evm.state.balances)) - OutputValue(body.jobs, r.value, evm.home)
                                 + AdjustedBy(body.rewards) + TotalValue(body.inputs)
    ensures r.Some? && (forall job | job in body.jobs :: Codeless(job)) ==> forall a ::
      Get(evm.state.balances, a) == Get(old(evm.state.balances), a) + Earned(body.jobs, r.value, evm.At(), a)
                                    + AdjustedOf(body.rewards, a) + TotalTo(body.inputs, a)
  {
    hide Get, Codeless, Earned, AdjustedOf, TotalTo, Plus, Sum, OutputValue, Plain, AllAccepted, AllAfter, AllCredited, TotalValue, RunJobs, Inflows, Cumulates,
      LastCumulative, AdjustedBy;
    var state := evm.state;
    ghost var acc := state.Current();
    r := ApplyTransactions(evm, body.jobs, body.gasLimit);
    if r.None? {
      return;
    }
    ghost var ran, nonces := state.balances, state.nonces;
    for i := 0 to |body.rewards|
      invariant state.balances == Adjusted(ran, body.rewards[..i])
      invariant CountersOf(state) == old(CountersOf(state)) && state.nonces == nonces
    {
      assert body.rewards[..i + 1][..i] == body.rewards[..i];
      state.AddBalance(body.rewards[i].account, body.rewards[i].amount);
    }
    assert body.rewards[..|body.rewards|] == body.rewards && state.balances == Adjusted(ran, body.rewards);
    var ok := ApplyBatches(state, body.inputs, shardOf, home);
    if !ok {
      return None;
    }
    RunTotals(acc, body.jobs, evm.At(), body.gasLimit);
    ProcessedTotal(acc, body, evm.At());
    if forall job | job in body.jobs :: Plain(job, evm.home) {
      PlainInflows(acc, body.jobs, evm.At(), body.gasLimit);
    }
    ProcessedShowsAll(acc, body, evm.At());
  }

  // ---------------------------------------------------------------------------------------------
  // Receipts

  /** Subtraction on 64 bits, which wraps. */
  function Minus64(a: Uint64, b: Uint64): Uint64 {
    if a >= b then a - b else a + (MAX_UINT64 - b) + 1
  }

  /** A receipt with the fields that consensus does not cover filled in. */
  ghost predicate Filled(r: Receipt, was: seq<Receipt>, j: nat, hashes: seq<nat>, creations: seq<Option<Address>>)
    requires j < |was| <= |hashes| == |creations|
  {
    && r.cumulativeGasUsed == was[j].cumulativeGasUsed && r.failed == was[j].failed
    && r.txHash == Some(hashes[j])
    && r.contractAddress == (if creations[j].Some? then creations[j] else was[j].contractAddress)
    && r.gasUsed == if j == 0 then was[j].cumulativeGasUsed else Minus64(was[j].cumulativeGasUsed,
        was[j - 1].cumulativeGasUsed)
  }

  /** Computes what receipts do not carry from the block: transaction hashes, contract addresses and own gas. */
  method SetReceiptsData(receipts: array<Receipt>, hashes: seq<nat>, creations: seq<Option<Address>>)
    requires receipts.Length <= |hashes| == |creations|
    modifies receipts
    ensures forall j | 0 <= j < receipts.Length :: Filled(receipts[j], old(receipts[..]), j, hashes, creations)
  {
    ghost var was := receipts[..];
    for j := 0 to receipts.Length
      invariant forall k | 0 <= k < j :: Filled(receipts[k], was, k, hashes, creations)
      invariant forall k | j <= k < receipts.Length :: receipts[k] == was[k]
    {
      assert j > 0 ==> Filled(receipts[j - 1], was, j - 1, hashes, creations);
      receipts[j] := receipts[j].(txHash := Some(hashes[j]));
      if creations[j].Some? {
        receipts[j] := receipts[j].(contractAddress := creations[j]);
      }
      if j == 0 {
        receipts[j] := receipts[j].(gasUsed := receipts[j].cumulativeGasUsed);
      } else {
        receipts[j] := receipts[j].(gasUsed := Minus64(receipts[j].cumulativeGasUsed, receipts[j - 1].cumulativeGasUsed));
      }
    }
  }

  /** For receipts that cumulate, differencing recovers each one's own gas, without wrapping. */
  lemma DifferencesRecover(receipts: seq<Receipt>, j: nat)
    requires Cumulates(receipts) && j < |receipts|
    ensures j == 0 ==> receipts[j].cumulativeGasUsed == receipts[j].gasUsed
    ensures j > 0 ==>
      && receipts[j - 1].cumulativeGasUsed <= receipts[j].cumulativeGasUsed
      && Minus64(receipts[j].cumulativeGasUsed, receipts[j - 1].cumulativeGasUsed) == receipts[j].gasUsed
  {
    assert CumulatesAt(receipts, j);
  }

  /** Receipts stripped to what consensus covers get back exactly the gas they were processed with. */
  method Restore(processed: seq<Receipt>, hashes: seq<nat>, creations: seq<Option<Address>>)
    returns (restored: array<Receipt>)
    requires Cumulates(processed) && |processed| <= |hashes| == |creations|
    ensures restored.Length == |processed|
    ensures forall j | 0 <= j < |processed| ::
      restored[j].gasUsed == processed[j].gasUsed && restored[j].cumulativeGasUsed == processed[j].cumulativeGasUsed
  {
    restored := new Receipt[|processed|](i requires 0 <= i < |processed| => processed[i].(gasUsed := 0, txHash := None));
    ghost var stripped := restored[..];
    SetReceiptsData(restored, hashes, creations);
    forall j | 0 <= j < |processed|
      ensures restored[j].gasUsed == processed[j].gasUsed
          && restored[j].cumulativeGasUsed == processed[j].cumulativeGasUsed
    {
      DifferencesRecover(processed, j);
      assert Filled(restored[j], stripped, j, hashes, creations);
    }
  }
}
