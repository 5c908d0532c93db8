/** All shards together at one lamp height: value that leaves one shard arrives in another at most once. */
module CrossShards {
  import opened Types
  import opened Ledger
  import opened Batches
  import opened Seqs
  import opened StateTransitions
  import opened StateProcessors

  /** The lay of the land at one lamp height: which shard an address is in, and the address of each shard's node. */
  datatype Places = Places(shardOf: Sharding, lamp: nat, nodes: map<nat, Address>)
  {
    function HomeOf(s: nat): Address -> bool {
      (a: Address) => shardOf(a, lamp) == s
    }

    function At(s: nat, coinbase: Address): Setting {
      Setting(HomeOf(s), coinbase, lamp)
    }

    function DestinationOf(tx: Tx): nat {
      shardOf(Recipient(tx), lamp)
    }

    /** Every shard's node lies in its shard. */
    ghost predicate WellPlaced() {
      forall s | s in nodes :: shardOf(nodes[s], lamp) == s
    }
  }

  datatype Shard = Shard(accounts: Accounts, counters: Counters, height: nat)

  /** The shards, and the batches sent and applied so far. */
  datatype World = World(shards: map<nat, Shard>, sent: set<Batch>, applied: set<Batch>)

  /** A shard's next block, and how it numbers its batches by destination. */
  datatype Step = Step(shard: nat, coinbase: Address, body: Body, numbers: map<nat, Nonce>)

  // ---------------------------------------------------------------------------------------------
  // The batches a block sends

  /** The block's transactions to other shards. Whether they succeeded is not asked. */
  function Outputs(jobs: seq<Job>, p: Places, s: nat): seq<Tx> {
    if jobs == [] then []
    else
      var init, tx := Outputs(jobs[..|jobs| - 1], p, s), jobs[|jobs| - 1].tx;
      if KindOf(tx, p.shardOf, p.lamp, s) == Output then init + [tx] else init
  }

  function To(txs: seq<Tx>, p: Places, ds: set<nat>): seq<Tx> {
    if txs == [] then []
    else
      var init, tx := To(txs[..|txs| - 1], p, ds), txs[|txs| - 1];
      if p.DestinationOf(tx) in ds then init + [tx] else init
  }

  function BatchTo(step: Step, height: nat, p: Places, d: nat): Batch {
    Batch(step.shard, height, if d in step.numbers then step.numbers[d] else 1, p.lamp,
          To(Outputs(step.body.jobs, p, step.shard), p, {d}))
  }

  function Destinations(txs: seq<Tx>, p: Places): set<nat> {
    set tx | tx in txs :: p.DestinationOf(tx)
  }

  /** One batch for each shard that the block has outputs to. */
  ghost function BatchesOf(step: Step, height: nat, p: Places, ds: set<nat>): set<Batch> {
    set d | d in ds :: BatchTo(step, height, p, d)
  }

  /** Whether the shard accepts the block: its inputs were sent by some shard, and it is good. */
  ghost predicate Accepted(w: World, step: Step, p: Places) {
    && step.shard in w.shards && step.shard in p.nodes
    && (forall b | b in step.body.inputs :: b in w.sent)
    && (forall job | job in step.body.jobs :: job.created != job.tx.from)
    && Good(w.shards[step.shard].accounts, w.shards[step.shard].counters, step.body, p.At(step.shard, step.coinbase),
            p.shardOf, p.nodes[step.shard])
  }

  function ShardAfter(c: Shard, step: Step, p: Places): Shard
    requires RunJobs(c.accounts, step.body.jobs, p.At(step.shard, step.coinbase), step.body.gasLimit).Some?
  {
    Shard(Processed(c.accounts, step.body, p.At(step.shard, step.coinbase)),
          AllAfter(c.counters, step.body.inputs, p.shardOf), c.height + 1)
  }

  /** A block that is not accepted changes nothing; an accepted one is processed, and its outputs are sent. */
  ghost function After(w: World, step: Step, p: Places): World {
    if Accepted(w, step, p) then
      var c := w.shards[step.shard];
      World(w.shards[step.shard := ShardAfter(c, step, p)],
            w.sent + BatchesOf(step, c.height + 1, p, Destinations(Outputs(step.body.jobs, p, step.shard), p)),
            w.applied + Elements(step.body.inputs))
    else w
  }

  ghost function Run(w: World, steps: seq<Step>, p: Places): World {
    if steps == [] then w else After(Run(w, steps[..|steps| - 1], p), steps[|steps| - 1], p)
  }

  // ---------------------------------------------------------------------------------------------
  // Wealth

  ghost function Held(m: map<nat, Shard>): int {
    if m == map[] then 0 else
      var s :| s in m;
      Sum(m[s].accounts.balances) + Held(m - {s})
  }

  lemma {:induction false} HeldWithout(m: map<nat, Shard>, s: nat)
    requires s in m
    ensures Held(m) == Sum(m[s].accounts.balances) + Held(m - {s})
    decreases m.Keys
  {
    var t :| t in m && Held(m) == Sum(m[t].accounts.balances) + Held(m - {t});
    if s != t {
      assert (m - {t}).Keys == m.Keys - {t};
      assert (m - {s}).Keys == m.Keys - {s};
      HeldWithout(m - {t}, s);
      HeldWithout(m - {s}, t);
      assert m - {s} - {t} == m - {t} - {s};
    }
  }

  lemma HeldUpdate(m: map<nat, Shard>, s: nat, c: Shard)
    requires s in m
    ensures Held(m[s := c]) == Held(m) - Sum(m[s].accounts.balances) + Sum(c.accounts.balances)
  {
    hide Sum;
    HeldWithout(m, s);
    HeldWithout(m[s := c], s);
    assert m[s := c] - {s} == m - {s};
  }

  ghost function InFlight(bs: set<Batch>): int {
    if bs == {} then 0 else
      var b :| b in bs;
      ValueOf(b.txs) + InFlight(bs - {b})
  }

  lemma {:induction false} InFlightWithout(bs: set<Batch>, b: Batch)
    requires b in bs
    ensures InFlight(bs) == ValueOf(b.txs) + InFlight(bs - {b})
    decreases bs
  {
    var c :| c in bs && InFlight(bs) == ValueOf(c.txs) + InFlight(bs - {c});
    if b != c {
      InFlightWithout(bs - {c}, b);
      InFlightWithout(bs - {b}, c);
      assert bs - {b} - {c} == bs - {c} - {b};
    }
  }

  lemma {:induction false} InFlightUnion(xs: set<Batch>, ys: set<Batch>)
    requires xs !! ys
    ensures InFlight(xs + ys) == InFlight(xs) + InFlight(ys)
    decreases ys
  {
    if ys == {} {
      assert xs + ys == xs;
    } else {
      var b :| b in ys;
      InFlightUnion(xs, ys - {b});
      InFlightWithout(ys, b);
      InFlightWithout(xs + ys, b);
      assert xs + ys - {b} == xs + (ys - {b});
    }
  }

  lemma {:induction false} InFlightListed(bs: seq<Batch>)
    requires Distinct(bs)
    ensures InFlight(Elements(bs)) == TotalValue(bs)
    decreases |bs|
  {
    hide ValueOf, Distinct, Elements;
    if bs == [] {
      NoElements<Batch>();
    } else {
      Unsnoc(bs);
      InFlightListed(bs[..|bs| - 1]);
      InFlightWithout(Elements(bs), bs[|bs| - 1]);
    }
  }

  /** What all shards hold, together with what has been sent and not yet applied. */
  ghost function Wealth(w: World): int {
    Held(w.shards) + InFlight(w.sent - w.applied)
  }

  // ---------------------------------------------------------------------------------------------
  // Batches carry all outputs, each in one batch

  lemma {:induction false} ToSplits(txs: seq<Tx>, p: Places, ds: set<nat>, d: nat)
    requires d in ds
    ensures ValueOf(To(txs, p, ds)) == ValueOf(To(txs, p, ds - {d})) + ValueOf(To(txs, p, {d}))
    decreases |txs|
  {
    if txs != [] {
      var init, tx := txs[..|txs| - 1], txs[|txs| - 1];
      ToSplits(init, p, ds, d);
      ValueNext(To(init, p, ds), tx);
      ValueNext(To(init, p, ds - {d}), tx);
      ValueNext(To(init, p, {d}), tx);
    }
  }

  lemma {:induction false} ToMembers(txs: seq<Tx>, p: Places, ds: set<nat>)
    ensures forall tx :: tx in To(txs, p, ds) <==> tx in txs && p.DestinationOf(tx) in ds
    decreases |txs|
  {
    if txs != [] {
      var init := txs[..|txs| - 1];
      ToMembers(init, p, ds);
      assert txs == init + [txs[|txs| - 1]];
    }
  }

  lemma {:induction false} ToAll(txs: seq<Tx>, p: Places, ds: set<nat>)
    requires forall tx | tx in txs :: p.DestinationOf(tx) in ds
    ensures To(txs, p, ds) == txs
    decreases |txs|
  {
    if txs != [] {
      var init := txs[..|txs| - 1];
      ToAll(init, p, ds);
      assert txs == init + [txs[|txs| - 1]];
    }
  }

  lemma {:induction false} ToNone(txs: seq<Tx>, p: Places)
    ensures To(txs, p, {}) == []
    decreases |txs|
  {
    if txs != [] {
      ToNone(txs[..|txs| - 1], p);
    }
  }

  lemma {:induction false} OutputsMembers(jobs: seq<Job>, p: Places, s: nat)
    ensures forall tx | tx in Outputs(jobs, p, s) :: KindOf(tx, p.shardOf, p.lamp, s) == Output
    decreases |jobs|
  {
    if jobs != [] {
      OutputsMembers(jobs[..|jobs| - 1], p, s);
    }
  }

  /** A sent batch is not empty, and all in it goes to the shard under whose key it will be accepted. */
  lemma SentBatch(step: Step, height: nat, p: Places, d: nat)
    requires d in Destinations(Outputs(step.body.jobs, p, step.shard), p)
    ensures var b := BatchTo(step, height, p, d);
      b.txs != [] && KeyOf(b, p.shardOf) == d && forall tx | tx in b.txs :: KindOf(tx, p.shardOf, p.lamp, step.shard) == Output
  {
    var outs := Outputs(step.body.jobs, p, step.shard);
    var b := BatchTo(step, height, p, d);
    ToMembers(outs, p, {d});
    OutputsMembers(step.body.jobs, p, step.shard);
    var tx :| tx in outs && p.DestinationOf(tx) == d;
    assert tx in b.txs;
    assert b.txs[0] in b.txs;
  }

  /** The batches of a block together carry exactly the value of its outputs. */
  lemma {:induction false} SentValue(step: Step, height: nat, p: Places, ds: set<nat>)
    requires ds <= Destinations(Outputs(step.body.jobs, p, step.shard), p)
    ensures InFlight(BatchesOf(step, height, p, ds)) == ValueOf(To(Outputs(step.body.jobs, p, step.shard), p, ds))
    decreases ds
  {
    var outs := Outputs(step.body.jobs, p, step.shard);
    if ds == {} {
      ToNone(outs, p);
    } else {
      var d :| d in ds;
      SentValue(step, height, p, ds - {d});
      ToSplits(outs, p, ds, d);
      var b := BatchTo(step, height, p, d);
      InFlightWithout(BatchesOf(step, height, p, ds), b);
      forall e | e in ds - {d}
        ensures BatchTo(step, height, p, e) != b
      {
        SentBatch(step, height, p, d);
        SentBatch(step, height, p, e);
      }
      assert BatchesOf(step, height, p, ds) - {b} == BatchesOf(step, height, p, ds - {d});
    }
  }

  // ---------------------------------------------------------------------------------------------
  // What every run keeps

  /**
    Sent batches come from blocks already made, and applied ones were sent and lie at or below the height that their
    shard has reached.
   */
  ghost predicate Sound(w: World, p: Places) {
    && w.applied <= w.sent
    && (forall b | b in w.sent ::
          b.lamp == p.lamp && b.txs != [] && b.source in w.shards && b.height <= w.shards[b.source].height)
    && (forall b | b in w.applied ::
          KeyOf(b, p.shardOf) in w.shards
          && b.height <= w.shards[KeyOf(b, p.shardOf)].counters.Height(KeyOf(b, p.shardOf)))
  }

  /** A batch that a block applies has not been applied before, and its key is the block's shard. */
  lemma AcceptedIsNew(w: World, p: Places, step: Step, i: nat)
    requires Sound(w, p) && p.WellPlaced() && Accepted(w, step, p) && i < |step.body.inputs|
    ensures KeyOf(step.body.inputs[i], p.shardOf) == step.shard && step.body.inputs[i] !in w.applied
    ensures forall j | i < j < |step.body.inputs| :: step.body.inputs[i] != step.body.inputs[j]
    ensures step.body.inputs[i].height <= AllAfter(w.shards[step.shard].counters, step.body.inputs, p.shardOf).Height(step.shard)
  {
    hide RunJobs, KindOf;
    var c, bs, home := w.shards[step.shard].counters, step.body.inputs, p.nodes[step.shard];
    assert bs[i] in bs;
    AcceptedInTurn(c, bs, p.shardOf, home, i);
    AcceptedKey(AllAfter(c, bs[..i], p.shardOf), bs[i], p.shardOf, home);
    CountersGrow(c, bs[..i], p.shardOf, home, step.shard, 0) by {
      CountersGrow(c, bs, p.shardOf, home, step.shard, i);
    }
    CountersGrow(c, bs, p.shardOf, home, step.shard, i + 1);
    CountersTell(c, bs[..i + 1], p.shardOf, i);
    assert AllAfter(c, bs[..i][..0], p.shardOf) == c;
    forall j | i < j < |bs|
      ensures bs[i] != bs[j]
    {
      NeverTwice(c, bs, p.shardOf, home, i, j);
    }
  }

  lemma StepKeepsSound(w: World, step: Step, p: Places)
    requires Sound(w, p) && p.WellPlaced()
    ensures Sound(After(w, step, p), p)
  {
    hide Good, KeyOf, AllAfter, Processed, BatchTo, Destinations;
    if Accepted(w, step, p) {
      var c, v := w.shards[step.shard], After(w, step, p);
      var ds := Destinations(Outputs(step.body.jobs, p, step.shard), p);
      forall d | d in ds
        ensures var b := BatchTo(step, c.height + 1, p, d);
          b.txs != [] && b.lamp == p.lamp && b.source == step.shard && b.height == c.height + 1
      {
        SentBatch(step, c.height + 1, p, d);
        BatchHeader(step, c.height + 1, p, d);
      }
      forall b | b in v.applied
        ensures KeyOf(b, p.shardOf) in v.shards
            && b.height <= v.shards[KeyOf(b, p.shardOf)].counters.Height(KeyOf(b, p.shardOf))
      {
        if b in step.body.inputs {
          var i :| 0 <= i < |step.body.inputs| && step.body.inputs[i] == b;
          AcceptedIsNew(w, p, step, i);
        } else {
          CountersKept(w, step, p, step.shard);
        }
      }
    }
  }

  lemma BatchHeader(step: Step, height: nat, p: Places, d: nat)
    ensures var b := BatchTo(step, height, p, d); b.lamp == p.lamp && b.source == step.shard && b.height == height
  {
  }

  /** No shard's counters ever fall. */
  lemma CountersKept(w: World, step: Step, p: Places, key: nat)
    requires Accepted(w, step, p)
    ensures var c, v := w.shards[step.shard].counters, After(w, step, p).shards[step.shard].counters;
      c.Height(key) <= v.Height(key) && c.BatchNonce(key) <= v.BatchNonce(key)
  {
    hide RunJobs, Accepts, CountersAfter;
    var c, bs := w.shards[step.shard].counters, step.body.inputs;
    CountersGrow(c, bs, p.shardOf, p.nodes[step.shard], key, 0);
    assert bs[..0] == [];
  }

  /** What a block's transactions add to the wealth of the world: what they bring in, and what is sent for them. */
  ghost function Gain(w: World, step: Step, p: Places): int
    requires Accepted(w, step, p)
  {
    Inflows(w.shards[step.shard].accounts, step.body.jobs, p.At(step.shard, step.coinbase), step.body.gasLimit)
    + ValueOf(Outputs(step.body.jobs, p, step.shard))
  }

  lemma StepWealth(w: World, step: Step, p: Places)
    requires Sound(w, p) && p.WellPlaced() && Accepted(w, step, p)
    ensures Wealth(After(w, step, p)) == Wealth(w) + AdjustedBy(step.body.rewards) + Gain(w, step, p)
  {
    hide Sum, Good, AdjustedBy, TotalValue, ValueOf, Inflows, Processed, BatchTo, Destinations, KeyOf, AllAfter;
    var c, v := w.shards[step.shard], After(w, step, p);
    var outs := Outputs(step.body.jobs, p, step.shard);
    var ds := Destinations(outs, p);
    var inputs := Elements(step.body.inputs);
    var sent := BatchesOf(step, c.height + 1, p, ds);
    ProcessedTotal(c.accounts, step.body, p.At(step.shard, step.coinbase)) by {
      GoodRuns(w, step, p);
    }
    HeldUpdate(w.shards, step.shard, v.shards[step.shard]);
    forall i | 0 <= i < |step.body.inputs|
      ensures step.body.inputs[i] !in w.applied
      ensures forall j | i < j < |step.body.inputs| :: step.body.inputs[i] != step.body.inputs[j]
    {
      AcceptedIsNew(w, p, step, i);
    }
    InFlightListed(step.body.inputs);
    var flying := w.sent - w.applied - inputs;
    assert w.sent - w.applied == flying + inputs;
    InFlightUnion(flying, inputs);
    forall d | d in ds
      ensures BatchTo(step, c.height + 1, p, d) !in w.sent
    {
      BatchHeader(step, c.height + 1, p, d);
    }
    assert v.sent - v.applied == flying + sent;
    InFlightUnion(flying, sent);
    SentValue(step, c.height + 1, p, ds);
    DestinationsCover(outs, p);
  }

  lemma GoodRuns(w: World, step: Step, p: Places)
    requires Accepted(w, step, p)
    ensures RunJobs(w.shards[step.shard].accounts, step.body.jobs, p.At(step.shard, step.coinbase), step.body.gasLimit).Some?
  {
  }

  lemma DestinationsCover(txs: seq<Tx>, p: Places)
    ensures To(txs, p, Destinations(txs, p)) == txs
  {
    ToAll(txs, p, Destinations(txs, p));
  }

  ghost function Rewards(w: World, steps: seq<Step>, p: Places): int {
    if steps == [] then 0
    else
      var init, last := steps[..|steps| - 1], steps[|steps| - 1];
      Rewards(w, init, p) + if Accepted(Run(w, init, p), last, p) then AdjustedBy(last.body.rewards) else 0
  }

  ghost function Gains(w: World, steps: seq<Step>, p: Places): int {
    if steps == [] then 0
    else
      var init, last := steps[..|steps| - 1], steps[|steps| - 1];
      Gains(w, init, p) + if Accepted(Run(w, init, p), last, p) then Gain(Run(w, init, p), last, p) else 0
  }

  /**
    Over any run of blocks in any shards, with batches delivered late, repeatedly, to wrong shards or not at all, what
    the shards hold and what is in flight changes in total by exactly the rewards and the gains of the transactions.
   */
  lemma {:induction false} WealthChanges(w: World, steps: seq<Step>, p: Places)
    requires Sound(w, p) && p.WellPlaced()
    ensures Wealth(Run(w, steps, p)) == Wealth(w) + Rewards(w, steps, p) + Gains(w, steps, p)
    ensures Sound(Run(w, steps, p), p)
    decreases |steps|
  {
    hide Wealth, Sound, Accepted, Gain, AdjustedBy;
    if steps != [] {
      var init, last := steps[..|steps| - 1], steps[|steps| - 1];
      WealthChanges(w, init, p);
      StepKeepsSound(Run(w, init, p), last, p);
      if Accepted(Run(w, init, p), last, p) {
        StepWealth(Run(w, init, p), last, p);
      } else {
        RefusedStep(Run(w, init, p), last, p);
      }
    }
  }

  lemma RefusedStep(w: World, step: Step, p: Places)
    requires !Accepted(w, step, p)
    ensures After(w, step, p) == w
  {
  }

  // ---------------------------------------------------------------------------------------------
  // When wealth is conserved

  /** The value of outputs that failed: it stays with its sender, and is sent all the same. */
  function FailedOutputs(jobs: seq<Job>, receipts: seq<Receipt>, p: Places, s: nat): int
    requires |receipts| == |jobs|
  {
    if jobs == [] then 0
    else
      var n := |jobs| - 1;
      FailedOutputs(jobs[..n], receipts[..n], p, s)
      + if receipts[n].failed && KindOf(jobs[n].tx, p.shardOf, p.lamp, s) == Output then jobs[n].tx.value else 0
  }

  /** The value given to contracts created at an address of another shard: it leaves its sender, and is not sent. */
  function StrayCreations(jobs: seq<Job>, receipts: seq<Receipt>, p: Places, s: nat): int
    requires |receipts| == |jobs|
  {
    if jobs == [] then 0
    else
      var n := |jobs| - 1;
      StrayCreations(jobs[..n], receipts[..n], p, s)
      + if !receipts[n].failed && jobs[n].tx.to.None? && !p.HomeOf(s)(jobs[n].created) then jobs[n].tx.value else 0
  }

  /** Plain transactions gain exactly what failed outputs carry, less what stray creations take. */
  lemma {:induction false} PlainGain(acc: Accounts, jobs: seq<Job>, p: Places, s: nat, coinbase: Address, gasLimit: Uint64)
    requires RunJobs(acc, jobs, p.At(s, coinbase), gasLimit).Some? && forall job | job in jobs :: Plain(job, p.HomeOf(s))
    ensures var receipts := RunJobs(acc, jobs, p.At(s, coinbase), gasLimit).value.receipts;
      && |receipts| == |jobs|
      && Inflows(acc, jobs, p.At(s, coinbase), gasLimit) + ValueOf(Outputs(jobs, p, s))
         == FailedOutputs(jobs, receipts, p, s) - StrayCreations(jobs, receipts, p, s)
    decreases |jobs|
  {
    hide ExecutedInflow, Task.Applied, Task.Used, Task.Fails, Task.Applicable, ValueOf;
    if jobs == [] {
      NothingSent();
    } else {
      var at := p.At(s, coinbase);
      var init, last := jobs[..|jobs| - 1], jobs[|jobs| - 1];
      assert jobs == init + [last] && Plain(last, p.HomeOf(s));
      PlainGain(acc, init, p, s, coinbase, gasLimit);
      var before := RunJobs(acc, init, at, gasLimit).value;
      var after := RunJobs(acc, jobs, at, gasLimit).value;
      assert after.receipts[..|jobs| - 1] == before.receipts;
      var task := TaskOf(last, at.lamp);
      PlainTransferInflow(task.Charged(before.accounts.balances), at.home, last.tx.from, TargetOf(last), last.tx.value,
                          last.run);
      ValueNext(Outputs(init, p, s), last.tx);
    }
  }

  lemma NothingSent()
    ensures ValueOf([]) == 0
  {
  }

  ghost function ReceiptsOf(w: World, step: Step, p: Places): (receipts: seq<Receipt>)
    requires Accepted(w, step, p)
    ensures |receipts| == |step.body.jobs|
  {
    RunTotals(w.shards[step.shard].accounts, step.body.jobs, p.At(step.shard, step.coinbase), step.body.gasLimit);
    RunJobs(w.shards[step.shard].accounts, step.body.jobs, p.At(step.shard, step.coinbase), step.body.gasLimit).value.receipts
  }

  /** Every accepted block holds plain transactions only. */
  ghost predicate AllPlain(w: World, steps: seq<Step>, p: Places) {
    steps == [] ||
    (var init, last := steps[..|steps| - 1], steps[|steps| - 1];
     && AllPlain(w, init, p)
     && (Accepted(Run(w, init, p), last, p) ==> forall job | job in last.body.jobs :: Plain(job, p.HomeOf(last.shard))))
  }

  /** The value of all failed outputs of accepted blocks. */
  ghost function Minted(w: World, steps: seq<Step>, p: Places): int {
    if steps == [] then 0
    else
      var init, last := steps[..|steps| - 1], steps[|steps| - 1];
      Minted(w, init, p)
      + if Accepted(Run(w, init, p), last, p)
        then FailedOutputs(last.body.jobs, ReceiptsOf(Run(w, init, p), last, p), p, last.shard) else 0
  }

  /** The value of all stray creations of accepted blocks. */
  ghost function Burnt(w: World, steps: seq<Step>, p: Places): int {
    if steps == [] then 0
    else
      var init, last := steps[..|steps| - 1], steps[|steps| - 1];
      Burnt(w, init, p)
      + if Accepted(Run(w, init, p), last, p)
        then StrayCreations(last.body.jobs, ReceiptsOf(Run(w, init, p), last, p), p, last.shard) else 0
  }

  lemma {:induction false} PlainGains(w: World, steps: seq<Step>, p: Places)
    requires AllPlain(w, steps, p)
    ensures Gains(w, steps, p) == Minted(w, steps, p) - Burnt(w, steps, p)
    decreases |steps|
  {
    hide Good, FailedOutputs, StrayCreations, Inflows, ValueOf, Outputs, Plain;
    if steps != [] {
      var init, last := steps[..|steps| - 1], steps[|steps| - 1];
      PlainGains(w, init, p);
      var v := Run(w, init, p);
      if Accepted(v, last, p) {
        GoodRuns(v, last, p);
        PlainGain(v.shards[last.shard].accounts, last.body.jobs, p, last.shard, last.coinbase, last.body.gasLimit);
      }
    }
  }

  /**
    Over any run of blocks of plain transactions, wealth changes by exactly the rewards, the failed outputs and the
    stray creations.
   */
  lemma WealthOfPlainRuns(w: World, steps: seq<Step>, p: Places)
    requires Sound(w, p) && p.WellPlaced() && AllPlain(w, steps, p)
    ensures Wealth(Run(w, steps, p)) == Wealth(w) + Rewards(w, steps, p) + Minted(w, steps, p) - Burnt(w, steps, p)
  {
    WealthChanges(w, steps, p);
    PlainGains(w, steps, p);
  }

  /** No value is negative, and contracts are created in their creator's shard. */
  ghost predicate Tame(step: Step, p: Places) {
    forall job | job in step.body.jobs :: job.tx.value >= 0 && (job.tx.to.None? ==> p.HomeOf(step.shard)(job.created))
  }

  /** Every output that fails carries nothing. */
  ghost predicate Undamaged(jobs: seq<Job>, receipts: seq<Receipt>, p: Places, s: nat)
    requires |receipts| == |jobs|
  {
    forall i | 0 <= i < |jobs| && receipts[i].failed && KindOf(jobs[i].tx, p.shardOf, p.lamp, s) == Output ::
      jobs[i].tx.value == 0
  }

  ghost predicate AllUndamaged(w: World, steps: seq<Step>, p: Places) {
    steps == [] ||
    (var init, last := steps[..|steps| - 1], steps[|steps| - 1];
     && AllUndamaged(w, init, p)
     && (Accepted(Run(w, init, p), last, p) ==>
           Undamaged(last.body.jobs, ReceiptsOf(Run(w, init, p), last, p), p, last.shard)))
  }

  lemma {:induction false} TameBlock(jobs: seq<Job>, receipts: seq<Receipt>, p: Places, s: nat)
    requires |receipts| == |jobs|
    requires forall job | job in jobs :: job.tx.value >= 0 && (job.tx.to.None? ==> p.HomeOf(s)(job.created))
    ensures StrayCreations(jobs, receipts, p, s) == 0 && FailedOutputs(jobs, receipts, p, s) >= 0
    ensures FailedOutputs(jobs, receipts, p, s) == 0 <==> Undamaged(jobs, receipts, p, s)
    decreases |jobs|
  {
    if jobs != [] {
      var n := |jobs| - 1;
      TameBlock(jobs[..n], receipts[..n], p, s);
      assert forall i | 0 <= i < n :: jobs[..n][i] == jobs[i] && receipts[..n][i] == receipts[i];
    }
  }

  lemma {:induction false} TameRun(w: World, steps: seq<Step>, p: Places)
    requires forall step | step in steps :: Tame(step, p)
    ensures Burnt(w, steps, p) == 0 && Minted(w, steps, p) >= 0
    ensures Minted(w, steps, p) == 0 <==> AllUndamaged(w, steps, p)
    decreases |steps|
  {
    hide Accepted, FailedOutputs, StrayCreations, Undamaged, ReceiptsOf;
    if steps != [] {
      var init, last := steps[..|steps| - 1], steps[|steps| - 1];
      TameRun(w, init, p);
      assert Tame(last, p);
      if Accepted(Run(w, init, p), last, p) {
        TameBlock(last.body.jobs, ReceiptsOf(Run(w, init, p), last, p), p, last.shard);
      }
    }
  }

  /**
    Wealth is constant up to the rewards exactly if no output that fails carries value; it is never lost. This is for
    plain transactions whose contracts stay at home, over any run.
   */
  lemma WealthIsConstantIff(w: World, steps: seq<Step>, p: Places)
    requires Sound(w, p) && p.WellPlaced() && AllPlain(w, steps, p) && forall step | step in steps :: Tame(step, p)
    ensures Wealth(Run(w, steps, p)) == Wealth(w) + Rewards(w, steps, p) <==> AllUndamaged(w, steps, p)
    ensures Wealth(Run(w, steps, p)) >= Wealth(w) + Rewards(w, steps, p)
  {
    WealthOfPlainRuns(w, steps, p);
    TameRun(w, steps, p);
  }

  // ---------------------------------------------------------------------------------------------
  // Batches and transactions that are never applied (again)

  /** The shard that the batch is for has already counted past it. */
  ghost predicate Stranded(w: World, b: Batch, p: Places) {
    var s := KeyOf(b, p.shardOf);
    && b in w.sent && b !in w.applied && s in w.shards
    && (b.nonce <= w.shards[s].counters.BatchNonce(s) || b.height <= w.shards[s].counters.Height(s))
  }

  lemma StrandedStep(w: World, step: Step, p: Places, b: Batch)
    requires Sound(w, p) && p.WellPlaced() && Stranded(w, b, p)
    ensures Stranded(After(w, step, p), b, p)
  {
    hide RunJobs, Processed, BatchesOf, Sound, KeyOf;
    if Accepted(w, step, p) {
      CountersKept(w, step, p, step.shard);
      if b in step.body.inputs {
        var i :| 0 <= i < |step.body.inputs| && step.body.inputs[i] == b;
        InputContinues(w, step, p, i);
        assert false;
      }
    }
  }

  /** An input of an accepted block lies beyond its shard's counters. */
  lemma InputContinues(w: World, step: Step, p: Places, i: nat)
    requires Sound(w, p) && p.WellPlaced() && Accepted(w, step, p) && i < |step.body.inputs|
    ensures var b, c := step.body.inputs[i], w.shards[step.shard].counters;
      KeyOf(b, p.shardOf) == step.shard && b.nonce > c.BatchNonce(step.shard) && b.height > c.Height(step.shard)
  {
    hide RunJobs, KindOf;
    var c, bs, home := w.shards[step.shard].counters, step.body.inputs, p.nodes[step.shard];
    AcceptedIsNew(w, p, step, i);
    AcceptedInTurn(c, bs, p.shardOf, home, i);
    CountersGrow(c, bs, p.shardOf, home, step.shard, i);
    CountersGrow(c, bs[..i], p.shardOf, home, step.shard, 0);
    assert bs[..i][..0] == [];
  }

  /** A batch whose number or height its shard has reached is applied in no continuation: its value never arrives. */
  lemma {:induction false} StrandedForever(w: World, steps: seq<Step>, p: Places, b: Batch)
    requires Sound(w, p) && p.WellPlaced() && Stranded(w, b, p)
    ensures Stranded(Run(w, steps, p), b, p)
    decreases |steps|
  {
    hide Sound, Stranded, After;
    if steps != [] {
      var init, last := steps[..|steps| - 1], steps[|steps| - 1];
      StrandedForever(w, init, p, b);
      WealthChanges(w, init, p);
      StrandedStep(Run(w, init, p), last, p, b);
    }
  }

  /** Of two batches for one shard with the same number, sent by whatever shards, applying one strands the other. */
  lemma SameNumberStrands(w: World, step: Step, p: Places, i: nat, b: Batch)
    requires Sound(w, p) && p.WellPlaced() && Accepted(w, step, p) && i < |step.body.inputs|
    requires b in w.sent && b !in w.applied && b !in step.body.inputs && KeyOf(b, p.shardOf) == step.shard
    requires b.nonce == step.body.inputs[i].nonce
    ensures Stranded(After(w, step, p), b, p)
  {
    hide RunJobs, Processed, KindOf, Sound;
    var c, bs, home := w.shards[step.shard].counters, step.body.inputs, p.nodes[step.shard];
    AcceptedIsNew(w, p, step, i);
    CountersGrow(c, bs, p.shardOf, home, step.shard, i + 1);
    CountersTell(c, bs[..i + 1], p.shardOf, i);
  }

  lemma {:induction false} NoncesKept(w: World, steps: seq<Step>, p: Places, s: nat, a: Address)
    requires s in w.shards
    ensures s in Run(w, steps, p).shards
    ensures w.shards[s].accounts.NonceOf(a) <= Run(w, steps, p).shards[s].accounts.NonceOf(a)
    decreases |steps|
  {
    hide RunJobs, AllAccepted, AllAfter, BatchesOf;
    if steps != [] {
      var init, last := steps[..|steps| - 1], steps[|steps| - 1];
      NoncesKept(w, init, p, s, a);
      var v := Run(w, init, p);
      if Accepted(v, last, p) && last.shard == s {
        RunNonces(v.shards[s].accounts, last.body.jobs, p.At(s, last.coinbase), last.body.gasLimit, a);
      }
    }
  }

  /** A transaction executed in one block of a shard is executed in no later block of it, whatever happens between. */
  lemma NeverExecutedAgain(w: World, first: Step, between: seq<Step>, later: Step, p: Places, x: Job, y: Job)
    requires Accepted(w, first, p) && x in first.body.jobs
    requires later.shard == first.shard && Accepted(Run(After(w, first, p), between, p), later, p) && y in later.body.jobs
    ensures x.tx != y.tx
  {
    hide RunJobs, AllAccepted, AllAfter, BatchesOf;
    var s, a := first.shard, x.tx.from;
    RunNonces(w.shards[s].accounts, first.body.jobs, p.At(s, first.coinbase), first.body.gasLimit, a);
    NoncesKept(After(w, first, p), between, p, s, a);
    RunNonces(Run(After(w, first, p), between, p).shards[s].accounts, later.body.jobs, p.At(s, later.coinbase),
              later.body.gasLimit, a);
  }

  // ---------------------------------------------------------------------------------------------
  // Wealth made and lost

  /** Even accounts in shard 0, odd ones in shard 1, at lamp height 1. */
  function TwoShards(): Places {
    Places((a: Address, lamp: nat) => a.id % 2, 1, map[0 := Address(0), 1 := Address(1)])
  }

  /** Account 0 has one coin, and nothing was sent yet. */
  function OneCoin(): World {
    World(map[0 := Shard(Accounts(map[Address(0) := 1], map[]), Counters(map[], map[]), 0)], {}, {})
  }

  /** A block with one free act of account 0 that carries its coin. */
  function CoinStep(to: Option<Address>, error: Option<VmError>): Step {
    var tx := Tx(Address(0), true, 0, 0, 0, to, 1, [], TYPE_ACT_CLAIM, 0);
    Step(0, Address(0), Body([Job(tx, Address(3), false, Execution([], [], 0, error, 0))], 0, [], []), map[])
  }

  lemma CoinJoins(to: Option<Address>, error: Option<VmError>)
    requires error != Some(InsufficientBalance)
    ensures var step, p := CoinStep(to, error), TwoShards();
      var before := Progress(OneCoin().shards[0].accounts, []);
      && Joins(before, step.body.jobs[0], p.At(0, Address(0)), 0)
      && ReceiptOf(before, step.body.jobs[0], p.At(0, Address(0)), 0).failed == error.Some?
  {
    hide Task.Applied;
  }

  lemma CoinBlock(to: Option<Address>, error: Option<VmError>)
    requires error != Some(InsufficientBalance)
    ensures var step, p, w := CoinStep(to, error), TwoShards(), OneCoin();
      && Accepted(w, step, p) && Sound(w, p) && p.WellPlaced() && AllPlain(w, [step], p)
      && ReceiptsOf(w, step, p)[0].failed == error.Some?
  {
    hide Joins, ReceiptOf, Task.Applied;
    var step, p, w := CoinStep(to, error), TwoShards(), OneCoin();
    CoinJoins(to, error);
    assert step.body.jobs[..0] == [] && [step][..0] == [];
    assert RunJobs(w.shards[0].accounts, [], p.At(0, Address(0)), 0) == Some(Progress(w.shards[0].accounts, []));
  }

  /**
    An output to shard 1 that fails leaves its coin where it is and sends it too: wealth grows. Calling a precompiled
    contract whose address lies in another shard fails like this if it gets less gas than it takes, and a free act gets
    none.
   */
  lemma FailedOutputMints()
    ensures var step, p, w := CoinStep(Some(Address(1)), Some(OtherFailure)), TwoShards(), OneCoin();
      Sound(w, p) && Accepted(w, step, p) && step.body.rewards == [] && Wealth(After(w, step, p)) == Wealth(w) + 1
  {
    hide Accepted, Wealth, Sound;
    var step, p, w := CoinStep(Some(Address(1)), Some(OtherFailure)), TwoShards(), OneCoin();
    CoinBlock(Some(Address(1)), Some(OtherFailure));
    OneStep(w, step, p);
    assert step.body.jobs[..0] == [];
  }

  /** A creation whose contract belongs to shard 1 takes the coin out of shard 0 and sends nothing: wealth shrinks. */
  lemma StrayCreationBurns()
    ensures var step, p, w := CoinStep(None, None), TwoShards(), OneCoin();
      Sound(w, p) && Accepted(w, step, p) && step.body.rewards == [] && Wealth(After(w, step, p)) == Wealth(w) - 1
  {
    hide Accepted, Wealth, Sound;
    var step, p, w := CoinStep(None, None), TwoShards(), OneCoin();
    CoinBlock(None, None);
    OneStep(w, step, p);
    assert step.body.jobs[..0] == [];
  }

  lemma OneStep(w: World, step: Step, p: Places)
    requires Sound(w, p) && p.WellPlaced() && AllPlain(w, [step], p) && Accepted(w, step, p)
    ensures var receipts := ReceiptsOf(w, step, p);
      Wealth(After(w, step, p)) == Wealth(w) + AdjustedBy(step.body.rewards)
        + FailedOutputs(step.body.jobs, receipts, p, step.shard) - StrayCreations(step.body.jobs, receipts, p, step.shard)
  {
    hide Accepted, Wealth, Sound, AdjustedBy, FailedOutputs, StrayCreations, ReceiptsOf;
    assert [step][..0] == [];
    WealthOfPlainRuns(w, [step], p);
  }
}
