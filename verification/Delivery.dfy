/** Which of the batches sent to a shard can arrive there. */
module Deliveries {
  import opened Types
  import opened Ledger
  import opened Batches
  import opened Seqs
  import opened StateTransitions
  import opened StateProcessors
  import opened CrossShards

  /** Every sent batch holds inputs of the shard under whose key it is counted. */
  ghost predicate Addressed(w: World, p: Places) {
    forall b | b in w.sent :: AddressedBatch(b, p)
  }

  ghost predicate AddressedBatch(b: Batch, p: Places) {
    forall tx | tx in b.txs :: KindOf(tx, p.shardOf, b.lamp, KeyOf(b, p.shardOf)) == Input
  }

  lemma OutputIsInputThere(tx: Tx, p: Places, s: nat)
    requires KindOf(tx, p.shardOf, p.lamp, s) == Output
    ensures KindOf(tx, p.shardOf, p.lamp, p.DestinationOf(tx)) == Input && p.DestinationOf(tx) != s
  {
  }

  lemma SentIsAddressed(step: Step, height: nat, p: Places, d: nat)
    requires d in Destinations(Outputs(step.body.jobs, p, step.shard), p)
    ensures AddressedBatch(BatchTo(step, height, p, d), p) && d != step.shard
  {
    var b := BatchTo(step, height, p, d);
    SentBatch(step, height, p, d);
    BatchHeader(step, height, p, d);
    ToMembers(Outputs(step.body.jobs, p, step.shard), p, {d});
    forall tx | tx in b.txs
      ensures KindOf(tx, p.shardOf, b.lamp, d) == Input && d != step.shard
    {
      OutputIsInputThere(tx, p, step.shard);
    }
    assert b.txs[0] in b.txs;
  }

  lemma AddressedStep(w: World, step: Step, p: Places)
    requires Addressed(w, p)
    ensures Addressed(After(w, step, p), p)
  {
    hide AddressedBatch, BatchTo, Destinations, Good;
    if Accepted(w, step, p) {
      var height := w.shards[step.shard].height + 1;
      forall d | d in Destinations(Outputs(step.body.jobs, p, step.shard), p)
        ensures AddressedBatch(BatchTo(step, height, p, d), p)
      {
        SentIsAddressed(step, height, p, d);
      }
    }
  }

  lemma {:induction false} AddressedKept(w: World, steps: seq<Step>, p: Places)
    requires Addressed(w, p)
    ensures Addressed(Run(w, steps, p), p)
    decreases |steps|
  {
    hide Addressed, After;
    if steps != [] {
      AddressedKept(w, steps[..|steps| - 1], p);
      AddressedStep(Run(w, steps[..|steps| - 1], p), steps[|steps| - 1], p);
    }
  }

  // ---------------------------------------------------------------------------------------------
  // When everything that waits for a shard can arrive

  /** Sent to the shard and not yet applied. */
  ghost function Waiting(w: World, s: nat, p: Places): set<Batch> {
    set b | b in w.sent && b !in w.applied && KeyOf(b, p.shardOf) == s
  }

  /**
    The batches are numbered consecutively from the counter on, without repetition, and their heights rise along their
    numbers from the counter's height on.
   */
  ghost predicate Consecutive(bs: set<Batch>, c: Counters, s: nat) {
    && (forall b | b in bs :: c.BatchNonce(s) < b.nonce <= c.BatchNonce(s) + |bs| && b.height > c.Height(s))
    && (forall n | c.BatchNonce(s) < n <= c.BatchNonce(s) + |bs| :: Numbered(bs, n))
    && (forall b, d | b in bs && d in bs && b != d :: b.nonce != d.nonce)
    && (forall b, d | b in bs && d in bs && b.nonce < d.nonce :: b.height < d.height)
  }

  ghost predicate Numbered(bs: set<Batch>, n: int) {
    exists b :: b in bs && b.nonce == n
  }

  /** Consecutive batches in the order of their numbers. */
  lemma {:induction false} Ordered(bs: set<Batch>, lo: nat) returns (q: seq<Batch>)
    requires forall b | b in bs :: lo < b.nonce <= lo + |bs|
    requires forall n | lo < n <= lo + |bs| :: Numbered(bs, n)
    requires forall b, d | b in bs && d in bs && b != d :: b.nonce != d.nonce
    ensures |q| == |bs| && (forall i | 0 <= i < |q| :: q[i].nonce == lo + 1 + i) && forall b :: b in q <==> b in bs
    decreases |bs|
  {
    if bs == {} {
      q := [];
    } else {
      assert Numbered(bs, lo + |bs|);
      var last :| last in bs && last.nonce == lo + |bs|;
      var rest := bs - {last};
      forall n | lo < n <= lo + |rest|
        ensures Numbered(rest, n)
      {
        assert Numbered(bs, n);
        var b :| b in bs && b.nonce == n;
        assert b in rest;
      }
      var init := Ordered(rest, lo);
      q := init + [last];
    }
  }

  lemma OrderedInLine(bs: set<Batch>, q: seq<Batch>, c: Counters, s: nat)
    requires Consecutive(bs, c, s) && |q| == |bs| && forall b :: b in q <==> b in bs
    requires forall i | 0 <= i < |q| :: q[i].nonce == c.BatchNonce(s) + 1 + i
    ensures InLine(c, q, s)
  {
    assert forall i | 0 <= i < |q| :: q[i] in bs;
  }

  lemma InLineConsecutive(bs: set<Batch>, q: seq<Batch>, c: Counters, s: nat)
    requires InLine(c, q, s) && Distinct(q) && forall b :: b in q <==> b in bs
    ensures Consecutive(bs, c, s)
  {
    DistinctLength(q, bs);
    forall n | c.BatchNonce(s) < n <= c.BatchNonce(s) + |bs|
      ensures Numbered(bs, n)
    {
      assert q[n - c.BatchNonce(s) - 1] in bs;
    }
  }

  /** Blocks that send nothing. */
  ghost predicate Quiet(steps: seq<Step>) {
    forall step | step in steps :: step.body.jobs == []
  }

  /** The inputs that a shard's accepted blocks take, in order. */
  ghost function Taken(w: World, steps: seq<Step>, p: Places, s: nat): seq<Batch> {
    if steps == [] then []
    else
      var init, last := steps[..|steps| - 1], steps[|steps| - 1];
      if last.shard == s && Accepted(Run(w, init, p), last, p) then Taken(w, init, p, s) + last.body.inputs
      else Taken(w, init, p, s)
  }

  /** Blocks that send nothing apply only what waits, in the order in which the shard takes it. */
  lemma {:induction false} QuietRun(w: World, steps: seq<Step>, p: Places, s: nat)
    requires Sound(w, p) && p.WellPlaced() && Quiet(steps) && s in w.shards && s in p.nodes
    ensures var v, q, c := Run(w, steps, p), Taken(w, steps, p, s), w.shards[s].counters;
      && v.sent == w.sent && s in v.shards && v.shards[s].counters == AllAfter(c, q, p.shardOf)
      && AllAccepted(c, q, p.shardOf, p.nodes[s]) && w.applied <= v.applied
      && (forall b | b in q :: b in Waiting(w, s, p))
      && forall b | b in v.applied && KeyOf(b, p.shardOf) == s :: b in w.applied || b in q
    decreases |steps|
  {
    hide RunJobs, KeyOf, Accepts, AllAccepted, AllAfter, Sound;
    if steps == [] {
      NothingTaken(w.shards[s].counters, p.shardOf, p.nodes[s]);
    } else {
      var init, last := steps[..|steps| - 1], steps[|steps| - 1];
      QuietRun(w, init, p, s);
      WealthChanges(w, init, p);
      var v := Run(w, init, p);
      assert last in steps;
      if Accepted(v, last, p) {
        QuietStep(v, last, p);
        forall i | 0 <= i < |last.body.inputs|
          ensures KeyOf(last.body.inputs[i], p.shardOf) == last.shard && last.body.inputs[i] !in v.applied
        {
          AcceptedIsNew(v, p, last, i);
        }
        BlockByBlock(w.shards[s].counters, Taken(w, init, p, s), last.body.inputs, p.shardOf, p.nodes[s]);
      } else {
        RefusedStep(v, last, p);
      }
    }
  }

  lemma NothingTaken(c: Counters, shardOf: Sharding, home: Address)
    ensures AllAfter(c, [], shardOf) == c && AllAccepted(c, [], shardOf, home)
  {
  }

  lemma QuietStep(w: World, step: Step, p: Places)
    requires Accepted(w, step, p) && step.body.jobs == []
    ensures var v := After(w, step, p);
      && v.sent == w.sent && v.applied == w.applied + Elements(step.body.inputs) && step.shard in v.shards
      && v.shards[step.shard].counters == AllAfter(w.shards[step.shard].counters, step.body.inputs, p.shardOf)
      && (forall s | s in w.shards && s != step.shard :: s in v.shards && v.shards[s] == w.shards[s])
      && AllAccepted(w.shards[step.shard].counters, step.body.inputs, p.shardOf, p.nodes[step.shard])
  {
    assert Outputs([], p, step.shard) == [];
    assert Destinations([], p) == {};
  }

  /** Whether blocks that send nothing can apply everything that waits for the shard. */
  ghost predicate CanAllArrive(w: World, s: nat, p: Places) {
    exists steps :: Quiet(steps) && Waiting(w, s, p) <= Run(w, steps, p).applied
  }

  lemma WaitingInputs(w: World, s: nat, p: Places, b: Batch)
    requires Sound(w, p) && Addressed(w, p) && p.WellPlaced() && s in p.nodes && b in Waiting(w, s, p)
    ensures InputsOf(b, p.shardOf, p.nodes[s]) && KeyOf(b, p.shardOf) == s
  {
    hide KindOf, KeyOf;
    assert AddressedBatch(b, p) && b.lamp == p.lamp;
  }

  lemma OrderArrives(w: World, s: nat, p: Places)
    requires Sound(w, p) && Addressed(w, p) && p.WellPlaced() && s in w.shards && s in p.nodes
    requires Consecutive(Waiting(w, s, p), w.shards[s].counters, s)
    ensures CanAllArrive(w, s, p)
  {
    hide KeyOf, InputsOf, Sound, Addressed, AllAccepted, AllAfter, Numbered, InLine;
    var c, bs := w.shards[s].counters, Waiting(w, s, p);
    var q := Ordered(bs, c.BatchNonce(s));
    OrderedInLine(bs, q, c, s);
    forall b | b in q
      ensures KeyOf(b, p.shardOf) == s && InputsOf(b, p.shardOf, p.nodes[s])
    {
      WaitingInputs(w, s, p, b);
    }
    AcceptedIff(c, q, p.shardOf, p.nodes[s], s);
    var step := Step(s, p.nodes[s], Body([], 0, [], q), map[]);
    assert Accepted(w, step, p);
    QuietStep(w, step, p);
    assert [step][..0] == [];
    assert Run(w, [step], p) == After(w, step, p);
    assert Quiet([step]);
  }

  lemma ArrivalOrders(w: World, s: nat, p: Places, steps: seq<Step>)
    requires Sound(w, p) && Addressed(w, p) && p.WellPlaced() && s in w.shards && s in p.nodes
    requires Quiet(steps) && Waiting(w, s, p) <= Run(w, steps, p).applied
    ensures Consecutive(Waiting(w, s, p), w.shards[s].counters, s)
  {
    hide KeyOf, InputsOf, Sound, Addressed, AllAccepted, AllAfter, Numbered, InLine, Quiet, Consecutive;
    var c, q := w.shards[s].counters, Taken(w, steps, p, s);
    QuietRun(w, steps, p, s);
    forall b | b in q
      ensures KeyOf(b, p.shardOf) == s && InputsOf(b, p.shardOf, p.nodes[s])
    {
      WaitingInputs(w, s, p, b);
    }
    AcceptedIff(c, q, p.shardOf, p.nodes[s], s);
    forall i, j | 0 <= i < j < |q|
      ensures q[i] != q[j]
    {
      NeverTwice(c, q, p.shardOf, p.nodes[s], i, j);
    }
    InLineConsecutive(Waiting(w, s, p), q, c, s);
  }

  /**
    Everything that was sent to a shard and waits there can be applied, in some order and in any number of blocks,
    exactly if it is numbered consecutively from the shard's counter on, without repetition, with heights that rise
    along the numbers. Otherwise some of it waits until other batches are sent, or for ever.
   */
  lemma AllArriveIff(w: World, s: nat, p: Places)
    requires Sound(w, p) && Addressed(w, p) && p.WellPlaced() && s in w.shards && s in p.nodes
    ensures CanAllArrive(w, s, p) <==> Consecutive(Waiting(w, s, p), w.shards[s].counters, s)
  {
    hide Consecutive, Sound, Addressed, Quiet;
    if CanAllArrive(w, s, p) {
      var steps :| Quiet(steps) && Waiting(w, s, p) <= Run(w, steps, p).applied;
      ArrivalOrders(w, s, p, steps);
    }
    if Consecutive(Waiting(w, s, p), w.shards[s].counters, s) {
      OrderArrives(w, s, p);
    }
  }

  // ---------------------------------------------------------------------------------------------
  // How the program numbers its batches

  /** Each batch gets the number after the one that the sender's own state, after the block, has for its destination. */
  ghost predicate NumberedFromState(w: World, step: Step, p: Places)
    requires Accepted(w, step, p)
  {
    forall d | d in Destinations(Outputs(step.body.jobs, p, step.shard), p) ::
      && d in step.numbers
      && step.numbers[d] == ShardAfter(w.shards[step.shard], step, p).counters.BatchNonce(d) + 1
  }

  ghost predicate AllNumberedFromState(w: World, steps: seq<Step>, p: Places) {
    steps == [] ||
    (var init, last := steps[..|steps| - 1], steps[|steps| - 1];
     && AllNumberedFromState(w, init, p)
     && (Accepted(Run(w, init, p), last, p) ==> NumberedFromState(Run(w, init, p), last, p)))
  }

  /** Nothing was sent yet, and nothing was counted. */
  ghost predicate Fresh(w: World) {
    w.sent == w.applied == {} && forall s, key: nat | s in w.shards :: w.shards[s].counters.BatchNonce(key) == 0
  }

  /** A shard counts under its own key only, every batch sent is a number 1, and a shard that applied one has counted it. */
  ghost predicate OnlyOnes(w: World, p: Places) {
    && (forall s, key: nat | s in w.shards && key != s :: w.shards[s].counters.BatchNonce(key) == 0)
    && (forall b | b in w.sent :: b.nonce == 1)
    && (forall b | b in w.applied ::
          KeyOf(b, p.shardOf) in w.shards
          && w.shards[KeyOf(b, p.shardOf)].counters.BatchNonce(KeyOf(b, p.shardOf)) >= 1)
    && forall b, d | b in w.applied && d in w.applied && KeyOf(b, p.shardOf) == KeyOf(d, p.shardOf) :: b == d
  }

  /** A block counts under its own shard's key only. */
  lemma OtherKeysUntouched(w: World, step: Step, p: Places, key: nat)
    requires Sound(w, p) && p.WellPlaced() && Accepted(w, step, p) && key != step.shard
    ensures AllAfter(w.shards[step.shard].counters, step.body.inputs, p.shardOf).BatchNonce(key)
         == w.shards[step.shard].counters.BatchNonce(key)
  {
    hide RunJobs, KeyOf, AllAccepted, AllAfter, Sound;
    forall b | b in step.body.inputs
      ensures KeyOf(b, p.shardOf) != key
    {
      var i :| 0 <= i < |step.body.inputs| && step.body.inputs[i] == b;
      AcceptedIsNew(w, p, step, i);
    }
    Untouched(w.shards[step.shard].counters, step.body.inputs, p.shardOf, key);
  }

  /** Among number ones a block takes at most one, and only if its shard has counted none. */
  lemma TakesOne(w: World, step: Step, p: Places, i: nat)
    requires Sound(w, p) && p.WellPlaced() && OnlyOnes(w, p) && Accepted(w, step, p) && i < |step.body.inputs|
    ensures |step.body.inputs| == 1 && w.shards[step.shard].counters.BatchNonce(step.shard) == 0
    ensures AllAfter(w.shards[step.shard].counters, step.body.inputs, p.shardOf).BatchNonce(step.shard) == 1
    ensures forall b | b in w.applied :: KeyOf(b, p.shardOf) != step.shard
  {
    hide RunJobs, AllAccepted, AllAfter, Sound, KeyOf;
    var c, bs := w.shards[step.shard].counters, step.body.inputs;
    forall k | 0 <= k < |bs|
      ensures KeyOf(bs[k], p.shardOf) == step.shard && bs[k].nonce == 1 && c.BatchNonce(step.shard) == 0
    {
      assert bs[k] in bs;
      InputContinues(w, step, p, k);
    }
    if |bs| > 1 {
      InOrder(c, bs, p.shardOf, p.nodes[step.shard], 0, 1);
    }
    CountersTell(c, bs, p.shardOf, 0);
  }

  lemma BatchNumber(step: Step, height: nat, p: Places, d: nat)
    ensures BatchTo(step, height, p, d).nonce == if d in step.numbers then step.numbers[d] else 1
  {
  }

  lemma NumbersSent(w: World, step: Step, p: Places, height: nat, b: Batch)
    requires Sound(w, p) && p.WellPlaced() && OnlyOnes(w, p) && Accepted(w, step, p) && NumberedFromState(w, step, p)
    requires b in BatchesOf(step, height, p, Destinations(Outputs(step.body.jobs, p, step.shard), p))
    ensures b.nonce == 1
  {
    hide Sound, BatchTo, Destinations, Good, AllAfter, Processed;
    var d :| d in Destinations(Outputs(step.body.jobs, p, step.shard), p) && b == BatchTo(step, height, p, d);
    SentIsAddressed(step, height, p, d);
    BatchNumber(step, height, p, d);
    OtherKeysUntouched(w, step, p, d);
  }

  lemma OnlyOnesStep(w: World, step: Step, p: Places)
    requires Sound(w, p) && p.WellPlaced() && OnlyOnes(w, p) && Accepted(w, step, p) && NumberedFromState(w, step, p)
    ensures OnlyOnes(After(w, step, p), p)
  {
    hide Sound, Good, AllAfter, Processed, BatchesOf, KeyOf, NumberedFromState;
    var v, c := After(w, step, p), w.shards[step.shard];
    forall b | b in v.sent
      ensures b.nonce == 1
    {
      if b !in w.sent {
        NumbersSent(w, step, p, c.height + 1, b);
      }
    }
    forall key: nat | key != step.shard
      ensures v.shards[step.shard].counters.BatchNonce(key) == 0
    {
      OtherKeysUntouched(w, step, p, key);
    }
    if step.body.inputs == [] {
      assert Elements(step.body.inputs) == {};
      NothingTaken(c.counters, p.shardOf, p.nodes[step.shard]);
    } else {
      AcceptedIsNew(w, p, step, 0);
      TakesOne(w, step, p, 0);
      assert Elements(step.body.inputs) == {step.body.inputs[0]};
    }
  }

  lemma FreshOnes(w: World, p: Places)
    requires Fresh(w)
    ensures Sound(w, p) && OnlyOnes(w, p) && Addressed(w, p)
  {
  }

  lemma {:induction false} OnlyOnesKept(w: World, steps: seq<Step>, p: Places)
    requires Sound(w, p) && p.WellPlaced() && OnlyOnes(w, p) && AllNumberedFromState(w, steps, p)
    ensures OnlyOnes(Run(w, steps, p), p)
    decreases |steps|
  {
    hide Sound, OnlyOnes, Accepted, NumberedFromState;
    if steps != [] {
      var init, last := steps[..|steps| - 1], steps[|steps| - 1];
      OnlyOnesKept(w, init, p);
      WealthChanges(w, init, p);
      if Accepted(Run(w, init, p), last, p) {
        OnlyOnesStep(Run(w, init, p), last, p);
      } else {
        RefusedStep(Run(w, init, p), last, p);
      }
    }
  }

  /**
    If every block numbers its batches from its shard's own state, then over any run from a fresh start all batches are
    number 1, and of all that is ever sent to a shard at most one batch is applied.
   */
  lemma AtMostOneArrives(w: World, steps: seq<Step>, p: Places, b: Batch, d: Batch)
    requires Fresh(w) && p.WellPlaced() && AllNumberedFromState(w, steps, p)
    ensures b in Run(w, steps, p).sent ==> b.nonce == 1
    ensures b in Run(w, steps, p).applied && d in Run(w, steps, p).applied && KeyOf(b, p.shardOf) == KeyOf(d, p.shardOf) ==>
      b == d
  {
    FreshOnes(w, p);
    OnlyOnesKept(w, steps, p);
  }

  /** So what was sent to a shard that applied nothing yet can all arrive exactly if it is one batch at most. */
  lemma AllArriveIfOne(w: World, steps: seq<Step>, p: Places, s: nat)
    requires Fresh(w) && p.WellPlaced() && AllNumberedFromState(w, steps, p) && s in w.shards && s in p.nodes
    requires var v := Run(w, steps, p);
      s in v.shards && v.shards[s].counters.BatchNonce(s) == 0
      && forall b | b in Waiting(v, s, p) :: b.height > v.shards[s].counters.Height(s)
    ensures CanAllArrive(Run(w, steps, p), s, p) <==> |Waiting(Run(w, steps, p), s, p)| <= 1
  {
    hide Sound, Addressed, Fresh, AllNumberedFromState, Run, KeyOf, CanAllArrive;
    var v := Run(w, steps, p);
    FreshOnes(w, p);
    OnlyOnesKept(w, steps, p);
    WealthChanges(w, steps, p);
    AddressedKept(w, steps, p);
    AllArriveIff(v, s, p);
    NumberOnesConsecutive(Waiting(v, s, p), v.shards[s].counters, s);
  }

  lemma NumberOnesConsecutive(bs: set<Batch>, c: Counters, s: nat)
    requires c.BatchNonce(s) == 0 && forall b | b in bs :: b.nonce == 1 && b.height > c.Height(s)
    ensures Consecutive(bs, c, s) <==> |bs| <= 1
  {
    if bs != {} {
      var b :| b in bs;
      if |bs| <= 1 {
        assert bs == {b} by {
          if d :| d in bs && d != b {
            assert {b, d} <= bs;
            SubsetSize({b, d}, bs);
          }
        }
        assert Numbered(bs, 1);
      } else {
        assert bs != {b};
        var d :| d in bs && d != b;
      }
    }
  }

  // ---------------------------------------------------------------------------------------------
  // Two shards send to a third one

  function ThreeShards(): Places {
    Places((a: Address, lamp: nat) => a.id % 3, 1, map[0 := Address(0), 1 := Address(1), 2 := Address(2)])
  }

  function CoinShard(k: nat): Shard {
    Shard(Accounts(map[Address(k) := 1], map[]), Counters(map[], map[]), 0)
  }

  /** Accounts 0, 1 and 2 have a coin each, in shards 0, 1 and 2. */
  function ThreeCoins(): World {
    World(map[0 := CoinShard(0), 1 := CoinShard(1), 2 := CoinShard(2)], {}, {})
  }

  /** Account k gives its coin to account 0. */
  function CoinTx(k: nat): Tx {
    Tx(Address(k), true, 0, 0, 0, Some(Address(0)), 1, [], TYPE_ACT_CLAIM, 0)
  }

  function CoinJob(k: nat): Job {
    Job(CoinTx(k), Address(9), false, Execution([], [], 0, None, 0))
  }

  function SendStep(k: nat): Step {
    Step(k, Address(k), Body([CoinJob(k)], 0, [], []), map[0 := 1])
  }

  function CoinBatch(k: nat): Batch {
    Batch(k, 1, 1, 1, [CoinTx(k)])
  }

  function TakeStep(k: nat): Step {
    Step(0, Address(0), Body([], 0, [], [CoinBatch(k)]), map[])
  }

  lemma SendJoins(k: nat)
    requires 0 < k < 3
    ensures Joins(Progress(CoinShard(k).accounts, []), CoinJob(k), ThreeShards().At(k, Address(k)), 0)
  {
    hide Task.Applied;
  }

  lemma SendGood(k: nat)
    requires 0 < k < 3
    ensures Good(CoinShard(k).accounts, Counters(map[], map[]), SendStep(k).body, ThreeShards().At(k, Address(k)),
                 ThreeShards().shardOf, Address(k))
  {
    hide Joins, Joined;
    SendJoins(k);
    var acc, at := CoinShard(k).accounts, ThreeShards().At(k, Address(k));
    assert [CoinJob(k)][..0] == [];
    assert RunJobs(acc, [], at, 0) == Some(Progress(acc, []));
  }

  lemma SendOutputs(k: nat)
    requires 0 < k < 3
    ensures Outputs([CoinJob(k)], ThreeShards(), k) == [CoinTx(k)]
    ensures Destinations([CoinTx(k)], ThreeShards()) == {0}
    ensures BatchesOf(SendStep(k), 1, ThreeShards(), {0}) == {CoinBatch(k)}
  {
    assert [CoinJob(k)][..0] == [] && [CoinTx(k)][..0] == [];
    assert Outputs([], ThreeShards(), k) == [];
    assert ThreeShards().DestinationOf(CoinTx(k)) == 0;
    assert To([], ThreeShards(), {0}) == [];
    assert BatchTo(SendStep(k), 1, ThreeShards(), 0) == CoinBatch(k);
  }

  lemma Sends(w: World, k: nat)
    requires 0 < k < 3 && k in w.shards && w.shards[k] == CoinShard(k)
    ensures var v, p := After(w, SendStep(k), ThreeShards()), ThreeShards();
      && Accepted(w, SendStep(k), p) && NumberedFromState(w, SendStep(k), p)
      && v.sent == w.sent + {CoinBatch(k)} && v.applied == w.applied && k in v.shards
      && forall s | s in w.shards && s != k :: s in v.shards && v.shards[s] == w.shards[s]
  {
    hide Good, RunJobs, Processed, Outputs, Destinations, BatchesOf;
    SendGood(k);
    SendOutputs(k);
    assert Elements(SendStep(k).body.inputs) == {};
  }

  lemma TakeAccepted(w: World, k: nat)
    requires 0 in w.shards && w.shards[0] == CoinShard(0) && 0 < k < 3 && CoinBatch(k) in w.sent
    ensures Accepted(w, TakeStep(k), ThreeShards()) && NumberedFromState(w, TakeStep(k), ThreeShards())
    ensures KeyOf(CoinBatch(k), ThreeShards().shardOf) == 0
  {
    var p := ThreeShards();
    assert [CoinBatch(k)][..0] == [];
    assert AllAccepted(Counters(map[], map[]), [], p.shardOf, Address(0));
    assert AllAfter(Counters(map[], map[]), [], p.shardOf) == Counters(map[], map[]);
    assert Accepts(Counters(map[], map[]), CoinBatch(k), p.shardOf, Address(0));
    assert Outputs([], p, 0) == [] && Destinations([], p) == {};
  }

  /**
    From a fresh start, shards 1 and 2 send a coin each to shard 0, numbered as the program does it; shard 0 applies the
    first batch, and the second one is stranded: its coin arrives in no continuation.
   */
  lemma SecondCoinStrands(more: seq<Step>)
    ensures var p, steps := ThreeShards(), [SendStep(1), SendStep(2), TakeStep(1)];
      && Fresh(ThreeCoins()) && p.WellPlaced() && AllNumberedFromState(ThreeCoins(), steps, p)
      && Stranded(Run(ThreeCoins(), steps, p), CoinBatch(2), p)
      && Stranded(Run(Run(ThreeCoins(), steps, p), more, p), CoinBatch(2), p)
  {
    hide Accepted, NumberedFromState, AllNumberedFromState, Run, After, Sound, Stranded, KeyOf, RunJobs, SendStep, TakeStep,
      CoinBatch, CoinShard;
    var w, p := ThreeCoins(), ThreeShards();
    var w1 := After(w, SendStep(1), p);
    var w2 := After(w1, SendStep(2), p);
    Sends(w, 1);
    Sends(w1, 2);
    TakeAccepted(w2, 1);
    TakeAccepted(w2, 2);
    ThreeSteps(w, SendStep(1), SendStep(2), TakeStep(1), p);
    CoinsAreFresh();
    FreshOnes(w, p);
    StepKeepsSound(w, SendStep(1), p);
    StepKeepsSound(w1, SendStep(2), p);
    Differ();
    SameNumberStrands(w2, TakeStep(1), p, 0, CoinBatch(2));
    StepKeepsSound(w2, TakeStep(1), p);
    StrandedForever(After(w2, TakeStep(1), p), more, p, CoinBatch(2));
  }

  lemma CoinsAreFresh()
    ensures Fresh(ThreeCoins()) && ThreeShards().WellPlaced()
  {
  }

  lemma Differ()
    ensures TakeStep(1).shard == 0 && TakeStep(1).body.inputs == [CoinBatch(1)]
    ensures CoinBatch(2) != CoinBatch(1) && CoinBatch(2).nonce == CoinBatch(1).nonce
  {
  }

  lemma ThreeSteps(w: World, x: Step, y: Step, z: Step, p: Places)
    ensures var w1 := After(w, x, p);
      var w2 := After(w1, y, p);
      && Run(w, [x, y, z], p) == After(w2, z, p)
      && (AllNumberedFromState(w, [x, y, z], p) <==>
            && (Accepted(w, x, p) ==> NumberedFromState(w, x, p))
            && (Accepted(w1, y, p) ==> NumberedFromState(w1, y, p))
            && (Accepted(w2, z, p) ==> NumberedFromState(w2, z, p)))
  {
    hide Accepted, NumberedFromState, After;
    var steps := [x, y, z];
    assert steps[..2] == [x, y] && steps[..2][..1] == [x] && [x][..0] == [];
    assert Run(w, [x], p) == After(w, x, p);
    assert Run(w, [x, y], p) == After(After(w, x, p), y, p);
    assert AllNumberedFromState(w, [x], p) <==> (Accepted(w, x, p) ==> NumberedFromState(w, x, p));
    assert AllNumberedFromState(w, [x, y], p) <==>
      AllNumberedFromState(w, [x], p) && (Accepted(After(w, x, p), y, p) ==> NumberedFromState(After(w, x, p), y, p));
  }
}
