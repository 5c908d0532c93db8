/** Batches of inputs from other shards: which are accepted, and what they credit. */
module Batches {
  import opened Types
  import opened Ledger

  /** Transfers that left one shard for another in one block. */
  datatype Batch = Batch(source: nat, height: nat, nonce: Nonce, lamp: nat, txs: seq<Tx>)

  /** The shard of an address at a lamp height. */
  type Sharding = (Address, nat) -> nat

  datatype TxKind = Local | Input | Output | Foreign

  function Recipient(tx: Tx): Address {
    if tx.to.Some? then tx.to.value else tx.from
  }

  /** How a transaction concerns the shard `own`; a creation counts as sent to its sender. */
  function KindOf(tx: Tx, shardOf: Sharding, lamp: nat, own: nat): TxKind {
    var fromHere, toHere := shardOf(tx.from, lamp) == own, shardOf(Recipient(tx), lamp) == own;
    if fromHere && toHere then Local else if toHere then Input else if fromHere then Output else Foreign
  }

  /** The key under which heights and numbers of batches are kept. */
  function KeyOf(b: Batch, shardOf: Sharding): nat {
    if b.txs == [] || b.txs[0].to.None? then 0 else shardOf(b.txs[0].to.value, b.lamp)
  }

  datatype Counters = Counters(heights: map<nat, nat>, nonces: map<nat, nat>)
  {
    function Height(key: nat): nat {
      if key in heights then heights[key] else 0
    }

    function BatchNonce(key: nat): nat {
      if key in nonces then nonces[key] else 0
    }
  }

  /** The batch is higher and numbered next under its key, and holds inputs of this shard only. */
  predicate Accepts(c: Counters, b: Batch, shardOf: Sharding, home: Address) {
    var key := KeyOf(b, shardOf);
    && b.height > c.Height(key) && b.nonce == c.BatchNonce(key) + 1
    && forall tx | tx in b.txs :: KindOf(tx, shardOf, b.lamp, shardOf(home, b.lamp)) == Input
  }

  function CountersAfter(c: Counters, b: Batch, shardOf: Sharding): Counters {
    Counters(c.heights[KeyOf(b, shardOf) := b.height], c.nonces[KeyOf(b, shardOf) := b.nonce])
  }

  function Credited(m: Balances, txs: seq<Tx>): Balances {
    if txs == [] then m
    else
      var last := txs[|txs| - 1];
      Plus(Credited(m, txs[..|txs| - 1]), Recipient(last), last.value)
  }

  function ValueOf(txs: seq<Tx>): int {
    if txs == [] then 0 else ValueOf(txs[..|txs| - 1]) + txs[|txs| - 1].value
  }

  lemma ValueNext(txs: seq<Tx>, tx: Tx)
    ensures ValueOf(txs + [tx]) == ValueOf(txs) + tx.value
  {
    assert (txs + [tx])[..|txs|] == txs;
  }

  lemma {:induction false} CreditedTotal(m: Balances, txs: seq<Tx>)
    ensures Sum(Credited(m, txs)) == Sum(m) + ValueOf(txs)
    decreases |txs|
  {
    if txs != [] {
      var init := txs[..|txs| - 1];
      CreditedTotal(m, init);
      SumPlus(Credited(m, init), Recipient(txs[|txs| - 1]), txs[|txs| - 1].value);
    }
  }

  /** What transactions carry to one account. */
  function ValueTo(txs: seq<Tx>, a: Address): int {
    if txs == [] then 0
    else
      var last := txs[|txs| - 1];
      ValueTo(txs[..|txs| - 1], a) + if last.to == Some(a) || (last.to.None? && last.from == a) then last.value else 0
  }

  /** Each recipient gets exactly what is sent to it. */
  lemma {:induction false} CreditedShows(m: Balances, txs: seq<Tx>, a: Address)
    ensures Get(Credited(m, txs), a) == Get(m, a) + ValueTo(txs, a)
    decreases |txs|
  {
    if txs != [] {
      CreditedShows(m, txs[..|txs| - 1], a);
    }
  }

  // ---------------------------------------------------------------------------------------------
  // Sequences of batches

  function AllAfter(c: Counters, bs: seq<Batch>, shardOf: Sharding): Counters {
    if bs == [] then c else CountersAfter(AllAfter(c, bs[..|bs| - 1], shardOf), bs[|bs| - 1], shardOf)
  }

  predicate AllAccepted(c: Counters, bs: seq<Batch>, shardOf: Sharding, home: Address) {
    bs == [] ||
    (AllAccepted(c, bs[..|bs| - 1], shardOf, home)
     && Accepts(AllAfter(c, bs[..|bs| - 1], shardOf), bs[|bs| - 1], shardOf, home))
  }

  function AllCredited(m: Balances, bs: seq<Batch>): Balances {
    if bs == [] then m else Credited(AllCredited(m, bs[..|bs| - 1]), bs[|bs| - 1].txs)
  }

  function TotalValue(bs: seq<Batch>): int {
    if bs == [] then 0 else TotalValue(bs[..|bs| - 1]) + ValueOf(bs[|bs| - 1].txs)
  }

  lemma {:induction false} AllCreditedTotal(m: Balances, bs: seq<Batch>)
    ensures Sum(AllCredited(m, bs)) == Sum(m) + TotalValue(bs)
    decreases |bs|
  {
    if bs != [] {
      AllCreditedTotal(m, bs[..|bs| - 1]);
      CreditedTotal(AllCredited(m, bs[..|bs| - 1]), bs[|bs| - 1].txs);
    }
  }

  function TotalTo(bs: seq<Batch>, a: Address): int {
    if bs == [] then 0 else TotalTo(bs[..|bs| - 1], a) + ValueTo(bs[|bs| - 1].txs, a)
  }

  lemma {:induction false} AllCreditedShows(m: Balances, bs: seq<Batch>, a: Address)
    ensures Get(AllCredited(m, bs), a) == Get(m, a) + TotalTo(bs, a)
    decreases |bs|
  {
    if bs != [] {
      AllCreditedShows(m, bs[..|bs| - 1], a);
      CreditedShows(AllCredited(m, bs[..|bs| - 1]), bs[|bs| - 1].txs, a);
    }
  }

  /** Accepting batches block by block is accepting all of them. */
  lemma {:induction false} BlockByBlock(c: Counters, xs: seq<Batch>, ys: seq<Batch>, shardOf: Sharding, home: Address)
    ensures AllAfter(c, xs + ys, shardOf) == AllAfter(AllAfter(c, xs, shardOf), ys, shardOf)
    ensures AllAccepted(c, xs + ys, shardOf, home) <==>
      AllAccepted(c, xs, shardOf, home) && AllAccepted(AllAfter(c, xs, shardOf), ys, shardOf, home)
    decreases |ys|
  {
    if ys == [] {
      assert xs + ys == xs;
    } else {
      var init := ys[..|ys| - 1];
      assert (xs + ys)[..|xs + ys| - 1] == xs + init;
      BlockByBlock(c, xs, init, shardOf, home);
    }
  }

  /** The latest batch under a key tells its counters; before the first one they are the initial ones. */
  lemma {:induction false} CountersTell(c: Counters, bs: seq<Batch>, shardOf: Sharding, i: nat)
    requires i < |bs| && forall j | i < j < |bs| :: KeyOf(bs[j], shardOf) != KeyOf(bs[i], shardOf)
    ensures AllAfter(c, bs, shardOf).Height(KeyOf(bs[i], shardOf)) == bs[i].height
    ensures AllAfter(c, bs, shardOf).BatchNonce(KeyOf(bs[i], shardOf)) == bs[i].nonce
    decreases |bs|
  {
    if i < |bs| - 1 {
      CountersTell(c, bs[..|bs| - 1], shardOf, i);
    }
  }

  lemma {:induction false} CountersGrow(c: Counters, bs: seq<Batch>, shardOf: Sharding, home: Address, key: nat, i: nat)
    requires AllAccepted(c, bs, shardOf, home) && i <= |bs|
    ensures AllAccepted(c, bs[..i], shardOf, home)
    ensures AllAfter(c, bs[..i], shardOf).Height(key) <= AllAfter(c, bs, shardOf).Height(key)
    ensures AllAfter(c, bs[..i], shardOf).BatchNonce(key) <= AllAfter(c, bs, shardOf).BatchNonce(key)
    decreases |bs| - i
  {
    if i < |bs| {
      var init := bs[..|bs| - 1];
      CountersGrow(c, init, shardOf, home, key, i);
      assert init[..i] == bs[..i];
    } else {
      assert bs[..i] == bs;
    }
  }

  /** Each accepted batch was acceptable when its turn came. */
  lemma {:induction false} AcceptedInTurn(c: Counters, bs: seq<Batch>, shardOf: Sharding, home: Address, i: nat)
    requires AllAccepted(c, bs, shardOf, home) && i < |bs|
    ensures Accepts(AllAfter(c, bs[..i], shardOf), bs[i], shardOf, home)
    decreases |bs|
  {
    if i < |bs| - 1 {
      AcceptedInTurn(c, bs[..|bs| - 1], shardOf, home, i);
      assert bs[..|bs| - 1][..i] == bs[..i];
    }
  }

  /** Under one key, heights and numbers strictly increase, and consecutive batches are numbered consecutively. */
  lemma InOrder(c: Counters, bs: seq<Batch>, shardOf: Sharding, home: Address, i: nat, j: nat)
    requires AllAccepted(c, bs, shardOf, home) && i < j < |bs| && KeyOf(bs[i], shardOf) == KeyOf(bs[j], shardOf)
    ensures bs[i].height < bs[j].height && bs[i].nonce < bs[j].nonce
    ensures (forall k | i < k < j :: KeyOf(bs[k], shardOf) != KeyOf(bs[i], shardOf)) ==> bs[j].nonce == bs[i].nonce + 1
  {
    var key := KeyOf(bs[i], shardOf);
    var before := bs[..j];
    AcceptedInTurn(c, bs, shardOf, home, j);
    CountersGrow(c, bs, shardOf, home, key, j);
    CountersGrow(c, before, shardOf, home, key, i + 1);
    assert before[..i + 1] == bs[..i + 1];
    CountersTell(c, bs[..i + 1], shardOf, i);
    if forall k | i < k < j :: KeyOf(bs[k], shardOf) != key {
      CountersTell(c, before, shardOf, i);
    }
  }

  /** The first batch under a key continues the initial counters. */
  lemma {:induction false} FirstInOrder(c: Counters, bs: seq<Batch>, shardOf: Sharding, home: Address, i: nat)
    requires AllAccepted(c, bs, shardOf, home) && i < |bs|
    requires forall k | 0 <= k < i :: KeyOf(bs[k], shardOf) != KeyOf(bs[i], shardOf)
    ensures bs[i].nonce == c.BatchNonce(KeyOf(bs[i], shardOf)) + 1 && bs[i].height > c.Height(KeyOf(bs[i], shardOf))
  {
    AcceptedInTurn(c, bs, shardOf, home, i);
    Untouched(c, bs[..i], shardOf, KeyOf(bs[i], shardOf));
  }

  lemma {:induction false} Untouched(c: Counters, bs: seq<Batch>, shardOf: Sharding, key: nat)
    requires forall b | b in bs :: KeyOf(b, shardOf) != key
    ensures AllAfter(c, bs, shardOf).Height(key) == c.Height(key)
    ensures AllAfter(c, bs, shardOf).BatchNonce(key) == c.BatchNonce(key)
    decreases |bs|
  {
    if bs != [] {
      Untouched(c, bs[..|bs| - 1], shardOf, key);
    }
  }

  /** No batch is applied twice, in however many blocks. */
  lemma NeverTwice(c: Counters, bs: seq<Batch>, shardOf: Sharding, home: Address, i: nat, j: nat)
    requires AllAccepted(c, bs, shardOf, home) && i < j < |bs|
    ensures bs[i] != bs[j]
  {
    if KeyOf(bs[i], shardOf) == KeyOf(bs[j], shardOf) {
      InOrder(c, bs, shardOf, home, i, j);
    }
  }

  /** The key of an accepted batch with transactions is this shard itself, whichever shard the batch comes from. */
  lemma AcceptedKey(c: Counters, b: Batch, shardOf: Sharding, home: Address)
    requires Accepts(c, b, shardOf, home) && b.txs != []
    ensures KeyOf(b, shardOf) == shardOf(home, b.lamp)
  {
    assert KindOf(b.txs[0], shardOf, b.lamp, shardOf(home, b.lamp)) == Input;
  }

  /** Whatever an accepted batch credits was sent to this shard from another one. */
  lemma CreditsCrossing(c: Counters, b: Batch, shardOf: Sharding, home: Address, tx: Tx)
    requires Accepts(c, b, shardOf, home) && tx in b.txs
    ensures var here := shardOf(home, b.lamp);
      && shardOf(tx.from, b.lamp) != here && tx.to.Some? && shardOf(tx.to.value, b.lamp) == here
  {
    assert KindOf(tx, shardOf, b.lamp, shardOf(home, b.lamp)) == Input;
  }

  /** So batches of different shards share one numbering: of two with the same number only one is ever applied. */
  lemma SourcesShareNumbers(c: Counters, bs: seq<Batch>, shardOf: Sharding, home: Address, i: nat, j: nat)
    requires AllAccepted(c, bs, shardOf, home) && i < j < |bs|
    requires bs[i].txs != [] && bs[j].txs != [] && bs[i].lamp == bs[j].lamp
    ensures bs[i].nonce != bs[j].nonce
  {
    AcceptedInTurn(c, bs, shardOf, home, i);
    AcceptedInTurn(c, bs, shardOf, home, j);
    AcceptedKey(AllAfter(c, bs[..i], shardOf), bs[i], shardOf, home);
    AcceptedKey(AllAfter(c, bs[..j], shardOf), bs[j], shardOf, home);
    InOrder(c, bs, shardOf, home, i, j);
  }

  // ---------------------------------------------------------------------------------------------
  // When batches under one key are accepted

  /** Numbers continue the counter one by one, and heights rise above the counter's. */
  predicate InLine(c: Counters, bs: seq<Batch>, key: nat) {
    && (forall i | 0 <= i < |bs| :: bs[i].nonce == c.BatchNonce(key) + 1 + i && bs[i].height > c.Height(key))
    && (forall i, j | 0 <= i < j < |bs| :: bs[i].height < bs[j].height)
  }

  predicate InputsOf(b: Batch, shardOf: Sharding, home: Address) {
    forall tx | tx in b.txs :: KindOf(tx, shardOf, b.lamp, shardOf(home, b.lamp)) == Input
  }

  lemma InLineInit(c: Counters, bs: seq<Batch>, key: nat)
    requires bs != []
    ensures var init, last := bs[..|bs| - 1], bs[|bs| - 1];
      InLine(c, bs, key) <==>
        && InLine(c, init, key) && last.nonce == c.BatchNonce(key) + |bs|
        && last.height > (if init == [] then c.Height(key) else init[|init| - 1].height)
  {
    var init, last := bs[..|bs| - 1], bs[|bs| - 1];
    assert forall i | 0 <= i < |init| :: init[i] == bs[i];
    if InLine(c, init, key) && last.height > (if init == [] then c.Height(key) else init[|init| - 1].height) {
      assert forall i | 0 <= i < |init| :: init[i].height <= init[|init| - 1].height;
    }
  }

  /** Batches of inputs under one key are accepted, all in their turn, exactly if they are in line. */
  lemma {:induction false} AcceptedIff(c: Counters, bs: seq<Batch>, shardOf: Sharding, home: Address, key: nat)
    requires forall b | b in bs :: KeyOf(b, shardOf) == key && InputsOf(b, shardOf, home)
    ensures AllAccepted(c, bs, shardOf, home) <==> InLine(c, bs, key)
    ensures InLine(c, bs, key) ==>
      && AllAfter(c, bs, shardOf).BatchNonce(key) == c.BatchNonce(key) + |bs|
      && AllAfter(c, bs, shardOf).Height(key) == if bs == [] then c.Height(key) else bs[|bs| - 1].height
    decreases |bs|
  {
    hide InLine, KeyOf;
    if bs == [] {
      NoneInLine(c, key);
    } else {
      var init := bs[..|bs| - 1];
      assert bs[|bs| - 1] in bs;
      AcceptedIff(c, init, shardOf, home, key);
      InLineInit(c, bs, key);
    }
  }

  lemma NoneInLine(c: Counters, key: nat)
    ensures InLine(c, [], key)
  {
  }
}
