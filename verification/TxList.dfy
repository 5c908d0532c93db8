/** The per-account transaction lists: values with their operations, and the class that refines them. */
module TxLists {
  import opened Types
  import opened NonceMap
  import opened Seqs
  import SortedMap

  /** The price a replacement has to reach, in whole units rounded down. */
  function BumpThreshold(oldPrice: nat, priceBump: nat): nat {
    oldPrice * (100 + priceBump) / 100
  }

  predicate Outbids(tx: Tx, prev: Tx, priceBump: nat) {
    prev.gasPrice < tx.gasPrice && BumpThreshold(prev.gasPrice, priceBump) <= tx.gasPrice
  }

  /** In whole units: a replacement is dearer, and reaches the old price raised by the bump but for less than one unit. */
  lemma OutbidsIff(tx: Tx, prev: Tx, priceBump: nat)
    ensures Outbids(tx, prev, priceBump) <==>
      tx.gasPrice > prev.gasPrice && 100 * (tx.gasPrice + 1) > prev.gasPrice * (100 + priceBump)
  {
    var raised := prev.gasPrice * (100 + priceBump);
    assert 100 * (raised / 100) <= raised < 100 * (raised / 100 + 1);
  }

  predicate Unpayable(tx: Tx, costLimit: int, gasLimit: nat, lampHeight: nat) {
    (!tx.IsFreeAct(lampHeight) && tx.Cost() > costLimit) || tx.gas > gasLimit
  }

  /** Which transactions a payability filter drops. */
  function Selector(costLimit: int, gasLimit: nat, lampHeight: nat): Tx -> bool {
    (tx: Tx) => Unpayable(tx, costLimit, gasLimit, lampHeight)
  }

  /** Which transactions a strict list cannot keep above a hole at `nonce`. */
  function Above(nonce: nat): Tx -> bool {
    (tx: Tx) => tx.nonce > nonce
  }

  /** What one account's list holds. */
  datatype ListValue = ListValue(strict: bool, items: Items, costcap: int, gascap: nat)
  {
    predicate Admits(tx: Tx, priceBump: nat) {
      tx.nonce in items ==> Outbids(tx, items[tx.nonce], priceBump)
    }

    function Replaced(tx: Tx): Option<Tx> {
      if tx.nonce in items then Some(items[tx.nonce]) else None
    }

    function Added(tx: Tx): ListValue {
      ListValue(strict, items[tx.nonce := tx],
                if costcap < tx.Cost() then tx.Cost() else costcap,
                if gascap < tx.gas then tx.gas else gascap)
    }

    function Forwarded(threshold: nat): ListValue {
      this.(items := AtLeast(items, threshold))
    }

    predicate ShortCircuits(costLimit: int, gasLimit: nat) {
      costcap <= costLimit && gascap <= gasLimit
    }

    function FilterRemoved(costLimit: int, gasLimit: nat, lampHeight: nat): Items {
      if ShortCircuits(costLimit, gasLimit) then map[]
      else Dropped(items, Selector(costLimit, gasLimit, lampHeight))
    }

    /** In strict mode, what is payable but follows a removed transaction. */
    function FilterInvalid(costLimit: int, gasLimit: nat, lampHeight: nat): Items {
      var removed := FilterRemoved(costLimit, gasLimit, lampHeight);
      if strict then map n | n in items && n !in removed && Follows(n, removed) :: items[n] else map[]
    }

    function Filtered(costLimit: int, gasLimit: nat, lampHeight: nat): ListValue {
      if ShortCircuits(costLimit, gasLimit) then this
      else
        var removed := FilterRemoved(costLimit, gasLimit, lampHeight);
        ListValue(strict, map n | n in items && n !in removed && !(strict && Follows(n, removed)) :: items[n],
                  costLimit, gasLimit)
    }

    function Capped(limit: nat): ListValue {
      this.(items := Lowest(items, limit))
    }

    function Removed(nonce: nat): ListValue {
      if nonce !in items then this
      else if strict then this.(items := Below(items, nonce))
      else this.(items := items - {nonce})
    }

    /** In strict mode, what removing `nonce` invalidates. */
    function RemoveInvalid(nonce: nat): Items {
      if strict && nonce in items then AtLeast(items, nonce + 1) else map[]
    }

    function Promoted(start: nat): ListValue {
      this.(items := AfterReady(items, start))
    }
  }

  predicate Follows(n: nat, removed: Items) {
    exists r | r in removed :: r < n
  }


  const EMPTY_LOOSE := ListValue(false, map[], 0, 0)

  /** The list object: a sorted map and the two cached caps. */
  class TxList {
    const strict: bool
    const txs: SortedMap.TxSortedMap
    var costcap: int
    var gascap: nat

    ghost predicate Valid()
      reads this, txs
    {
      txs.Valid()
    }

    ghost function Value(): ListValue
      reads this, txs
    {
      ListValue(strict, txs.items, costcap, gascap)
    }

    constructor (strict: bool)
      ensures Valid() && fresh(txs) && Value() == ListValue(strict, map[], 0, 0)
    {
      this.strict := strict;
      txs := new SortedMap.TxSortedMap();
      costcap, gascap := 0, 0;
    }

    /** Inserts unless an older transaction with the same nonce is not outbid. */
    method Add(tx: Tx, priceBump: nat) returns (inserted: bool, replaced: Option<Tx>)
      requires Valid()
      modifies this, txs
      ensures Valid() && inserted == old(Value()).Admits(tx, priceBump)
      ensures Value() == if inserted then old(Value()).Added(tx) else old(Value())
      ensures replaced == if inserted then old(Value()).Replaced(tx) else None
    {
      var prev := txs.Get(tx.nonce);
      if prev.Some? {
        var threshold := prev.value.gasPrice * (100 + priceBump) / 100;
        if prev.value.gasPrice >= tx.gasPrice || threshold > tx.gasPrice {
          return false, None;
        }
      }
      txs.Put(tx);
      var cost := tx.Cost();
      if costcap < cost {
        costcap := cost;
      }
      if gascap < tx.gas {
        gascap := tx.gas;
      }
      return true, prev;
    }

    method Forward(threshold: nat) returns (removed: seq<Tx>)
      requires Valid()
      modifies this, txs
      ensures Valid() && Value() == old(Value()).Forwarded(threshold)
      ensures IsFlat(Below(old(Value()).items, threshold), removed)
    {
      removed := txs.Forward(threshold);
    }

    /** Drops what the account cannot pay for and, in strict mode, everything after it. */
    method Filter(costLimit: int, gasLimit: nat, lampHeight: nat) returns (removed: seq<Tx>, invalids: seq<Tx>)
      requires Valid()
      modifies this, txs
      ensures Valid() && Value() == old(Value()).Filtered(costLimit, gasLimit, lampHeight)
      ensures Enumerates(old(Value()).FilterRemoved(costLimit, gasLimit, lampHeight), removed)
      ensures Enumerates(old(Value()).FilterInvalid(costLimit, gasLimit, lampHeight), invalids)
    {
      ghost var was := Value();
      if costcap <= costLimit && gascap <= gasLimit {
        return [], [];
      }
      costcap, gascap := costLimit, gasLimit;
      removed := txs.Filter(Selector(costLimit, gasLimit, lampHeight));
      ghost var dropped := was.FilterRemoved(costLimit, gasLimit, lampHeight);
      invalids := [];
      assert forall n | n in dropped :: dropped[n] in removed;
      if strict && |removed| > 0 {
        var lowest := LowestNonce(removed);
        ghost var kept := txs.items;
        invalids := txs.Filter(Above(lowest));
        StrictCut(was, costLimit, gasLimit, lampHeight, kept, removed, lowest);
      } else if strict {
        assert dropped == map[];
        assert txs.items == was.items;
      }
    }

    method Cap(threshold: nat) returns (drops: seq<Tx>)
      requires Valid()
      modifies this, txs
      ensures Valid() && Value() == old(Value()).Capped(threshold)
      ensures Descending(drops) && SameTxs(Excess(old(Value()).items, threshold), drops)
    {
      drops := txs.Cap(threshold);
    }

    /** Removes by nonce; in strict mode also everything above. */
    method Remove(tx: Tx) returns (found: bool, invalids: seq<Tx>)
      requires Valid()
      modifies this, txs
      ensures Valid() && found == (tx.nonce in old(Value()).items)
      ensures Value() == old(Value()).Removed(tx.nonce)
      ensures Enumerates(old(Value()).RemoveInvalid(tx.nonce), invalids)
    {
      hide Enumerates, Keyed, Keep, Dropped, Below, AtLeast;
      var nonce: nat := tx.nonce;
      ghost var was := txs.items;
      ValidKeyed();
      found := txs.Remove(nonce);
      invalids := [];
      RemovedCut(was, nonce);
      if found && strict {
        invalids := txs.Filter(Above(nonce));
      }
    }

    lemma ValidKeyed()
      requires Valid()
      ensures Keyed(txs.items)
    {
    }

    method Ready(start: nat) returns (ready: seq<Tx>)
      requires Valid()
      modifies this, txs
      ensures Valid() && Value() == old(Value()).Promoted(start)
      ensures IsFlat(ReadyRun(old(Value()).items, start), ready)
    {
      ready := txs.Ready(start);
    }

    method Flatten() returns (list: seq<Tx>)
      requires Valid()
      modifies this, txs
      ensures Valid() && Value() == old(Value()) && IsFlat(Value().items, list)
    {
      list := txs.Flatten();
    }
  }

  /** Dropping what is above a removed nonce leaves what was below it. */
  lemma RemovedCut(m: Items, nonce: nat)
    requires Keyed(m)
    ensures nonce !in m ==> m - {nonce} == m
    ensures Keep(m - {nonce}, Above(nonce)) == Below(m, nonce)
    ensures Dropped(m - {nonce}, Above(nonce)) == AtLeast(m, nonce + 1)
    ensures Enumerates(map[], [])
  {
    assert Keep(m - {nonce}, Above(nonce)) == Below(m, nonce);
    assert Dropped(m - {nonce}, Above(nonce)) == AtLeast(m, nonce + 1);
  }

  method LowestNonce(txs: seq<Tx>) returns (lowest: nat)
    requires txs != []
    ensures forall t | t in txs :: lowest <= t.nonce
    ensures exists t | t in txs :: lowest == t.nonce
  {
    lowest := MAX_UINT64;
    for i := 0 to |txs|
      invariant forall k | 0 <= k < i :: lowest <= txs[k].nonce
      invariant if i == 0 then lowest == MAX_UINT64 else exists k | 0 <= k < i :: lowest == txs[k].nonce
    {
      if lowest > txs[i].nonce {
        lowest := txs[i].nonce;
      }
    }
  }

  /** Cutting above the lowest removed nonce leaves the filtered list and returns its invalidated part. */
  lemma StrictCut(l: ListValue, costLimit: int, gasLimit: nat, lampHeight: nat,
                  kept: Items, removed: seq<Tx>, lowest: nat)
    requires l.strict && Keyed(l.items) && !l.ShortCircuits(costLimit, gasLimit)
    requires kept == Keep(l.items, Selector(costLimit, gasLimit, lampHeight))
    requires Enumerates(l.FilterRemoved(costLimit, gasLimit, lampHeight), removed)
    requires forall t | t in removed :: lowest <= t.nonce
    requires exists t | t in removed :: lowest == t.nonce
    ensures Keep(kept, Above(lowest)) == l.Filtered(costLimit, gasLimit, lampHeight).items
    ensures Dropped(kept, Above(lowest)) == l.FilterInvalid(costLimit, gasLimit, lampHeight)
  {
  }

  // ---------------------------------------------------------------------------------------------
  // The caps over whole runs

  datatype ListOp =
    | OpAdd(tx: Tx, priceBump: nat)
    | OpForward(threshold: nat)
    | OpFilter(costLimit: int, gasLimit: nat, lampHeight: nat)
    | OpCap(limit: nat)
    | OpRemove(nonce: nat)
    | OpReady(start: nat)

  function Apply(l: ListValue, op: ListOp): ListValue {
    match op
    case OpAdd(tx, bump) => if l.Admits(tx, bump) then l.Added(tx) else l
    case OpForward(threshold) => l.Forwarded(threshold)
    case OpFilter(cost, gas, lamp) => l.Filtered(cost, gas, lamp)
    case OpCap(limit) => l.Capped(limit)
    case OpRemove(nonce) => l.Removed(nonce)
    case OpReady(start) => l.Promoted(start)
  }

  function Run(l: ListValue, ops: seq<ListOp>): ListValue {
    if ops == [] then l else Apply(Run(l, ops[..|ops| - 1]), ops[|ops| - 1])
  }

  /** Every gas limit is within `gascap`, and every cost within `costcap` unless the act can ever be free. */
  ghost predicate Bounded(l: ListValue) {
    forall n | n in l.items ::
      l.items[n].nonce == n && l.items[n].gas <= l.gascap
      && (l.items[n].IsClaimOrVerify() || l.items[n].Cost() <= l.costcap)
  }

  /** As `Bounded`, where only acts that are free at this height may exceed `costcap`. */
  ghost predicate BoundedAt(l: ListValue, lampHeight: nat) {
    Bounded(l) && forall n | n in l.items :: l.items[n].IsFreeAct(lampHeight) || l.items[n].Cost() <= l.costcap
  }

  /** Free acts are free at both heights or at neither. */
  predicate SameEra(h: nat, k: nat) {
    h <= FREE_HEIGHT <==> k <= FREE_HEIGHT
  }

  lemma {:induction false} RunKeepsBounded(strict: bool, ops: seq<ListOp>)
    ensures Bounded(Run(ListValue(strict, map[], 0, 0), ops))
  {
    if ops != [] {
      RunKeepsBounded(strict, ops[..|ops| - 1]);
    }
  }

  /** If no filter of a run crossed into the other era, only acts free in that era exceed `costcap`. */
  lemma {:induction false} RunKeepsBoundedAt(strict: bool, ops: seq<ListOp>, h: nat)
    requires forall op | op in ops && op.OpFilter? :: SameEra(op.lampHeight, h)
    ensures BoundedAt(Run(ListValue(strict, map[], 0, 0), ops), h)
  {
    if ops != [] {
      var init := ops[..|ops| - 1];
      assert forall op | op in init :: op in ops;
      assert ops[|ops| - 1] in ops;
      RunKeepsBoundedAt(strict, init, h);
      RunKeepsBounded(strict, ops);
    }
  }

  /** What a filter without the cached caps would leave. */
  function FullScan(l: ListValue, costLimit: int, gasLimit: nat, lampHeight: nat): Items {
    var removed := Dropped(l.items, Selector(costLimit, gasLimit, lampHeight));
    map n | n in l.items && n !in removed && !(l.strict && Follows(n, removed)) :: l.items[n]
  }

  /**
    After any run, the filter agrees with the full scan exactly unless the caps short-circuit it beyond the
    free height while a claim or verification costs more than the limit.
   */
  lemma FilterAgreesIff(strict: bool, ops: seq<ListOp>, costLimit: int, gasLimit: nat, lampHeight: nat)
    ensures var l := Run(ListValue(strict, map[], 0, 0), ops);
      l.Filtered(costLimit, gasLimit, lampHeight).items == FullScan(l, costLimit, gasLimit, lampHeight)
      <==> !(l.ShortCircuits(costLimit, gasLimit) && lampHeight > FREE_HEIGHT
             && exists n | n in l.items :: l.items[n].IsClaimOrVerify() && l.items[n].Cost() > costLimit)
  {
    RunKeepsBounded(strict, ops);
    var l := Run(ListValue(strict, map[], 0, 0), ops);
    var removed := Dropped(l.items, Selector(costLimit, gasLimit, lampHeight));
    if l.ShortCircuits(costLimit, gasLimit) {
      if n :| n in l.items && l.items[n].IsClaimOrVerify() && l.items[n].Cost() > costLimit && lampHeight > FREE_HEIGHT {
        assert n in removed && n !in FullScan(l, costLimit, gasLimit, lampHeight);
      } else {
        assert removed == map[];
        assert FullScan(l, costLimit, gasLimit, lampHeight) == l.items;
      }
    }
  }

  /** In runs whose filters stay in one era the short circuit is exact. */
  lemma {:induction false} FilterAgreesInEra(strict: bool, ops: seq<ListOp>, costLimit: int, gasLimit: nat, lampHeight: nat)
    requires forall op | op in ops && op.OpFilter? :: SameEra(op.lampHeight, lampHeight)
    ensures var l := Run(ListValue(strict, map[], 0, 0), ops);
      l.Filtered(costLimit, gasLimit, lampHeight).items == FullScan(l, costLimit, gasLimit, lampHeight)
  {
    RunKeepsBoundedAt(strict, ops, lampHeight);
    FilterAgreesIff(strict, ops, costLimit, gasLimit, lampHeight);
  }

  /** The caps can miss: a claim kept while it was free stays once it no longer is. */
  lemma StaleClaimSurvives(a: Address)
    ensures exists ops: seq<ListOp>, c: int, g: nat, h: nat ::
      var l := Run(EMPTY_LOOSE, ops);
      l.Filtered(c, g, h).items != FullScan(l, c, g, h)
  {
    var tx := Tx(a, true, 0, 1, 10, None, 0, [], TYPE_ACT_CLAIM, 0);
    var ops := [OpAdd(tx, 10), OpFilter(5, 10, 500)];
    assert ops[..1] == [OpAdd(tx, 10)] && ops[..1][..0] == [];
    var l0 := Run(EMPTY_LOOSE, []);
    var l1 := Run(EMPTY_LOOSE, ops[..1]);
    assert l1 == Apply(l0, ops[0]) == EMPTY_LOOSE.Added(tx);
    var l := Run(EMPTY_LOOSE, ops);
    assert l == l1.Filtered(5, 10, 500);
    assert 0 in l.items && l.items[0] == tx;
    assert tx.Cost() == 10;
    assert 0 in l.Filtered(5, 10, 2000).items && 0 !in FullScan(l, 5, 10, 2000);
  }

  /** Filtering a strict gapless list leaves a payable gapless prefix and splits the rest into removed and invalid. */
  lemma StrictFilterPrefix(l: ListValue, lo: nat, hi: nat, costLimit: int, gasLimit: nat, lampHeight: nat)
    returns (mid: nat)
    requires l.strict && Keyed(l.items) && lo <= hi && Interval(l.items, lo, hi)
    ensures lo <= mid <= hi && Interval(l.Filtered(costLimit, gasLimit, lampHeight).items, lo, mid)
    ensures var removed, invalid :=
        l.FilterRemoved(costLimit, gasLimit, lampHeight), l.FilterInvalid(costLimit, gasLimit, lampHeight);
      && removed.Keys !! invalid.Keys
      && Interval(removed + invalid, mid, hi)
      && (mid < hi ==> mid in removed)
    ensures !l.ShortCircuits(costLimit, gasLimit) ==>
      forall n | lo <= n < mid :: !Unpayable(l.items[n], costLimit, gasLimit, lampHeight)
  {
    var removed := l.FilterRemoved(costLimit, gasLimit, lampHeight);
    mid := lo;
    while mid < hi && mid !in removed
      invariant lo <= mid <= hi && forall n | lo <= n < mid :: n !in removed
    {
      mid := mid + 1;
    }
    assert mid < hi ==> forall n | mid < n < hi :: Follows(n, removed);
    assert forall n | n in removed :: mid <= n < hi;
    forall n | lo <= n < mid && !l.ShortCircuits(costLimit, gasLimit)
      ensures !Unpayable(l.items[n], costLimit, gasLimit, lampHeight)
    {
      assert n in l.items && n !in removed;
    }
  }
}
