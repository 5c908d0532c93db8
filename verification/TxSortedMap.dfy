/** The nonce-sorted transaction map: a hash map, a nonce heap and a lazily built sorted cache. */
module SortedMap {
  import opened Types
  import opened NonceMap
  import opened Seqs
  import Heap

  function NonceKey(n: nat): int {
    n
  }

  function TxKey(t: Tx): int {
    t.nonce
  }

  /** Sorting an enumeration of `m` by nonce lists `m` in nonce order. */
  lemma SortedIsFlat(m: Items, s: seq<Tx>, r: seq<Tx>)
    requires Enumerates(m, s) && Heap.Sorted(TxKey, r) && multiset(r) == multiset(s)
    ensures IsFlat(m, r)
  {
    Rearranged(s, r);
    forall i, j | 0 <= i < j < |r|
      ensures r[i].nonce < r[j].nonce
    {
      assert r[i] in s && r[j] in s;
      assert TxKey(r[i]) <= TxKey(r[j]);
    }
  }

  /** The heap index lists exactly the stored nonces, each once. */
  ghost predicate Indexed(items: Items, index: seq<nat>) {
    && Heap.Ordered(NonceKey, index)
    && Distinct(index)
    && forall n: nat :: n in index <==> n in items
  }

  /** The index is as long as the map and has the lowest nonce at its root. */
  lemma IndexIsKeys(items: Items, index: seq<nat>)
    requires Indexed(items, index)
    ensures |index| == |items|
    ensures index != [] ==> index[0] in items && forall n | n in items :: index[0] <= n
  {
    DistinctLength(index, items.Keys);
    if index != [] {
      assert index[0] in index;
      forall n | n in items
        ensures index[0] <= n
      {
        Heap.RootIsMinOf(NonceKey, index, n);
        assert NonceKey(index[0]) <= NonceKey(n);
      }
    }
  }

  method PushNonce(items: Items, index: seq<nat>, tx: Tx) returns (r: seq<nat>)
    requires Indexed(items, index) && tx.nonce !in items
    ensures Indexed(items[tx.nonce := tx], r)
  {
    var nonce: nat := tx.nonce;
    r := Heap.Push(NonceKey, index, nonce);
    Rearranged(index + [nonce], r);
  }

  method PopLowest(items: Items, index: seq<nat>) returns (nonce: nat, rest: seq<nat>)
    requires Indexed(items, index) && index != []
    ensures nonce == index[0] && nonce in items && Indexed(items - {nonce}, rest) && |rest| == |index| - 1
  {
    nonce, rest := Heap.Pop(NonceKey, index);
    assert multiset([nonce] + rest) == multiset(index);
    Rearranged(index, [nonce] + rest);
    Uncons(nonce, rest);
    assert nonce in index;
  }

  method RemoveAt(items: Items, index: seq<nat>, i: nat) returns (rest: seq<nat>)
    requires Indexed(items, index) && i < |index|
    ensures Indexed(items - {index[i]}, rest)
  {
    rest := Heap.Remove(NonceKey, index, i);
    assert multiset([index[i]] + rest) == multiset(index);
    Rearranged(index, [index[i]] + rest);
    Uncons(index[i], rest);
  }

  /** Rebuilds the index from the stored nonces. */
  method Reindex(items: Items) returns (index: seq<nat>)
    ensures Indexed(items, index)
  {
    var list: seq<nat> := [];
    var todo := items.Keys;
    while todo != {}
      invariant todo <= items.Keys && Distinct(list)
      invariant forall n: nat :: n in list <==> n in items && n !in todo
      decreases todo
    {
      var nonce :| nonce in todo;
      list := list + [nonce];
      todo := todo - {nonce};
    }
    index := Heap.Init(NonceKey, list);
    Rearranged(list, index);
  }

  lemma AscendingAppend(s: seq<Tx>, tx: Tx)
    requires Ascending(s) && forall t | t in s :: t.nonce < tx.nonce
    ensures Ascending(s + [tx])
  {
    assert forall i | 0 <= i < |s| :: s[i] in s;
  }

  lemma SameAppend(m: Items, s: seq<Tx>, tx: Tx)
    requires SameTxs(m, s) && tx.nonce !in m
    ensures SameTxs(m[tx.nonce := tx], s + [tx])
  {
    assert forall t :: t in s + [tx] <==> t in s || t == tx;
  }

  /** A transaction beyond all listed ones goes to the end of the list. */
  lemma FlatAppend(m: Items, s: seq<Tx>, tx: Tx)
    requires IsFlat(m, s) && forall n | n in m :: n < tx.nonce
    ensures IsFlat(m[tx.nonce := tx], s + [tx])
  {
    hide Ascending;
    assert forall t | t in s :: t.nonce in m;
    AscendingAppend(s, tx);
    SameAppend(m, s, tx);
  }

  /** Listing one more transaction, the lowest of those left. */
  lemma FlatExtend(m: Items, cut: nat, nonce: nat, s: seq<Tx>)
    requires Keyed(m) && IsFlat(Below(m, cut), s)
    requires nonce in m && cut <= nonce && forall n | n in m && n < nonce :: n < cut
    ensures IsFlat(Below(m, nonce + 1), s + [m[nonce]])
    ensures AtLeast(m, nonce + 1) == AtLeast(m, cut) - {nonce}
  {
    hide IsFlat;
    FlatAppend(Below(m, cut), s, m[nonce]);
    assert Below(m, nonce + 1) == Below(m, cut)[nonce := m[nonce]];
  }

  lemma NothingCut(m: Items)
    ensures AtLeast(m, 0) == m && IsFlat(Below(m, 0), [])
  {
  }

  /** Cutting off the lowest nonce that is left. */
  lemma CutGrows(m: Items, cut: nat, nonce: nat, keep: Items, s: seq<Tx>)
    requires Keyed(m) && IsFlat(Below(m, cut), s) && keep == AtLeast(m, cut)
    requires nonce in keep && forall n | n in keep :: nonce <= n
    ensures cut <= nonce && IsFlat(Below(m, nonce + 1), s + [keep[nonce]])
    ensures keep - {nonce} == AtLeast(m, nonce + 1)
  {
    assert forall n | n in m && n >= cut :: n in keep;
    FlatExtend(m, cut, nonce, s);
  }

  /** Pops nonces off the heap until the threshold is reached. */
  method TakeBelow(items: Items, index: seq<nat>, threshold: nat)
    returns (removed: seq<Tx>, keep: Items, heap: seq<nat>)
    requires Keyed(items) && Indexed(items, index)
    ensures keep == AtLeast(items, threshold) && Indexed(keep, heap)
    ensures IsFlat(Below(items, threshold), removed)
  {
    hide Keyed, Indexed, IsFlat, Below, AtLeast;
    removed, keep, heap := [], items, index;
    ghost var cut: nat := 0;
    IndexIsKeys(keep, heap);
    NothingCut(items);
    while |heap| > 0 && heap[0] < threshold
      invariant Indexed(keep, heap) && cut <= threshold && keep == AtLeast(items, cut)
      invariant IsFlat(Below(items, cut), removed)
      invariant |heap| == |keep| && (heap != [] ==> forall n | n in keep :: heap[0] <= n)
      decreases |heap|
    {
      var nonce, rest := PopLowest(keep, heap);
      CutGrows(items, cut, nonce, keep, removed);
      removed := removed + [keep[nonce]];
      keep, heap := keep - {nonce}, rest;
      cut := nonce + 1;
      IndexIsKeys(keep, heap);
    }
    CutReached(items, cut, threshold, keep);
  }

  lemma CutReached(m: Items, cut: nat, threshold: nat, keep: Items)
    requires cut <= threshold && keep == AtLeast(m, cut) && forall n | n in keep :: threshold <= n
    ensures keep == AtLeast(m, threshold) && Below(m, threshold) == Below(m, cut)
  {
    assert forall n | n in m && n >= cut :: n in keep;
  }

  /** The nonces of [lo, next) are all present and `ready` lists their transactions. */
  ghost predicate RunTaken(m: Items, lo: nat, next: nat, ready: seq<Tx>) {
    && lo <= next && |ready| == next - lo
    && (forall k | lo <= k < next :: k in m)
    && forall i | 0 <= i < |ready| :: ready[i].nonce == lo + i && ready[i].nonce in m && m[ready[i].nonce] == ready[i]
  }

  lemma RunTakenStep(m: Items, lo: nat, next: nat, ready: seq<Tx>)
    requires Keyed(m) && RunTaken(m, lo, next, ready) && next in m
    ensures RunTaken(m, lo, next + 1, ready + [m[next]])
    ensures AtLeast(m, next + 1) == AtLeast(m, next) - {next}
  {
  }

  /** Pops nonces off a non-empty heap as long as they are consecutive. */
  method PopRun(items: Items, index: seq<nat>)
    returns (ready: seq<Tx>, keep: Items, heap: seq<nat>, ghost next: nat)
    requires Keyed(items) && Indexed(items, index) && index != []
    ensures index[0] < next && next !in items && RunTaken(items, index[0], next, ready)
    ensures keep == AtLeast(items, next) && Indexed(keep, heap)
  {
    ready, keep, heap := [], items, index;
    IndexIsKeys(items, index);
    var lo: nat := index[0];
    var n: nat := lo;
    assert AtLeast(items, lo) == items;
    while |heap| > 0 && heap[0] == n
      invariant Indexed(keep, heap) && keep == AtLeast(items, n)
      invariant RunTaken(items, lo, n, ready) && (n == lo ==> heap == index)
      decreases |heap|
    {
      var nonce, rest := PopLowest(keep, heap);
      RunTakenStep(items, lo, n, ready);
      ready := ready + [keep[n]];
      keep, heap := keep - {n}, rest;
      n := n + 1;
    }
    next := n;
    IndexIsKeys(keep, heap);
    assert next in items ==> next in keep;
  }

  /** Takes the ready run off the heap, if it starts early enough. */
  method TakeRun(items: Items, index: seq<nat>, start: nat)
    returns (ready: seq<Tx>, keep: Items, heap: seq<nat>)
    requires Keyed(items) && Indexed(items, index)
    ensures keep == AfterReady(items, start) && Indexed(keep, heap)
    ensures IsFlat(ReadyRun(items, start), ready)
    ensures forall i | 0 <= i < |ready| :: ready[i].nonce == ready[0].nonce + i
    ensures ready == [] ==> keep == items
  {
    IndexIsKeys(items, index);
    if |index| == 0 || index[0] > start {
      assert !Startable(items, start);
      return [], items, index;
    }
    ghost var next;
    ready, keep, heap, next := PopRun(items, index);
    RunIs(items, start, index[0], next, ready);
  }

  lemma InRunIff(m: Items, lo: nat, next: nat, n: nat)
    requires lo in m && (forall k | k in m :: lo <= k) && lo < next && next !in m
    requires forall k | lo <= k < next :: k in m
    requires n in m
    ensures InRun(m, n) <==> n < next
  {
  }

  lemma RunIs(m: Items, start: nat, lo: nat, next: nat, ready: seq<Tx>)
    requires Keyed(m) && lo in m && lo <= start && lo < next && next !in m && forall n | n in m :: lo <= n
    requires RunTaken(m, lo, next, ready)
    ensures AfterReady(m, start) == AtLeast(m, next) && IsFlat(ReadyRun(m, start), ready)
  {
    forall n | n in m
      ensures InRun(m, n) <==> n < next
    {
      InRunIff(m, lo, next, n);
    }
    assert ReadyRun(m, start) == Below(m, next);
    RunIsFlat(m, lo, next, ready);
  }

  lemma RunIsFlat(m: Items, lo: nat, next: nat, ready: seq<Tx>)
    requires Keyed(m) && RunTaken(m, lo, next, ready) && forall n | n in m :: lo <= n
    ensures IsFlat(Below(m, next), ready)
  {
    forall t: Tx | t.nonce in m && m[t.nonce] == t && t.nonce < next
      ensures t in ready
    {
      assert ready[t.nonce - lo] == t;
    }
  }

  /** Takes transactions off the top of the sorted nonces. */
  method TakeTop(items: Items, ghost flat: seq<Tx>, sorted: seq<nat>, threshold: nat)
    returns (drops: seq<Tx>, keep: Items)
    requires Keyed(items) && IsFlat(items, flat) && threshold < |items| == |flat| == |sorted|
    requires forall i | 0 <= i < |sorted| :: sorted[i] == flat[i].nonce
    ensures keep == Lowest(items, threshold) && |drops| == |flat| - threshold
    ensures forall k | 0 <= k < |drops| :: drops[k] == flat[|flat| - 1 - k]
  {
    hide *;
    drops, keep := [], items;
    AllRanked(items, |items|);
    var size := |items|;
    while size > threshold
      invariant threshold <= size <= |flat|
      invariant keep == Lowest(items, size)
      invariant |drops| == |flat| - size
      invariant forall k | 0 <= k < |drops| :: drops[k] == flat[|flat| - 1 - k]
    {
      PeelTop(items, flat, size);
      drops := drops + [keep[sorted[size - 1]]];
      keep := keep - {sorted[size - 1]};
      size := size - 1;
    }
  }

  /** Sorts the index and takes nonces off its top. */
  method TakeExcess(items: Items, index: seq<nat>, threshold: nat)
    returns (drops: seq<Tx>, keep: Items, heap: seq<nat>)
    requires Keyed(items) && Indexed(items, index) && threshold < |items|
    ensures keep == Lowest(items, threshold) && Indexed(keep, heap)
    ensures Descending(drops) && SameTxs(Excess(items, threshold), drops) && |drops| == |items| - threshold
  {
    ghost var flat := AsFlat(items);
    var sorted := Heap.Sort(NonceKey, index);
    Rearranged(index, sorted);
    SortedKeys(items, flat, sorted);
    drops, keep := TakeTop(items, flat, sorted, threshold);
    DropsAre(items, flat, threshold, drops);
    heap := Reheap(items, flat, sorted, threshold);
  }

  lemma NoExcess(m: Items, threshold: nat)
    requires |m| <= threshold
    ensures Lowest(m, threshold) == m && Descending([]) && SameTxs(Excess(m, threshold), [])
  {
    AllRanked(m, threshold);
  }

  /** Makes a heap of the `k` lowest of the sorted nonces. */
  method Reheap(items: Items, ghost flat: seq<Tx>, sorted: seq<nat>, k: nat) returns (heap: seq<nat>)
    requires Keyed(items) && IsFlat(items, flat) && k <= |flat| == |sorted|
    requires forall i | 0 <= i < |sorted| :: sorted[i] == flat[i].nonce
    ensures Indexed(Lowest(items, k), heap)
  {
    CutIndex(items, flat, sorted, k);
    heap := Heap.Init(NonceKey, sorted[..k]);
    Rearranged(sorted[..k], heap);
  }

  /** Removing the highest of the `size` lowest nonces leaves the `size - 1` lowest ones. */
  lemma PeelTop(m: Items, flat: seq<Tx>, size: nat)
    requires Keyed(m) && IsFlat(m, flat) && 0 < size <= |flat|
    ensures flat[size - 1].nonce in Lowest(m, size) && Lowest(m, size)[flat[size - 1].nonce] == flat[size - 1]
    ensures Lowest(m, size - 1) == Lowest(m, size) - {flat[size - 1].nonce}
  {
    var top := flat[size - 1];
    assert top in flat;
    RankIsPosition(m, flat, size - 1);
    forall n | n in m
      ensures Rank(m, n) == size - 1 <==> n == top.nonce
    {
      RankInjective(m, flat, n, top.nonce);
    }
  }

  lemma DropsAre(m: Items, flat: seq<Tx>, threshold: nat, drops: seq<Tx>)
    requires Keyed(m) && IsFlat(m, flat) && threshold <= |flat| && |drops| == |flat| - threshold
    requires forall k | 0 <= k < |drops| :: drops[k] == flat[|flat| - 1 - k]
    ensures Descending(drops) && SameTxs(Excess(m, threshold), drops)
  {
    forall t: Tx
      ensures t in drops <==> t.nonce in Excess(m, threshold) && Excess(m, threshold)[t.nonce] == t
    {
      if t in drops {
        var k :| 0 <= k < |drops| && drops[k] == t;
        RankIsPosition(m, flat, |flat| - 1 - k);
        assert flat[|flat| - 1 - k] in flat;
      }
      if t.nonce in m && m[t.nonce] == t && Rank(m, t.nonce) >= threshold {
        assert t in flat;
        var i :| 0 <= i < |flat| && flat[i] == t;
        RankIsPosition(m, flat, i);
        assert drops[|flat| - 1 - i] == t;
      }
    }
  }

  // ---------------------------------------------------------------------------------------------
  // Filtering while some nonces are still to be looked at

  function FilterLeft(m: Items, todo: set<nat>, filter: Tx -> bool): Items {
    map n | n in m && (n in todo || !filter(m[n])) :: m[n]
  }

  function FilterGone(m: Items, todo: set<nat>, filter: Tx -> bool): Items {
    map n | n in m && n !in todo && filter(m[n]) :: m[n]
  }

  lemma FilterStarts(m: Items, filter: Tx -> bool)
    ensures FilterLeft(m, m.Keys, filter) == m && Enumerates(FilterGone(m, m.Keys, filter), [])
  {
  }

  lemma FilterContinues(m: Items, todo: set<nat>, filter: Tx -> bool, removed: seq<Tx>, n: nat)
    requires Keyed(m) && todo <= m.Keys && n in todo && Enumerates(FilterGone(m, todo, filter), removed)
    ensures n in FilterLeft(m, todo, filter) && FilterLeft(m, todo, filter)[n] == m[n]
    ensures filter(m[n]) ==>
      && FilterLeft(m, todo - {n}, filter) == FilterLeft(m, todo, filter) - {n}
      && Enumerates(FilterGone(m, todo - {n}, filter), removed + [m[n]])
    ensures !filter(m[n]) ==>
      && FilterLeft(m, todo - {n}, filter) == FilterLeft(m, todo, filter)
      && Enumerates(FilterGone(m, todo - {n}, filter), removed)
  {
    var gone, more := FilterGone(m, todo, filter), FilterGone(m, todo - {n}, filter);
    if filter(m[n]) {
      assert more == gone[n := m[n]];
      EnumeratesMore(gone, removed, n, m[n]);
    } else {
      assert more == gone;
    }
  }

  lemma EnumeratesMore(m: Items, s: seq<Tx>, n: nat, tx: Tx)
    requires Enumerates(m, s) && n !in m && tx.nonce == n
    ensures Enumerates(m[n := tx], s + [tx])
  {
  }

  lemma FilterEnds(m: Items, filter: Tx -> bool, removed: seq<Tx>)
    requires Keyed(m) && Enumerates(FilterGone(m, {}, filter), removed)
    ensures FilterLeft(m, {}, filter) == Keep(m, filter) && Keyed(Keep(m, filter))
    ensures Enumerates(Dropped(m, filter), removed)
    ensures removed == [] ==> Keep(m, filter) == m
  {
    assert FilterGone(m, {}, filter) == Dropped(m, filter);
    assert forall n | n in m && filter(m[n]) :: n in Dropped(m, filter) && m[n] in removed;
  }

  class TxSortedMap {
    var items: map<nat, Tx>
    var index: seq<nat>
    var cache: Option<seq<Tx>>

    ghost predicate Valid()
      reads this
    {
      && Keyed(items)
      && Indexed(items, index)
      && (cache.Some? ==> IsFlat(items, cache.value))
    }

    constructor ()
      ensures Valid() && items == map[] && cache == None
    {
      items, index, cache := map[], [], None;
    }

    method Get(nonce: nat) returns (tx: Option<Tx>)
      ensures tx == if nonce in items then Some(items[nonce]) else None
    {
      tx := if nonce in items then Some(items[nonce]) else None;
    }

    method Put(tx: Tx)
      requires Valid()
      modifies this
      ensures Valid() && items == old(items)[tx.nonce := tx] && cache == None
    {
      if tx.nonce !in items {
        index := PushNonce(items, index, tx);
      }
      items, cache := items[tx.nonce := tx], None;
    }

    /** Removes and returns, in nonce order, every transaction below the threshold. */
    method Forward(threshold: nat) returns (removed: seq<Tx>)
      requires Valid()
      modifies this
      ensures Valid() && items == AtLeast(old(items), threshold)
      ensures IsFlat(Below(old(items), threshold), removed)
      ensures cache.Some? == old(cache).Some?
    {
      var keep, heap;
      removed, keep, heap := TakeBelow(items, index, threshold);
      items, index := keep, heap;
      if cache.Some? {
        FlatSplit(old(items), cache.value, threshold, removed);
        cache := Some(cache.value[|removed|..]);
      }
    }

    /** Removes and returns, in no particular order, every transaction the filter selects. */
    method Filter(filter: Tx -> bool) returns (removed: seq<Tx>)
      requires Valid()
      modifies this
      ensures Valid() && items == Keep(old(items), filter)
      ensures Enumerates(Dropped(old(items), filter), removed)
      ensures cache == if removed == [] then old(cache) else None
    {
      hide IsFlat, Indexed, Keyed, Enumerates, FilterLeft, FilterGone;
      removed := [];
      ghost var was := items;
      var todo := items.Keys;
      FilterStarts(was, filter);
      while todo != {}
        invariant todo <= was.Keys && items == FilterLeft(was, todo, filter)
        invariant Enumerates(FilterGone(was, todo, filter), removed)
        invariant index == old(index) && cache == old(cache)
        decreases todo
      {
        var nonce :| nonce in todo;
        FilterContinues(was, todo, filter, removed, nonce);
        if filter(items[nonce]) {
          removed := removed + [items[nonce]];
          items := items - {nonce};
        }
        todo := todo - {nonce};
      }
      FilterEnds(was, filter, removed);
      if |removed| > 0 {
        index := Reindex(items);
        cache := None;
      }
    }

    /** Removes and returns, highest nonce first, everything beyond the `threshold` lowest nonces. */
    method Cap(threshold: nat) returns (drops: seq<Tx>)
      requires Valid()
      modifies this
      ensures Valid() && items == Lowest(old(items), threshold)
      ensures Descending(drops) && SameTxs(Excess(old(items), threshold), drops)
      ensures cache.Some? == old(cache).Some?
    {
      hide Indexed, IsFlat, Descending, SameTxs, Excess;
      if |items| <= threshold {
        NoExcess(items, threshold);
        return [];
      }
      var keep, heap;
      drops, keep, heap := TakeExcess(items, index, threshold);
      if cache.Some? {
        FlatLength(items, cache.value);
        FlatPrefix(items, cache.value, threshold);
        cache := Some(cache.value[..|cache.value| - |drops|]);
      }
      items, index := keep, heap;
    }

    method Remove(nonce: nat) returns (found: bool)
      requires Valid()
      modifies this
      ensures Valid() && found == (nonce in old(items))
      ensures items == old(items) - {nonce}
      ensures cache == if found then None else old(cache)
    {
      if nonce !in items {
        assert items - {nonce} == items;
        return false;
      }
      IndexIsKeys(items, index);
      var i := 0;
      while i < |index|
        invariant 0 <= i <= |index|
        invariant nonce !in index[..i]
      {
        if index[i] == nonce {
          break;
        }
        i := i + 1;
      }
      index := RemoveAt(items, index, i);
      items, cache := items - {nonce}, None;
      found := true;
    }

    /** Removes and returns the consecutive run from the lowest nonce, if that nonce is not above `start`. */
    method Ready(start: nat) returns (ready: seq<Tx>)
      requires Valid()
      modifies this
      ensures Valid() && items == AfterReady(old(items), start)
      ensures IsFlat(ReadyRun(old(items), start), ready)
      ensures forall i | 0 <= i < |ready| :: ready[i].nonce == ready[0].nonce + i
      ensures cache == if ready == [] then old(cache) else None
    {
      var keep, heap;
      ready, keep, heap := TakeRun(items, index, start);
      items, index := keep, heap;
      if ready != [] {
        cache := None;
      }
    }

    /** Lists the contents in nonce order, caching the listing. */
    method Flatten() returns (txs: seq<Tx>)
      requires Valid()
      modifies this
      ensures Valid() && items == old(items) && index == old(index)
      ensures IsFlat(items, txs) && cache == Some(txs)
    {
      if cache == None {
        var list := [];
        var todo := items.Keys;
        while todo != {}
          invariant todo <= items.Keys
          invariant Enumerates(map n | n in items && n !in todo :: items[n], list)
          decreases todo
        {
          var nonce :| nonce in todo;
          list := list + [items[nonce]];
          todo := todo - {nonce};
        }
        assert (map n | n in items && n !in todo :: items[n]) == items;
        var sorted := Heap.Sort(TxKey, list);
        SortedIsFlat(items, list, sorted);
        cache := Some(sorted);
      }
      txs := cache.value;
    }
  }

  /** A nonce-sorted listing of a map. */
  ghost function AsFlat(m: Items): (s: seq<Tx>)
    requires Keyed(m)
    ensures IsFlat(m, s) && |s| == |m|
  {
    FlatExists(m);
    var s :| IsFlat(m, s);
    FlatLength(m, s);
    s
  }

  lemma {:induction false} FlatExists(m: Items)
    requires Keyed(m)
    ensures exists s :: IsFlat(m, s)
    decreases |m|
  {
    if m == map[] {
      assert IsFlat(m, []);
    } else {
      hide IsFlat;
      var top := Highest(m.Keys);
      var m' := m - {top};
      assert m'.Keys == m.Keys - {top};
      FlatExists(m');
      var s :| IsFlat(m', s);
      assert m == m'[top := m[top]];
      FlatAppend(m', s, m[top]);
    }
  }

  lemma {:induction false} Highest(s: set<nat>) returns (n: nat)
    requires s != {}
    ensures n in s && forall k | k in s :: k <= n
    decreases |s|
  {
    n :| n in s;
    var rest := s - {n};
    if rest != {} {
      var m := Highest(rest);
      assert forall k | k in s :: k == n || k in rest;
      if m > n {
        n := m;
      }
    }
  }

  lemma AllRanked(m: Items, limit: nat)
    requires |m| <= limit
    ensures Lowest(m, limit) == m && Excess(m, limit) == map[]
  {
    forall n | n in m
      ensures Rank(m, n) < limit
    {
      var below := Lower(m, n);
      var rest := m.Keys - below;
      assert m.Keys == below + rest && n in rest;
      assert |m.Keys| == |below| + |rest|;
    }
  }

  lemma RankInjective(m: Items, flat: seq<Tx>, a: nat, b: nat)
    requires Keyed(m) && IsFlat(m, flat) && a in m && b in m
    ensures Rank(m, a) == Rank(m, b) <==> a == b
  {
    assert m[a] in flat && m[b] in flat;
    var i :| 0 <= i < |flat| && flat[i] == m[a];
    var j :| 0 <= j < |flat| && flat[j] == m[b];
    RankIsPosition(m, flat, i);
    RankIsPosition(m, flat, j);
  }

  /** A sorted list of the keys lines up with the nonce-sorted listing. */
  lemma SortedKeys(m: Items, flat: seq<Tx>, index: seq<nat>)
    requires IsFlat(m, flat) && Heap.Sorted(NonceKey, index) && Distinct(index)
    requires Keyed(m) && forall n: nat :: n in index <==> n in m
    ensures |index| == |flat| && forall k | 0 <= k < |index| :: index[k] == flat[k].nonce
  {
    assert forall i | 0 <= i < |index| :: index[i] in index;
    var txs := seq(|index|, i requires 0 <= i < |index| => m[index[i]]);
    assert Ascending(txs) by {
      forall i, j | 0 <= i < j < |index|
        ensures index[i] < index[j]
      {
        assert NonceKey(index[i]) <= NonceKey(index[j]);
      }
    }
    KeysToTxs(m, index, txs);
    FlatUnique(m, flat, txs);
  }

  lemma KeysToTxs(m: Items, index: seq<nat>, txs: seq<Tx>)
    requires Keyed(m) && forall n: nat :: n in index <==> n in m
    requires |txs| == |index| && forall i | 0 <= i < |index| :: index[i] in m && txs[i] == m[index[i]]
    ensures SameTxs(m, txs)
  {
  }

  lemma FlatPrefix(m: Items, flat: seq<Tx>, k: nat)
    requires Keyed(m) && IsFlat(m, flat) && k <= |flat|
    ensures IsFlat(Lowest(m, k), flat[..k])
  {
    forall t
      ensures t in flat[..k] <==> t.nonce in Lowest(m, k) && Lowest(m, k)[t.nonce] == t
    {
      if t in flat[..k] {
        var i :| 0 <= i < k && flat[i] == t;
        assert t in flat;
        RankIsPosition(m, flat, i);
      }
      if t.nonce in Lowest(m, k) && m[t.nonce] == t {
        assert t in flat;
        var i :| 0 <= i < |flat| && flat[i] == t;
        RankIsPosition(m, flat, i);
        assert flat[..k][i] == t;
      }
    }
  }

  /** The first `k` sorted keys are the keys of the `k` lowest nonces. */
  lemma CutIndex(m: Items, flat: seq<Tx>, index: seq<nat>, k: nat)
    requires Keyed(m) && IsFlat(m, flat) && k <= |flat| == |index|
    requires forall i | 0 <= i < |index| :: index[i] == flat[i].nonce
    ensures Distinct(index[..k]) && forall n: nat :: n in index[..k] <==> n in Lowest(m, k)
  {
    FlatPrefix(m, flat, k);
    forall n: nat
      ensures n in index[..k] <==> n in Lowest(m, k)
    {
      if n in index[..k] {
        var i :| 0 <= i < k && index[i] == n;
        assert flat[..k][i] in flat[..k];
      }
      if n in Lowest(m, k) {
        assert m[n] in flat[..k];
        var i :| 0 <= i < k && flat[i] == m[n];
        assert index[..k][i] == n;
      }
    }
  }

  lemma FlatSplit(m: Items, flat: seq<Tx>, threshold: nat, low: seq<Tx>)
    requires Keyed(m) && IsFlat(m, flat) && IsFlat(Below(m, threshold), low)
    ensures |low| <= |flat| && IsFlat(AtLeast(m, threshold), flat[|low|..])
  {
    FlatExists(AtLeast(m, threshold));
    var high :| IsFlat(AtLeast(m, threshold), high);
    var both := low + high;
    forall i, j | 0 <= i < j < |both|
      ensures both[i].nonce < both[j].nonce
    {
      assert both[i] in low || both[i] in high;
      assert both[j] in low || both[j] in high;
      if i < |low| <= j {
        assert both[i] in low && both[j] in high;
      }
    }
    FlatUnique(m, flat, both);
    assert both[|low|..] == high;
  }
}
