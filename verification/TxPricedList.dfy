/** The price heap over all pooled transactions, with lazily discarded stale entries. */
module PricedList {
  import opened Types
  import opened Seqs
  import Heap

  type Pool = map<Hash, Tx>

  /** Every pooled transaction is stored under its own hash, and its sender is recoverable. */
  ghost predicate HashKeyed(all: Pool) {
    forall h | h in all :: h == all[h].Hash() && all[h].sigOk
  }

  /** Every pooled transaction occurs in the heap. */
  ghost predicate Covers(all: Pool, entries: seq<Tx>) {
    forall h | h in all :: all[h] in entries
  }

  predicate Live(all: Pool, tx: Tx) {
    tx.Hash() in all
  }

  predicate IsLocal(locals: set<Address>, tx: Tx) {
    tx.sigOk && tx.from in locals
  }

  function PriceKey(tx: Tx): int {
    tx.gasPrice
  }

  /** Every price in `s` is at most every price in `t`. */
  ghost predicate NoDearer(s: seq<Tx>, t: seq<Tx>) {
    forall x, y | x in s && y in t :: x.gasPrice <= y.gasPrice
  }

  /** The entries of `was` are those of `kept`, `drop` and `stale` together. */
  ghost predicate Accounts(was: seq<Tx>, kept: seq<Tx>, drop: seq<Tx>, stale: seq<Tx>) {
    multiset(was) == multiset(kept) + multiset(drop) + multiset(stale)
  }

  method PopCheapest(entries: seq<Tx>) returns (tx: Tx, rest: seq<Tx>)
    requires Heap.Ordered(PriceKey, entries) && entries != []
    ensures Heap.Ordered(PriceKey, rest) && |rest| == |entries| - 1
    ensures multiset(entries) == multiset(rest) + multiset{tx}
    ensures NoDearer([tx], rest) && tx == entries[0]
    ensures forall y :: y in entries <==> y == tx || y in rest
  {
    tx, rest := Heap.Pop(PriceKey, entries);
    assert multiset([tx] + rest) == multiset(entries);
    Rearranged(entries, [tx] + rest);
    forall y | y in rest
      ensures tx.gasPrice <= y.gasPrice
    {
      assert y in [tx] + rest;
      Heap.RootIsMinOf(PriceKey, entries, y);
      assert PriceKey(tx) <= PriceKey(y);
    }
  }

  /** Pushes saved entries back. */
  method PushAll(entries: seq<Tx>, save: seq<Tx>) returns (r: seq<Tx>)
    requires Heap.Ordered(PriceKey, entries)
    ensures Heap.Ordered(PriceKey, r) && multiset(r) == multiset(entries) + multiset(save)
    ensures forall t :: t in r <==> t in entries || t in save
    ensures save == [] ==> r == entries
  {
    r := entries;
    for i := 0 to |save|
      invariant Heap.Ordered(PriceKey, r) && multiset(r) == multiset(entries) + multiset(save[..i])
      invariant i == 0 ==> r == entries
    {
      r := Heap.Push(PriceKey, r, save[i]);
      assert save[..i + 1] == save[..i] + [save[i]];
    }
    assert save[..|save|] == save;
    assert multiset(r) == multiset(entries + save);
    Rearranged(entries + save, r);
  }

  class TxPricedList {
    var items: seq<Tx>
    var stales: int

    ghost predicate Valid()
      reads this
    {
      Heap.Ordered(PriceKey, items)
    }

    constructor ()
      ensures Valid() && items == [] && stales == 0
    {
      items, stales := [], 0;
    }

    method Put(tx: Tx)
      requires Valid()
      modifies this
      ensures Valid() && multiset(items) == old(multiset(items)) + multiset{tx} && stales == old(stales)
      ensures forall t :: t in items <==> t in old(items) || t == tx
    {
      var was := items;
      items := Heap.Push(PriceKey, items, tx);
      assert multiset(items) == multiset(was + [tx]);
      Rearranged(was + [tx], items);
    }

    /** Counts one stale entry; once they exceed a quarter, rebuilds the heap from the pool. */
    method Removed(all: Pool)
      requires Valid()
      modifies this
      ensures Valid()
      ensures old(stales) + 1 <= |old(items)| / 4 ==> items == old(items) && stales == old(stales) + 1
      ensures old(stales) + 1 > |old(items)| / 4 ==>
        stales == 0 && (forall t :: t in items <==> t in all.Values) && (HashKeyed(all) ==> Distinct(items))
      ensures forall h | h in all && all[h] in old(items) :: all[h] in items
    {
      stales := stales + 1;
      if stales <= |items| / 4 {
        return;
      }
      var reheap: seq<Tx> := [];
      stales := 0;
      var todo := all.Keys;
      while todo != {}
        invariant todo <= all.Keys && stales == 0
        invariant forall t :: t in reheap <==> exists h :: h in all && h !in todo && all[h] == t
        invariant HashKeyed(all) ==> Distinct(reheap)
        decreases todo
      {
        var h :| h in todo;
        assert HashKeyed(all) ==> all[h] !in reheap;
        reheap := reheap + [all[h]];
        todo := todo - {h};
      }
      items := Heap.Init(PriceKey, reheap);
      Rearranged(reheap, items);
    }

    /** Pops every entry below the price threshold, keeping those of local accounts. */
    method Cap(threshold: nat, all: Pool, locals: set<Address>) returns (drop: seq<Tx>, ghost stale: seq<Tx>)
      requires Valid()
      modifies this
      ensures Valid() && Accounts(old(items), items, drop, stale) && stales == old(stales) - |stale|
      ensures forall t | t in stale :: !Live(all, t)
      ensures forall t | t in drop :: t in old(items) && Live(all, t) && !IsLocal(locals, t) && t.gasPrice < threshold
      ensures forall t | t in items && Live(all, t) :: t.gasPrice >= threshold || IsLocal(locals, t)
    {
      hide Accounts, Heap.Ordered;
      ghost var was := items;
      NothingPopped(was);
      drop, stale := [], [];
      var save: seq<Tx> := [];
      while |items| > 0
        invariant Valid() && Accounts(was, items + save, drop, stale) && stales == old(stales) - |stale|
        invariant forall t | t in stale :: !Live(all, t)
        invariant forall t | t in drop :: Live(all, t) && !IsLocal(locals, t) && t.gasPrice < threshold
        invariant forall t | t in save :: IsLocal(locals, t)
        decreases |items|
      {
        var tx, rest := PopCheapest(items);
        ghost var before := items;
        items := rest;
        if tx.Hash() !in all {
          stales := stales - 1;
          MoveEntry(was, before, tx, rest, save, drop, stale);
          stale := stale + [tx];
          continue;
        }
        if tx.gasPrice >= threshold {
          MoveEntry(was, before, tx, rest, save, drop, stale);
          save := save + [tx];
          break;
        }
        MoveEntry(was, before, tx, rest, save, drop, stale);
        if IsLocal(locals, tx) {
          save := save + [tx];
        } else {
          drop := drop + [tx];
        }
      }
      AccountedFor(was, items, save, drop, stale);
      ghost var left := items;
      items := PushAll(items, save);
      SavedBack(was, left, save, items, drop, stale);
    }

    /** Whether a remote transaction is no dearer than the cheapest live one; discards stale heads. */
    method Underpriced(tx: Tx, all: Pool, locals: set<Address>) returns (r: bool, ghost stale: seq<Tx>)
      requires Valid()
      modifies this
      ensures Valid() && Accounts(old(items), items, [], stale) && stales == old(stales) - |stale|
      ensures forall t | t in stale :: !Live(all, t)
      ensures r <==> !IsLocal(locals, tx)
                     && (exists t | t in old(items) :: Live(all, t))
                     && (forall t | t in old(items) && Live(all, t) :: t.gasPrice >= tx.gasPrice)
    {
      stale := [];
      if IsLocal(locals, tx) {
        return false, [];
      }
      ghost var was := items;
      while |items| > 0
        invariant Valid() && Accounts(was, items, [], stale) && stales == old(stales) - |stale|
        invariant forall t | t in stale :: !Live(all, t)
        invariant forall t | Live(all, t) :: t in was <==> t in items
        decreases |items|
      {
        var head := items[0];
        if head.Hash() !in all {
          stales := stales - 1;
          var popped, rest := PopCheapest(items);
          items := rest;
          stale := stale + [popped];
          continue;
        }
        break;
      }
      if |items| == 0 {
        return false, stale;
      }
      var cheapest := items[0];
      assert cheapest in items;
      forall t | t in items
        ensures cheapest.gasPrice <= t.gasPrice
      {
        Heap.RootIsMinOf(PriceKey, items, t);
        assert PriceKey(cheapest) <= PriceKey(t);
      }
      return cheapest.gasPrice >= tx.gasPrice, stale;
    }

    /** Pops the `count` cheapest live remote entries, keeping those of local accounts. */
    method Discard(count: int, all: Pool, locals: set<Address>) returns (drop: seq<Tx>, ghost stale: seq<Tx>)
      requires Valid()
      modifies this
      ensures Valid() && Accounts(old(items), items, drop, stale) && stales == old(stales) - |stale|
      ensures forall t | t in stale :: !Live(all, t)
      ensures forall t | t in drop :: t in old(items) && Live(all, t) && !IsLocal(locals, t)
      ensures forall d, t | d in drop && t in items && Live(all, t) && !IsLocal(locals, t) :: d.gasPrice <= t.gasPrice
      ensures if count <= 0 then drop == [] && items == old(items)
              else |drop| <= count && (|drop| < count ==> forall t | t in items :: IsLocal(locals, t))
    {
      hide Accounts, Heap.Ordered;
      ghost var was := items;
      NothingPopped(was);
      drop, stale := [], [];
      var save: seq<Tx> := [];
      var left := count;
      while |items| > 0 && left > 0
        invariant Valid() && Accounts(was, items + save, drop, stale) && stales == old(stales) - |stale|
        invariant forall t | t in stale :: !Live(all, t)
        invariant forall t | t in drop :: Live(all, t) && !IsLocal(locals, t)
        invariant forall t | t in save :: IsLocal(locals, t)
        invariant NoDearer(drop, items)
        invariant if count <= 0 then drop == save == [] && items == was else left >= 0
        invariant left == count - |drop|
        decreases |items|
      {
        var tx, rest := PopCheapest(items);
        ghost var before := items;
        items := rest;
        MoveEntry(was, before, tx, rest, save, drop, stale);
        if tx.Hash() !in all {
          stales := stales - 1;
          stale := stale + [tx];
          continue;
        }
        if IsLocal(locals, tx) {
          save := save + [tx];
        } else {
          drop := drop + [tx];
          left := left - 1;
        }
      }
      AccountedFor(was, items, save, drop, stale);
      ghost var kept := items;
      items := PushAll(items, save);
      SavedBack(was, kept, save, items, drop, stale);
    }
  }

  /** A popped entry may be booked as saved, dropped or stale. */
  lemma MoveEntry(was: seq<Tx>, items: seq<Tx>, tx: Tx, rest: seq<Tx>, save: seq<Tx>, drop: seq<Tx>, stale: seq<Tx>)
    requires Accounts(was, items + save, drop, stale) && multiset(items) == multiset(rest) + multiset{tx}
    ensures Accounts(was, rest + save, drop, stale + [tx])
    ensures Accounts(was, rest + save, drop + [tx], stale)
    ensures Accounts(was, rest + (save + [tx]), drop, stale)
  {
  }

  lemma NothingPopped(was: seq<Tx>)
    ensures Accounts(was, was + [], [], [])
  {
  }

  lemma SavedBack(was: seq<Tx>, items: seq<Tx>, save: seq<Tx>, kept: seq<Tx>, drop: seq<Tx>, stale: seq<Tx>)
    requires Accounts(was, items + save, drop, stale) && multiset(kept) == multiset(items) + multiset(save)
    ensures Accounts(was, kept, drop, stale)
  {
  }

  lemma AccountedFor(was: seq<Tx>, items: seq<Tx>, save: seq<Tx>, drop: seq<Tx>, stale: seq<Tx>)
    requires Accounts(was, items + save, drop, stale)
    ensures forall t | t in drop :: t in was
  {
    forall t | t in drop
      ensures t in was
    {
      assert t in multiset(drop);
      assert t in multiset(was);
    }
  }

  /** Removing what was dropped and stale from the heap uncovers only dropped transactions. */
  lemma CoversAllButDropped(all: Pool, was: seq<Tx>, kept: seq<Tx>, drop: seq<Tx>, stale: seq<Tx>)
    requires HashKeyed(all) && Covers(all, was) && Accounts(was, kept, drop, stale)
    requires forall t | t in stale :: !Live(all, t)
    ensures forall h | h in all :: all[h] in kept || all[h] in drop
  {
    forall h | h in all
      ensures all[h] in kept || all[h] in drop
    {
      var t := all[h];
      assert t in multiset(was);
      assert t in multiset(kept) || t in multiset(drop) || t in multiset(stale);
      assert Live(all, t);
    }
  }
}
