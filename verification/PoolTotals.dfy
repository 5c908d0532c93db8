/** Counting transactions over accounts, and fair truncation of the pending lists. */
module PoolTotals {
  import opened Types
  import opened NonceMap
  import opened Seqs
  import opened TxLists
  import opened PoolViews
  import opened PoolNonces
  import SortedMap

  function Len(lists: Lists, a: Address): nat {
    |ItemsOf(lists, a)|
  }

  /** All transactions of all accounts. */
  ghost function Total(lists: Lists): nat {
    if lists == map[] then 0 else
      var a :| a in lists;
      |lists[a].items| + Total(lists - {a})
  }

  lemma {:induction false} TotalWithout(lists: Lists, a: Address)
    requires a in lists
    ensures Total(lists) == |lists[a].items| + Total(lists - {a})
    decreases lists.Keys
  {
    var b :| b in lists && Total(lists) == |lists[b].items| + Total(lists - {b});
    if a != b {
      assert (lists - {b}).Keys == lists.Keys - {b};
      assert (lists - {a}).Keys == lists.Keys - {a};
      TotalWithout(lists - {b}, a);
      TotalWithout(lists - {a}, b);
      assert lists - {a} - {b} == lists - {b} - {a};
    }
  }

  lemma TotalUpdate(lists: Lists, a: Address, l: ListValue)
    ensures Total(lists[a := l]) == Total(lists) - Len(lists, a) + |l.items|
  {
    TotalWithout(lists[a := l], a);
    assert lists[a := l] - {a} == lists - {a};
    if a in lists {
      TotalWithout(lists, a);
    } else {
      assert lists - {a} == lists;
    }
  }

  lemma LenAtMostTotal(lists: Lists, a: Address)
    ensures Len(lists, a) <= Total(lists)
  {
  }

  method CountAll(lists: Lists) returns (n: nat)
    ensures n == Total(lists)
  {
    n := 0;
    var todo := lists;
    while todo != map[]
      invariant n + Total(todo) == Total(lists)
      decreases |todo|
    {
      var a :| a in todo;
      TotalWithout(todo, a);
      assert (todo - {a}).Keys == todo.Keys - {a};
      n := n + |todo[a].items|;
      todo := todo - {a};
    }
  }

  /** Cutting by one takes exactly the highest nonce. */
  lemma TopOf(m: Items) returns (top: nat)
    requires Keyed(m) && m != map[]
    ensures top in m && (forall n | n in m :: n <= top)
    ensures Excess(m, |m| - 1) == map[top := m[top]] && |Lowest(m, |m| - 1)| == |m| - 1
    ensures Lowest(m, |m| - 1) == m - {top}
  {
    hide *;
    var flat := SortedMap.AsFlat(m);
    assert |m| > 0 by {
      assert m.Keys != {};
    }
    SortedMap.PeelTop(m, flat, |m|);
    SortedMap.AllRanked(m, |m|);
    Splits(m, |m| - 1);
    top := flat[|m| - 1].nonce;
    assert (m - {top}).Keys == m.Keys - {top};
    LastIsTop(m, flat);
  }

  lemma LastIsTop(m: Items, flat: seq<Tx>)
    requires Keyed(m) && IsFlat(m, flat) && flat != []
    ensures flat[|flat| - 1].nonce in m && forall n | n in m :: n <= flat[|flat| - 1].nonce
  {
  }

  /** The `j` lowest of the `k` lowest are the `j` lowest. */
  lemma LowestTwice(m: Items, j: nat, k: nat)
    requires Keyed(m) && j <= k
    ensures Lowest(Lowest(m, k), j) == Lowest(m, j)
  {
    var low := Lowest(m, k);
    forall n | n in low
      ensures Rank(low, n) == Rank(m, n)
    {
      forall i | i in m && i < n
        ensures i in low
      {
        RankMonotone(m, i, n);
      }
      assert Lower(low, n) == Lower(m, n);
    }
    forall n | n in m && Rank(m, n) < j
      ensures n in low
    {
    }
  }

  lemma RankMonotone(m: Items, i: nat, n: nat)
    requires i <= n
    ensures Rank(m, i) <= Rank(m, n)
  {
    assert Lower(m, n) == Lower(m, i) + (Lower(m, n) - Lower(m, i));
    assert |Lower(m, n)| == |Lower(m, i)| + |Lower(m, n) - Lower(m, i)|;
  }

  lemma LowestSize(m: Items, k: nat)
    requires Keyed(m)
    ensures |Lowest(m, k)| == if k <= |m| then k else |m|
  {
    var flat := SortedMap.AsFlat(m);
    if k <= |m| {
      SortedMap.FlatPrefix(m, flat, k);
      assert Keyed(Lowest(m, k));
      FlatLength(Lowest(m, k), flat[..k]);
    } else {
      SortedMap.AllRanked(m, k);
    }
  }

  // ---------------------------------------------------------------------------------------------
  // Fair truncation

  ghost predicate Remote(lists: Lists, locals: set<Address>, a: Address) {
    a in lists && a !in locals
  }

  ghost predicate PrefixOf(was: ListValue, now: ListValue) {
    now == was.Capped(|now.items|) && |now.items| <= |was.items|
  }

  /** The list without its highest transaction, if it has any. */
  function OneOff(l: ListValue): ListValue {
    if |l.items| > 0 then l.Capped(|l.items| - 1) else l
  }

  /** Each list is a nonce prefix of what it was; local lists are untouched. */
  ghost predicate Prefixes(was: Lists, now: Lists, locals: set<Address>) {
    && now.Keys == was.Keys
    && (forall a | a in was :: PrefixOf(was[a], now[a]))
    && forall a | a in was && a in locals :: now[a] == was[a]
  }

  predicate Lost(was: Lists, now: Lists, a: Address) {
    Len(now, a) < Len(was, a)
  }

  /** Remote accounts that lost transactions are all cut to `level`, which no other remote account exceeds. */
  ghost predicate Leveled(was: Lists, now: Lists, locals: set<Address>, slots: nat, level: nat) {
    && Prefixes(was, now, locals)
    && (forall a | Remote(was, locals, a) :: Len(now, a) <= level)
    && forall a | Remote(was, locals, a) && Lost(was, now, a) :: Len(now, a) == level && level >= slots
  }

  /**
    Fair truncation: nonce prefixes, locals untouched, nobody cut below the guaranteed slots, and whoever lost a
    transaction still holds at least as many as any remote account that lost none.
   */
  ghost predicate FairlyTruncated(was: Lists, now: Lists, locals: set<Address>, slots: nat) {
    && Prefixes(was, now, locals)
    && (forall a | Remote(was, locals, a) && Lost(was, now, a) :: Len(now, a) >= slots)
    && forall a, b | Remote(was, locals, a) && Lost(was, now, a) && Remote(was, locals, b) && !Lost(was, now, b) ::
         Len(now, a) >= Len(now, b)
  }

  lemma LeveledIsFair(was: Lists, now: Lists, locals: set<Address>, slots: nat, level: nat)
    requires Leveled(was, now, locals, slots, level)
    ensures FairlyTruncated(was, now, locals, slots)
  {
  }

  /** One transaction dropped off each of the listed accounts. */
  ghost predicate RoundDone(p: Lists, q: Lists, accounts: seq<Address>) {
    && q.Keys == p.Keys
    && forall a | a in p :: q[a] == if a in accounts then OneOff(p[a]) else p[a]
  }

  lemma RoundStep(p: Lists, q: Lists, accounts: seq<Address>, i: nat)
    requires i < |accounts| && Distinct(accounts) && accounts[i] in p && RoundDone(p, q, accounts[..i])
    ensures q[accounts[i]] == p[accounts[i]]
    ensures RoundDone(p, q[accounts[i] := OneOff(q[accounts[i]])], accounts[..i + 1])
  {
  }

  ghost predicate FiledPending(lists: Lists) {
    forall a | a in lists :: Keyed(lists[a].items)
  }

  lemma NothingTruncated(was: Lists, locals: set<Address>, slots: nat)
    requires FiledPending(was)
    ensures Leveled(was, was, locals, slots, Total(was))
  {
    forall a | a in was
      ensures PrefixOf(was[a], was[a]) && Len(was, a) <= Total(was)
    {
      SortedMap.AllRanked(was[a].items, |was[a].items|);
      LenAtMostTotal(was, a);
    }
  }

  lemma RoundKeepsPrefixes(was: Lists, p: Lists, q: Lists, accounts: seq<Address>, locals: set<Address>)
    requires FiledPending(was) && Prefixes(was, p, locals) && RoundDone(p, q, accounts)
    requires forall a | a in accounts :: a !in locals && a in p && Len(p, a) > 0
    ensures Prefixes(was, q, locals)
    ensures forall a | a in accounts :: Len(q, a) == Len(p, a) - 1
    ensures forall a | a !in accounts :: Len(q, a) == Len(p, a)
  {
    hide PrefixOf, OneOff;
    forall a | a in accounts
      ensures PrefixOf(was[a], q[a]) && |q[a].items| == |p[a].items| - 1
    {
      CutOne(was[a], p[a]);
    }
  }

  /** A round over all accounts at the level lowers the level by one. */
  lemma RoundLowersLevel(was: Lists, p: Lists, q: Lists, accounts: seq<Address>, locals: set<Address>,
                         slots: nat, level: nat)
    requires FiledPending(was) && Leveled(was, p, locals, slots, level) && level > slots
    requires RoundDone(p, q, accounts)
    requires forall a | a in accounts :: Remote(was, locals, a) && Len(p, a) == level
    requires forall a | Remote(was, locals, a) && a !in accounts :: Len(p, a) < level
    ensures Leveled(was, q, locals, slots, level - 1)
    ensures forall a | a in accounts :: Len(q, a) == level - 1
    ensures forall a | a !in accounts :: Len(q, a) == Len(p, a)
  {
    hide Lowest, RoundDone, Prefixes, ItemsOf, FiledPending;
    PrefixKeys(was, p, locals);
    RoundKeepsPrefixes(was, p, q, accounts, locals);
  }

  lemma CutOne(was: ListValue, l: ListValue)
    requires Keyed(was.items) && PrefixOf(was, l) && |l.items| > 0
    ensures PrefixOf(was, OneOff(l)) && |OneOff(l).items| == |l.items| - 1
  {
    LowestTwice(was.items, |l.items| - 1, |l.items|);
    LowestSize(was.items, |l.items| - 1);
  }

  lemma PendingKeyed(v: View, a: Address)
    requires Consistent(v)
    ensures a in v.pending ==> Keyed(v.pending[a].items)
    ensures a in v.queue ==> Keyed(v.queue[a].items)
    ensures FiledPending(v.pending)
  {
  }

  lemma QueueKeyed(v: View)
    requires Consistent(v)
    ensures forall a :: Keyed(ItemsOf(v.queue, a))
  {
  }

  method OnlyKey(m: Items, ghost n: nat) returns (k: nat)
    requires n in m && m == map[n := m[n]]
    ensures k == n
  {
    assert m.Keys == {n};
    k :| k in m;
  }

  /** Accounts stay lined up: the settled ones settled, the steady ones steady. */
  ghost predicate SettledKept(v: View, w: View, managed: map<Address, nat>, managed': map<Address, nat>,
                              state: ChainState) {
    forall b ::
      && (Settling(v, managed, state, b) ==> Settling(w, managed', state, b))
      && (Steady(v, managed, state, b) ==> Steady(w, managed', state, b))
  }

  lemma SettledTrans(u: View, v: View, w: View, m0: map<Address, nat>, m1: map<Address, nat>, m2: map<Address, nat>,
                     state: ChainState)
    requires SettledKept(u, v, m0, m1, state) && SettledKept(v, w, m1, m2, state)
    ensures SettledKept(u, w, m0, m2, state)
  {
  }

  ghost predicate IsTop(m: Items, top: nat) {
    top in m && forall n | n in m :: n <= top
  }

  /** Dropping the highest of at least two pending nonces keeps accounts lined up. */
  lemma TopDropSettles(v: View, w: View, l: ListValue, managed: map<Address, nat>, managed': map<Address, nat>,
                       state: ChainState, a: Address, top: nat)
    requires a in v.pending && l == v.pending[a] && IsTop(l.items, top)
    requires w.queue == v.queue && a in w.pending && SameElsewhere(v.pending, w.pending, a)
    requires w.pending[a].items == l.items - {top}
    requires managed' == if NonceIn(managed, state, a) > top then managed[a := top] else managed
    ensures |l.items| >= 2 ==> SettledKept(v, w, managed, managed', state)
  {
    forall b | |l.items| >= 2
      ensures Settling(v, managed, state, b) ==> Settling(w, managed', state, b)
      ensures Steady(v, managed, state, b) ==> Steady(w, managed', state, b)
    {
      if b != a {
        SteadyElsewhere(v, w, managed, managed', state, a, b);
      } else if Settling(v, managed, state, a) {
        IntervalTop(l.items, state.NonceOf(a), NonceIn(managed, state, a), top);
      }
    }
  }

  lemma IntervalTop(m: Items, lo: nat, hi: nat, top: nat)
    requires lo <= hi && Interval(m, lo, hi) && top in m && forall n | n in m :: n <= top
    ensures top == hi - 1 && Interval(m - {top}, lo, top)
    ensures |m| >= 2 ==> lo < top
  {
    assert hi - 1 in m;
    if lo == top {
      assert m.Keys == {top};
    }
  }

  lemma NothingSettled(v: View, managed: map<Address, nat>, state: ChainState)
    ensures SettledKept(v, v, managed, managed, state)
  {
  }

  lemma NoRound(p: Lists)
    ensures RoundDone(p, p, [])
  {
  }

  /** All these accounts hold `level` transactions. */
  ghost predicate AtLevel(lists: Lists, accounts: seq<Address>, level: nat) {
    forall a | a in accounts :: Len(lists, a) == level
  }

  /** Every remote account other than these holds at most `bound` transactions. */
  ghost predicate OthersAtMost(lists: Lists, locals: set<Address>, accounts: seq<Address>, bound: nat) {
    forall a | Remote(lists, locals, a) && a !in accounts :: Len(lists, a) <= bound
  }

  /** The loop over offenders: who is still queued up as a spammer and who was popped. */
  ghost predicate Popped(was: Lists, now: Lists, locals: set<Address>, slots: nat,
                         spammers: set<Address>, offenders: seq<Address>) {
    && Distinct(offenders)
    && (forall a | a in offenders :: Remote(was, locals, a) && a !in spammers)
    && (forall a | a in spammers :: Remote(was, locals, a) && Len(now, a) > slots)
    && (forall a | Remote(was, locals, a) && a !in spammers && a !in offenders :: Len(now, a) <= slots)
    && (offenders == [] ==> now == was)
  }

  method PopLargest(lists: Lists, spammers: set<Address>) returns (largest: Address)
    requires spammers != {}
    ensures largest in spammers && forall a | a in spammers :: Len(lists, a) <= Len(lists, largest)
  {
    largest :| largest in spammers;
    var todo := spammers;
    while todo != {}
      invariant largest in spammers && todo <= spammers
      invariant forall a | a in spammers && a !in todo :: Len(lists, a) <= Len(lists, largest)
      decreases todo
    {
      var a :| a in todo;
      if Len(lists, a) > Len(lists, largest) {
        largest := a;
      }
      todo := todo - {a};
    }
  }

  /** The first offender sets the level. */
  lemma FirstLevel(was: Lists, locals: set<Address>, slots: nat, spammers: set<Address>, largest: Address)
    requires FiledPending(was) && Popped(was, was, locals, slots, spammers, [])
    requires largest in spammers && forall a | a in spammers :: Len(was, a) <= Len(was, largest)
    ensures Leveled(was, was, locals, slots, Len(was, largest)) && AtLevel(was, [largest], Len(was, largest))
  {
    NothingTruncated(was, locals, slots);
  }

  /** Popping the largest spammer: the earlier offenders are above it, everybody else is not. */
  lemma NextPopped(was: Lists, now: Lists, locals: set<Address>, slots: nat, level: nat,
                   spammers: set<Address>, offenders: seq<Address>, largest: Address)
    requires Leveled(was, now, locals, slots, level) && Popped(was, now, locals, slots, spammers, offenders)
    requires largest in spammers && forall a | a in spammers :: Len(now, a) <= Len(now, largest)
    ensures Distinct(offenders + [largest]) && slots < Len(now, largest) <= level && largest !in offenders
    ensures forall a | a in spammers - {largest} :: Remote(was, locals, a) && Len(now, a) > slots
    ensures (forall a | a in offenders + [largest] :: Remote(was, locals, a) && a !in spammers - {largest})
    ensures forall a | Remote(was, locals, a) && a !in spammers - {largest}
        && a !in offenders + [largest] :: Len(now, a) <= slots
    ensures OthersAtMost(now, locals, offenders, Len(now, largest))
  {
  }

  lemma PrefixKeys(was: Lists, now: Lists, locals: set<Address>)
    requires Prefixes(was, now, locals)
    ensures now.Keys == was.Keys
  {
  }

  /** Rounds among earlier offenders leave everyone else as popped. */
  lemma StillPopped(was: Lists, p: Lists, q: Lists, locals: set<Address>, slots: nat,
                    spammers: set<Address>, offenders: seq<Address>, all: seq<Address>)
    requires (forall a | a !in offenders :: Len(q, a) == Len(p, a)) && Distinct(all) && all != []
    requires forall a | a in offenders :: a in all
    requires forall a | a in all :: Remote(was, locals, a) && a !in spammers
    requires forall a | a in spammers :: Remote(was, locals, a) && Len(p, a) > slots
    requires forall a | Remote(was, locals, a) && a !in spammers && a !in all :: Len(p, a) <= slots
    ensures Popped(was, q, locals, slots, spammers, all)
  {
  }

  lemma DistinctAtMost(s: seq<Address>, lists: Lists)
    requires Distinct(s) && forall a | a in s :: a in lists
    ensures |s| <= |lists|
  {
    var elems := set a | a in s;
    DistinctLength(s, elems);
    assert elems <= lists.Keys;
    var rest := lists.Keys - elems;
    assert lists.Keys == elems + rest;
    assert |lists.Keys| == |elems| + |rest|;
  }

  lemma StartPopped(was: Lists, locals: set<Address>, slots: nat, spammers: set<Address>)
    requires spammers == set a | a in was && a !in locals && |was[a].items| > slots
    ensures Popped(was, was, locals, slots, spammers, [])
  {
  }

  lemma PoppedDistinct(was: Lists, now: Lists, locals: set<Address>, slots: nat,
                       spammers: set<Address>, offenders: seq<Address>)
    requires Popped(was, now, locals, slots, spammers, offenders)
    ensures Distinct(offenders) && forall a | a in offenders :: Remote(was, locals, a)
  {
  }

  lemma RemotesStay(was: Lists, now: Lists, locals: set<Address>, slots: nat, level: nat, accounts: seq<Address>)
    requires Leveled(was, now, locals, slots, level) && forall a | a in accounts :: Remote(was, locals, a)
    ensures forall a | a in accounts :: a in now
  {
  }

  lemma LevelStep(was: Lists, p: Lists, q: Lists, accounts: seq<Address>, locals: set<Address>,
                  slots: nat, level: nat, threshold: nat)
    requires FiledPending(was) && Leveled(was, p, locals, slots, level) && slots <= threshold < level
    requires RoundDone(p, q, accounts) && AtLevel(p, accounts, level) && OthersAtMost(p, locals, accounts, threshold)
    requires forall a | a in accounts :: Remote(was, locals, a)
    ensures Leveled(was, q, locals, slots, level - 1) && AtLevel(q, accounts, level - 1)
    ensures OthersAtMost(q, locals, accounts, threshold)
    ensures forall a | a !in accounts :: Len(q, a) == Len(p, a)
  {
    hide Prefixes, RoundDone;
    PrefixKeys(was, p, locals);
    RoundLowersLevel(was, p, q, accounts, locals, slots, level);
    PrefixKeys(was, q, locals);
  }

  lemma NonePoppedYet(was: Lists, now: Lists, locals: set<Address>, slots: nat, spammers: set<Address>)
    requires Popped(was, now, locals, slots, spammers, [])
    ensures now == was
  {
  }

  /** With no spammer left, everybody but the offenders is within the guaranteed slots. */
  lemma AllPopped(was: Lists, now: Lists, locals: set<Address>, slots: nat, level: nat, offenders: seq<Address>)
    requires Leveled(was, now, locals, slots, level) && Popped(was, now, locals, slots, {}, offenders)
    ensures OthersAtMost(now, locals, offenders, slots)
    ensures offenders != [] && AtLevel(now, offenders, level) ==> slots <= level || Len(now, offenders[0]) < slots
  {
  }

  lemma LevelBounds(was: Lists, now: Lists, locals: set<Address>, slots: nat, level: nat)
    requires Leveled(was, now, locals, slots, level)
    ensures forall a | Remote(now, locals, a) :: Len(now, a) <= level
    ensures now.Keys == was.Keys
  {
  }

  lemma OthersBound(now: Lists, locals: set<Address>, bound: nat)
    requires OthersAtMost(now, locals, [], bound)
    ensures forall a | Remote(now, locals, a) :: Len(now, a) <= bound
  {
  }

  // ---------------------------------------------------------------------------------------------
  // Queue truncation

  lemma RestElsewhere(p: Lists, q: Lists, a: Address)
    requires SameElsewhere(p, q, a)
    ensures p - {a} == q - {a}
  {
  }

  lemma TotalRest(p: Lists, a: Address)
    ensures Total(p - {a}) == Total(p) - Len(p, a)
  {
    hide Total;
    if a in p {
      TotalWithout(p, a);
    } else {
      assert p - {a} == p;
    }
  }

  /** If only one account's list changed, the total changes by as much as that list. */
  lemma TotalElsewhere(p: Lists, q: Lists, a: Address)
    requires SameElsewhere(p, q, a)
    ensures Total(q) == Total(p) - Len(p, a) + Len(q, a)
  {
    hide Total, SameElsewhere;
    RestElsewhere(p, q, a);
    TotalRest(p, a);
    TotalRest(q, a);
  }

  /** Removing a queued transaction takes just it out of the queue and leaks nothing. */
  lemma QueuedRemoval(v: View, w: View, a: Address, n: nat)
    requires Consistent(v) && n in ItemsOf(v.queue, a) && Removes(v, w, ItemsOf(v.queue, a)[n])
    ensures !LeakyRemoval(v, ItemsOf(v.queue, a)[n]) && w.pending == v.pending
    ensures SameElsewhere(v.queue, w.queue, a) && ItemsOf(w.queue, a) == ItemsOf(v.queue, a) - {n}
    ensures ItemsOf(v.queue, a)[n].nonce !in ItemsOf(v.pending, a) && ItemsOf(v.queue, a)[n].from == a
  {
  }

  lemma QueuedKnown(v: View, a: Address, n: nat)
    requires Consistent(v) && n in ItemsOf(v.queue, a)
    ensures var tx := ItemsOf(v.queue, a)[n];
      tx.Hash() in v.all && v.all[tx.Hash()] == tx && tx.from == a && tx.nonce == n && n !in ItemsOf(v.pending, a)
  {
  }

  method HighestKey(m: Items) returns (hi: nat)
    requires m != map[]
    ensures IsTop(m, hi)
  {
    var todo := m.Keys;
    assert todo != {};
    hi :| hi in todo;
    while todo != {}
      invariant todo <= m.Keys && hi in m && forall n | n in m && n !in todo :: n <= hi
      decreases todo
    {
      var n :| n in todo;
      if n > hi {
        hi := n;
      }
      todo := todo - {n};
    }
  }

  /** Taking the highest of the `k` lowest leaves the `k - 1` lowest. */
  lemma PeelHighest(m: Items, k: nat, top: nat)
    requires Keyed(m) && 0 < k <= |m| && IsTop(Lowest(m, k), top)
    ensures Lowest(m, k) - {top} == Lowest(m, k - 1)
  {
    hide Rank;
    LowestSize(m, k);
    var low := Lowest(m, k);
    assert low != map[];
    var t := TopOf(low);
    assert t == top;
    LowestTwice(m, k - 1, k);
  }

  lemma LowestAll(m: Items)
    ensures Lowest(m, |m|) == m
  {
    SortedMap.AllRanked(m, |m|);
  }

  lemma LowestNonEmpty(m: Items, k: nat)
    requires Keyed(m) && 0 < k <= |m|
    ensures Lowest(m, k) != map[]
  {
    LowestSize(m, k);
  }

  lemma NothingElsewhere(p: Lists, a: Address)
    ensures SameElsewhere(p, p, a)
  {
  }

  /**
    Local queues are untouched, every remote one is a nonce prefix of what it was, and at most one of those that
    lost transactions keeps any.
   */
  ghost predicate QueueTruncated(was: Lists, now: Lists, locals: set<Address>) {
    && (forall a | a in locals :: ItemsOf(now, a) == ItemsOf(was, a))
    && (forall a :: ItemsOf(now, a) == Lowest(ItemsOf(was, a), Len(now, a)))
    && forall a, b | Lost(was, now, a) && Lost(was, now, b) && Len(now, a) > 0 && Len(now, b) > 0 :: a == b
  }

  /** Truncation with `drop` transactions still to go and the remote accounts `left` not yet visited. */
  ghost predicate CutDown(was: Lists, now: Lists, locals: set<Address>, left: set<Address>, drop: nat) {
    && QueueTruncated(was, now, locals)
    && (forall a | a in left :: a !in locals && ItemsOf(now, a) == ItemsOf(was, a))
    && (drop > 0 ==> forall a | a !in locals && a !in left :: Len(now, a) == 0)
  }

  lemma NothingCutDown(was: Lists, locals: set<Address>, left: set<Address>, drop: nat)
    requires left == set a | a in was && a !in locals
    requires forall a :: Keyed(ItemsOf(was, a))
    ensures CutDown(was, was, locals, left, drop) && QueueTruncated(was, was, locals)
  {
    forall a
      ensures ItemsOf(was, a) == Lowest(ItemsOf(was, a), Len(was, a))
    {
      LowestAll(ItemsOf(was, a));
    }
  }

  lemma CutDownStep(was: Lists, u: Lists, now: Lists, locals: set<Address>, left: set<Address>, drop: nat, a: Address,
                    kept: nat, still: nat)
    requires CutDown(was, u, locals, left, drop) && drop > 0 && a in left && Keyed(ItemsOf(was, a))
    requires kept <= Len(u, a) && drop - still == Len(u, a) - kept && (kept == 0 || still == 0)
    requires SameElsewhere(u, now, a) && ItemsOf(now, a) == Lowest(ItemsOf(u, a), kept)
    ensures CutDown(was, now, locals, left - {a}, still)
  {
    hide Lowest, Keyed, SameElsewhere, ItemsOf, Len;
    KeptSize(was, u, now, a, kept);
    ItemsElsewhere(u, now, a);
    SameItemsSameLen(was, u);
  }

  lemma SameItemsSameLen(p: Lists, q: Lists)
    ensures forall b | ItemsOf(p, b) == ItemsOf(q, b) :: Len(p, b) == Len(q, b)
  {
  }

  lemma KeptSize(was: Lists, u: Lists, now: Lists, a: Address, kept: nat)
    requires ItemsOf(u, a) == ItemsOf(was, a) && Keyed(ItemsOf(was, a)) && kept <= Len(u, a)
    requires ItemsOf(now, a) == Lowest(ItemsOf(u, a), kept)
    ensures Len(now, a) == kept && ItemsOf(now, a) == Lowest(ItemsOf(was, a), Len(now, a))
  {
    LowestSize(ItemsOf(was, a), kept);
  }

  lemma ItemsElsewhere(u: Lists, now: Lists, a: Address)
    requires SameElsewhere(u, now, a)
    ensures forall b | b != a :: ItemsOf(now, b) == ItemsOf(u, b) && Len(now, b) == Len(u, b)
  {
  }

  lemma CutDownTruncated(was: Lists, now: Lists, locals: set<Address>, left: set<Address>, drop: nat)
    requires CutDown(was, now, locals, left, drop)
    ensures QueueTruncated(was, now, locals)
    ensures drop > 0 && left == {} ==> forall a | a in now && a !in locals :: Len(now, a) == 0
  {
  }
}
