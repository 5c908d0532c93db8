/**
  Plain nonce -> transaction maps: the simple form that the heap-indexed, cached `TxSortedMap` refines,
  and the sets of transactions its operations select.
 */
module NonceMap {
  import opened Types
  import opened Seqs

  type Items = map<nat, Tx>

  /** Every transaction is stored under its own nonce. */
  ghost predicate Keyed(m: Items) {
    forall n | n in m :: m[n].nonce == n
  }

  function AtLeast(m: Items, threshold: nat): Items {
    map n | n in m && n >= threshold :: m[n]
  }

  function Below(m: Items, threshold: nat): Items {
    map n | n in m && n < threshold :: m[n]
  }

  function Keep(m: Items, drop: Tx -> bool): Items {
    map n | n in m && !drop(m[n]) :: m[n]
  }

  function Dropped(m: Items, drop: Tx -> bool): Items {
    map n | n in m && drop(m[n]) :: m[n]
  }

  function Lower(m: Items, n: nat): set<nat> {
    set k | k in m && k < n
  }

  /** How many stored nonces are lower than `n`. */
  function Rank(m: Items, n: nat): nat {
    |Lower(m, n)|
  }

  /** The `limit` lowest nonces. */
  function Lowest(m: Items, limit: nat): Items {
    map n | n in m && Rank(m, n) < limit :: m[n]
  }

  function Excess(m: Items, limit: nat): Items {
    map n | n in m && Rank(m, n) >= limit :: m[n]
  }

  /** Nonce `n` is reached from the lowest stored nonce without a gap. */
  predicate InRun(m: Items, n: nat) {
    n in m && forall k | 0 <= k < n && k !in m :: forall j | j in m :: k < j
  }

  predicate Startable(m: Items, start: nat) {
    exists j | j in m :: j <= start
  }

  /** The maximal consecutive run from the lowest nonce, provided that nonce is not above `start`. */
  function ReadyRun(m: Items, start: nat): Items {
    if Startable(m, start) then map n | n in m && InRun(m, n) :: m[n] else map[]
  }

  function AfterReady(m: Items, start: nat): Items {
    if Startable(m, start) then map n | n in m && !InRun(m, n) :: m[n] else m
  }

  /** The stored nonces are exactly those of [lo, hi). */
  ghost predicate Interval(m: Items, lo: nat, hi: nat) {
    forall n: nat :: n in m <==> lo <= n < hi
  }

  ghost predicate Ascending(s: seq<Tx>) {
    forall i, j | 0 <= i < j < |s| :: s[i].nonce < s[j].nonce
  }

  ghost predicate Descending(s: seq<Tx>) {
    forall i, j | 0 <= i < j < |s| :: s[i].nonce > s[j].nonce
  }

  /** `s` holds exactly the transactions of `m`. */
  ghost predicate SameTxs(m: Items, s: seq<Tx>) {
    forall t :: t in s <==> t.nonce in m && m[t.nonce] == t
  }

  /** `s` lists `m` in nonce order. */
  ghost predicate IsFlat(m: Items, s: seq<Tx>) {
    Ascending(s) && SameTxs(m, s)
  }

  /** `s` enumerates `m` in some order, each transaction once. */
  ghost predicate Enumerates(m: Items, s: seq<Tx>) {
    SameTxs(m, s) && Distinct(s)
  }

  /** A nonce-sorted listing is determined by the map. */
  lemma {:induction false} FlatUnique(m: Items, s: seq<Tx>, t: seq<Tx>)
    requires IsFlat(m, s) && IsFlat(m, t)
    ensures s == t
    decreases |s|
  {
    if s == [] {
      assert forall x | x in t :: x in s;
    } else {
      assert s[0] in t && (t != [] ==> t[0] in s);
      assert s[0] == t[0];
      var m' := m - {s[0].nonce};
      FlatTail(m, s);
      FlatTail(m, t);
      FlatUnique(m', s[1..], t[1..]);
      assert s == [s[0]] + s[1..] && t == [t[0]] + t[1..];
    }
  }

  lemma FlatTail(m: Items, s: seq<Tx>)
    requires IsFlat(m, s) && s != []
    ensures IsFlat(m - {s[0].nonce}, s[1..])
  {
  }

  lemma {:induction false} FlatLength(m: Items, s: seq<Tx>)
    requires Keyed(m) && IsFlat(m, s)
    ensures |s| == |m|
    decreases |s|
  {
    if s == [] {
      assert m.Values == {};
    } else {
      assert s[0] in s;
      FlatTail(m, s);
      FlatLength(m - {s[0].nonce}, s[1..]);
      assert (m - {s[0].nonce}).Keys == m.Keys - {s[0].nonce};
    }
  }

  lemma InPrefix(s: seq<Tx>, i: nat, t: Tx)
    requires Ascending(s) && i < |s|
    ensures t in s[..i] <==> t in s && t.nonce < s[i].nonce
  {
    if t in s && t.nonce < s[i].nonce {
      var j :| 0 <= j < |s| && s[j] == t;
      assert s[..i][j] == t;
    }
  }

  /** A prefix of a nonce-sorted listing lists what lies below the next nonce. */
  lemma PrefixIsFlat(m: Items, s: seq<Tx>, i: nat)
    requires IsFlat(m, s) && i < |s|
    ensures s[i].nonce in m && IsFlat(Below(m, s[i].nonce), s[..i])
  {
    hide Ascending;
    assert s[i] in s;
    PrefixAscends(s, i);
    forall t
      ensures t in s[..i] <==> t.nonce in Below(m, s[i].nonce) && Below(m, s[i].nonce)[t.nonce] == t
    {
      InPrefix(s, i, t);
    }
  }

  lemma PrefixAscends(s: seq<Tx>, i: nat)
    requires Ascending(s) && i < |s|
    ensures Ascending(s[..i])
  {
  }

  /** In a nonce-sorted listing, the rank of a transaction is its position. */
  lemma RankIsPosition(m: Items, s: seq<Tx>, i: nat)
    requires Keyed(m) && IsFlat(m, s) && i < |s|
    ensures s[i].nonce in m && Rank(m, s[i].nonce) == i
  {
    hide IsFlat;
    PrefixIsFlat(m, s, i);
    FlatLength(Below(m, s[i].nonce), s[..i]);
    assert Below(m, s[i].nonce).Keys == Lower(m, s[i].nonce);
  }

  lemma {:induction false} IntervalSize(s: set<nat>, lo: nat, hi: nat)
    requires lo <= hi && forall n: nat :: n in s <==> lo <= n < hi
    ensures |s| == hi - lo
    decreases hi - lo
  {
    if lo == hi {
      assert s == {};
    } else {
      assert hi - 1 in s;
      IntervalSize(s - {hi - 1}, lo, hi - 1);
    }
  }

}
