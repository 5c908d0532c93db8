/**
  Binary min-heaps on sequences, ordered by an integer key: the operations of Go's `container/heap`
  that the nonce heap and the price heap are driven by.
 */
module Heap {

  predicate IsChild(p: nat, c: nat) {
    c == 2 * p + 1 || c == 2 * p + 2
  }

  ghost predicate Ordered<T>(key: T -> int, s: seq<T>) {
    OrderedFrom(key, s, 0)
  }

  /** Every parent at or above index `lo` is no larger than its children. */
  ghost predicate OrderedFrom<T>(key: T -> int, s: seq<T>, lo: nat) {
    forall p: nat, c: nat | IsChild(p, c) && lo <= p && c < |s| :: key(s[p]) <= key(s[c])
  }

  /** Ordered, except that the element at `i` may be larger than its children. */
  ghost predicate OrderedAbove<T>(key: T -> int, s: seq<T>, lo: nat, i: nat) {
    && (forall p: nat, c: nat | IsChild(p, c) && lo <= p && c < |s| && p != i :: key(s[p]) <= key(s[c]))
    && (forall p: nat, c: nat | IsChild(p, i) && IsChild(i, c) && lo <= p && c < |s| :: key(s[p]) <= key(s[c]))
  }

  /** Ordered, except that the element at `i` may be smaller than its parent. */
  ghost predicate OrderedBelow<T>(key: T -> int, s: seq<T>, i: nat) {
    && (forall p: nat, c: nat | IsChild(p, c) && c < |s| && c != i :: key(s[p]) <= key(s[c]))
    && (forall p: nat, c: nat | IsChild(p, i) && IsChild(i, c) && c < |s| :: key(s[p]) <= key(s[c]))
  }

  /** The root of a heap is a minimum. */
  lemma {:induction false} RootIsMin<T>(key: T -> int, s: seq<T>, i: nat)
    requires Ordered(key, s) && i < |s|
    ensures key(s[0]) <= key(s[i])
    decreases i
  {
    if i > 0 {
      assert IsChild((i - 1) / 2, i);
      RootIsMin(key, s, (i - 1) / 2);
    }
  }

  lemma {:induction false} RootIsMinOf<T>(key: T -> int, s: seq<T>, x: T)
    requires Ordered(key, s) && x in s
    ensures |s| > 0 && key(s[0]) <= key(x)
  {
    var i :| 0 <= i < |s| && s[i] == x;
    RootIsMin(key, s, i);
  }

  function Swap<T>(s: seq<T>, i: nat, j: nat): (r: seq<T>)
    requires i < |s| && j < |s|
    ensures |r| == |s| && multiset(r) == multiset(s)
  {
    s[i := s[j]][j := s[i]]
  }

  /** Swapping the misplaced element with its larger parent moves the misplacement to that parent. */
  lemma SiftUpStep<T>(key: T -> int, s: seq<T>, p: nat, i: nat)
    requires OrderedBelow(key, s, i) && i < |s| && IsChild(p, i) && key(s[i]) < key(s[p])
    ensures OrderedBelow(key, Swap(s, i, p), p)
  {
  }

  method Push<T>(key: T -> int, s: seq<T>, x: T) returns (r: seq<T>)
    requires Ordered(key, s)
    ensures Ordered(key, r) && multiset(r) == multiset(s) + multiset{x}
  {
    r := s + [x];
    var i: nat := |s|;
    while i > 0 && key(r[i]) < key(r[(i - 1) / 2])
      invariant i < |r| == |s| + 1
      invariant OrderedBelow(key, r, i)
      invariant multiset(r) == multiset(s) + multiset{x}
    {
      SiftUpStep(key, r, (i - 1) / 2, i);
      r := Swap(r, i, (i - 1) / 2);
      i := (i - 1) / 2;
    }
    assert i > 0 ==> IsChild((i - 1) / 2, i);
  }

  /** Swapping the misplaced element with its smaller child moves the misplacement to that child. */
  lemma SiftStep<T>(key: T -> int, s: seq<T>, lo: nat, i: nat, j: nat)
    requires OrderedAbove(key, s, lo, i) && lo <= i && IsChild(i, j) && j < |s|
    requires key(s[j]) < key(s[i])
    requires forall c: nat | IsChild(i, c) && c < |s| :: key(s[j]) <= key(s[c])
    ensures OrderedAbove(key, Swap(s, i, j), lo, j)
  {
  }

  /** Sifts the element at `lo` down until no child of it is smaller. */
  method SiftDown<T>(key: T -> int, s: seq<T>, lo: nat) returns (r: seq<T>)
    requires OrderedFrom(key, s, lo + 1)
    ensures OrderedFrom(key, r, lo) && multiset(r) == multiset(s)
  {
    r := s;
    var i: nat := lo;
    while 2 * i + 1 < |r|
      invariant |r| == |s| && lo <= i && OrderedAbove(key, r, lo, i)
      invariant multiset(r) == multiset(s)
      decreases |r| - i
    {
      var j := 2 * i + 1;
      if j + 1 < |r| && key(r[j + 1]) < key(r[j]) {
        j := j + 1;
      }
      assert forall c: nat | IsChild(i, c) && c < |r| :: key(r[j]) <= key(r[c]);
      if key(r[i]) <= key(r[j]) {
        return;
      }
      SiftStep(key, r, lo, i, j);
      r := Swap(r, i, j);
      i := j;
    }
  }

  method Pop<T>(key: T -> int, s: seq<T>) returns (x: T, r: seq<T>)
    requires Ordered(key, s) && |s| > 0
    ensures Ordered(key, r) && x == s[0]
    ensures multiset(s) == multiset(r) + multiset{x}
    ensures |r| == |s| - 1
  {
    x := s[0];
    var n := |s| - 1;
    var t := s[0 := s[n]][..n];
    if n == 0 {
      assert s == [x];
    } else {
      assert t == [s[n]] + s[1..n] && s == [x] + s[1..n] + [s[n]];
    }
    r := SiftDown(key, t, 0);
    assert |multiset(r)| == |r| && |multiset(t)| == |t|;
  }

  method Init<T>(key: T -> int, s: seq<T>) returns (r: seq<T>)
    ensures Ordered(key, r) && multiset(r) == multiset(s)
  {
    r := s;
    var i: nat := |s| / 2;
    while i > 0
      invariant |r| == |s| && i <= |s| / 2
      invariant OrderedFrom(key, r, i) && multiset(r) == multiset(s)
    {
      i := i - 1;
      r := SiftDown(key, r, i);
      assert |multiset(r)| == |r| && |multiset(s)| == |s|;
    }
  }

  /** Removes the element at index `i`. */
  method Remove<T>(key: T -> int, s: seq<T>, i: nat) returns (r: seq<T>)
    requires i < |s|
    ensures Ordered(key, r)
    ensures multiset(s) == multiset(r) + multiset{s[i]}
  {
    assert s == s[..i] + [s[i]] + s[i + 1..];
    r := Init(key, s[..i] + s[i + 1..]);
  }

  ghost predicate Sorted<T>(key: T -> int, s: seq<T>) {
    forall i, j | 0 <= i < j < |s| :: key(s[i]) <= key(s[j])
  }

  /** Sorts by key (`sort.Sort`). */
  method Sort<T>(key: T -> int, s: seq<T>) returns (r: seq<T>)
    ensures Sorted(key, r) && multiset(r) == multiset(s)
  {
    r := [];
    var h := Init(key, s);
    while h != []
      invariant Ordered(key, h) && Sorted(key, r)
      invariant multiset(r) + multiset(h) == multiset(s)
      invariant forall x, y | x in r && y in h :: key(x) <= key(y)
      decreases |h|
    {
      var x, rest := Pop(key, h);
      forall y | y in rest
        ensures key(x) <= key(y)
      {
        assert y in multiset(h);
        RootIsMinOf(key, h, y);
      }
      assert forall y | y in rest :: y in multiset(h);
      r, h := r + [x], rest;
    }
  }
}
