/** Sequences without repetition, and sequences with the same elements. */
module Seqs {

  ghost predicate Distinct<T>(s: seq<T>) {
    forall i, j | 0 <= i < j < |s| :: s[i] != s[j]
  }

  lemma {:induction false} DistinctOnce<T>(s: seq<T>, x: T)
    requires Distinct(s)
    ensures multiset(s)[x] <= 1
    decreases |s|
  {
    if s != [] {
      var rest := s[1..];
      assert forall i | 0 <= i < |rest| :: rest[i] == s[i + 1];
      DistinctOnce(rest, x);
      assert s == [s[0]] + rest;
      assert s[0] !in rest;
    }
  }

  lemma OnceDistinct<T>(s: seq<T>)
    requires forall x :: multiset(s)[x] <= 1
    ensures Distinct(s)
  {
    forall i, j | 0 <= i < j < |s|
      ensures s[i] != s[j]
    {
      assert s == s[..j] + s[j..];
      assert s[..j][i] == s[i] && s[j..][0] == s[j];
      assert s[i] in multiset(s[..j]) && s[j] in multiset(s[j..]);
      assert multiset(s)[s[i]] == multiset(s[..j])[s[i]] + multiset(s[j..])[s[i]];
    }
  }

  /** A rearrangement has the same elements, and no repetition if the original has none. */
  lemma Rearranged<T>(s: seq<T>, r: seq<T>)
    requires multiset(s) == multiset(r)
    ensures |s| == |r| && (forall x :: x in r <==> x in s)
    ensures Distinct(s) ==> Distinct(r)
  {
    assert |multiset(s)| == |s| && |multiset(r)| == |r|;
    forall x
      ensures x in r <==> x in s
    {
      assert x in r <==> x in multiset(r);
      assert x in s <==> x in multiset(s);
    }
    if Distinct(s) {
      forall x
        ensures multiset(r)[x] <= 1
      {
        DistinctOnce(s, x);
      }
      OnceDistinct(r);
    }
  }

  lemma Uncons<T>(x: T, s: seq<T>)
    requires Distinct([x] + s)
    ensures Distinct(s) && x !in s
    ensures forall y :: y in [x] + s <==> y == x || y in s
  {
    var t := [x] + s;
    assert forall i | 0 <= i < |s| :: t[i + 1] == s[i] && t[0] != t[i + 1];
  }

  /** A listing of a set without repetition has the set's size. */
  lemma {:induction false} DistinctLength<T>(s: seq<T>, keys: set<T>)
    requires Distinct(s) && forall x :: x in s <==> x in keys
    ensures |s| == |keys|
    decreases |s|
  {
    if s == [] {
      assert keys == {};
    } else {
      var rest := s[1..];
      assert s == [s[0]] + rest;
      Uncons(s[0], rest);
      DistinctLength(rest, keys - {s[0]});
    }
  }

  ghost function Elements<T>(s: seq<T>): set<T> {
    set x | x in s
  }

  lemma NoElements<T>()
    ensures Elements<T>([]) == {}
  {
  }

  lemma Unsnoc<T>(s: seq<T>)
    requires Distinct(s) && s != []
    ensures var init, last := s[..|s| - 1], s[|s| - 1];
      Distinct(init) && last in Elements(s) && Elements(s) - {last} == Elements(init)
  {
    var init, last := s[..|s| - 1], s[|s| - 1];
    assert s == init + [last];
    assert last !in init;
  }

  lemma {:induction false} SubsetSize<T>(x: set<T>, y: set<T>)
    requires x <= y
    ensures |x| <= |y|
    decreases x
  {
    if x != {} {
      var e :| e in x;
      SubsetSize(x - {e}, y - {e});
    }
  }
}
