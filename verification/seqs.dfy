/**
 Sequence facts used to describe the iteration order of a Python dict:
 distinctness, first-occurrence index, order-preserving sub-lists and the
 order-preserving filter that both `del` and a filtering loop amount to.
 */
module Seqs {

  /* No element occurs twice. */
  predicate NoDuplicates<T(==)>(s: seq<T>)
  {
    forall i, j :: 0 <= i < j < |s| ==> s[i] != s[j]
  }

  /* Position of the first occurrence of `x` in `s`. */
  function IndexOf<T(==)>(s: seq<T>, x: T): (i: nat)
    requires x in s
    ensures i < |s| && s[i] == x
    ensures forall j :: 0 <= j < i ==> s[j] != x
  {
    if s[0] == x then 0 else 1 + IndexOf(s[1..], x)
  }

  /* Every element of `r` occurs in `s`, and `r` lists them in the order in
     which they first occur in `s`. */
  ghost predicate InOrder<T>(r: seq<T>, s: seq<T>)
  {
    && (forall i :: 0 <= i < |r| ==> r[i] in s)
    && (forall i, j :: 0 <= i < j < |r| ==> IndexOf(s, r[i]) < IndexOf(s, r[j]))
  }

  /* The elements of `s` satisfying `p`, in their order in `s`. */
  function Filter<T(==,!new)>(s: seq<T>, p: T -> bool): (r: seq<T>)
    ensures |r| <= |s|
  {
    if s == [] then []
    else (if p(s[0]) then [s[0]] else []) + Filter(s[1..], p)
  }

  /* The filter keeps exactly the elements satisfying `p`. */
  lemma {:induction false} FilterMembers<T(!new)>(s: seq<T>, p: T -> bool)
    ensures forall x :: x in Filter(s, p) <==> x in s && p(x)
  {
    if s != [] {
      FilterMembers(s[1..], p);
      assert s == [s[0]] + s[1..];
    }
  }

  /* Filtering a duplicate-free list keeps it duplicate-free and keeps the
     survivors in their original order. */
  lemma {:induction false} FilterOrdered<T(!new)>(s: seq<T>, p: T -> bool)
    requires NoDuplicates(s)
    ensures NoDuplicates(Filter(s, p))
    ensures InOrder(Filter(s, p), s)
  {
    if s != [] {
      var rest := Filter(s[1..], p);
      FilterMembers(s[1..], p);
      assert NoDuplicates(s[1..]) by {
        forall i, j | 0 <= i < j < |s[1..]|
          ensures s[1..][i] != s[1..][j]
        {
          assert s[1..][i] == s[i + 1] && s[1..][j] == s[j + 1];
        }
      }
      FilterOrdered(s[1..], p);
      ShiftIndex(s, rest);
    }
  }

  /* A list ordered after the tail of a duplicate-free `s` is ordered after
     `s` itself, and may be preceded by the head of `s`. */
  lemma ShiftIndex<T>(s: seq<T>, rest: seq<T>)
    requires |s| > 0 && NoDuplicates(s)
    requires InOrder(rest, s[1..])
    ensures InOrder(rest, s)
    ensures s[0] !in rest ==> InOrder([s[0]] + rest, s)
  {
  }

  /* `s` with every occurrence of `k` dropped, the rest kept in order. */
  function Without<T(==,!new)>(s: seq<T>, k: T): (r: seq<T>)
    ensures forall x :: x in r <==> x in s && x != k
    ensures k !in s ==> r == s
    ensures NoDuplicates(s) ==> NoDuplicates(r) && InOrder(r, s)
  {
    var r := Filter(s, x => x != k);
    FilterMembers(s, x => x != k);
    assert k !in s ==> r == s by {
      if k !in s {
        FilterKeepsAll(s, x => x != k);
      }
    }
    assert NoDuplicates(s) ==> NoDuplicates(r) && InOrder(r, s) by {
      if NoDuplicates(s) {
        FilterOrdered(s, x => x != k);
      }
    }
    r
  }

  /* Filtering by a predicate every element satisfies changes nothing. */
  lemma {:induction false} FilterKeepsAll<T(!new)>(s: seq<T>, p: T -> bool)
    requires forall x :: x in s ==> p(x)
    ensures Filter(s, p) == s
  {
    if s != [] {
      FilterKeepsAll(s[1..], p);
      assert [s[0]] + s[1..] == s;
    }
  }

  /* Filtering a suffix takes its first element, if it qualifies, and then
     filters the next suffix. */
  lemma FilterStep<T(!new)>(s: seq<T>, i: nat, p: T -> bool)
    requires i < |s|
    ensures Filter(s[i..], p) == (if p(s[i]) then [s[i]] else []) + Filter(s[i + 1..], p)
  {
  }
}
