/**
 * The ordering facts the statistics rely on, and the qsort call of
 * stix_get_uniq. qsort is a library routine: it is modelled by its contract,
 * the sorted permutation of its input, which a reference insertion sort
 * computes (a sorted permutation is unique, so any correct sort agrees).
 */
module Sorting {

  predicate Sorted(s: seq<nat>)
  {
    forall i, j :: 0 <= i < j < |s| ==> s[i] <= s[j]
  }

  predicate StrictlyAscending(s: seq<nat>)
  {
    forall i, j :: 0 <= i < j < |s| ==> s[i] < s[j]
  }

  /** Insert x into a sorted sequence, before the first element not below it. */
  function Insert(x: nat, s: seq<nat>): seq<nat>
  {
    if s == [] || x <= s[0] then [x] + s else [s[0]] + Insert(x, s[1..])
  }

  lemma {:induction false} InsertPermutes(x: nat, s: seq<nat>)
    ensures multiset(Insert(x, s)) == multiset(s) + multiset{x}
  {
    if s != [] && x > s[0] {
      InsertPermutes(x, s[1..]);
      assert s == [s[0]] + s[1..];
    }
  }

  lemma {:induction false} InsertLowerBound(x: nat, s: seq<nat>, lo: nat)
    requires lo <= x && forall k :: 0 <= k < |s| ==> lo <= s[k]
    ensures forall k :: 0 <= k < |Insert(x, s)| ==> lo <= Insert(x, s)[k]
  {
    if s != [] && x > s[0] {
      InsertLowerBound(x, s[1..], lo);
    }
  }

  lemma {:induction false} InsertSorted(x: nat, s: seq<nat>)
    requires Sorted(s)
    ensures Sorted(Insert(x, s))
  {
    if s != [] && x > s[0] {
      var rest := Insert(x, s[1..]);
      InsertSorted(x, s[1..]);
      InsertLowerBound(x, s[1..], s[0]);
      var r := [s[0]] + rest;
      assert Insert(x, s) == r;
      forall i, j | 0 <= i < j < |r|
        ensures r[i] <= r[j]
      {
        assert r[j] == rest[j - 1];
        if i > 0 {
          assert r[i] == rest[i - 1];
        }
      }
    }
  }

  /** The sorted permutation of s. */
  function SortSeq(s: seq<nat>): (r: seq<nat>)
    ensures Sorted(r)
    ensures multiset(r) == multiset(s)
    ensures |r| == |s|
  {
    if s == [] then []
    else
      assert s == [s[0]] + s[1..];
      InsertSorted(s[0], SortSeq(s[1..]));
      InsertPermutes(s[0], SortSeq(s[1..]));
      Insert(s[0], SortSeq(s[1..]))
  }

  /** Sorting an already sorted sequence leaves it as it is. */
  lemma {:induction false} SortSeqOfSorted(s: seq<nat>)
    requires Sorted(s)
    ensures SortSeq(s) == s
  {
    if s != [] {
      SortSeqOfSorted(s[1..]);
    }
  }

  /** qsort(a, n, ...): sort the first n elements of a in place. */
  method Qsort(a: array<nat>, n: nat)
    requires n <= a.Length
    modifies a
    ensures a[..n] == SortSeq(old(a[..n]))
    ensures a[n..] == old(a[n..])
  {
    var sorted := SortSeq(a[..n]);
    forall i | 0 <= i < n {
      a[i] := sorted[i];
    }
    assert a[..n] == sorted;
    assert a[n..] == old(a[n..]);
  }
}
