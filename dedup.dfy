/**
 * stix_get_uniq: sort the population in place, then keep the last element
 * of every run of equal values.
 */
module Dedup {
  import opened Sorting

  function Elems(s: seq<nat>): set<nat>
  {
    set x | x in s
  }

  /** The loop of stix_get_uniq keeps full[i] when it is the last element or differs from its successor. */
  predicate EndsRun(s: seq<nat>, i: nat)
    requires i < |s|
  {
    i + 1 == |s| || s[i] != s[i + 1]
  }

  /** What the loop of stix_get_uniq has written after visiting indices 0 .. k-1. */
  function UniqUpTo(s: seq<nat>, k: nat): (r: seq<nat>)
    requires k <= |s|
    ensures |r| <= k
  {
    if k == 0 then []
    else UniqUpTo(s, k - 1) + (if EndsRun(s, k - 1) then [s[k - 1]] else [])
  }

  /**
   * The last element of every run of equal neighbours in s; on sorted input,
   * the distinct values in ascending order (UniqFacts).
   */
  function Uniq(s: seq<nat>): seq<nat>
  {
    UniqUpTo(s, |s|)
  }

  /** The distinct values of a population, ascending: sort, then drop repeats. */
  function UniqueSorted(s: seq<nat>): seq<nat>
  {
    Uniq(SortSeq(s))
  }

  /** On a sorted input every prefix of the output is strictly ascending and below the next input value. */
  lemma {:induction false} UniqUpToAscending(s: seq<nat>, k: nat)
    requires Sorted(s) && k <= |s|
    ensures StrictlyAscending(UniqUpTo(s, k))
    ensures k < |s| ==> forall m :: 0 <= m < |UniqUpTo(s, k)| ==> UniqUpTo(s, k)[m] < s[k]
  {
    if k > 0 {
      UniqUpToAscending(s, k - 1);
      var prev := UniqUpTo(s, k - 1);
      var r := UniqUpTo(s, k);
      if EndsRun(s, k - 1) {
        assert r == prev + [s[k - 1]];
        forall i, j | 0 <= i < j < |r|
          ensures r[i] < r[j]
        {
          if j == |prev| { assert r[i] == prev[i]; } else { assert r[i] == prev[i] && r[j] == prev[j]; }
        }
      } else {
        assert r == prev;
      }
    }
  }

  /** On a sorted input the output prefix holds the values seen so far, except the value of the run still open. */
  lemma {:induction false} UniqUpToElems(s: seq<nat>, k: nat)
    requires Sorted(s) && k <= |s|
    ensures Elems(UniqUpTo(s, k)) == Elems(s[..k]) - (if k < |s| then {s[k]} else {})
  {
    if k > 0 {
      UniqUpToElems(s, k - 1);
      var prev := UniqUpTo(s, k - 1);
      assert s[..k] == s[..k - 1] + [s[k - 1]];
      assert Elems(s[..k]) == Elems(s[..k - 1]) + {s[k - 1]};
      if EndsRun(s, k - 1) {
        assert UniqUpTo(s, k) == prev + [s[k - 1]];
        assert Elems(UniqUpTo(s, k)) == Elems(prev) + {s[k - 1]};
        if k < |s| {
          assert s[k] !in Elems(s[..k]) by {
            forall x | x in s[..k] ensures x < s[k] {
              var m :| 0 <= m < k && s[..k][m] == x;
              assert s[m] <= s[k - 1] < s[k];
            }
          }
        }
      } else {
        assert UniqUpTo(s, k) == prev;
      }
    }
  }

  /** On a sorted input the result is strictly ascending and has exactly the values of the input. */
  lemma UniqFacts(s: seq<nat>)
    requires Sorted(s)
    ensures StrictlyAscending(Uniq(s))
    ensures Elems(Uniq(s)) == Elems(s)
    ensures |Uniq(s)| <= |s|
  {
    UniqUpToAscending(s, |s|);
    UniqUpToElems(s, |s|);
    assert s[..|s|] == s;
  }

  /** A strictly ascending input has no repeats to drop. */
  lemma {:induction false} UniqOfStrict(s: seq<nat>, k: nat)
    requires StrictlyAscending(s) && k <= |s|
    ensures UniqUpTo(s, k) == s[..k]
  {
    if k > 0 {
      UniqOfStrict(s, k - 1);
      assert s[..k] == s[..k - 1] + [s[k - 1]];
    }
  }

  /** Deduplicating twice is deduplicating once. */
  lemma UniqueSortedIdempotent(s: seq<nat>)
    ensures UniqueSorted(UniqueSorted(s)) == UniqueSorted(s)
  {
    var u := UniqueSorted(s);
    UniqFacts(SortSeq(s));
    assert Sorted(u);
    SortSeqOfSorted(u);
    UniqOfStrict(u, |u|);
    assert u[..|u|] == u;
  }

  /**
   * stix_get_uniq(full, numFull, &uniq): qsort the first numFull elements of
   * full in place, then copy out the last element of every run; the buffer is
   * shrunk to the number of values written.
   */
  method GetUniq(full: array<nat>, numFull: nat) returns (numUniq: nat, uniq: array<nat>)
    requires numFull <= full.Length
    modifies full
    ensures full[..numFull] == SortSeq(old(full[..numFull]))
    ensures full[numFull..] == old(full[numFull..])
    ensures fresh(uniq)
    ensures uniq.Length == numUniq <= numFull
    ensures uniq[..] == Uniq(full[..numFull])
    ensures StrictlyAscending(uniq[..]) && Elems(uniq[..]) == Elems(full[..numFull])
  {
    Qsort(full, numFull);
    numUniq, uniq := KeepRunEnds(full, numFull);
    UniqFacts(full[..numFull]);
  }

  /**
   * The copying loop of stix_get_uniq: full[i] is written out when it is the
   * last element or differs from its successor, into a buffer of numFull
   * slots that is then cut down to the values written.
   */
  method KeepRunEnds(full: array<nat>, numFull: nat) returns (numUniq: nat, uniq: array<nat>)
    requires numFull <= full.Length
    ensures fresh(uniq)
    ensures uniq.Length == numUniq <= numFull
    ensures uniq[..] == Uniq(full[..numFull])
  {
    ghost var s := full[..numFull];
    var buf := new nat[numFull];
    var i, u := 0, 0;
    while i < numFull
      invariant 0 <= i <= numFull && u <= i
      invariant buf[..u] == UniqUpTo(s, i)
    {
      assert full[i] == s[i];
      assert i + 1 < numFull ==> full[i + 1] == s[i + 1];
      ghost var written := buf[..u];
      assert UniqUpTo(s, i + 1) == written + (if EndsRun(s, i) then [s[i]] else []);
      if i + 1 == numFull || full[i] != full[i + 1] {
        buf[u] := full[i];
        u := u + 1;
        assert buf[..u] == written + [s[i]];
      }
      i := i + 1;
    }
    uniq := new nat[u];
    forall j | 0 <= j < u {
      uniq[j] := buf[j];
    }
    numUniq := u;
    assert uniq[..] == buf[..u];
    assert i == numFull;
    assert buf[..u] == UniqUpTo(s, numFull);
    assert full[..numFull] == s;
    assert Uniq(s) == UniqUpTo(s, numFull);
  }
}
