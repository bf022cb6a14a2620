/**
 * stix_bsearch_seq and stix_get_quartile_counts: quartile values picked from
 * the distinct evidence depths, and the four bucket counts between them.
 */
module Quartiles {
  import opened Sorting
  import opened Dedup

  /** The number of elements of s strictly below key. */
  function CountLess(s: seq<nat>, key: nat): nat
  {
    if s == [] then 0 else (if s[0] < key then 1 else 0) + CountLess(s[1..], key)
  }

  lemma {:induction false} CountLessBound(s: seq<nat>, key: nat)
    ensures CountLess(s, key) <= |s|
  {
    if s != [] {
      CountLessBound(s[1..], key);
    }
  }

  /** A larger key never counts fewer elements. */
  lemma {:induction false} CountLessMonotone(s: seq<nat>, key: nat, key': nat)
    requires key <= key'
    ensures CountLess(s, key) <= CountLess(s, key')
  {
    if s != [] {
      CountLessMonotone(s[1..], key, key');
    }
  }

  /** If the first h elements are below key and the rest are not, exactly h are below key. */
  lemma {:induction false} CountLessAtBoundary(s: seq<nat>, key: nat, h: nat)
    requires h <= |s|
    requires forall j :: 0 <= j < h ==> s[j] < key
    requires forall j :: h <= j < |s| ==> key <= s[j]
    ensures CountLess(s, key) == h
  {
    if s != [] {
      if h > 0 {
        CountLessAtBoundary(s[1..], key, h - 1);
      } else {
        CountLessAtBoundary(s[1..], key, 0);
      }
    }
  }

  /** An element of s below key is counted. */
  lemma {:induction false} CountLessPositive(s: seq<nat>, key: nat, m: nat)
    requires m < |s| && s[m] < key
    ensures CountLess(s, key) >= 1
  {
    if m > 0 {
      CountLessPositive(s[1..], key, m - 1);
    }
  }

  /**
   * stix_bsearch_seq(key, D, D_size, lo, hi): narrow the bracket (lo, hi)
   * until it has width one and return its upper end, the first index of the
   * bracket whose element is not below key. stix_get_quartile_counts calls it
   * with lo = -1 and hi = the population size, and then the result is the
   * number of elements below key.
   */
  method BsearchSeq(key: nat, d: array<nat>, lo: int, hi: int) returns (h: int)
    requires -1 <= lo < hi <= d.Length
    requires forall i, j :: lo < i <= j < hi ==> d[i] <= d[j]
    ensures lo < h <= hi
    ensures forall j :: lo < j < h ==> d[j] < key
    ensures forall j :: h <= j < hi ==> key <= d[j]
    ensures lo == -1 ==> h == CountLess(d[..hi], key)
  {
    var l, r := lo, hi;
    while r - l > 1
      invariant lo <= l < r <= hi
      invariant forall j :: lo < j <= l ==> d[j] < key
      invariant forall j :: r <= j < hi ==> key <= d[j]
    {
      var mid := (r + l) / 2;
      // every probe lies strictly inside the bracket, hence inside the array
      assert l < mid < r && 0 <= mid < d.Length;
      if d[mid] < key {
        l := mid;
      } else {
        r := mid;
      }
    }
    h := r;
    if lo == -1 {
      CountLessAtBoundary(d[..hi], key, h);
    }
  }

  /** The values and counts stix_get_quartile_counts writes through its pointers. */
  datatype QuartileResult = QuartileResult(q1: nat, q2: nat, q3: nat, counts: seq<int>)

  function Min(a: int, b: int): int { if a < b then a else b }

  /** The index of Q3 among U distinct values: MIN(U/2 + 1 + U/4, U - 1). */
  function Q3Index(u: nat): (i: nat)
    requires u >= 1
    ensures i < u
  {
    Min(u / 2 + 1 + u / 4, u - 1)
  }

  /**
   * What stix_get_quartile_counts produces for a population already sorted
   * (as its call to stix_get_uniq leaves it). q1, q2, q3 are the values the
   * caller's variables held before; they are left as they were when the
   * population is empty. The source's `num_uniq == 3` branch follows a
   * `num_uniq >= 3` test and is never taken, so it has no case here.
   */
  function QuartileCounts(full: seq<nat>, q1: nat, q2: nat, q3: nat): QuartileResult
  {
    var uniq := Uniq(full);
    var u := |uniq|;
    if u >= 3 then
      var Q1, Q2, Q3 := uniq[u / 4], uniq[u / 2], uniq[Q3Index(u)];
      var c0 := CountLess(full, Q1);
      var c1 := CountLess(full, Q2) - c0;
      var c2 := CountLess(full, Q3) - c1 - c0;
      var c3 := |full| - c2 - c1 - c0;
      QuartileResult(Q1, Q2, Q3, [c0, c1, c2, c3])
    else if u == 2 then QuartileResult(0, uniq[0], uniq[1], [0, 0, 1, 1])
    else if u == 1 then QuartileResult(0, 0, uniq[0], [0, 0, 0, 1])
    else QuartileResult(q1, q2, q3, [0, 0, 0, 0])
  }

  function Sum(c: seq<int>): int
    requires |c| == 4
  {
    c[0] + c[1] + c[2] + c[3]
  }

  /** With three or more distinct values the quartiles are distinct values of the population, in order. */
  lemma QuartileOrder(s: seq<nat>, q1: nat, q2: nat, q3: nat)
    requires Sorted(s) && |Uniq(s)| >= 3
    ensures var r := QuartileCounts(s, q1, q2, q3);
      r.q1 < r.q2 < r.q3 && r.q1 in s && r.q2 in s && r.q3 in s
  {
    UniqFacts(s);
    var uniq := Uniq(s);
    var u := |uniq|;
    assert u / 4 < u / 2 < Q3Index(u);
    assert uniq[u / 4] in Elems(uniq) && uniq[u / 2] in Elems(uniq) && uniq[Q3Index(u)] in Elems(uniq);
  }

  /**
   * With three or more distinct values the buckets partition the population:
   * counts[0] elements lie below Q1, counts[0] + counts[1] below Q2,
   * counts[0] + counts[1] + counts[2] below Q3, every count is non-negative
   * and together they number the whole population.
   */
  lemma QuartileBuckets(s: seq<nat>, q1: nat, q2: nat, q3: nat)
    requires Sorted(s) && |Uniq(s)| >= 3
    ensures var r := QuartileCounts(s, q1, q2, q3);
      && |r.counts| == 4
      && r.counts[0] == CountLess(s, r.q1)
      && r.counts[0] + r.counts[1] == CountLess(s, r.q2)
      && r.counts[0] + r.counts[1] + r.counts[2] == CountLess(s, r.q3)
      && r.counts[0] >= 0 && r.counts[1] >= 0 && r.counts[2] >= 0 && r.counts[3] >= 0
      && Sum(r.counts) == |s|
  {
    var r := QuartileCounts(s, q1, q2, q3);
    QuartileOrder(s, q1, q2, q3);
    CountLessMonotone(s, r.q1, r.q2);
    CountLessMonotone(s, r.q2, r.q3);
    CountLessBound(s, r.q3);
  }

  /**
   * Q1 is the smallest value exactly when there are fewer than four distinct
   * values, so the first bucket is empty exactly then.
   */
  lemma FirstBucketEmptyIff(s: seq<nat>, q1: nat, q2: nat, q3: nat)
    requires Sorted(s) && |Uniq(s)| >= 3
    ensures QuartileCounts(s, q1, q2, q3).counts[0] == 0 <==> |Uniq(s)| < 4
  {
    UniqFacts(s);
    var uniq := Uniq(s);
    var u := |uniq|;
    if u < 4 {
      forall j | 0 <= j < |s| ensures uniq[0] <= s[j] {
        assert s[j] in Elems(uniq);
      }
      CountLessAtBoundary(s, uniq[0], 0);
    } else {
      assert uniq[0] in Elems(s);
      var m :| 0 <= m < |s| && s[m] == uniq[0];
      CountLessPositive(s, uniq[u / 4], m);
    }
  }

  /** The first distinct value of a sorted population is its smallest element, the last its largest. */
  lemma UniqEnds(s: seq<nat>)
    requires Sorted(s) && s != []
    ensures Uniq(s) != [] && Uniq(s)[0] == s[0] && Uniq(s)[|Uniq(s)| - 1] == s[|s| - 1]
  {
    UniqFacts(s);
    var uniq := Uniq(s);
    assert s[0] in Elems(uniq);
    assert uniq[0] in Elems(s);
    assert uniq == UniqUpTo(s, |s| - 1) + [s[|s| - 1]];
  }

  /**
   * With fewer than three distinct values the buckets are constants that sum
   * to the number of distinct values, not to the population size; Q3 is the
   * largest value, Q2 the smallest when there are two, and an empty
   * population leaves Q1, Q2, Q3 as they were.
   */
  lemma FewDistinctValues(s: seq<nat>, q1: nat, q2: nat, q3: nat)
    requires Sorted(s) && |Uniq(s)| < 3
    ensures var r := QuartileCounts(s, q1, q2, q3);
      && |r.counts| == 4 && Sum(r.counts) == |Uniq(s)|
      && (s != [] ==> r.q1 == 0 && r.q3 == s[|s| - 1])
      && (|Uniq(s)| == 2 ==> r.q2 == s[0])
      && (|Uniq(s)| == 1 ==> r.q2 == 0)
      && (s == [] ==> r == QuartileResult(q1, q2, q3, [0, 0, 0, 0]))
  {
    UniqFacts(s);
    if s != [] {
      UniqEnds(s);
    } else {
      assert Uniq(s) == [];
    }
  }

  /** Three distinct values take the general branch: for 2, 4, 9 the buckets are 0, 1, 1, 1. */
  lemma ThreeValuesExample()
    ensures QuartileCounts([2, 4, 9], 0, 0, 0) == QuartileResult(2, 4, 9, [0, 1, 1, 1])
  {
    var s: seq<nat> := [2, 4, 9];
    UniqOfStrict(s, 3);
    assert s[..3] == s;
    assert CountLess(s, 2) == 0;
    assert CountLess(s, 4) == 1;
    assert CountLess(s, 9) == 2;
  }

  /** A population of three equal depths yields buckets that sum to 1, not 3. */
  lemma RepeatedValueExample()
    ensures QuartileCounts([5, 5, 5], 7, 7, 7) == QuartileResult(0, 0, 5, [0, 0, 0, 1])
  {
    var s: seq<nat> := [5, 5, 5];
    assert UniqUpTo(s, 1) == [];
    assert UniqUpTo(s, 2) == [];
    assert Uniq(s) == [5];
  }

  /**
   * stix_get_quartile_counts(full, numFull, &Q1, &Q2, &Q3, counts): zero
   * the counts, sort and deduplicate the population, then pick the quartiles
   * and turn lower-bound positions into bucket counts.
   */
  method GetQuartileCounts(full: array<nat>, numFull: nat, q1In: nat, q2In: nat, q3In: nat, counts: array<int>)
    returns (q1: nat, q2: nat, q3: nat)
    requires numFull <= full.Length && counts.Length == 4
    modifies full, counts
    ensures full[..numFull] == SortSeq(old(full[..numFull]))
    ensures full[numFull..] == old(full[numFull..])
    ensures QuartileResult(q1, q2, q3, counts[..]) == QuartileCounts(full[..numFull], q1In, q2In, q3In)
  {
    var numUniq, uniq := GetUniq(full, numFull);
    var c0, c1, c2, c3;
    q1, q2, q3, c0, c1, c2, c3 := PickQuartiles(full, numFull, uniq, numUniq, q1In, q2In, q3In);
    // full and counts are distinct arrays, so storing the counts after the
    // searches rather than between them changes nothing
    counts[0], counts[1], counts[2], counts[3] := c0, c1, c2, c3;
    FourElements(counts);
  }

  /** An array of four elements, as a sequence. */
  lemma FourElements(a: array<int>)
    requires a.Length == 4
    ensures a[..] == [a[0], a[1], a[2], a[3]]
  {
  }

  /**
   * The part of stix_get_quartile_counts after stix_get_uniq: the quartile
   * values and bucket counts of a sorted population, given its distinct
   * values. q1In, q2In, q3In are what the caller's variables held before,
   * and counts start at zero.
   */
  method PickQuartiles(full: array<nat>, numFull: nat, uniq: array<nat>, numUniq: nat, q1In: nat, q2In: nat, q3In: nat)
    returns (q1: nat, q2: nat, q3: nat, c0: int, c1: int, c2: int, c3: int)
    requires numFull <= full.Length && Sorted(full[..numFull])
    requires uniq.Length == numUniq && uniq[..] == Uniq(full[..numFull])
    ensures QuartileResult(q1, q2, q3, [c0, c1, c2, c3]) == QuartileCounts(full[..numFull], q1In, q2In, q3In)
  {
    q1, q2, q3 := q1In, q2In, q3In;
    c0, c1, c2, c3 := 0, 0, 0, 0;
    if numUniq >= 3 {
      q1, q2, q3, c0, c1, c2, c3 := PickGeneral(full, numFull, uniq, numUniq, q1In, q2In, q3In);
    } else if numUniq == 3 {
      // the source assigns uniq[0..2] and the counts 0, 1, 2, 3 here
      assert false;
    } else if numUniq == 2 {
      q1 := 0;
      q2 := uniq[0];
      q3 := uniq[1];
      c0, c1, c2, c3 := 0, 0, 1, 1;
    } else if numUniq == 1 {
      q1 := 0;
      q2 := 0;
      q3 := uniq[0];
      c0, c1, c2, c3 := 0, 0, 0, 1;
    }
  }

  /**
   * The branch for three or more distinct values: Q1, Q2 and Q3 are read from
   * uniq, and the counts are differences of binary-search results.
   */
  method PickGeneral(full: array<nat>, numFull: nat, uniq: array<nat>, numUniq: nat, q1In: nat, q2In: nat, q3In: nat)
    returns (q1: nat, q2: nat, q3: nat, c0: int, c1: int, c2: int, c3: int)
    requires numFull <= full.Length && Sorted(full[..numFull])
    requires uniq.Length == numUniq && uniq[..] == Uniq(full[..numFull]) && numUniq >= 3
    ensures QuartileResult(q1, q2, q3, [c0, c1, c2, c3]) == QuartileCounts(full[..numFull], q1In, q2In, q3In)
  {
    q1 := uniq[numUniq / 4];
    q2 := uniq[numUniq / 2];
    q3 := uniq[Min(numUniq / 2 + 1 + numUniq / 4, numUniq - 1)];
    SortedPrefix(full, numFull);
    c0 := BsearchSeq(q1, full, -1, numFull);
    var below2 := BsearchSeq(q2, full, -1, numFull);
    c1 := below2 - c0;
    var below3 := BsearchSeq(q3, full, -1, numFull);
    c2 := below3 - c1 - c0;
    c3 := numFull - c2 - c1 - c0;
    GeneralCase(full[..numFull], q1In, q2In, q3In);
  }

  /** The general case of QuartileCounts, unfolded. */
  lemma GeneralCase(s: seq<nat>, q1: nat, q2: nat, q3: nat)
    requires |Uniq(s)| >= 3
    ensures var uniq, u := Uniq(s), |Uniq(s)|;
      var c0, c1, c2 := CountLess(s, uniq[u / 4]), CountLess(s, uniq[u / 2]), CountLess(s, uniq[Q3Index(u)]);
      QuartileCounts(s, q1, q2, q3) == QuartileResult(uniq[u / 4], uniq[u / 2], uniq[Q3Index(u)], [c0, c1 - c0, c2 - c1, |s| - c2])
  {
  }

  /** The sorted prefix of an array, stated over its elements. */
  lemma SortedPrefix(a: array<nat>, n: nat)
    requires n <= a.Length && Sorted(a[..n])
    ensures forall i, j :: -1 < i <= j < n ==> a[i] <= a[j]
  {
    forall i, j | -1 < i <= j < n ensures a[i] <= a[j] {
      assert a[i] == a[..n][i] && a[j] == a[..n][j];
    }
  }
}
