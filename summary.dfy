/**
 * stix_get_summary: per-sample evidence totals split into zero, one and
 * "two or more", their minimum and maximum, and the quartile buckets of the
 * samples with two or more pieces of evidence.
 */
module Summary {
  import opened Aggregator
  import opened Sorting
  import opened Quartiles

  /** INT_MAX of a 32-bit int: the value min starts from. */
  const INT_MAX: nat := 0x7fff_ffff

  /** A sample's evidence total: split reads plus paired-end reads. */
  function Total(p: UintPair): nat
  {
    p.first + p.second
  }

  /** The evidence totals of a run of samples, sample by sample. */
  function Totals(d: seq<UintPair>): seq<nat>
  {
    seq(|d|, i requires 0 <= i < |d| => Total(d[i]))
  }

  /** How many samples have total v. */
  function Occurrences(t: seq<nat>, v: nat): nat
  {
    if t == [] then 0 else Occurrences(t[..|t| - 1], v) + (if t[|t| - 1] == v then 1 else 0)
  }

  /** Occurrences is the multiplicity of v in the multiset of totals. */
  lemma {:induction false} OccurrencesMultiplicity(t: seq<nat>, v: nat)
    ensures Occurrences(t, v) == multiset(t)[v]
  {
    if t != [] {
      var p := t[..|t| - 1];
      OccurrencesMultiplicity(p, v);
      assert t == p + [t[|t| - 1]];
    }
  }

  /** The totals of two or more, in sample order: what the loop stores in full. */
  function Many(t: seq<nat>): seq<nat>
  {
    if t == [] then []
    else Many(t[..|t| - 1]) + (if t[|t| - 1] >= 2 then [t[|t| - 1]] else [])
  }

  /** The running minimum, starting from INT_MAX. */
  function MinOf(t: seq<nat>): nat
  {
    if t == [] then INT_MAX
    else
      var m := MinOf(t[..|t| - 1]);
      if m > t[|t| - 1] then t[|t| - 1] else m
  }

  /** The running maximum, starting from 0. */
  function MaxOf(t: seq<nat>): nat
  {
    if t == [] then 0
    else
      var m := MaxOf(t[..|t| - 1]);
      if m < t[|t| - 1] then t[|t| - 1] else m
  }

  /** Every sample is counted exactly once: as a zero, as a one, or in full. */
  lemma {:induction false} SummaryPartition(t: seq<nat>)
    ensures Occurrences(t, 0) + Occurrences(t, 1) + |Many(t)| == |t|
  {
    if t != [] {
      SummaryPartition(t[..|t| - 1]);
    }
  }

  /**
   * full holds exactly the totals of two or more: each value of two or more
   * as many times as samples have it, and no value below two.
   */
  lemma {:induction false} ManyContents(t: seq<nat>)
    ensures forall x :: x in Many(t) ==> x >= 2
    ensures forall v :: v >= 2 ==> multiset(Many(t))[v] == multiset(t)[v]
    ensures forall v :: v < 2 ==> multiset(Many(t))[v] == 0
  {
    if t != [] {
      var p := t[..|t| - 1];
      ManyContents(p);
      assert t == p + [t[|t| - 1]];
    }
  }

  /**
   * min is the smallest total and max the largest, except that min never
   * exceeds INT_MAX; with no samples they keep their starting values.
   */
  lemma {:induction false} MinMaxFacts(t: seq<nat>)
    ensures forall x :: x in t ==> MinOf(t) <= x <= MaxOf(t)
    ensures MinOf(t) <= INT_MAX
    ensures MinOf(t) == INT_MAX || MinOf(t) in t
    ensures MaxOf(t) == 0 || MaxOf(t) in t
    ensures t == [] ==> MinOf(t) == INT_MAX && MaxOf(t) == 0
  {
    if t != [] {
      var p := t[..|t| - 1];
      MinMaxFacts(p);
      assert t == p + [t[|t| - 1]];
    }
  }

  /**
   * When the population of two or more has at least three distinct values,
   * the zero count, the one count and the four buckets together number every
   * sample.
   */
  lemma SummaryCoversSamples(t: seq<nat>, q1: nat, q2: nat, q3: nat)
    requires |Dedup.Uniq(SortSeq(Many(t)))| >= 3
    ensures Occurrences(t, 0) + Occurrences(t, 1) + Sum(QuartileCounts(SortSeq(Many(t)), q1, q2, q3).counts) == |t|
  {
    QuartileBuckets(SortSeq(Many(t)), q1, q2, q3);
    SummaryPartition(t);
  }

  /**
   * stix_get_summary(depths, sample_ids, num_samples, ...): one pass over the
   * samples that counts the zero and one totals, collects the others in
   * full and tracks min and max, then stix_get_quartile_counts on full.
   * The source ignores sample_ids and always returns 0; neither appears here.
   */
  method GetSummary(depths: array<UintPair>, numSamples: nat, q1In: nat, q2In: nat, q3In: nat, counts: array<int>)
    returns (zeroCount: nat, oneCount: nat, q1: nat, q2: nat, q3: nat, min: nat, max: nat)
    requires numSamples <= depths.Length && counts.Length == 4
    modifies counts
    ensures var t := Totals(depths[..numSamples]);
      && zeroCount == Occurrences(t, 0) && oneCount == Occurrences(t, 1)
      && min == MinOf(t) && max == MaxOf(t)
      && QuartileResult(q1, q2, q3, counts[..]) == QuartileCounts(SortSeq(Many(t)), q1In, q2In, q3In)
  {
    var full := new nat[numSamples];
    var fullI;
    zeroCount, oneCount, fullI, min, max := Tabulate(depths, numSamples, full);
    q1, q2, q3 := GetQuartileCounts(full, fullI, q1In, q2In, q3In, counts);
  }

  /** The sample loop of stix_get_summary, storing the totals of two or more in full. */
  method Tabulate(depths: array<UintPair>, numSamples: nat, full: array<nat>)
    returns (zeroCount: nat, oneCount: nat, fullI: nat, min: nat, max: nat)
    requires numSamples <= depths.Length && full.Length == numSamples
    modifies full
    ensures var t := Totals(depths[..numSamples]);
      && zeroCount == Occurrences(t, 0) && oneCount == Occurrences(t, 1)
      && fullI <= numSamples && full[..fullI] == Many(t)
      && min == MinOf(t) && max == MaxOf(t)
  {
    zeroCount, oneCount := 0, 0;
    min, max := INT_MAX, 0;
    ghost var t := Totals(depths[..numSamples]);
    fullI := 0;
    var i := 0;
    while i < numSamples
      invariant 0 <= i <= numSamples && fullI <= i
      invariant zeroCount == Occurrences(t[..i], 0) && oneCount == Occurrences(t[..i], 1)
      invariant fullI == |Many(t[..i])| && full[..fullI] == Many(t[..i])
      invariant min == MinOf(t[..i]) && max == MaxOf(t[..i])
    {
      var sum := depths[i].first + depths[i].second;
      assert sum == t[i];
      Step(t, i);
      if sum == 0 {
        zeroCount := zeroCount + 1;
      } else if sum == 1 {
        oneCount := oneCount + 1;
      } else {
        full[fullI] := sum;
        fullI := fullI + 1;
        assert full[..fullI] == Many(t[..i]) + [sum];
      }
      if min > sum {
        min := sum;
      }
      if max < sum {
        max := sum;
      }
      i := i + 1;
    }
    assert t[..numSamples] == t;
  }

  /** One more sample, unfolded. */
  lemma Step(t: seq<nat>, i: nat)
    requires i < |t|
    ensures Occurrences(t[..i + 1], 0) == Occurrences(t[..i], 0) + (if t[i] == 0 then 1 else 0)
    ensures Occurrences(t[..i + 1], 1) == Occurrences(t[..i], 1) + (if t[i] == 1 then 1 else 0)
    ensures Many(t[..i + 1]) == Many(t[..i]) + (if t[i] >= 2 then [t[i]] else [])
    ensures |Many(t[..i])| <= i
    ensures MinOf(t[..i + 1]) == (if MinOf(t[..i]) > t[i] then t[i] else MinOf(t[..i]))
    ensures MaxOf(t[..i + 1]) == (if MaxOf(t[..i]) < t[i] then t[i] else MaxOf(t[..i]))
  {
    assert t[..i + 1][..i] == t[..i];
    SummaryPartition(t[..i]);
  }
}
