/**
 * The counting part of stix_run_giggle_query. The range query itself is
 * external: its result is given as one sequence of raw records (each already
 * split into fields) per indexed sample, in the order the index yields them.
 */
module Aggregator {
  import opened Results
  import opened Breakpoints
  import opened Decimal
  import opened RecordParser
  import opened Matcher

  /** struct uint_pair: `first` counts paired-end support, `second` split-read support. */
  datatype UintPair = UintPair(first: nat, second: nat)

  predicate AllWellFormed(lines: seq<RawLine>)
  {
    forall k :: 0 <= k < |lines| ==> WellFormed(lines[k].fields)
  }

  /** Does one raw record support the queried deletion? */
  predicate IsHit(line: RawLine, qLeft: Breakpoint, qRight: Breakpoint, slop: u32)
    requires WellFormed(line.fields)
  {
    var rec := ParseResult(line.fields);
    CheckDel(qLeft, qRight, rec.left, rec.right, rec.evidenceType, slop)
  }

  /** What one record adds to a sample's counts. */
  function Contribution(line: RawLine, qLeft: Breakpoint, qRight: Breakpoint, slop: u32): (p: UintPair)
    requires WellFormed(line.fields)
    ensures p.first + p.second <= 1
    ensures p.first + p.second == 1 <==> IsHit(line, qLeft, qRight, slop)
    ensures p.first == 1 <==> IsHit(line, qLeft, qRight, slop) && ParseResult(line.fields).evidenceType == 0
  {
    if !IsHit(line, qLeft, qRight, slop) then UintPair(0, 0)
    else if ParseResult(line.fields).evidenceType == 0 then UintPair(1, 0)
    else UintPair(0, 1)
  }

  function Add(a: UintPair, b: UintPair): UintPair
  {
    UintPair(a.first + b.first, a.second + b.second)
  }

  /** The counts of a deletion query over one sample's records, taken in order. */
  function Tally(lines: seq<RawLine>, qLeft: Breakpoint, qRight: Breakpoint, slop: u32): UintPair
    requires AllWellFormed(lines)
  {
    if lines == [] then UintPair(0, 0)
    else Add(Tally(lines[..|lines| - 1], qLeft, qRight, slop),
             Contribution(lines[|lines| - 1], qLeft, qRight, slop))
  }

  /** Counting is additive over the concatenation of two record streams. */
  lemma {:induction false} TallyAppend(a: seq<RawLine>, b: seq<RawLine>,
                                       qLeft: Breakpoint, qRight: Breakpoint, slop: u32)
    requires AllWellFormed(a) && AllWellFormed(b)
    ensures AllWellFormed(a + b)
    ensures Tally(a + b, qLeft, qRight, slop) == Add(Tally(a, qLeft, qRight, slop), Tally(b, qLeft, qRight, slop))
  {
    AppendWellFormed(a, b);
    if b == [] {
      assert a + b == a;
    } else {
      var b' := b[..|b| - 1];
      var c := a + b;
      assert c[..|c| - 1] == a + b';
      AppendWellFormed(a, b');
      TallyAppend(a, b', qLeft, qRight, slop);
      TallyLast(c, qLeft, qRight, slop);
      TallyLast(b, qLeft, qRight, slop);
      assert c[|c| - 1] == b[|b| - 1];
      AddAssociative(Tally(a, qLeft, qRight, slop), Tally(b', qLeft, qRight, slop),
                     Contribution(b[|b| - 1], qLeft, qRight, slop));
    }
  }

  lemma AddAssociative(x: UintPair, y: UintPair, z: UintPair)
    ensures Add(Add(x, y), z) == Add(x, Add(y, z))
  {
  }

  /** Tally unfolded once: the last record's contribution added to the rest. */
  lemma TallyLast(lines: seq<RawLine>, qLeft: Breakpoint, qRight: Breakpoint, slop: u32)
    requires AllWellFormed(lines) && lines != []
    ensures AllWellFormed(lines[..|lines| - 1])
    ensures Tally(lines, qLeft, qRight, slop)
      == Add(Tally(lines[..|lines| - 1], qLeft, qRight, slop), Contribution(lines[|lines| - 1], qLeft, qRight, slop))
  {
  }

  /** Tally over one more record of the same stream. */
  lemma TallyStep(lines: seq<RawLine>, k: nat, qLeft: Breakpoint, qRight: Breakpoint, slop: u32)
    requires AllWellFormed(lines) && k < |lines|
    ensures AllWellFormed(lines[..k]) && AllWellFormed(lines[..k + 1])
    ensures Tally(lines[..k + 1], qLeft, qRight, slop)
      == Add(Tally(lines[..k], qLeft, qRight, slop), Contribution(lines[k], qLeft, qRight, slop))
  {
    assert lines[..k + 1][..k] == lines[..k];
    TallyLast(lines[..k + 1], qLeft, qRight, slop);
  }

  lemma AppendWellFormed(a: seq<RawLine>, b: seq<RawLine>)
    requires AllWellFormed(a) && AllWellFormed(b)
    ensures AllWellFormed(a + b)
  {
    forall k | 0 <= k < |a + b|
      ensures WellFormed((a + b)[k].fields)
    {
      if k < |a| { assert (a + b)[k] == a[k]; } else { assert (a + b)[k] == b[k - |a|]; }
    }
  }

  /** A sample never reports more hits than it has records. */
  lemma {:induction false} TallyBound(lines: seq<RawLine>, qLeft: Breakpoint, qRight: Breakpoint, slop: u32)
    requires AllWellFormed(lines)
    ensures Tally(lines, qLeft, qRight, slop).first + Tally(lines, qLeft, qRight, slop).second <= |lines|
  {
    if lines != [] {
      TallyBound(lines[..|lines| - 1], qLeft, qRight, slop);
    }
  }

  /** A sample none of whose records is a hit reports (0, 0). */
  lemma {:induction false} TallyNoHits(lines: seq<RawLine>, qLeft: Breakpoint, qRight: Breakpoint, slop: u32)
    requires AllWellFormed(lines)
    requires forall k :: 0 <= k < |lines| ==> !IsHit(lines[k], qLeft, qRight, slop)
    ensures Tally(lines, qLeft, qRight, slop) == UintPair(0, 0)
  {
    if lines != [] {
      TallyNoHits(lines[..|lines| - 1], qLeft, qRight, slop);
    }
  }

  /**
   * A paired-end record (strands 1 and -1) whose right side [950, 1050]
   * reaches into the queried right side [1000, 1100] counts once as
   * paired-end support.
   */
  lemma PairedEndExample(line: RawLine, qLeft: Breakpoint, qRight: Breakpoint)
    requires line.fields == ["chr1", "50", "150", "1", "chr1", "950", "1050", "-1", "0"]
    requires qLeft == Breakpoint("chr1", 100, 200, 0) && qRight == Breakpoint("chr1", 1000, 1100, 0)
    ensures Tally([line], qLeft, qRight, 50) == UintPair(1, 0)
  {
    ExampleRecord(line.fields);
    assert IsHit(line, qLeft, qRight, 50);
    TallyLast([line], qLeft, qRight, 50);
    assert [line][..0] == [];
  }

  /**
   * atoi reads no digit from a strand written as a bare sign ("+", "-") or as
   * any other text without a digit, so both strands decode to 0 and a
   * paired-end record written that way is never a hit.
   */
  lemma SignStrandsNeverPair(line: RawLine, qLeft: Breakpoint, qRight: Breakpoint, slop: u32)
    requires WellFormed(line.fields)
    requires NoDigits(line.fields[3]) && NoDigits(line.fields[7])
    requires ParseResult(line.fields).evidenceType == 0
    ensures !IsHit(line, qLeft, qRight, slop)
  {
    var rec := ParseResult(line.fields);
    assert rec.left.strand == 0 == rec.right.strand;
  }

  /** A paired-end record whose strands are written "+" and "-" supports nothing, wherever it lies. */
  lemma SignedStrandsExample(line: RawLine, qLeft: Breakpoint, qRight: Breakpoint, slop: u32)
    requires WellFormed(line.fields)
    requires line.fields[3] == "+" && line.fields[7] == "-" && line.fields[8] == "0"
    ensures Tally([line], qLeft, qRight, slop) == UintPair(0, 0)
  {
    DecimalField(line.fields[8], 0);
    SignStrandsNeverPair(line, qLeft, qRight, slop);
    TallyLast([line], qLeft, qRight, slop);
    assert [line][..0] == [];
  }

  /** The record of PairedEndExample, decoded. */
  lemma ExampleRecord(fields: seq<string>)
    requires fields == ["chr1", "50", "150", "1", "chr1", "950", "1050", "-1", "0"]
    ensures ParseResult(fields) == Record(Breakpoint("chr1", 50, 150, 1), Breakpoint("chr1", 950, 1050, -1), 0)
  {
    LeftNumerals();
    RightNumerals();
  }

  lemma LeftNumerals()
    ensures Atoi("50") == 50 && Atoi("150") == 150 && Atoi("1") == 1
  {
    DecimalField("50", 50);
    DecimalField("150", 150);
    DecimalField("1", 1);
  }

  lemma RightNumerals()
    ensures Atoi("950") == 950 && Atoi("1050") == 1050 && Atoi("-1") == -1 && Atoi("0") == 0
  {
    DecimalField("950", 950);
    DecimalField("1050", 1050);
    DecimalField("-1", -1);
    DecimalField("0", 0);
  }

  /** atoi of a field that is the decimal numeral of n. */
  lemma DecimalField(f: string, n: int)
    requires f == Itoa(n)
    ensures Atoi(f) == n
  {
    AtoiItoa(n);
  }

  /**
   * The number of slots filled: num_samples when a sample list is given and
   * non-empty, otherwise every file of the index.
   */
  function Width(numFiles: nat, sampleIds: Option<seq<nat>>, numSamples: nat): (n: nat)
    ensures sampleIds.Some? && numSamples > 0 ==> n == numSamples
    ensures sampleIds.None? || numSamples == 0 ==> n == numFiles
  {
    if sampleIds.Some? && numSamples > 0 then numSamples else numFiles
  }

  /** The index sample whose records fill slot i. */
  function SampleIndex(i: nat, sampleIds: Option<seq<nat>>, numSamples: nat): nat
    requires numSamples > 0 ==> sampleIds.Some? && i < |sampleIds.value|
  {
    if numSamples > 0 then sampleIds.value[i] else i
  }

  /** The records of the samples the query visits, slot by slot. */
  ghost function Selected(perSample: seq<seq<RawLine>>, sampleIds: Option<seq<nat>>, numSamples: nat): (sel: seq<seq<RawLine>>)
    requires ValidQuery(perSample, sampleIds, numSamples)
    ensures |sel| == Width(|perSample|, sampleIds, numSamples)
    ensures forall i :: 0 <= i < |sel| ==> sel[i] == perSample[SampleIndex(i, sampleIds, numSamples)]
  {
    var n := Width(|perSample|, sampleIds, numSamples);
    seq(n, i requires 0 <= i < n => perSample[SampleIndex(i, sampleIds, numSamples)])
  }

  /** Each sample's tally, in slot order: what the query stores in depths. */
  ghost function Tallies(sel: seq<seq<RawLine>>, qLeft: Breakpoint, qRight: Breakpoint, slop: u32): (r: seq<UintPair>)
    requires forall s :: 0 <= s < |sel| ==> AllWellFormed(sel[s])
    ensures |r| == |sel|
    ensures forall i :: 0 <= i < |sel| ==> r[i] == Tally(sel[i], qLeft, qRight, slop)
  {
    seq(|sel|, i requires 0 <= i < |sel| => Tally(sel[i], qLeft, qRight, slop))
  }

  /** What the caller of stix_run_giggle_query guarantees. */
  predicate ValidQuery(perSample: seq<seq<RawLine>>, sampleIds: Option<seq<nat>>, numSamples: nat)
  {
    && (numSamples > 0 ==> sampleIds.Some? && numSamples <= |sampleIds.value|)
    && (forall i :: 0 <= i < Width(|perSample|, sampleIds, numSamples) ==>
          SampleIndex(i, sampleIds, numSamples) < |perSample|)
    && (forall s :: 0 <= s < |perSample| ==> AllWellFormed(perSample[s]))
  }

  /**
   * The counting loop of stix_run_giggle_query. The first N slots of `depths`
   * are zeroed; then every record of each requested sample is decoded and
   * matched, and a hit increments `first` (paired-end) or `second` (split
   * read) of that sample's slot. A query for any type but DEL aborts at the
   * first record it sees.
   */
  method RunGiggleQuery(perSample: seq<seq<RawLine>>, sv: SvType, qLeft: Breakpoint, qRight: Breakpoint,
                        slop: u32, sampleIds: Option<seq<nat>>, numSamples: nat, depths: array<UintPair>)
    returns (status: Result<nat, SvError>)
    requires ValidQuery(perSample, sampleIds, numSamples)
    requires Width(|perSample|, sampleIds, numSamples) <= depths.Length
    modifies depths
    ensures var sel := Selected(perSample, sampleIds, numSamples);
      status.Err? <==> sv != Del && exists i :: 0 <= i < |sel| && sel[i] != []
    ensures status.Err? ==> status.error == (if sv.UnknownSv? then UnknownSvType else NotYetSupported(sv))
    ensures status.Ok? ==>
      && status.value == Width(|perSample|, sampleIds, numSamples)
      && depths[..status.value] == Tallies(Selected(perSample, sampleIds, numSamples), qLeft, qRight, slop)
    ensures var n := Width(|perSample|, sampleIds, numSamples);
      depths[n..] == old(depths[n..])
  {
    var n := Width(|perSample|, sampleIds, numSamples);
    ghost var sel := Selected(perSample, sampleIds, numSamples);
    ghost var target := Tallies(sel, qLeft, qRight, slop);
    ZeroSlots(depths, n);
    var i := 0;
    while i < n
      invariant 0 <= i <= n
      invariant depths[..i] == target[..i]
      invariant depths[n..] == old(depths[n..])
      invariant sv != Del ==> forall j :: 0 <= j < i ==> sel[j] == []
    {
      var sampleStatus := CountSlot(perSample, sv, qLeft, qRight, slop, sampleIds, numSamples, i, sel, target);
      if sampleStatus.Err? {
        return Err(sampleStatus.error);
      }
      StoreSlot(depths, i, n, sampleStatus.value, target);
      i := i + 1;
    }
    assert target[..n] == target;
    return Ok(n);
  }

  /** Count the records of slot i's sample. */
  method CountSlot(perSample: seq<seq<RawLine>>, sv: SvType, qLeft: Breakpoint, qRight: Breakpoint, slop: u32,
                   sampleIds: Option<seq<nat>>, numSamples: nat, i: nat,
                   ghost sel: seq<seq<RawLine>>, ghost target: seq<UintPair>)
    returns (status: Result<UintPair, SvError>)
    requires ValidQuery(perSample, sampleIds, numSamples)
    requires sel == Selected(perSample, sampleIds, numSamples) && target == Tallies(sel, qLeft, qRight, slop)
    requires i < |sel|
    ensures status.Err? <==> sv != Del && sel[i] != []
    ensures status.Err? ==> status.error == (if sv.UnknownSv? then UnknownSvType else NotYetSupported(sv))
    ensures status.Ok? ==> status.value == target[i]
  {
    var idx := SampleIndex(i, sampleIds, numSamples);
    assert perSample[idx] == sel[i];
    status := CountSample(perSample[idx], sv, qLeft, qRight, slop);
  }

  /** Store slot i's tally: the filled prefix grows by one and the tail is left alone. */
  method StoreSlot(depths: array<UintPair>, i: nat, n: nat, value: UintPair, ghost target: seq<UintPair>)
    requires i < n <= depths.Length && n == |target| && depths[..i] == target[..i] && value == target[i]
    modifies depths
    ensures depths[..i + 1] == target[..i + 1]
    ensures depths[n..] == old(depths[n..])
  {
    ghost var before := depths[..];
    depths[i] := value;
    assert depths[..] == before[i := target[i]];
    StoreExtends(before, target, i, n);
  }

  /** Storing slot i extends the filled prefix by one and leaves the tail alone. */
  lemma StoreExtends(before: seq<UintPair>, target: seq<UintPair>, i: nat, n: nat)
    requires i < n <= |before| && n == |target| && before[..i] == target[..i]
    ensures before[i := target[i]][..i + 1] == target[..i + 1]
    ensures before[i := target[i]][n..] == before[n..]
  {
    assert before[i := target[i]][..i + 1] == target[..i] + [target[i]];
    assert target[..i + 1] == target[..i] + [target[i]];
  }

  /** memset of the first n slots of depths to zero. */
  method ZeroSlots(depths: array<UintPair>, n: nat)
    requires n <= depths.Length
    modifies depths
    ensures forall j :: 0 <= j < n ==> depths[j] == UintPair(0, 0)
    ensures depths[n..] == old(depths[n..])
  {
    forall j | 0 <= j < n {
      depths[j] := UintPair(0, 0);
    }
  }

  /**
   * The inner loop of stix_run_giggle_query: walk one sample's records and
   * count its hits. The source increments the sample's slot in place; the
   * slot starts at (0, 0) and nothing else reads it meanwhile, so the count
   * is kept in a local pair here and stored by the caller.
   */
  method CountSample(lines: seq<RawLine>, sv: SvType, qLeft: Breakpoint, qRight: Breakpoint, slop: u32)
    returns (status: Result<UintPair, SvError>)
    requires AllWellFormed(lines)
    ensures status.Err? <==> sv != Del && lines != []
    ensures status.Err? ==> status.error == (if sv.UnknownSv? then UnknownSvType else NotYetSupported(sv))
    ensures status.Ok? ==> status.value == Tally(lines, qLeft, qRight, slop)
  {
    var depth := UintPair(0, 0);
    var k := 0;
    assert lines[..0] == [];
    while k < |lines|
      invariant 0 <= k <= |lines|
      invariant depth == Tally(lines[..k], qLeft, qRight, slop)
      invariant sv != Del ==> k == 0
    {
      var step := CountRecord(lines[k], sv, qLeft, qRight, slop, depth);
      if step.Err? {
        return Err(step.error);
      }
      TallyStep(lines, k, qLeft, qRight, slop);
      depth := step.value;
      k := k + 1;
    }
    assert lines[..k] == lines;
    return Ok(depth);
  }

  /**
   * One pass of the inner loop of stix_run_giggle_query: decode the record,
   * match it against the query, and bump the paired-end or split-read count
   * of a hit.
   */
  method CountRecord(line: RawLine, sv: SvType, qLeft: Breakpoint, qRight: Breakpoint, slop: u32, depth: UintPair)
    returns (status: Result<UintPair, SvError>)
    requires WellFormed(line.fields)
    ensures status.Err? <==> sv != Del
    ensures status.Err? ==> status.error == (if sv.UnknownSv? then UnknownSvType else NotYetSupported(sv))
    ensures status.Ok? ==> status.value == Add(depth, Contribution(line, qLeft, qRight, slop))
  {
    var rec := ParseResult(line.fields);
    var hit := CheckSv(qLeft, qRight, rec.left, rec.right, rec.evidenceType, slop, sv);
    if hit.Err? {
      return Err(hit.error);
    }
    if hit.value {
      if rec.evidenceType == 0 {
        return Ok(depth.(first := depth.first + 1));
      } else {
        return Ok(depth.(second := depth.second + 1));
      }
    }
    return Ok(depth);
  }
}
