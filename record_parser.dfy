/**
 * stix_parse_result: decoding one raw evidence line of the range index.
 * The line is given already split at its tabs; the fields are, in order,
 * leftChrom, leftStart, leftEnd, leftStrand, rightChrom, rightStart,
 * rightEnd, rightStrand, evidenceType.
 */
module RecordParser {
  import opened Decimal
  import opened Breakpoints

  /** One raw evidence line of the range index, already split at its tabs. */
  datatype RawLine = RawLine(fields: seq<string>)

  /**
   * The decoder takes nine tokens from strtok; a line with fewer fields would
   * hand atoi a null pointer, so the caller must supply at least nine.
   */
  predicate WellFormed(fields: seq<string>)
  {
    |fields| >= 9
  }

  /**
   * Decode one record: the chromosome names are copied, the strands keep
   * atoi's value, and coordinates and the evidence type are stored into
   * uint32_t, so a coordinate in the range of uint32_t is kept and a negative
   * one down to -2^32 wraps to 2^32 more, and the evidence type is zero
   * exactly when atoi read zero (for values of magnitude below 2^32).
   * Fields after the ninth are never read.
   */
  function ParseResult(fields: seq<string>): (r: Record)
    requires WellFormed(fields)
    ensures r.left.chrm == fields[0] && r.right.chrm == fields[4]
    ensures r.left.strand == Atoi(fields[3]) && r.right.strand == Atoi(fields[7])
    ensures -U32_LIMIT < Atoi(fields[8]) < U32_LIMIT ==> (r.evidenceType == 0 <==> Atoi(fields[8]) == 0)
    ensures 0 <= Atoi(fields[1]) < U32_LIMIT ==> r.left.start == Atoi(fields[1])
    ensures 0 <= Atoi(fields[2]) < U32_LIMIT ==> r.left.end == Atoi(fields[2])
    ensures 0 <= Atoi(fields[5]) < U32_LIMIT ==> r.right.start == Atoi(fields[5])
    ensures 0 <= Atoi(fields[6]) < U32_LIMIT ==> r.right.end == Atoi(fields[6])
    ensures -U32_LIMIT <= Atoi(fields[1]) < 0 ==> r.left.start == Atoi(fields[1]) + U32_LIMIT
    ensures -U32_LIMIT <= Atoi(fields[5]) < 0 ==> r.right.start == Atoi(fields[5]) + U32_LIMIT
  {
    var left := Breakpoint(fields[0], ToU32(Atoi(fields[1])), ToU32(Atoi(fields[2])), Atoi(fields[3]));
    var right := Breakpoint(fields[4], ToU32(Atoi(fields[5])), ToU32(Atoi(fields[6])), Atoi(fields[7]));
    Record(left, right, ToU32(Atoi(fields[8])))
  }

  /** The raw record format: the nine fields of a record, numbers in decimal. */
  function FormatRecord(r: Record): (fields: seq<string>)
  {
    [ r.left.chrm, Itoa(r.left.start), Itoa(r.left.end), Itoa(r.left.strand),
      r.right.chrm, Itoa(r.right.start), Itoa(r.right.end), Itoa(r.right.strand),
      Itoa(r.evidenceType) ]
  }

  /** Decoding inverts the record format. */
  lemma ParseFormatRoundTrip(r: Record)
    ensures WellFormed(FormatRecord(r)) && ParseResult(FormatRecord(r)) == r
  {
    AtoiItoa(r.left.start);
    AtoiItoa(r.left.end);
    AtoiItoa(r.left.strand);
    AtoiItoa(r.right.start);
    AtoiItoa(r.right.end);
    AtoiItoa(r.right.strand);
    AtoiItoa(r.evidenceType);
  }

  /** Only the first nine fields matter. */
  lemma ParseIgnoresTrailingFields(fields: seq<string>, extra: seq<string>)
    requires WellFormed(fields)
    ensures WellFormed(fields[..9] + extra) && ParseResult(fields[..9] + extra) == ParseResult(fields)
  {
    var longer := fields[..9] + extra;
    assert longer[..9] == fields[..9];
  }

  /** A start written as "-1" is read back as the largest uint32_t. */
  lemma NegativeStartWraps()
    ensures ParseResult(["chr1", "-1", "10", "1", "chr1", "20", "30", "-1", "0"]).left.start == U32_LIMIT - 1
  {
    var fields := ["chr1", "-1", "10", "1", "chr1", "20", "30", "-1", "0"];
    assert Atoi(fields[1]) == -1 by {
      AtoiItoa(-1);
      assert Itoa(-1) == fields[1];
    }
  }
}
