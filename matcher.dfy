/**
 * stix_check_sv and stix_check_del: does an indexed observation support a
 * queried breakpoint pair?
 */
module Matcher {
  import opened Results
  import opened Breakpoints

  /** Why stix_check_sv gives up (with errx in the C code). */
  datatype SvError = NotYetSupported(sv: SvType) | UnknownSvType

  /**
   * The strand configuration that supports a deletion: opposite strands for a
   * paired-end observation (type 0), equal strands for a split read.
   */
  predicate StrandsSupportDel(inLeft: Breakpoint, inRight: Breakpoint, evidenceType: u32)
  {
    if evidenceType == 0 then inLeft.strand != inRight.strand else inLeft.strand == inRight.strand
  }

  /** The right-side window end q_right.end + slop fits in a uint32_t. */
  predicate NoWrap(qRight: Breakpoint, slop: u32)
  {
    qRight.end + slop < U32_LIMIT
  }

  /** q_right.end + slop as uint32_t arithmetic computes it: modulo 2^32. */
  function WindowEnd(qRight: Breakpoint, slop: u32): (e: u32)
    ensures NoWrap(qRight, slop) ==> e == qRight.end + slop
    ensures !NoWrap(qRight, slop) ==> e == qRight.end + slop - U32_LIMIT && e < qRight.end
  {
    ToU32(qRight.end + slop)
  }

  /**
   * stix_check_del, in the order the C code tests: strands, then the right
   * chromosomes, then the overlap of the right sides with slop added to the
   * upper bound only. The left breakpoints contribute only their strands.
   * The upper bound is computed in uint32_t and wraps past 2^32 - 1.
   */
  function CheckDel(qLeft: Breakpoint, qRight: Breakpoint, inLeft: Breakpoint, inRight: Breakpoint,
                    evidenceType: u32, slop: u32): (hit: bool)
    ensures hit <==>
      && StrandsSupportDel(inLeft, inRight, evidenceType)
      && qRight.chrm == inRight.chrm
      && qRight.start <= inRight.end
      && inRight.start < WindowEnd(qRight, slop)
  {
    if evidenceType == 0 && inLeft.strand == inRight.strand then false
    else if evidenceType != 0 && inLeft.strand != inRight.strand then false
    else if qRight.chrm != inRight.chrm then false
    else inRight.end >= qRight.start && inRight.start < ToU32(qRight.end + slop)
  }

  /** stix_check_sv: only deletions have a matching rule; every other type is an error. */
  function CheckSv(qLeft: Breakpoint, qRight: Breakpoint, inLeft: Breakpoint, inRight: Breakpoint,
                   evidenceType: u32, slop: u32, sv: SvType): (r: Result<bool, SvError>)
    ensures r.Ok? <==> sv == Del
    ensures r.Ok? ==> r.value == CheckDel(qLeft, qRight, inLeft, inRight, evidenceType, slop)
    ensures sv.UnknownSv? ==> r == Err(UnknownSvType)
    ensures !sv.UnknownSv? && sv != Del ==> r == Err(NotYetSupported(sv))
  {
    match sv
    case Del => Ok(CheckDel(qLeft, qRight, inLeft, inRight, evidenceType, slop))
    case Dup => Err(NotYetSupported(Dup))
    case Ins => Err(NotYetSupported(Ins))
    case Inv => Err(NotYetSupported(Inv))
    case Bnd => Err(NotYetSupported(Bnd))
    case UnknownSv(_) => Err(UnknownSvType)
  }

  /** A paired-end observation on equal strands, or a split read on different strands, never matches. */
  lemma StrandRule(qLeft: Breakpoint, qRight: Breakpoint, inLeft: Breakpoint, inRight: Breakpoint,
                   evidenceType: u32, slop: u32)
    ensures evidenceType == 0 && inLeft.strand == inRight.strand ==>
      !CheckDel(qLeft, qRight, inLeft, inRight, evidenceType, slop)
    ensures evidenceType != 0 && inLeft.strand != inRight.strand ==>
      !CheckDel(qLeft, qRight, inLeft, inRight, evidenceType, slop)
  {
  }

  /**
   * The left breakpoints' chromosomes and coordinates are never consulted:
   * changing them (keeping the observation's left strand) changes nothing.
   */
  lemma LeftSideIgnored(qLeft: Breakpoint, qRight: Breakpoint, inLeft: Breakpoint, inRight: Breakpoint,
                        evidenceType: u32, slop: u32, qLeft': Breakpoint, inLeft': Breakpoint)
    requires inLeft'.strand == inLeft.strand
    ensures CheckDel(qLeft, qRight, inLeft, inRight, evidenceType, slop)
         == CheckDel(qLeft', qRight, inLeft', inRight, evidenceType, slop)
  {
  }

  /**
   * The window is closed at q_right.start and open at q_right.end + slop: with
   * slop 0 an observation starting exactly at q_right.end does not match, one
   * ending exactly at q_right.start does.
   */
  lemma WindowBoundaries(qLeft: Breakpoint, qRight: Breakpoint, inLeft: Breakpoint, inRight: Breakpoint,
                         evidenceType: u32)
    requires StrandsSupportDel(inLeft, inRight, evidenceType) && qRight.chrm == inRight.chrm
    requires qRight.start < qRight.end
    ensures inRight.start == qRight.end ==> !CheckDel(qLeft, qRight, inLeft, inRight, evidenceType, 0)
    ensures inRight.end == qRight.start && inRight.start <= inRight.end ==>
      CheckDel(qLeft, qRight, inLeft, inRight, evidenceType, 0)
  {
  }

  /** Increasing the slop never loses a match. */
  lemma SlopMonotone(qLeft: Breakpoint, qRight: Breakpoint, inLeft: Breakpoint, inRight: Breakpoint,
                     evidenceType: u32, slop: u32, slop': u32)
    requires slop <= slop' && NoWrap(qRight, slop')
    ensures CheckDel(qLeft, qRight, inLeft, inRight, evidenceType, slop) ==>
      CheckDel(qLeft, qRight, inLeft, inRight, evidenceType, slop')
  {
  }

  /** A slop of k admits right-side starts up to q_right.end + k - 1 and no further. */
  lemma SlopAdmits(qLeft: Breakpoint, qRight: Breakpoint, inLeft: Breakpoint, inRight: Breakpoint,
                   evidenceType: u32, k: u32)
    requires NoWrap(qRight, k)
    requires StrandsSupportDel(inLeft, inRight, evidenceType) && qRight.chrm == inRight.chrm
    requires qRight.start <= inRight.end
    ensures CheckDel(qLeft, qRight, inLeft, inRight, evidenceType, k) <==> inRight.start <= qRight.end + k - 1
  {
  }

  /**
   * Past 2^32 - 1 the window end wraps to a small number, so a split read
   * whose right side lies inside the window [q_right.start, q_right.end + slop)
   * computed without wrap-around is rejected.
   */
  lemma WrappedWindowRejects(qLeft: Breakpoint, inLeft: Breakpoint)
    ensures var qRight := Breakpoint("chr1", U32_LIMIT - 10, U32_LIMIT - 5, 0);
      var inRight := Breakpoint("chr1", U32_LIMIT - 8, U32_LIMIT - 6, inLeft.strand);
      && StrandsSupportDel(inLeft, inRight, 1)
      && qRight.start <= inRight.end && inRight.start < qRight.end + 10
      && !CheckDel(qLeft, qRight, inLeft, inRight, 1, 10)
  {
  }
}
