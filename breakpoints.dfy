/**
 * The values the evidence matcher works on: breakpoints, the SV types a query
 * may ask for, and one decoded evidence record of the range index.
 */
module Breakpoints {

  const U32_LIMIT: int := 0x1_0000_0000

  /** The C type uint32_t. */
  type u32 = x: int | 0 <= x < U32_LIMIT

  /** C's conversion of an int to uint32_t: reduction modulo 2^32. */
  function ToU32(x: int): (r: u32)
    ensures 0 <= x < U32_LIMIT ==> r == x
    ensures -U32_LIMIT <= x < 0 ==> r == x + U32_LIMIT
    ensures U32_LIMIT <= x < 2 * U32_LIMIT ==> r == x - U32_LIMIT
  {
    x % U32_LIMIT
  }

  /**
   * One side of a structural variant (struct stix_breakpoint). Breakpoints
   * built from a query region carry strand 0; indexed observations carry the
   * strand written in the record.
   */
  datatype Breakpoint = Breakpoint(chrm: string, start: u32, end: u32, strand: int)

  /** The SV types of enum stix_sv_type; UnknownSv stands for any other value. */
  datatype SvType = Del | Dup | Ins | Inv | Bnd | UnknownSv(code: int)

  /** One indexed observation: its two breakpoints and its evidence type (0 = paired-end). */
  datatype Record = Record(left: Breakpoint, right: Breakpoint, evidenceType: u32)
}
