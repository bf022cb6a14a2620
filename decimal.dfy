/**
 * Decimal numerals as they appear in the fields of an indexed evidence
 * record, and the value C's atoi reads from any string: leading white space
 * is skipped, one optional sign is read, then digits are accumulated up to
 * the first character that is not a digit.
 */
module Decimal {

  predicate IsDigit(c: char) { '0' <= c <= '9' }

  /** The characters isspace accepts in the C locale: space, and tab through carriage return. */
  predicate IsSpace(c: char)
  {
    c == ' ' || '\t' <= c <= '\r'
  }

  predicate AllDigits(s: string) { forall i :: 0 <= i < |s| ==> IsDigit(s[i]) }

  predicate NoDigits(s: string) { forall i :: 0 <= i < |s| ==> !IsDigit(s[i]) }

  function DigitValue(c: char): nat
    requires IsDigit(c)
  {
    c as int - '0' as int
  }

  function DigitChar(d: nat): (c: char)
    requires d < 10
    ensures IsDigit(c) && DigitValue(c) == d
  {
    ('0' as int + d) as char
  }

  /** atoi's digit loop: acc times ten plus the next digit, until a non-digit. */
  function ScanDigits(s: string, acc: nat): nat
  {
    if s != [] && IsDigit(s[0]) then ScanDigits(s[1..], 10 * acc + DigitValue(s[0])) else acc
  }

  /**
   * What atoi returns. C leaves the result undefined when the value does not
   * fit in an int; here it is the unbounded value of the digits.
   */
  function Atoi(s: string): (n: int)
    ensures NoDigits(s) ==> n == 0
  {
    if s != [] && IsSpace(s[0]) then
      assert NoDigits(s) ==> NoDigits(s[1..]) by {
        if NoDigits(s) {
          forall i | 0 <= i < |s[1..]| ensures !IsDigit(s[1..][i]) {
            assert s[1..][i] == s[i + 1];
          }
        }
      }
      Atoi(s[1..])
    else if s != [] && s[0] == '-' then -(ScanDigits(s[1..], 0) as int)
    else if s != [] && s[0] == '+' then ScanDigits(s[1..], 0)
    else ScanDigits(s, 0)
  }

  /** The shortest decimal numeral of a natural number (the writer's side). */
  function NatToDigits(n: nat): (s: string)
    ensures |s| > 0 && AllDigits(s)
  {
    if n < 10 then [DigitChar(n)] else NatToDigits(n / 10) + [DigitChar(n % 10)]
  }

  /** The decimal numeral of an integer, with a leading '-' when negative. */
  function Itoa(n: int): string
  {
    if n < 0 then "-" + NatToDigits(-n) else NatToDigits(n)
  }

  /** One more digit at the end of an all-digit string shifts the scanned value by one place. */
  lemma {:induction false} ScanDigitsSnoc(s: string, c: char, acc: nat)
    requires AllDigits(s) && IsDigit(c)
    ensures ScanDigits(s + [c], acc) == 10 * ScanDigits(s, acc) + DigitValue(c)
  {
    if s != [] {
      assert (s + [c])[1..] == s[1..] + [c];
      ScanDigitsSnoc(s[1..], c, 10 * acc + DigitValue(s[0]));
    }
  }

  /** Scanning the digits of a natural number gives that number. */
  lemma {:induction false} DigitsRoundTrip(n: nat)
    ensures ScanDigits(NatToDigits(n), 0) == n
  {
    if n >= 10 {
      DigitsRoundTrip(n / 10);
      ScanDigitsSnoc(NatToDigits(n / 10), DigitChar(n % 10), 0);
    }
  }

  /** atoi inverts Itoa on every integer. */
  lemma AtoiItoa(n: int)
    ensures Atoi(Itoa(n)) == n
  {
    var s := Itoa(n);
    if n < 0 {
      assert s[0] == '-' && s[1..] == NatToDigits(-n);
      DigitsRoundTrip(-n);
    } else {
      assert IsDigit(s[0]);
      DigitsRoundTrip(n);
    }
  }

  /** atoi stops at the first character that is not a digit: trailing text is ignored. */
  lemma AtoiIgnoresSuffix(n: nat, rest: string)
    requires rest == [] || !IsDigit(rest[0])
    ensures Atoi(NatToDigits(n) + rest) == n
  {
    var d := NatToDigits(n);
    assert IsDigit((d + rest)[0]);
    ScanDigitsStops(d, rest, 0);
    DigitsRoundTrip(n);
  }

  lemma {:induction false} ScanDigitsStops(d: string, rest: string, acc: nat)
    requires AllDigits(d) && (rest == [] || !IsDigit(rest[0]))
    ensures ScanDigits(d + rest, acc) == ScanDigits(d, acc)
  {
    if d == [] {
      assert d + rest == rest;
    } else {
      assert (d + rest)[1..] == d[1..] + rest;
      ScanDigitsStops(d[1..], rest, 10 * acc + DigitValue(d[0]));
    }
  }
}
