/** Natural numbers in decimal. */
module Decimal {

  function DigitChar(d: nat): char
    requires d < 10
  {
    ('0' as int + d) as char
  }

  function PrintNat(n: nat): string {
    if n < 10 then [DigitChar(n)] else PrintNat(n / 10) + [DigitChar(n % 10)]
  }

  predicate IsDigit(c: char) { '0' <= c <= '9' }

  predicate AllDigits(s: string) { s != "" && forall i :: 0 <= i < |s| ==> IsDigit(s[i]) }

  function DigitValue(c: char): nat
    requires IsDigit(c)
  {
    (c as int) - ('0' as int)
  }

  function NatValue(s: string): nat
    requires forall i :: 0 <= i < |s| ==> IsDigit(s[i])
  {
    if s == "" then 0 else 10 * NatValue(s[..|s| - 1]) + DigitValue(s[|s| - 1])
  }

  /** A printed number reads back as itself. */
  lemma {:induction false} PrintNatReads(n: nat)
    ensures AllDigits(PrintNat(n)) && NatValue(PrintNat(n)) == n
  {
    if n < 10 {
      assert [DigitChar(n)][..0] == "";
    } else {
      PrintNatReads(n / 10);
      var p := PrintNat(n / 10);
      assert (p + [DigitChar(n % 10)])[..|p|] == p;
    }
  }

  /** Decimal notation: a last digit goes behind the number of tens, and none in front. */
  lemma PrintNatExactly(tens: nat, digit: nat)
    requires digit < 10
    ensures PrintNat(10 * tens + digit) == (if tens == 0 then "" else PrintNat(tens)) + ["0123456789"[digit]]
    ensures PrintNat(tens) != "" && (PrintNat(tens)[0] == '0' ==> tens == 0)
  {
    assert (10 * tens + digit) / 10 == tens && (10 * tens + digit) % 10 == digit;
    NoLeadingZero(tens);
  }

  lemma {:induction false} NoLeadingZero(n: nat)
    ensures PrintNat(n) != "" && (PrintNat(n)[0] == '0' ==> n == 0)
  {
    if n >= 10 { NoLeadingZero(n / 10); }
  }

  /** Length of the run of digits s begins with. */
  function DigitsLen(s: string): (n: nat)
    ensures n <= |s| && forall i :: 0 <= i < n ==> IsDigit(s[i])
  {
    if s != "" && IsDigit(s[0]) then 1 + DigitsLen(s[1..]) else 0
  }

  lemma {:induction false} DigitsStop(a: string, rest: string)
    requires (forall i :: 0 <= i < |a| ==> IsDigit(a[i])) && (rest != "" ==> !IsDigit(rest[0]))
    ensures DigitsLen(a + rest) == |a|
  {
    if a == "" {
      assert a + rest == rest;
    } else {
      assert (a + rest)[1..] == a[1..] + rest;
      DigitsStop(a[1..], rest);
    }
  }
}
