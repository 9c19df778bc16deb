/** Decimal text of integers: what `<<`, `%zu` and `%ld` print and what `strtol` reads. */
module Decimal {

  predicate IsDigit(c: char) { '0' <= c <= '9' }

  predicate AllDigits(s: string) { forall i :: 0 <= i < |s| ==> IsDigit(s[i]) }

  function DigitChar(d: nat): (c: char)
    requires d < 10
    ensures IsDigit(c)
  {
    '0' + d as char
  }

  function DigitValue(c: char): (d: nat)
    requires IsDigit(c)
    ensures d < 10
  {
    (c - '0') as int
  }

  /** The number a digit string denotes; the empty string denotes 0. */
  function Value(s: string): nat
    requires AllDigits(s)
  {
    if s == [] then 0 else 10 * Value(s[..|s| - 1]) + DigitValue(s[|s| - 1])
  }

  function PrintNat(n: nat): (s: string)
    ensures AllDigits(s) && |s| > 0
  {
    if n < 10 then [DigitChar(n)] else PrintNat(n / 10) + [DigitChar(n % 10)]
  }

  /** `%ld`. */
  function Print(n: int): string {
    if n < 0 then "-" + PrintNat(-n) else PrintNat(n)
  }

  /** The digits by their characters, and what one more digit does to a number. */
  lemma DigitsAre(d: nat)
    requires d < 10
    ensures PrintNat(d) == ["0123456789"[d]] && DigitValue("0123456789"[d]) == d
    ensures forall s :: AllDigits(s) ==>
      AllDigits(s + ["0123456789"[d]]) && Value(s + ["0123456789"[d]]) == 10 * Value(s) + d
  {
    var c := "0123456789"[d];
    assert c == '0' + d as char;
    forall s | AllDigits(s)
      ensures AllDigits(s + [c]) && Value(s + [c]) == 10 * Value(s) + d
    {
      assert (s + [c])[..|s|] == s;
    }
  }

  /** A printed number has no leading zero, a minus sign when it is negative, and no other sign. */
  lemma PrintShape(n: int)
    ensures n >= 0 ==> AllDigits(Print(n)) && Value(Print(n)) == n && (|Print(n)| > 1 ==> Print(n)[0] != '0')
    ensures n < 0 ==> Print(n) == ['-'] + Print(-n)
  {
    if n >= 0 {
      ValueOfPrintNat(n);
      NoLeadingZero(n);
    }
  }

  lemma {:induction false} NoLeadingZero(n: nat)
    ensures n > 0 ==> PrintNat(n)[0] != '0'
    ensures n < 10 ==> |PrintNat(n)| == 1
  {
    if n >= 10 {
      NoLeadingZero(n / 10);
    }
  }

  lemma {:induction false} ValueOfPrintNat(n: nat)
    ensures Value(PrintNat(n)) == n
  {
    if n >= 10 {
      ValueOfPrintNat(n / 10);
      assert PrintNat(n)[..|PrintNat(n)| - 1] == PrintNat(n / 10);
    }
  }

  /** A printed number is at most `k` characters long when it is below 10^k. */
  lemma {:induction false} PrintNatLength(n: nat, k: nat)
    requires 1 <= k
    requires n < Power10(k)
    ensures |PrintNat(n)| <= k
  {
    if n >= 10 {
      PrintNatLength(n / 10, k - 1);
    }
  }

  function Power10(k: nat): (p: nat)
    ensures p >= 1
  {
    if k == 0 then 1 else 10 * Power10(k - 1)
  }
}
