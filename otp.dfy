/** `generate_otp` in utils.py: the decimal string of a random draw in
    [100000, 999999]. The draw is a parameter. */
module Otp {

  const OtpMin: int := 100000
  const OtpMax: int := 999999

  predicate IsDigit(c: char) {
    '0' <= c <= '9'
  }

  predicate IsDigits(s: string) {
    forall i :: 0 <= i < |s| ==> IsDigit(s[i])
  }

  function DigitChar(d: int): (c: char)
    requires 0 <= d < 10
    ensures IsDigit(c)
  {
    ('0' as int + d) as char
  }

  function DigitValue(c: char): (d: nat)
    requires IsDigit(c)
    ensures d < 10 && DigitChar(d) == c
  {
    c as int - '0' as int
  }

  function Pow10(k: nat): (p: nat)
    ensures p >= 1
  {
    if k == 0 then 1 else 10 * Pow10(k - 1)
  }

  /** Python's `str(n)` for a non-negative integer. */
  function DecimalString(n: nat): (s: string)
    ensures |s| >= 1 && IsDigits(s)
    ensures n > 0 ==> s[0] != '0'
  {
    if n < 10 then [DigitChar(n)] else DecimalString(n / 10) + [DigitChar(n % 10)]
  }

  /** The integer a string of decimal digits denotes. */
  function DecimalValue(s: string): nat
    requires IsDigits(s)
  {
    if s == [] then 0 else 10 * DecimalValue(s[..|s| - 1]) + DigitValue(s[|s| - 1])
  }

  lemma {:induction false} DecimalValueOfString(n: nat)
    ensures DecimalValue(DecimalString(n)) == n
  {
    var s := DecimalString(n);
    if n >= 10 {
      DecimalValueOfString(n / 10);
      assert s[..|s| - 1] == DecimalString(n / 10);
    }
  }

  /** The number of digits `str(n)` has is the k with 10^(k-1) <= n < 10^k. */
  lemma {:induction false} DecimalStringLength(n: nat, k: nat)
    requires k >= 1 && Pow10(k - 1) <= n < Pow10(k)
    ensures |DecimalString(n)| == k
  {
    if k == 1 {
      assert Pow10(1) == 10;
    } else {
      PowMonotone(1, k - 1);
      assert Pow10(1) == 10;
      assert Pow10(k) == 10 * Pow10(k - 1) && Pow10(k - 1) == 10 * Pow10(k - 2);
      DecimalStringLength(n / 10, k - 1);
    }
  }

  lemma {:induction false} PowMonotone(a: nat, b: nat)
    requires a <= b
    ensures Pow10(a) <= Pow10(b)
  {
    if a < b { PowMonotone(a, b - 1); }
  }

  /** A digit string without a leading zero is the decimal string of its value. */
  lemma {:induction false} DecimalStringOfValue(s: string)
    requires |s| >= 1 && IsDigits(s) && s[0] != '0'
    ensures DecimalString(DecimalValue(s)) == s
  {
    var init := s[..|s| - 1];
    var last := DigitValue(s[|s| - 1]);
    if |s| == 1 {
      assert DecimalValue(s) == last;
    } else {
      DecimalStringOfValue(init);
      assert DecimalValue(init) >= 1 by { LeadingDigitLowerBound(init); }
      var n := DecimalValue(s);
      assert n == 10 * DecimalValue(init) + last;
      assert n / 10 == DecimalValue(init) && n % 10 == last;
      assert n >= 10;
      assert s == init + [s[|s| - 1]];
    }
  }

  /** A digit string without a leading zero denotes at least 10^(|s|-1). */
  lemma {:induction false} LeadingDigitLowerBound(s: string)
    requires |s| >= 1 && IsDigits(s) && s[0] != '0'
    ensures DecimalValue(s) >= Pow10(|s| - 1)
  {
    if |s| > 1 {
      LeadingDigitLowerBound(s[..|s| - 1]);
    }
  }

  /** A digit string denotes less than 10^|s|. */
  lemma {:induction false} DigitsUpperBound(s: string)
    requires IsDigits(s)
    ensures DecimalValue(s) < Pow10(|s|)
  {
    if s != [] {
      DigitsUpperBound(s[..|s| - 1]);
    }
  }

  /** `generate_otp()` for the draw `random.randint(100000, 999999)` returned. */
  function GenerateOtp(draw: int): (code: string)
    requires OtpMin <= draw <= OtpMax
    ensures |code| == 6 && IsDigits(code) && code[0] != '0'
    ensures DecimalValue(code) == draw
  {
    DecimalValueOfString(draw);
    assert Pow10(6) == 1000000 && Pow10(5) == 100000;
    DecimalStringLength(draw, 6);
    DecimalString(draw)
  }

  /** The codes `generate_otp` can return: six digits, the first not '0'. */
  predicate IsOtpCode(s: string) {
    |s| == 6 && IsDigits(s) && s[0] != '0'
  }

  /** Every such code is produced by exactly one draw. */
  lemma GenerateOtpOnto(s: string)
    requires IsOtpCode(s)
    ensures OtpMin <= DecimalValue(s) <= OtpMax
    ensures GenerateOtp(DecimalValue(s)) == s
  {
    DecimalStringOfValue(s);
    LeadingDigitLowerBound(s);
    DigitsUpperBound(s);
    assert Pow10(6) == 1000000 && Pow10(5) == 100000;
  }
}
