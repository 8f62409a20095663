/** Decimal notation of non-negative integers, as Python's `str(int)` writes it. */
module Decimal {

  predicate IsDigit(c: char) {
    '0' <= c <= '9'
  }

  predicate IsDigits(s: string) {
    forall i :: 0 <= i < |s| ==> IsDigit(s[i])
  }

  function DigitChar(d: nat): (c: char)
    requires d < 10
    ensures IsDigit(c) && DigitValue(c) == d
  {
    ('0' as int + d) as char
  }

  function DigitValue(c: char): nat
    requires IsDigit(c)
  {
    c as int - '0' as int
  }

  /** Digits as `str(int)` writes them: at least one, and no leading zero unless
      the number is 0. */
  predicate IsCanonical(s: string) {
    0 < |s| && IsDigits(s) && (1 < |s| ==> s[0] != '0')
  }

  /** The number a string of digits denotes, read from the most significant digit. */
  function Value(s: string): nat
    requires IsDigits(s)
  {
    if s == [] then 0 else Value(s[..|s| - 1]) * 10 + DigitValue(s[|s| - 1])
  }

  /** Shortest decimal notation of `n`: digits only, no leading zero, denoting `n`. */
  function Show(n: nat): (s: string)
    ensures IsCanonical(s)
    ensures Value(s) == n
  {
    if n < 10 then [DigitChar(n)]
    else
      var prefix := Show(n / 10);
      var s := prefix + [DigitChar(n % 10)];
      assert s[..|s| - 1] == prefix;
      s
  }

  /** Every canonical digit string is the notation of the number it denotes. */
  lemma {:induction false} ShowValue(s: string)
    requires IsCanonical(s)
    ensures Show(Value(s)) == s
    decreases |s|
  {
    if |s| == 1 {
      assert DigitChar(DigitValue(s[0])) == s[0];
    } else {
      var init := s[..|s| - 1];
      assert init[0] == s[0];
      LeadingNonZero(init);
      ShowValue(init);
      assert Value(s) / 10 == Value(init);
      assert DigitChar(Value(s) % 10) == s[|s| - 1];
      assert s == init + [s[|s| - 1]];
    }
  }

  /** A digit string that does not start with '0' denotes a positive number. */
  lemma {:induction false} LeadingNonZero(s: string)
    requires 0 < |s| && IsDigits(s) && s[0] != '0'
    ensures 0 < Value(s)
    decreases |s|
  {
    if 1 < |s| {
      var init := s[..|s| - 1];
      assert init[0] == s[0];
      LeadingNonZero(init);
    }
  }

  /** Two numbers are written the same only if they are equal. */
  lemma ShowInjective(m: nat, n: nat)
    requires Show(m) == Show(n)
    ensures m == n
  {
  }
}
