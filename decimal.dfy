/** Decimal rendering of natural numbers, as Python's `f"{n}"` / `str(n)` does for a
    non-negative int, together with its inverse (reading a digit string back). */
module Decimal {

  /** 10 to the power k. */
  function Pow10(k: nat): (p: nat)
    ensures p >= 1
    ensures k >= 1 ==> p >= 10
  {
    if k == 0 then 1 else 10 * Pow10(k - 1)
  }

  predicate IsDigit(c: char) {
    '0' <= c <= '9'
  }

  predicate AllDigits(s: string) {
    forall i :: 0 <= i < |s| ==> IsDigit(s[i])
  }

  function DigitValue(c: char): (d: nat)
    requires IsDigit(c)
    ensures d < 10
  {
    c as int - '0' as int
  }

  function DigitChar(d: nat): (c: char)
    requires d < 10
    ensures IsDigit(c) && DigitValue(c) == d
  {
    ('0' as int + d) as char
  }

  /** The decimal digits of n, most significant first, with no leading zero. */
  function Digits(n: nat): (s: string)
    ensures |s| >= 1
    ensures AllDigits(s)
    ensures n > 0 ==> s[0] != '0'
    decreases n
  {
    if n < 10 then [DigitChar(n)] else Digits(n / 10) + [DigitChar(n % 10)]
  }

  /** The number a digit string denotes. */
  function DigitsValue(s: string): (n: nat)
    requires AllDigits(s)
    decreases |s|
  {
    if |s| == 0 then 0 else DigitsValue(s[..|s| - 1]) * 10 + DigitValue(s[|s| - 1])
  }

  /** Reading back a rendering gives the number rendered. */
  lemma {:induction false} DigitsValueOfDigits(n: nat)
    ensures DigitsValue(Digits(n)) == n
    decreases n
  {
    var s := Digits(n);
    if n >= 10 {
      var t := Digits(n / 10);
      assert s == t + [DigitChar(n % 10)];
      assert s[..|s| - 1] == t;
      DigitsValueOfDigits(n / 10);
    }
  }

  /** A number with exactly k decimal places renders to exactly k digits. */
  lemma {:induction false} DigitsLength(n: nat, k: nat)
    requires 1 <= k
    requires Pow10(k - 1) <= n < Pow10(k)
    ensures |Digits(n)| == k
    decreases k
  {
    if k > 1 {
      assert Pow10(k - 1) == 10 * Pow10(k - 2);
      assert n >= 10;
      assert Pow10(k - 2) <= n / 10 < Pow10(k - 1);
      DigitsLength(n / 10, k - 1);
    }
  }

  /** A digit string of length k without a leading zero denotes a k-place number. */
  lemma {:induction false} DigitsValueBounds(s: string)
    requires AllDigits(s) && |s| >= 1 && s[0] != '0'
    ensures Pow10(|s| - 1) <= DigitsValue(s) < Pow10(|s|)
    decreases |s|
  {
    if |s| > 1 {
      var t := s[..|s| - 1];
      assert t[0] == s[0];
      DigitsValueBounds(t);
      assert Pow10(|s| - 1) == 10 * Pow10(|t| - 1);
      assert Pow10(|s|) == 10 * Pow10(|t|);
    }
  }

  /** Rendering the value of a canonical digit string gives that string back. */
  lemma {:induction false} DigitsOfDigitsValue(s: string)
    requires AllDigits(s) && |s| >= 1 && s[0] != '0'
    ensures Digits(DigitsValue(s)) == s
    decreases |s|
  {
    var n := DigitsValue(s);
    var last := s[|s| - 1];
    if |s| == 1 {
      assert s[..|s| - 1] == [];
      assert DigitsValue(s[..|s| - 1]) == 0;
      assert n == DigitValue(last);
      assert DigitChar(n) == last;
      assert s == [last];
    } else {
      var t := s[..|s| - 1];
      assert t[0] == s[0];
      DigitsValueBounds(t);
      DigitsOfDigitsValue(t);
      assert n == DigitsValue(t) * 10 + DigitValue(last);
      assert n >= 10;
      assert n / 10 == DigitsValue(t) && n % 10 == DigitValue(last);
      assert DigitChar(n % 10) == last;
      assert s == t + [last];
    }
  }
}
