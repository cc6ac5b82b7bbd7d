/**
 * The two pieces of Python string behaviour that the broadcaster's output
 * format depends on: `str(n)` for an `int` (decimal, with a leading `-` for
 * negative values) and the slice `s[-4:]` (the last four characters, or the
 * whole string when it is shorter).
 */
module PyStr {

  predicate IsDigit(c: char) {
    '0' <= c <= '9'
  }

  predicate AllDigits(s: string) {
    forall i :: 0 <= i < |s| ==> IsDigit(s[i])
  }

  /** The character that stands for the decimal digit d. */
  function DigitChar(d: nat): (c: char)
    requires d < 10
    ensures IsDigit(c) && c as int - '0' as int == d
  {
    ('0' as int + d) as char
  }

  function DigitValue(c: char): (d: nat)
    requires IsDigit(c)
    ensures d < 10 && DigitChar(d) == c
  {
    c as int - '0' as int
  }

  function Pow10(k: nat): (p: nat)
    ensures p >= 1
  {
    if k == 0 then 1 else 10 * Pow10(k - 1)
  }

  /** Python `str(n)` for a non-negative int: its decimal digits, most significant first. */
  function NatToDecimal(n: nat): (s: string)
    ensures |s| >= 1 && AllDigits(s)
    ensures |s| > 1 ==> s[0] != '0'
    ensures s[|s| - 1] == DigitChar(n % 10)
    decreases n
  {
    if n < 10 then [DigitChar(n)] else NatToDecimal(n / 10) + [DigitChar(n % 10)]
  }

  /** Python `str(n)` for any int: a `-` in front of the digits of -n when n is negative. */
  function IntToDecimal(n: int): (s: string)
    ensures |s| >= 1
    ensures s[0] == '-' <==> n < 0
    ensures forall i :: 0 <= i < |s| ==> s[i] == '-' || IsDigit(s[i])
    ensures forall i :: 0 < i < |s| ==> IsDigit(s[i])
  {
    if n < 0 then "-" + NatToDecimal(-n) else NatToDecimal(n)
  }

  /** The value of a string of decimal digits (the empty string has value 0). */
  function DigitsValue(s: string): nat
    requires AllDigits(s)
  {
    if s == [] then 0 else 10 * DigitsValue(s[..|s| - 1]) + DigitValue(s[|s| - 1])
  }

  /** The strings `str` produces for an int: an optional `-` followed by at least one digit. */
  predicate IsDecimal(s: string) {
    if |s| > 0 && s[0] == '-' then |s| > 1 && AllDigits(s[1..]) else |s| > 0 && AllDigits(s)
  }

  /** Python `int(s)` on the strings IsDecimal admits. */
  function DecimalValue(s: string): int
    requires IsDecimal(s)
  {
    if s[0] == '-' then -(DigitsValue(s[1..]) as int) else DigitsValue(s)
  }

  lemma {:induction false} NatToDecimalRoundTrip(n: nat)
    ensures DigitsValue(NatToDecimal(n)) == n
    decreases n
  {
    var s := NatToDecimal(n);
    if n < 10 {
      assert s[..0] == [];
    } else {
      NatToDecimalRoundTrip(n / 10);
      assert s[..|s| - 1] == NatToDecimal(n / 10);
    }
  }

  /** `int(str(n)) == n`: the decimal text of an int determines it. */
  lemma IntToDecimalRoundTrip(n: int)
    ensures IsDecimal(IntToDecimal(n))
    ensures DecimalValue(IntToDecimal(n)) == n
  {
    var s := IntToDecimal(n);
    if n < 0 {
      assert s[1..] == NatToDecimal(-n);
      NatToDecimalRoundTrip(-n);
    } else {
      NatToDecimalRoundTrip(n);
    }
  }

  /** Distinct ints have distinct decimal texts. */
  lemma IntToDecimalInjective(a: int, b: int)
    requires IntToDecimal(a) == IntToDecimal(b)
    ensures a == b
  {
    IntToDecimalRoundTrip(a);
    IntToDecimalRoundTrip(b);
  }

  /** `str(n)` has more than k > 0 digits exactly when n is at least 10^k. */
  lemma {:induction false} NatToDecimalLength(n: nat, k: nat)
    ensures |NatToDecimal(n)| > k <==> k == 0 || n >= Pow10(k)
    decreases n
  {
    if n >= 10 && k > 0 {
      NatToDecimalLength(n / 10, k - 1);
    } else if k > 0 {
      assert Pow10(k) >= 10 by { assert Pow10(k) == 10 * Pow10(k - 1); }
      assert |NatToDecimal(n)| == 1;
    }
  }

  /**
   * Python `s[start:]`: a negative start counts back from the end of s, and
   * a start beyond either end is clamped to that end.
   */
  function SliceFrom(s: string, start: int): (r: string)
    ensures |r| <= |s| && r == s[|s| - |r|..]
    ensures 0 <= start ==> |r| == if start <= |s| then |s| - start else 0
    ensures start < 0 ==> |r| == if -start <= |s| then -start else |s|
  {
    var i := if start < 0 then (if |s| + start < 0 then 0 else |s| + start)
             else (if start > |s| then |s| else start);
    s[i..]
  }

  /** Python `s[-4:]`: the last four characters, or all of s when it is shorter. */
  function Last4(s: string): (r: string)
    ensures |r| == if |s| < 4 then |s| else 4
    ensures r == s[|s| - |r|..]
  {
    SliceFrom(s, -4)
  }

  /** The last digit of `str(m)` is the digit of m modulo 10. */
  lemma NatToDecimalSplit(m: nat)
    requires m >= 10
    ensures NatToDecimal(m) == NatToDecimal(m / 10) + [DigitChar(m % 10)]
  {
  }

  /** n modulo 10000 written with exactly four digits, leading zeros included. */
  function LastFourDigits(n: nat): (s: string)
    ensures |s| == 4 && AllDigits(s)
  {
    [DigitChar(n / 10 / 10 / 10 % 10), DigitChar(n / 10 / 10 % 10), DigitChar(n / 10 % 10), DigitChar(n % 10)]
  }

  /** The last three digits of `str(n)`, split off one division by ten at a time. */
  lemma NatToDecimalLastThree(n: nat)
    requires n >= 1000
    ensures NatToDecimal(n) ==
      NatToDecimal(n / 10 / 10 / 10) + [DigitChar(n / 10 / 10 % 10), DigitChar(n / 10 % 10), DigitChar(n % 10)]
  {
    assert n / 10 / 10 >= 10;
    NatToDecimalSplit(n);
    NatToDecimalSplit(n / 10);
    NatToDecimalSplit(n / 10 / 10);
  }

  lemma Last4OfThreeMore(a: string, x: char, y: char, z: char)
    requires |a| >= 1
    ensures Last4(a + [x, y, z]) == [a[|a| - 1], x, y, z]
  {
    var s := a + [x, y, z];
    assert s[|s| - 4..] == [a[|a| - 1], x, y, z];
  }

  /** For n >= 1000, `str(n)[-4:]` is n modulo 10000 in four digits. */
  lemma Last4OfLargeNat(n: nat)
    requires n >= 1000
    ensures Last4(NatToDecimal(n)) == LastFourDigits(n)
  {
    NatToDecimalLastThree(n);
    var a := NatToDecimal(n / 10 / 10 / 10);
    Last4OfThreeMore(a, DigitChar(n / 10 / 10 % 10), DigitChar(n / 10 % 10), DigitChar(n % 10));
  }

  /**
   * `str(n)[-4:]` is the whole of `str(n)` exactly when -1000 < n < 1000
   * (sign included); otherwise it is |n| modulo 10000 in four digits, and
   * the sign is cut off.
   */
  lemma Last4OfIntToDecimal(n: int)
    ensures -1000 < n < 1000 ==> Last4(IntToDecimal(n)) == IntToDecimal(n)
    ensures n >= 1000 ==> Last4(IntToDecimal(n)) == LastFourDigits(n)
    ensures n <= -1000 ==> Last4(IntToDecimal(n)) == LastFourDigits(-n)
  {
    if n >= 1000 {
      Last4OfLargeNat(n);
    } else if n <= -1000 {
      Last4OfLargeNat(-n);
      Last4IgnoresSign(NatToDecimal(-n));
    } else {
      ShortDecimal(n);
    }
  }

  lemma Last4IgnoresSign(d: string)
    requires |d| >= 4
    ensures Last4("-" + d) == Last4(d)
  {
    var s := "-" + d;
    assert s[|s| - 4..] == d[|d| - 4..];
  }

  /** Between -1000 and 1000, `str(n)` has at most four characters. */
  lemma ShortDecimal(n: int)
    requires -1000 < n < 1000
    ensures |IntToDecimal(n)| <= 4
  {
    assert Pow10(3) == 1000 by { assert Pow10(2) == 100 by { assert Pow10(1) == 10; } }
    if n >= 0 {
      NatToDecimalLength(n, 3);
    } else {
      NatToDecimalLength(-n, 3);
    }
  }

  /**
   * `str(n)[-4:]` has all four characters exactly when n >= 1000 or
   * n <= -100; otherwise it is the whole of `str(n)`.
   */
  lemma Last4OfDecimalLength(n: int)
    ensures |Last4(IntToDecimal(n))| == 4 <==> n >= 1000 || n <= -100
    ensures |Last4(IntToDecimal(n))| < 4 ==> Last4(IntToDecimal(n)) == IntToDecimal(n)
  {
    if n < 0 {
      NatToDecimalLength(-n, 2);
      assert Pow10(2) == 100 by { assert Pow10(1) == 10; }
    } else {
      NatToDecimalLength(n, 3);
      assert Pow10(3) == 1000 by { assert Pow10(2) == 100 by { assert Pow10(1) == 10; } }
    }
  }
}
