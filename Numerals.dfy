/**
 * Positional notation: digit characters, the value of a digit string in a
 * radix, and the decimal rendering of a natural number.
 */
module Numerals {
  import opened Wrappers

  /** The value of an alphanumeric digit: '0'-'9' are 0-9, 'a'-'z' and 'A'-'Z' are 10-35. */
  function DigitValue(c: char): (v: Option<nat>)
    ensures v.Some? ==> v.value < 36
  {
    if '0' <= c <= '9' then Some(c as int - '0' as int)
    else if 'a' <= c <= 'z' then Some(c as int - 'a' as int + 10)
    else if 'A' <= c <= 'Z' then Some(c as int - 'A' as int + 10)
    else None
  }

  predicate IsRadixDigit(c: char, radix: nat) {
    DigitValue(c).Some? && DigitValue(c).value < radix
  }

  predicate AllDigits(s: string, radix: nat) {
    forall i :: 0 <= i < |s| ==> IsRadixDigit(s[i], radix)
  }

  /** The decimal digit character for `d`. */
  function DigitChar(d: nat): (c: char)
    requires d < 10
    ensures '0' <= c <= '9' && DigitValue(c) == Some(d)
  {
    ('0' as int + d) as char
  }

  /** The number that the digit string `s` denotes in `radix`, most significant digit first. */
  function Value(s: string, radix: nat): nat
    requires AllDigits(s, radix)
    decreases |s|
  {
    if |s| == 0 then 0
    else Value(s[..|s| - 1], radix) * radix + DigitValue(s[|s| - 1]).value
  }

  /** The shortest decimal rendering of `n`, as `Number.prototype.toString` produces it. */
  function NatToString(n: nat): (s: string)
    ensures |s| >= 1 && AllDigits(s, 10)
    ensures n < 10 <==> |s| == 1
    decreases n
  {
    if n < 10 then [DigitChar(n)] else NatToString(n / 10) + [DigitChar(n % 10)]
  }

  /** Reading the decimal rendering of `n` back gives `n`. */
  lemma {:induction false} ValueOfNatToString(n: nat)
    ensures Value(NatToString(n), 10) == n
    decreases n
  {
    var s := NatToString(n);
    if n >= 10 {
      ValueOfNatToString(n / 10);
      assert s[..|s| - 1] == NatToString(n / 10);
    }
  }

  /** Distinct numbers have distinct decimal renderings. */
  lemma NatToStringInjective(m: nat, n: nat)
    requires NatToString(m) == NatToString(n)
    ensures m == n
  {
    ValueOfNatToString(m);
    ValueOfNatToString(n);
  }

  /** Read in a larger radix, a digit string denotes at least as much as in a smaller one. */
  lemma {:induction false} ValueGrowsWithRadix(s: string, r1: nat, r2: nat)
    requires r1 <= r2 && AllDigits(s, r1)
    ensures AllDigits(s, r2) && Value(s, r1) <= Value(s, r2)
    decreases |s|
  {
    if |s| > 0 {
      var init := s[..|s| - 1];
      ValueGrowsWithRadix(init, r1, r2);
      MulMonotone(Value(init, r1), Value(init, r2), r1, r2);
    }
  }

  lemma MulMonotone(a: nat, b: nat, x: nat, y: nat)
    requires a <= b && x <= y
    ensures a * x <= b * y
  {
    assert a * x <= b * x;
    assert b * x <= b * y;
  }

  /** A leading part of a digit string never denotes more than the whole string. */
  lemma {:induction false} PrefixValueBound(s: string, k: nat, radix: nat)
    requires k <= |s| && radix >= 1 && AllDigits(s, radix)
    ensures AllDigits(s[..k], radix) && Value(s[..k], radix) <= Value(s, radix)
    decreases |s|
  {
    if k < |s| {
      var init := s[..|s| - 1];
      assert s[..k] == init[..k];
      PrefixValueBound(init, k, radix);
      MulMonotone(Value(init, radix), Value(init, radix), 1, radix);
      assert Value(s, radix) == Value(init, radix) * radix + DigitValue(s[|s| - 1]).value;
    } else {
      assert s[..k] == s;
    }
  }

  /** A proper leading part that denotes a positive number denotes strictly less than the whole string. */
  lemma PrefixValueStrict(s: string, k: nat, radix: nat)
    requires 1 <= k < |s| && radix >= 2 && AllDigits(s, radix)
    requires AllDigits(s[..k], radix) && Value(s[..k], radix) >= 1
    ensures Value(s[..k], radix) < Value(s, radix)
  {
    var init := s[..|s| - 1];
    assert init[..k] == s[..k];
    PrefixValueBound(init, k, radix);
    MulMonotone(Value(init, radix), Value(init, radix), 2, radix);
    assert Value(s, radix) == Value(init, radix) * radix + DigitValue(s[|s| - 1]).value;
  }

  /**
   * A digit string of two or more digits whose digits before the last denote a
   * positive number denotes strictly more in a larger radix.
   */
  lemma ValueStrictlyGrows(s: string, r1: nat, r2: nat)
    requires 2 <= r1 < r2 && |s| >= 2 && AllDigits(s, r1) && AllDigits(s, r2)
    requires Value(s[..|s| - 1], r2) >= 1
    ensures Value(s, r1) < Value(s, r2)
  {
    var init := s[..|s| - 1];
    ValueGrowsWithRadix(init, r1, r2);
    var a, b, last := Value(init, r1), Value(init, r2), DigitValue(s[|s| - 1]).value;
    MulMonotone(a, b, r1, r1);
    MulMonotone(b, b, r1 + 1, r2);
    assert b * (r1 + 1) == b * r1 + b;
    assert Value(s, r1) == a * r1 + last;
    assert Value(s, r2) == b * r2 + last;
  }

}
