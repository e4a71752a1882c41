/**
 * The few JavaScript built-ins the game relies on, over integers only:
 * `parseInt(s, radix)`, `Number.prototype.toString()`, `String.prototype.padStart`
 * with a width of 2 and a `'0'` filler, and the truncating remainder `%`.
 */
module JsText {
  import opened Wrappers
  import opened Numerals

  /** The characters JavaScript's StrWhiteSpaceChar covers: WhiteSpace (including every Zs character) and LineTerminator. */
  predicate IsJsWhiteSpace(c: char) {
    var i := c as int;
    i == 0x09 || i == 0x0A || i == 0x0B || i == 0x0C || i == 0x0D || i == 0x20 || i == 0xA0 ||
    i == 0x1680 || (0x2000 <= i <= 0x200A) || i == 0x2028 || i == 0x2029 || i == 0x202F ||
    i == 0x205F || i == 0x3000 || i == 0xFEFF
  }

  /** `s` without its leading white space (the first step of `parseInt`). */
  function TrimStart(s: string): (t: string)
    ensures |t| <= |s|
    ensures |t| > 0 ==> !IsJsWhiteSpace(t[0])
    ensures |s| > 0 && !IsJsWhiteSpace(s[0]) ==> t == s
  {
    if |s| > 0 && IsJsWhiteSpace(s[0]) then TrimStart(s[1..]) else s
  }

  /** The length of the longest leading run of `radix` digits in `u`. */
  function DigitPrefixLength(u: string, radix: nat): (k: nat)
    ensures k <= |u| && AllDigits(u[..k], radix)
    ensures k < |u| ==> !IsRadixDigit(u[k], radix)
  {
    if |u| == 0 || !IsRadixDigit(u[0], radix) then 0
    else
      var k := 1 + DigitPrefixLength(u[1..], radix);
      assert forall i :: 1 <= i < k ==> u[..k][i] == u[1..][..k - 1][i - 1];
      k
  }

  /**
   * `parseInt(s, radix)`: skip leading white space, take one optional sign, then
   * read the longest run of digits valid in `radix`; `None` (NaN) when that run
   * is empty. The "0x" prefix that radix 16 also strips is not modelled.
   */
  function ParseInt(s: string, radix: nat): Option<int>
    requires 2 <= radix <= 36 && radix != 16
  {
    var t := TrimStart(s);
    var negative := |t| > 0 && t[0] == '-';
    var u := if |t| > 0 && (t[0] == '-' || t[0] == '+') then t[1..] else t;
    var k := DigitPrefixLength(u, radix);
    if k == 0 then None
    else
      var magnitude: int := Value(u[..k], radix);
      Some(if negative then -magnitude else magnitude)
  }

  /** A non-empty string made only of `radix` digits parses to the number it denotes. */
  lemma ParseIntOfDigits(s: string, radix: nat)
    requires 2 <= radix <= 36 && radix != 16
    requires |s| > 0 && AllDigits(s, radix)
    ensures ParseInt(s, radix) == Some(Value(s, radix))
  {
    assert IsRadixDigit(s[0], radix);
    assert TrimStart(s) == s;
    assert DigitPrefixLength(s, radix) == |s|;
    assert s[..|s|] == s;
  }

  /**
   * A string that starts with neither white space nor a sign parses to a
   * number exactly when its first character is a `radix` digit.
   */
  lemma ParseIntFirstChar(s: string, radix: nat)
    requires 2 <= radix <= 36 && radix != 16
    requires |s| > 0 && !IsJsWhiteSpace(s[0]) && s[0] != '-' && s[0] != '+'
    ensures ParseInt(s, radix).None? <==> !IsRadixDigit(s[0], radix)
  {
    assert TrimStart(s) == s;
  }

  /** A decimal digit is neither white space nor a sign. */
  lemma DigitIsPlain(c: char)
    requires IsRadixDigit(c, 10)
    ensures !IsJsWhiteSpace(c) && c != '-' && c != '+'
  {
  }

  /** `Number.prototype.toString()` of an integer. */
  function IntToString(i: int): (s: string)
    ensures i >= 0 ==> s == NatToString(i)
    ensures i < 0 ==> |s| >= 2 && s[0] == '-' && s[1..] == NatToString(-i)
  {
    if i < 0 then "-" + NatToString(-i) else NatToString(i)
  }

  /** `s.padStart(2, '0')`. */
  function PadStart2(s: string): (p: string)
    ensures |s| >= 2 ==> p == s
    ensures |s| < 2 ==> |p| == 2 && p[2 - |s|..] == s && forall i :: 0 <= i < 2 - |s| ==> p[i] == '0'
  {
    if |s| >= 2 then s else if |s| == 1 then "0" + s else "00"
  }

  /** JavaScript's `a % b` for a positive divisor: the remainder takes the sign of `a`. */
  function JsRemainder(a: int, b: int): (r: int)
    requires b > 0
    ensures a >= 0 ==> 0 <= r < b
    ensures a < 0 ==> -b < r <= 0
  {
    if a >= 0 then a % b else -((-a) % b)
  }
}
