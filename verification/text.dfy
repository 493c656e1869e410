/**
 * Decimal digits: `parseInt` on leading digits (base 16 after a "0x"
 * prefix), and the decimal rendering JavaScript uses when a number is
 * interpolated into a template literal.
 */
module Text {
  import opened Js

  predicate IsDigit(c: char) {
    '0' <= c <= '9'
  }

  predicate AllDigits(s: string) {
    forall i :: 0 <= i < |s| ==> IsDigit(s[i])
  }

  function DigitValue(c: char): (d: nat)
    requires IsDigit(c)
    ensures d < 10
  {
    c as int - '0' as int
  }

  function DigitChar(d: nat): (c: char)
    requires d < 10
    ensures IsDigit(c) && DigitValue(c) == d
  {
    ('0' as int + d) as char
  }

  /** `parseInt(s)` for a non-empty string of decimal digits (leading zeros allowed). */
  function DigitsValue(s: string): nat
    requires AllDigits(s)
    decreases |s|
  {
    if |s| == 0 then 0 else DigitsValue(s[..|s| - 1]) * 10 + DigitValue(s[|s| - 1])
  }

  /** The end of the run of digits that starts at position `k`. */
  function DigitRunEnd(s: string, k: nat): (e: nat)
    requires k <= |s|
    ensures k <= e <= |s|
    ensures forall j :: k <= j < e ==> IsDigit(s[j])
    ensures e < |s| ==> !IsDigit(s[e])
    decreases |s| - k
  {
    if k < |s| && IsDigit(s[k]) then DigitRunEnd(s, k + 1) else k
  }

  /** A hexadecimal digit, in either case. */
  predicate IsHexDigit(c: char) {
    IsDigit(c) || 'a' <= c <= 'f' || 'A' <= c <= 'F'
  }

  predicate AllHexDigits(s: string) {
    forall i :: 0 <= i < |s| ==> IsHexDigit(s[i])
  }

  function HexDigitValue(c: char): (d: nat)
    requires IsHexDigit(c)
    ensures d < 16
    ensures IsDigit(c) <==> d < 10
  {
    if IsDigit(c) then DigitValue(c)
    else if 'a' <= c <= 'f' then c as int - 'a' as int + 10
    else c as int - 'A' as int + 10
  }

  /** The value of a string of hexadecimal digits. */
  function HexValue(s: string): nat
    requires AllHexDigits(s)
    decreases |s|
  {
    if |s| == 0 then 0 else HexValue(s[..|s| - 1]) * 16 + HexDigitValue(s[|s| - 1])
  }

  /** The end of the run of hexadecimal digits that starts at position `k`. */
  function HexRunEnd(s: string, k: nat): (e: nat)
    requires k <= |s|
    ensures k <= e <= |s|
    ensures forall j :: k <= j < e ==> IsHexDigit(s[j])
    ensures e < |s| ==> !IsHexDigit(s[e])
    decreases |s| - k
  {
    if k < |s| && IsHexDigit(s[k]) then HexRunEnd(s, k + 1) else k
  }

  /** Text starting "0x" or "0X", which `parseInt` without a radix reads in base 16. */
  predicate HexPrefixed(s: string) {
    |s| >= 2 && s[0] == '0' && (s[1] == 'x' || s[1] == 'X')
  }

  /**
   * `parseInt(s)` with no radix, for text without leading blanks or sign:
   * after a "0x" or "0X" prefix the value of the hexadecimal digits that
   * follow, otherwise the value of the leading decimal digits; NaN (`None`)
   * when there are no such digits.
   */
  function ParseLeadingInt(s: string): (n: Option<nat>)
    ensures HexPrefixed(s) ==> (n.None? <==> |s| == 2 || !IsHexDigit(s[2]))
    ensures !HexPrefixed(s) ==> (n.None? <==> |s| == 0 || !IsDigit(s[0]))
    ensures |s| >= 1 && AllDigits(s) ==> n == Some(DigitsValue(s))
    ensures |s| >= 3 && HexPrefixed(s) && AllHexDigits(s[2..]) ==> n == Some(HexValue(s[2..]))
  {
    if HexPrefixed(s) then
      var e := HexRunEnd(s, 2);
      if e == 2 then None
      else
        assert AllHexDigits(s[2..]) ==> e == |s| && s[2..e] == s[2..];
        Some(HexValue(s[2..e]))
    else
      var e := DigitRunEnd(s, 0);
      if e == 0 then None
      else
        assert AllDigits(s) ==> e == |s| && s[..e] == s;
        Some(DigitsValue(s[..e]))
  }

  /** The base-16 reading in concrete cases: a bare prefix is NaN, and "0x1A" and "0X1f" are 26 and 31. */
  lemma HexReadings()
    ensures ParseLeadingInt("0x") == None
    ensures ParseLeadingInt("0xg") == None
    ensures ParseLeadingInt("0x1A") == Some(26)
    ensures ParseLeadingInt("0X1f") == Some(31)
    ensures ParseLeadingInt("012") == Some(12)
  {
    var a, b := "0x1A", "0X1f";
    assert a[2..] == "1A" && b[2..] == "1f";
    assert AllHexDigits("1A") && AllHexDigits("1f");
    assert "1A"[..1] == "1" && "1f"[..1] == "1" && "1"[..0] == "";
    assert HexValue("1") == 1;
    assert HexValue("1A") == 26;
    assert HexValue("1f") == 31;
    assert "012"[..2] == "01" && "01"[..1] == "0";
    assert DigitsValue("01") == 1;
    assert DigitsValue("012") == 12;
  }

  /** The decimal text of a natural number: digits only, no leading zero. */
  function NatToString(n: nat): (s: string)
    ensures |s| >= 1 && AllDigits(s)
    ensures s[0] == '0' <==> n == 0
    ensures |s| == 1 <==> n < 10
    decreases n
  {
    if n < 10 then [DigitChar(n)] else NatToString(n / 10) + [DigitChar(n % 10)]
  }

  /** The decimal text of an integer, with a leading `-` when negative. */
  function IntToString(i: int): (s: string)
    ensures |s| >= 1
    ensures s[0] == '-' <==> i < 0
  {
    if i < 0 then "-" + NatToString(-i) else NatToString(i)
  }

  /** Decimal text of an integer: digits, optionally after a leading `-`. */
  predicate IsIntText(s: string) {
    |s| >= 1 && (s[0] == '-' ==> AllDigits(s[1..])) && (s[0] != '-' ==> AllDigits(s))
  }

  /** Reads back what `IntToString` writes. */
  function IntValue(s: string): int
    requires IsIntText(s)
  {
    if s[0] == '-' then 0 - DigitsValue(s[1..]) as int else DigitsValue(s)
  }

  /** Parsing the decimal text of `n` gives `n` back. */
  lemma {:induction false} NatToStringRoundTrip(n: nat)
    ensures DigitsValue(NatToString(n)) == n
    decreases n
  {
    if n >= 10 {
      var s := NatToString(n);
      assert s[..|s| - 1] == NatToString(n / 10);
      NatToStringRoundTrip(n / 10);
    }
  }

  /** Parsing the decimal text of `i` gives `i` back. */
  lemma IntToStringRoundTrip(i: int)
    ensures IsIntText(IntToString(i)) && IntValue(IntToString(i)) == i
  {
    var s := IntToString(i);
    if i < 0 {
      var digits := NatToString(-i);
      assert s[1..] == digits;
      NatToStringRoundTrip(-i);
    } else {
      assert s == NatToString(i);
      NatToStringRoundTrip(i);
    }
  }

  /** Distinct naturals have distinct decimal texts. */
  lemma NatToStringInjective(m: nat, n: nat)
    requires NatToString(m) == NatToString(n)
    ensures m == n
  {
    NatToStringRoundTrip(m);
    NatToStringRoundTrip(n);
  }

  /** The last `width` decimal digits of `n`, with leading zeros: how dates and times are padded in ISO 8601 text. */
  function Pad(n: nat, width: nat): (s: string)
    ensures |s| == width && AllDigits(s)
  {
    if width == 0 then [] else Pad(n / 10, width - 1) + [DigitChar(n % 10)]
  }
}
