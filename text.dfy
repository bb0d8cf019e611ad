/**
 The decimal rendering of a non-negative integer, as JavaScript's template
 literals produce it (`${n}`), used for level ids (`digestive-1`) and point
 ids (`point-0`).
 */
module Text {

  /** The character of a single decimal digit. */
  function DigitChar(d: nat): (c: char)
    requires d < 10
    ensures '0' <= c <= '9'
    ensures c as int - '0' as int == d
  {
    (d + '0' as int) as char
  }

  /** The value of a decimal digit character; any other character counts as 0. */
  function DigitValue(c: char): (d: nat)
    ensures '0' <= c <= '9' ==> d < 10 && DigitChar(d) == c
  {
    if '0' <= c <= '9' then c as int - '0' as int else 0
  }

  /**
   The number a string of decimal digits denotes, read left to right: the
   value of all but the last digit, times ten, plus the last digit.
   */
  function DigitsValue(s: string): nat
    decreases |s|
  {
    if |s| == 0 then 0 else 10 * DigitsValue(s[..|s| - 1]) + DigitValue(s[|s| - 1])
  }

  /** `${n}` for a non-negative integer: the digits that denote n, with no sign and no leading zeros. */
  function NatToString(n: nat): (s: string)
    ensures DigitsValue(s) == n
    ensures 1 <= |s|
    ensures n < 10 <==> |s| == 1
    ensures forall k :: 0 <= k < |s| ==> '0' <= s[k] <= '9'
    ensures 1 < |s| ==> s[0] != '0'
    decreases n
  {
    if n < 10 then [DigitChar(n)]
    else
      var s := NatToString(n / 10) + [DigitChar(n % 10)];
      assert s[..|s| - 1] == NatToString(n / 10);
      s
  }

  /** Two different numbers never render to the same text: the text's value is the number. */
  lemma NatToStringInjective(n: nat, m: nat)
    requires NatToString(n) == NatToString(m)
    ensures n == m
  {
  }

  /**
   The converse: a non-empty string of decimal digits without a leading zero
   is the rendering of the number it denotes.
   */
  lemma {:induction false} NatToStringOfDigits(s: string)
    requires 1 <= |s|
    requires forall k :: 0 <= k < |s| ==> '0' <= s[k] <= '9'
    requires 1 < |s| ==> s[0] != '0'
    ensures NatToString(DigitsValue(s)) == s
    decreases |s|
  {
    var d := DigitValue(s[|s| - 1]);
    if |s| > 1 {
      var front := s[..|s| - 1];
      NatToStringOfDigits(front);
      var v := DigitsValue(s);
      assert v / 10 == DigitsValue(front) && v % 10 == d;
      assert s == front + [s[|s| - 1]];
    }
  }

  /** Text that starts with a fixed prefix is determined by what follows it. */
  lemma PrefixCancel(p: string, a: string, b: string)
    requires p + a == p + b
    ensures a == b
  {
    assert a == (p + a)[|p|..];
    assert b == (p + b)[|p|..];
  }
}
