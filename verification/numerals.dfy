/** Decimal numerals as the scripts write and read them: `str(n)`,
    the zero-padded `f"{n:02d}"` / `f"{n:03d}"` format fields, and Python's
    `int(text)` on a string. */
module Numerals {
  import opened Wrappers
  import opened Text

  predicate IsDigit(c: char) {
    '0' <= c <= '9'
  }

  predicate AllDigits(s: string) {
    forall i :: 0 <= i < |s| ==> IsDigit(s[i])
  }

  function DigitChar(d: nat): (c: char)
    requires d < 10
    ensures IsDigit(c)
  {
    ('0' as int + d) as char
  }

  function DigitValue(c: char): (d: nat)
    requires IsDigit(c)
    ensures d < 10
  {
    c as int - '0' as int
  }

  /** The number a string of decimal digits denotes (leading zeros allowed). */
  function DigitsValue(s: string): nat
    requires AllDigits(s)
  {
    if s == [] then 0 else 10 * DigitsValue(s[..|s| - 1]) + DigitValue(s[|s| - 1])
  }

  /** `str(n)` for a non-negative `n`: the shortest decimal numeral. */
  function NatToString(n: nat): (r: string)
    ensures r != [] && AllDigits(r)
    ensures r[0] == '0' ==> n == 0 && |r| == 1
  {
    if n < 10 then [DigitChar(n)] else NatToString(n / 10) + [DigitChar(n % 10)]
  }

  /** `str(n)` for any integer. */
  function IntToString(n: int): (r: string)
    ensures r != [] && !IsSpace(r[0]) && !IsSpace(r[|r| - 1])
  {
    if n >= 0 then NatToString(n) else "-" + NatToString(-n)
  }

  function Zeros(k: nat): (r: string)
    ensures |r| == k && AllDigits(r)
    ensures forall i :: 0 <= i < k ==> r[i] == '0'
  {
    if k == 0 then [] else ['0'] + Zeros(k - 1)
  }

  /** Left-pads a numeral with zeros to at least `width` characters. */
  function PadLeft(s: string, width: nat): string {
    if |s| < width then Zeros(width - |s|) + s else s
  }

  /** Python's `f"{n:0{width}d}"`: the sign, if any, counts towards the width. */
  function ZeroPad(n: int, width: nat): string {
    if n >= 0 then PadLeft(NatToString(n), width)
    else "-" + PadLeft(NatToString(-n), if width > 0 then width - 1 else 0)
  }

  /** Reading a numeral back gives the number it was written from. */
  lemma {:induction false} NatToStringRoundTrip(n: nat)
    ensures DigitsValue(NatToString(n)) == n
    decreases n
  {
    if n >= 10 {
      var r := NatToString(n);
      NatToStringRoundTrip(n / 10);
      assert r[..|r| - 1] == NatToString(n / 10);
    }
  }

  /** Leading zeros do not change the value of a numeral. */
  lemma {:induction false} LeadingZerosValue(k: nat, s: string)
    requires AllDigits(s)
    ensures AllDigits(Zeros(k) + s)
    ensures DigitsValue(Zeros(k) + s) == DigitsValue(s)
    decreases |s|, k
  {
    var z := Zeros(k) + s;
    if s != [] {
      LeadingZerosValue(k, s[..|s| - 1]);
      assert z[..|z| - 1] == Zeros(k) + s[..|s| - 1];
    } else if k > 0 {
      LeadingZerosValue(k - 1, s);
      assert z[..|z| - 1] == Zeros(k - 1) + s;
    }
  }

  /** A zero-padded non-negative number has at least `width` digits, exactly
      `width` when it fits, and reads back as the number. */
  lemma ZeroPadDigits(n: nat, width: nat)
    ensures AllDigits(ZeroPad(n, width))
    ensures |ZeroPad(n, width)| >= width
    ensures |NatToString(n)| <= width ==> |ZeroPad(n, width)| == width
    ensures DigitsValue(ZeroPad(n, width)) == n
  {
    var s := NatToString(n);
    NatToStringRoundTrip(n);
    if |s| < width {
      LeadingZerosValue(width - |s|, s);
    }
  }

  /** A number below `10^k` has at most `k` digits. */
  lemma NatToStringLength(n: nat, k: nat)
    requires 1 <= k && n < Pow10(k)
    ensures |NatToString(n)| <= k
    decreases k
  {
    if n >= 10 {
      NatToStringLength(n / 10, k - 1);
    }
  }

  function Pow10(k: nat): (r: nat)
    ensures r >= 1
  {
    if k == 0 then 1 else 10 * Pow10(k - 1)
  }

  /** The digits and single underscores between digits that Python's `int()`
      accepts after the sign. */
  predicate ValidDigitGroup(s: string) {
    && s != []
    && IsDigit(s[0]) && IsDigit(s[|s| - 1])
    && DigitsOrUnderscores(s)
    && NoDoubleUnderscore(s)
  }

  predicate DigitsOrUnderscores(s: string) {
    s == [] || ((IsDigit(s[0]) || s[0] == '_') && DigitsOrUnderscores(s[1..]))
  }

  /** No underscore is directly followed by another. */
  predicate NoDoubleUnderscore(s: string) {
    |s| < 2 || (!(s[0] == '_' && s[1] == '_') && NoDoubleUnderscore(s[1..]))
  }

  /** The number a digit group denotes: its digits read in order, the
      underscores skipped. */
  function GroupValue(s: string): nat {
    if s == [] then 0
    else if IsDigit(s[|s| - 1]) then 10 * GroupValue(s[..|s| - 1]) + DigitValue(s[|s| - 1])
    else GroupValue(s[..|s| - 1])
  }

  /** A group without underscores is an ordinary numeral, valid when it is
      not empty, and worth its digits' value. */
  lemma {:induction false} PlainDigitGroup(s: string)
    requires AllDigits(s)
    ensures DigitsOrUnderscores(s) && NoDoubleUnderscore(s)
    ensures GroupValue(s) == DigitsValue(s)
  {
    if s != [] {
      PlainDigitGroup(s[1..]);
      PlainDigitGroup(s[..|s| - 1]);
    }
  }

  /** Python's `int(text)` on a string, with ASCII digits: surrounding
      whitespace is ignored, one optional sign, then digits that may be
      grouped by single underscores. `None` stands for the `ValueError`. */
  function ParseInt(text: string): (r: Option<int>)
    ensures r.Some? ==> Strip(text) != []
  {
    var t := Strip(text);
    if t == [] then None
    else
      var negative := t[0] == '-';
      var body := if t[0] == '-' || t[0] == '+' then t[1..] else t;
      if !ValidDigitGroup(body) then None
      else
        var v: int := GroupValue(body);
        Some(if negative then -v else v)
  }

  /** `int(str(n)) == n`. */
  lemma ParseIntRoundTrip(n: int)
    ensures ParseInt(IntToString(n)) == Some(n)
  {
    var s := IntToString(n);
    StripUnchanged(s);
    var m := if n >= 0 then n else -n;
    var digits := NatToString(m);
    NatToStringRoundTrip(m);
    PlainDigitGroup(digits);
    if n < 0 {
      assert s[1..] == digits;
    }
  }
}
