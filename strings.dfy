/** The JavaScript string built-ins the schedule code uses: `String(n)` on an
    integer, `padStart(2, '0')`, and the `\s` class of regular expressions. */
module Strings {

  predicate IsDigit(ch: char) {
    '0' <= ch <= '9'
  }

  predicate AllDigits(s: string) {
    forall k :: 0 <= k < |s| ==> IsDigit(s[k])
  }

  function DigitChar(d: int): (ch: char)
    requires 0 <= d < 10
    ensures IsDigit(ch)
  {
    "0123456789"[d]
  }

  /** `String(n)` for a non-negative integer: its decimal digits, without
      leading zeros. */
  function NatToDecimal(n: nat): (s: string)
    ensures |s| >= 1 && AllDigits(s)
    ensures s[0] == '0' ==> n == 0
    ensures n < 10 <==> |s| == 1
    decreases n
  {
    if n < 10 then [DigitChar(n)] else NatToDecimal(n / 10) + [DigitChar(n % 10)]
  }

  /** The value of a string of decimal digits, read most significant first. */
  function DecimalValue(s: string): (v: nat)
    requires AllDigits(s)
  {
    if s == [] then 0 else 10 * DecimalValue(s[..|s| - 1]) + (s[|s| - 1] - '0') as int
  }

  /** Reading back the digits of `String(n)` gives `n`. */
  lemma {:induction false} DecimalRoundTrip(n: nat)
    ensures DecimalValue(NatToDecimal(n)) == n
    decreases n
  {
    var s := NatToDecimal(n);
    if n >= 10 {
      DecimalRoundTrip(n / 10);
      assert s[..|s| - 1] == NatToDecimal(n / 10);
    }
  }

  /** `String(i)` for any integer: a leading '-' for negative values. */
  function IntToString(i: int): (s: string)
    ensures |s| >= 1 && AllDigits(s[1..])
    ensures s[0] == '-' <==> i < 0
    ensures i >= 0 ==> IsDigit(s[0])
  {
    if i < 0 then "-" + NatToDecimal(-i) else NatToDecimal(i)
  }

  /** `String(i)` reads back as `i`: its digits, after a '-' when `i` is
      negative, are the decimal digits of `|i|`. */
  lemma IntToStringReadsBack(i: int)
    ensures var s := IntToString(i);
            && |s| >= 1
            && (i >= 0 ==> AllDigits(s) && DecimalValue(s) == i)
            && (i < 0 ==> s[0] == '-' && AllDigits(s[1..]) && DecimalValue(s[1..]) == -i)
  {
    var s := IntToString(i);
    if i < 0 {
      var digits := NatToDecimal(-i);
      DecimalRoundTrip(-i);
      assert s[1..] == digits;
    } else {
      DecimalRoundTrip(i);
      assert s == NatToDecimal(i);
    }
  }

  /** Different integers are written differently. */
  lemma IntToStringInjective(a: int, b: int)
    requires IntToString(a) == IntToString(b)
    ensures a == b
  {
    IntToStringReadsBack(a);
    IntToStringReadsBack(b);
  }

  /** Two strings that both start with an integer written by `String` and a
      '-' split the same way: the first '-' after the sign ends the number. */
  lemma SignedPrefixUnique(a: int, b: int, x: string, y: string)
    requires IntToString(a) + "-" + x == IntToString(b) + "-" + y
    ensures a == b && x == y
  {
    var sa, sb := IntToString(a), IntToString(b);
    var k := if |sa| <= |sb| then |sa| else |sb|;
    DashEndsNumber(a, x, k);
    DashEndsNumber(b, y, k);
    assert sa == (sa + "-" + x)[..k] == sb;
    IntToStringInjective(a, b);
    assert x == (sa + "-" + x)[k + 1..] == y;
  }

  /** Past its sign, the first '-' after `String(i)` is the one that follows
      it. */
  lemma DashEndsNumber(i: int, x: string, k: nat)
    requires 1 <= k <= |IntToString(i)|
    ensures (IntToString(i) + "-" + x)[k] == '-' <==> k == |IntToString(i)|
  {
    var s := IntToString(i);
    if k < |s| {
      assert s[1..][k - 1] == s[k];
    }
  }

  function Zeros(n: nat): (s: string)
    ensures |s| == n && forall k :: 0 <= k < n ==> s[k] == '0'
  {
    if n == 0 then [] else "0" + Zeros(n - 1)
  }

  /** `s.padStart(width, '0')`: zeros in front up to `width` characters; a
      string already that long is returned as it is. */
  function PadStartZeros(s: string, width: nat): (r: string)
    ensures |r| == if |s| >= width then |s| else width
    ensures r[|r| - |s|..] == s
    ensures forall k :: 0 <= k < |r| - |s| ==> r[k] == '0'
  {
    if |s| >= width then s else Zeros(width - |s|) + s
  }

  /** A leading '0' adds nothing to a decimal value. */
  lemma {:induction false} DecimalLeadingZero(s: string)
    requires AllDigits(s)
    ensures AllDigits("0" + s) && DecimalValue("0" + s) == DecimalValue(s)
    decreases |s|
  {
    if s != [] {
      var t := "0" + s;
      assert t[..|t| - 1] == "0" + s[..|s| - 1];
      DecimalLeadingZero(s[..|s| - 1]);
    }
  }

  /** A number from 0 to 99 padded to two places is two digits that read back
      as the number: how `DD` and `MM` are written. */
  lemma TwoDigits(n: nat)
    requires n < 100
    ensures var r := PadStartZeros(NatToDecimal(n), 2);
            |r| == 2 && AllDigits(r) && DecimalValue(r) == n
  {
    var s := NatToDecimal(n);
    DecimalRoundTrip(n);
    if n < 10 {
      DecimalLeadingZero(s);
      assert PadStartZeros(s, 2) == "0" + s;
    } else {
      assert NatToDecimal(n / 10) == [DigitChar(n / 10)];
    }
  }

  /** The characters `\s` matches in a JavaScript regular expression. */
  predicate IsJsWhitespace(ch: char) {
    ch == ' ' || ch == '\t' || ch == '\n' || ch == '\U{000B}' || ch == '\U{000C}' || ch == '\r'
    || ch == '\U{00A0}' || ch == '\U{1680}' || ('\U{2000}' <= ch <= '\U{200A}')
    || ch == '\U{2028}' || ch == '\U{2029}' || ch == '\U{202F}' || ch == '\U{205F}'
    || ch == '\U{3000}' || ch == '\U{FEFF}'
  }

  /** The `_` that replaces a whitespace run, and every digit, are not
      whitespace themselves, while a space and a no-break space are. */
  lemma WhitespaceClass()
    ensures !IsJsWhitespace('_') && IsJsWhitespace(' ') && IsJsWhitespace('\U{00A0}')
    ensures forall ch :: IsDigit(ch) ==> !IsJsWhitespace(ch)
  {
  }
}
