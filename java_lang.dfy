/**
 * The parts of the Java platform that the expression code calls, restricted
 * to ASCII: Character.isDigit, Character.isWhitespace, the `\s` class of
 * java.util.regex, Double.parseDouble on plain decimal literals (with the
 * exact value of the literal instead of its nearest double),
 * String.valueOf(long), and an approximation of Double.toString.
 */
module JavaLang {
  import opened Errors

  /** Character.isDigit on ASCII. */
  predicate IsDigit(c: char) {
    '0' <= c <= '9'
  }

  /** Character.isWhitespace on ASCII: space, the controls \t \n \u000B \f \r,
      and the four separators \u001C to \u001F. */
  predicate IsWhitespace(c: char) {
    c == ' ' || 9 <= c as int <= 13 || 28 <= c as int <= 31
  }

  /** The `\s` class of java.util.regex without UNICODE_CHARACTER_CLASS: [ \t\n\x0B\f\r]. */
  predicate IsRegexSpace(c: char)
    ensures IsRegexSpace(c) ==> IsWhitespace(c)
  {
    c == ' ' || 9 <= c as int <= 13
  }

  function DigitChar(d: nat): (c: char)
    requires d < 10
    ensures IsDigit(c) && c as int - '0' as int == d
  {
    ('0' as int + d) as char
  }

  function DigitValue(c: char): (d: nat)
    requires IsDigit(c)
    ensures d < 10 && DigitChar(d) == c
  {
    c as int - '0' as int
  }

  predicate AllDigits(s: string) {
    forall k | 0 <= k < |s| :: IsDigit(s[k])
  }

  /** The number a string of decimal digits denotes. */
  function DigitsValue(ds: string): nat
    requires AllDigits(ds)
    decreases |ds|
  {
    if ds == [] then 0 else DigitsValue(ds[..|ds| - 1]) * 10 + DigitValue(ds[|ds| - 1])
  }

  function Pow10(n: nat): (p: nat)
    ensures p >= 1
  {
    if n == 0 then 1 else 10 * Pow10(n - 1)
  }

  /** The index of the first non-digit at or after `i`. */
  function SkipDigits(s: string, i: nat): (j: nat)
    requires i <= |s|
    ensures i <= j <= |s|
    ensures forall k | i <= k < j :: IsDigit(s[k])
    ensures j == |s| || !IsDigit(s[j])
    decreases |s| - i
  {
    if i < |s| && IsDigit(s[i]) then SkipDigits(s, i + 1) else i
  }

  function SignLength(s: string): (n: nat)
    ensures n <= 1 && n <= |s|
    ensures n == 1 <==> |s| > 0 && (s[0] == '+' || s[0] == '-')
  {
    if |s| > 0 && (s[0] == '+' || s[0] == '-') then 1 else 0
  }

  /** The end of the fraction digits when a `.` follows the integer digits ending at `k`. */
  function FractionEnd(s: string, k: nat): (m: nat)
    requires k <= |s|
    ensures k <= m <= |s|
  {
    if k < |s| && s[k] == '.' then SkipDigits(s, k + 1) else k
  }

  /** The plain decimal form Double.parseDouble accepts: an optional sign,
      digits, an optional `.` followed by digits, and at least one digit in all.
      So `5.` and `.5` are literals while `.`, `-` and `1.2.3` are not. */
  predicate IsDecimalLiteral(s: string) {
    var j := SignLength(s);
    var k := SkipDigits(s, j);
    var m := FractionEnd(s, k);
    m == |s| && (k > j || m > k + 1)
  }

  /** The exact value of a decimal literal. */
  function DecimalValue(s: string): real
    requires IsDecimalLiteral(s)
  {
    var j := SignLength(s);
    var k := SkipDigits(s, j);
    var whole := DigitsValue(s[j..k]) as real;
    var frac := if k < |s| then DigitsValue(s[k + 1..]) as real / Pow10(|s| - k - 1) as real else 0.0;
    if j == 1 && s[0] == '-' then -(whole + frac) else whole + frac
  }

  /** Double.parseDouble restricted to plain decimal literals. */
  function ParseDouble(s: string): (r: Result<real>)
    ensures r.Ok? <==> IsDecimalLiteral(s)
    ensures r.Err? ==> r.error == NumberFormat(s)
  {
    if IsDecimalLiteral(s) then Ok(DecimalValue(s)) else Err(NumberFormat(s))
  }

  /** The decimal digits of a natural number, most significant first. */
  function NatToString(n: nat): (s: string)
    ensures |s| > 0 && AllDigits(s)
    decreases n
  {
    if n < 10 then [DigitChar(n)] else NatToString(n / 10) + [DigitChar(n % 10)]
  }

  /** String.valueOf(long), without the 64-bit bound. */
  function IntToString(i: int): (s: string)
    ensures |s| > 0 && (s[0] == '-' || IsDigit(s[0])) && AllDigits(s[1..])
  {
    if i < 0 then "-" + NatToString(-i) else NatToString(i)
  }

  /** Up to `n` decimal digits of a fraction in [0, 1), stopping early when
      nothing is left. */
  function FractionDigits(f: real, n: nat): (s: string)
    requires 0.0 <= f < 1.0
    ensures AllDigits(s)
    decreases n
  {
    if n == 0 || f == 0.0 then ""
    else
      var d := (f * 10.0).Floor;
      [DigitChar(d)] + FractionDigits(f * 10.0 - d as real, n - 1)
  }

  /** An approximation of Double.toString: sign, integer digits, `.`, and at
      least one and at most sixteen fraction digits (truncated). The E
      notation Double.toString uses below 10^-3 and from 10^7 on is not
      modelled, so this rendering never holds an `E`. */
  function DoubleToString(v: real): (s: string)
    ensures |s| > 0 && (s[0] == '-' || IsDigit(s[0]))
    ensures forall k | 0 <= k < |s| :: s[k] == '-' || s[k] == '.' || IsDigit(s[k])
  {
    var mag := if v < 0.0 then -v else v;
    var whole := mag.Floor;
    var digits := FractionDigits(mag - whole as real, 16);
    (if v < 0.0 then "-" else "") + NatToString(whole) + "." + (if digits == "" then "0" else digits)
  }

  /** The digits String.valueOf(long) writes read back as the same number. */
  lemma {:induction false} NatToStringValue(n: nat)
    ensures DigitsValue(NatToString(n)) == n
    decreases n
  {
    if n >= 10 {
      NatToStringValue(n / 10);
      var s := NatToString(n);
      assert s[..|s| - 1] == NatToString(n / 10);
    }
  }

  /** Double.parseDouble(String.valueOf(i)) == i. */
  lemma IntToStringRoundTrip(i: int)
    ensures IsDecimalLiteral(IntToString(i))
    ensures DecimalValue(IntToString(i)) == i as real
  {
    var s := IntToString(i);
    var j := SignLength(s);
    var n: nat := if i < 0 then -i else i;
    NatToStringValue(n);
    assert s[j..] == NatToString(n);
    SkipDigitsToEnd(s, j);
    assert s[j..|s|] == s[j..];
  }

  /** A single digit parses to its value. */
  lemma DigitParses(s: string)
    requires |s| == 1 && IsDigit(s[0])
    ensures ParseDouble(s).Ok? && ParseDouble(s).value == DigitValue(s[0]) as real
  {
    assert SkipDigits(s, 1) == 1;
    assert SkipDigits(s, 0) == 1;
    assert s[0..1] == s && s[..0] == [];
    assert DigitsValue(s) == DigitValue(s[0]);
  }

  lemma {:induction false} SkipDigitsToEnd(s: string, i: nat)
    requires i <= |s| && AllDigits(s[i..])
    ensures SkipDigits(s, i) == |s|
    decreases |s| - i
  {
    if i < |s| {
      assert s[i] == s[i..][0];
      assert s[i + 1..] == s[i..][1..];
      SkipDigitsToEnd(s, i + 1);
    }
  }
}
