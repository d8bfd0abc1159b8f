/**
 * MathUtils: the leaf predicates of the pipeline (operator classification,
 * precedence, numeral recognition, the decimal-point test) and the
 * formatting of a result.
 */
module MathUtils {
  import opened Errors
  import opened JavaLang

  /** isOperator(char). */
  predicate IsOperatorChar(c: char) {
    c == '+' || c == '-' || c == '*' || c == '/'
  }

  /** isOperator(String): exactly the one-character strings the char overload accepts. */
  predicate IsOperator(s: string)
    ensures IsOperator(s) <==> |s| == 1 && IsOperatorChar(s[0])
  {
    s == "+" || s == "-" || s == "*" || s == "/"
  }

  /** The binding strength of an operator: positive exactly for operators,
      and higher for `*` and `/` than for `+` and `-`. */
  function Precedence(op: string): (p: int)
    ensures p > 0 <==> IsOperator(op)
    ensures 0 <= p <= 2
    ensures p == 2 <==> op == "*" || op == "/"
  {
    if op == "+" || op == "-" then 1
    else if op == "*" || op == "/" then 2
    else 0
  }

  /** isNumber: the token is non-empty and Double.parseDouble accepts it
      (a null token is not modelled). */
  predicate IsNumber(token: string)
    ensures IsNumber(token) <==> ParseDouble(token).Ok?
  {
    token != "" && IsDecimalLiteral(token)
  }

  /** isDecimalPoint: both neighbours of `index` exist and are digits. */
  predicate IsDecimalPoint(text: string, index: int)
    ensures IsDecimalPoint(text, index) ==> 0 < index < |text| - 1
  {
    0 < index < |text| - 1 && IsDigit(text[index - 1]) && IsDigit(text[index + 1])
  }

  /** The characters the tokenizers put into number tokens. */
  predicate IsNumeralChar(c: char) {
    IsDigit(c) || c == '.'
  }

  /** A token from a tokenizer's number buffer: a `-` may come only first,
      everything else is a digit or a `.`. */
  predicate IsNumberShaped(token: string) {
    |token| > 0 && (token[0] == '-' || IsNumeralChar(token[0]))
    && forall k | 1 <= k < |token| :: IsNumeralChar(token[k])
  }

  function DotCount(s: string): nat {
    multiset(s)['.']
  }

  predicate HasDigit(s: string) {
    exists k | 0 <= k < |s| :: IsDigit(s[k])
  }

  /** The value is a whole number that (long) value maps back to itself:
      the double comparison `value == (long) value` of formatDouble. A whole
      value of exactly 2^63 passes because the saturated cast converts back
      to 2^63. */
  predicate LongRoundTrips(value: real) {
    value.Floor as real == value && -0x8000_0000_0000_0000 <= value.Floor <= 0x8000_0000_0000_0000
  }

  /** formatDouble: a whole value without `.0`, anything else as Double.toString
      renders it. The first two clauses hold of the plain-decimal
      approximation of Double.toString; the third is what Java does. */
  function FormatDouble(value: real): (r: string)
    ensures |r| > 0 && (r[0] == '-' || IsDigit(r[0]))
    ensures forall k | 0 <= k < |r| :: r[k] == '-' || IsNumeralChar(r[k])
    ensures LongRoundTrips(value) && value < 0x8000_0000_0000_0000 as real ==>
              IsDecimalLiteral(r) && DecimalValue(r) == value
  {
    if LongRoundTrips(value) then
      var n := if value.Floor == 0x8000_0000_0000_0000 then 0x7FFF_FFFF_FFFF_FFFF else value.Floor;
      IntToStringRoundTrip(n);
      IntToString(n)
    else DoubleToString(value)
  }

  /** isDecimalPoint never looks at the character it is asked about. */
  lemma DecimalPointIgnoresItself(text: string, index: nat, c: char)
    requires index < |text|
    ensures IsDecimalPoint(text[index := c], index) == IsDecimalPoint(text, index)
  {
  }

  /** On the strings a tokenizer's number buffer can hold, isNumber holds
      exactly when there is at most one `.` and at least one digit: `5.` and
      `.5` pass, `-`, `.`, `-.` and `1.2.3` fail. */
  lemma NumberOnNumberShaped(token: string)
    requires IsNumberShaped(token)
    ensures IsNumber(token) <==> DotCount(token) <= 1 && HasDigit(token)
  {
    if IsNumber(token) {
      NumberHasOneDotAndDigit(token);
    } else if DotCount(token) <= 1 && HasDigit(token) {
      OneDotAndDigitIsNumber(token);
    }
  }

  lemma NumberHasOneDotAndDigit(token: string)
    requires IsNumberShaped(token) && IsNumber(token)
    ensures DotCount(token) <= 1 && HasDigit(token)
  {
    var j := SignLength(token);
    var k := SkipDigits(token, j);
    if k > j { assert IsDigit(token[j]); } else { assert IsDigit(token[k + 1]); }
    NumberDots(token, j, k);
  }

  /** A literal has no `.` before its integer digits end and at most one after. */
  lemma NumberDots(token: string, j: nat, k: nat)
    requires IsNumberShaped(token) && IsDecimalLiteral(token)
    requires j == SignLength(token) && k == SkipDigits(token, j)
    ensures DotCount(token) <= 1
  {
    IntegerPartDotFree(token, j, k);
    assert token == token[..k] + token[k..];
    if k < |token| {
      assert token[k] == '.' && SkipDigits(token, k + 1) == |token|;
      FractionDigits(token, k + 1);
      assert token[k..] == [token[k]] + token[k + 1..];
    } else {
      assert token[k..] == [];
    }
  }

  /** The sign and the integer digits hold no `.`. */
  lemma IntegerPartDotFree(token: string, j: nat, k: nat)
    requires j <= k <= |token| && (j == 0 || (j == 1 && token[0] != '.'))
    requires forall i | j <= i < k :: IsDigit(token[i])
    ensures DotCount(token[..k]) == 0
  {
    forall i | 0 <= i < k
      ensures token[..k][i] != '.'
    {
      if i >= j {
        assert IsDigit(token[i]);
      }
    }
    assert '.' !in token[..k];
  }

  /** Digits up to the end hold no `.`. */
  lemma FractionDigits(token: string, f: nat)
    requires f <= |token| && forall i | f <= i < |token| :: IsDigit(token[i])
    ensures DotCount(token[f..]) == 0
  {
    var t := token[f..];
    forall i | 0 <= i < |t| ensures t[i] != '.' {
      assert t[i] == token[f + i];
    }
    assert '.' !in t;
  }

  lemma OneDotAndDigitIsNumber(token: string)
    requires IsNumberShaped(token) && DotCount(token) <= 1 && HasDigit(token)
    ensures IsNumber(token)
  {
    var j := SignLength(token);
    var k := SkipDigits(token, j);
    var d :| 0 <= d < |token| && IsDigit(token[d]);
    assert d >= j;
    if k < |token| {
      assert token[k] == '.';
      FractionToEnd(token, k);
      assert d != k;
    }
  }

  /** After the only `.` of a numeral, digits run to the end. */
  lemma FractionToEnd(token: string, k: nat)
    requires k < |token| && token[k] == '.' && DotCount(token) <= 1
    requires forall i | k < i < |token| :: IsNumeralChar(token[i])
    ensures SkipDigits(token, k + 1) == |token|
  {
    var head, tail := token[..k + 1], token[k + 1..];
    assert token == head + tail;
    assert head[k] == '.';
    assert DotCount(tail) == 0;
    forall i | 0 <= i < |tail| ensures IsNumeralChar(tail[i]) {
      assert tail[i] == token[k + 1 + i];
    }
    NoDotAllDigits(tail);
    SkipDigitsToEnd(token, k + 1);
  }

  /** A single digit is a number. */
  lemma DigitIsNumber(t: string)
    requires |t| == 1 && IsDigit(t[0])
    ensures IsNumber(t) && IsNumberShaped(t)
  {
    assert SkipDigits(t, 1) == 1;
    assert SkipDigits(t, 0) == 1;
  }

  lemma DotCountDigits(s: string)
    requires AllDigits(s)
    ensures DotCount(s) == 0
  {
    assert forall i | 0 <= i < |s| :: s[i] != '.';
  }

  /** A string of numeral characters without a `.` is all digits. */
  lemma NoDotAllDigits(s: string)
    requires DotCount(s) == 0
    requires forall k | 0 <= k < |s| :: IsNumeralChar(s[k])
    ensures AllDigits(s)
  {
    forall k | 0 <= k < |s| ensures IsDigit(s[k]) {
      assert s[k] in multiset(s);
    }
  }
}
