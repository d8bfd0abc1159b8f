/**
 * ExpressionValidator: the cheap filters applied before evaluation. A
 * potential expression tokenizes into at least three tokens, some of them a
 * number and some an operator; a valid math expression consists only of the
 * characters of a given class.
 */
module ExpressionValidator {
  import opened Errors
  import opened JavaLang
  import opened MathUtils
  import opened ExpressionParser

  /** isPotentialExpression: false when tokenize throws or gives fewer than
      three tokens; otherwise whether some token is a number and some token
      an operator (the two anyMatch calls). */
  predicate IsPotentialExpression(expr: string) {
    match Tokens(expr)
    case Err(_) => false
    case Ok(tokens) =>
      |tokens| >= 3 && (exists t | t in tokens :: IsNumber(t)) && (exists t | t in tokens :: IsOperator(t))
  }

  /** The class of the pattern `[0-9+\-*\/.\s]+` the regex processor passes. */
  predicate IsMathChar(c: char) {
    IsDigit(c) || IsOperatorChar(c) || c == '.' || IsRegexSpace(c)
  }

  /** isValidMathExpression for a pattern `[class]+`: the whole string is one
      or more characters of the class (a null string is not modelled). */
  predicate IsValidMathExpression(inClass: char -> bool, expr: string) {
    |expr| > 0 && forall k | 0 <= k < |expr| :: inClass(expr[k])
  }

  /** A character outside the tokenizer's alphabet makes the text no
      potential expression, whatever else it holds. */
  lemma StrayCharacterRejects(expr: string, k: nat)
    requires k < |expr| && IsStray(expr[k])
    ensures !IsPotentialExpression(expr)
  {
    TokensFailOnStray(expr);
  }

  lemma ConcatHolds(ts: seq<string>, j: nat, i: nat)
    requires j < |ts| && i < |ts[j]|
    ensures ts[j][i] in Concat(ts)
    decreases |ts|
  {
    if j < |ts| - 1 {
      ConcatHolds(ts[..|ts| - 1], j, i);
    }
  }

  lemma {:induction false} WithoutWhitespaceFrom(s: string, c: char)
    requires c in WithoutWhitespace(s)
    ensures c in s
    decreases |s|
  {
    if s != [] && c != s[0] {
      WithoutWhitespaceFrom(s[1..], c);
    }
  }

  /** Every character of a token is a character of the input. */
  lemma TokenCharInInput(expr: string, j: nat, i: nat)
    requires Tokens(expr).Ok? && j < |Tokens(expr).value| && i < |Tokens(expr).value[j]|
    ensures Tokens(expr).value[j][i] in expr
  {
    var ts := Tokens(expr).value;
    TokensSpellInput(expr);
    ConcatHolds(ts, j, i);
    WithoutWhitespaceFrom(expr, ts[j][i]);
  }

  lemma PotentialHasDigit(expr: string)
    requires IsPotentialExpression(expr)
    ensures exists k | 0 <= k < |expr| :: IsDigit(expr[k])
  {
    var ts := Tokens(expr).value;
    TokenShapes(expr);
    var n :| n in ts && IsNumber(n);
    NumberOnNumberShaped(n);
    var d :| 0 <= d < |n| && IsDigit(n[d]);
    var j :| 0 <= j < |ts| && ts[j] == n;
    TokenCharInInput(expr, j, d);
  }

  lemma PotentialHasOperator(expr: string)
    requires IsPotentialExpression(expr)
    ensures exists k | 0 <= k < |expr| :: IsOperatorChar(expr[k])
  {
    var ts := Tokens(expr).value;
    var o :| o in ts && IsOperator(o);
    var j :| 0 <= j < |ts| && ts[j] == o;
    TokenCharInInput(expr, j, 0);
  }

  /** A potential expression contains a digit and an operator character, and
      no character outside the tokenizer's alphabet. */
  lemma PotentialHasDigitAndOperator(expr: string)
    requires IsPotentialExpression(expr)
    ensures exists k | 0 <= k < |expr| :: IsDigit(expr[k])
    ensures exists k | 0 <= k < |expr| :: IsOperatorChar(expr[k])
    ensures forall k | 0 <= k < |expr| :: !IsStray(expr[k])
  {
    TokensFailOnStray(expr);
    PotentialHasDigit(expr);
    PotentialHasOperator(expr);
  }

  /** Only the characters of the regex class: tokenize cannot fail, and
      neither parentheses nor letters survive. */
  lemma ValidMathTokenizes(expr: string)
    requires IsValidMathExpression(IsMathChar, expr)
    ensures Tokens(expr).Ok?
    ensures forall k | 0 <= k < |expr| :: expr[k] != '(' && expr[k] != ')'
  {
    TokensFailOnStray(expr);
  }

  // ---------------------------------------------------------------------
  // Examples

  /** `-5` is one signed number token: too short. */
  lemma SignedNumberRejected(e: string)
    requires e == "-5"
    ensures Tokens(e).Ok? && Tokens(e).value == ["-5"]
    ensures !IsPotentialExpression(e)
  {
    RunTrace(e, [Start, ScanState([], "-", false), ScanState([], "-5", false)]);
  }

  /** `(5)` has three tokens but no operator. */
  lemma ParenthesisedNumberRejected(e: string)
    requires e == "(5)"
    ensures Tokens(e).Ok? && Tokens(e).value == ["(", "5", ")"]
    ensures !IsPotentialExpression(e)
  {
    var a := [Symbol('(')];
    RunTrace(e, [Start, ScanState(a, "", true), ScanState(a, "5", false),
      ScanState(a + [Number("5"), Symbol(')')], "", false)]);
  }

  /** `test + words` does not tokenize. */
  lemma WordsRejected(e: string)
    requires e == "test + words"
    ensures !IsPotentialExpression(e)
  {
    StrayCharacterRejects(e, 0);
  }

  /** `2 + 2` tokenizes into a number, an operator and a number. */
  lemma SumTokens(e: string)
    requires e == "2 + 2"
    ensures Tokens(e).Ok? && Tokens(e).value == ["2", "+", "2"]
  {
    var a := [Number("2"), Symbol('+')];
    RunTrace(e, [Start, ScanState([], "2", false), ScanState([], "2", false),
      ScanState(a, "", true), ScanState(a, "", true), ScanState(a, "2", false)]);
  }

  /** `2 + 2` is a potential expression. */
  lemma SumAccepted(e: string)
    requires e == "2 + 2"
    ensures IsPotentialExpression(e)
  {
    SumTokens(e);
    var ts := Tokens(e).value;
    DigitIsNumber("2");
    assert ts[0] == "2" && ts[1] == "+";
    assert IsNumber(ts[0]) && IsOperator(ts[1]);
  }
}
