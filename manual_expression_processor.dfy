/**
 * ManualExpressionProcessor: the processor written without regular
 * expressions. It has its own copies of the tokenizer, the converter and the
 * evaluator (the first two read exactly like ExpressionParser.tokenize and
 * ExpressionConverter.infixToPostfix and are shared with them here; the
 * evaluator differs in its number test and its messages), a walker that
 * rewrites parenthesised groups innermost first inside a StringBuilder, and
 * a scanner for expressions written without parentheses.
 */
module ManualExpressionProcessor {
  import opened Errors
  import opened JavaLang
  import MathUtils
  import ExpressionParser
  import opened ExpressionConverter
  import opened ExpressionEvaluator
  import ExpressionValidator
  import ExpressionTree

  // ---------------------------------------------------------------------
  // isNumber

  /** The sign the number test skips. */
  function SignEnd(token: string): (n: nat)
    ensures n <= 1
  {
    if |token| > 0 && (token[0] == '+' || token[0] == '-') then 1 else 0
  }

  /** isNumber: a non-empty token that is more than its sign, whose other
      characters are digits and `.`, with at most one `.`. */
  predicate NumberSyntax(token: string) {
    && |token| > SignEnd(token)
    && (forall k | SignEnd(token) <= k < |token| :: MathUtils.IsNumeralChar(token[k]))
    && MathUtils.DotCount(token) <= 1
  }

  lemma DotCountPrefix(s: string, i: nat)
    requires i < |s|
    ensures MathUtils.DotCount(s[..i + 1]) == MathUtils.DotCount(s[..i]) + (if s[i] == '.' then 1 else 0)
    ensures MathUtils.DotCount(s[..i + 1]) <= MathUtils.DotCount(s)
  {
    assert s[..i + 1] == s[..i] + [s[i]];
    assert s == s[..i + 1] + s[i + 1..];
  }

  /** isNumber, as the source writes it. */
  method IsNumber(token: string) returns (b: bool)
    ensures b == NumberSyntax(token)
  {
    if token == "" {
      return false;
    }
    var len := |token|;
    var i := 0;
    var hasDecimal := false;
    if token[0] == '+' || token[0] == '-' {
      if len == 1 {
        return false;
      }
      i := 1;
    }
    assert MathUtils.DotCount(token[..i]) == 0 by {
      assert i == 1 ==> token[..i] == [token[0]];
    }
    while i < len
      invariant SignEnd(token) <= i <= len
      invariant forall k | SignEnd(token) <= k < i :: MathUtils.IsNumeralChar(token[k])
      invariant MathUtils.DotCount(token[..i]) == if hasDecimal then 1 else 0
    {
      var c := token[i];
      DotCountPrefix(token, i);
      if c == '.' {
        if hasDecimal {
          return false;
        }
        hasDecimal := true;
      } else if !IsDigit(c) {
        return false;
      }
      i := i + 1;
    }
    assert token[..i] == token;
    return true;
  }

  /** On the tokens the tokenizer builds, the manual test accepts exactly
      what the core test accepts plus the digitless `.` and `-.`. */
  lemma NumberSyntaxOnTokens(t: string)
    requires MathUtils.IsNumberShaped(t)
    ensures NumberSyntax(t) <==> MathUtils.DotCount(t) <= 1 && t != "-"
    ensures MathUtils.IsNumber(t) <==> NumberSyntax(t) && MathUtils.HasDigit(t)
  {
    MathUtils.NumberOnNumberShaped(t);
    if t[0] == '-' && t != "-" {
      assert |t| > 1;
    }
    if MathUtils.HasDigit(t) {
      var d :| 0 <= d < |t| && IsDigit(t[d]);
      assert t != "-";
    }
  }

  // ---------------------------------------------------------------------
  // The evaluator and evalSafe

  /** evaluatePostfix of this class: its own number test; the switch's
      default names the operator, a token that is neither is an "Invalid
      postfix token", and a leftover stack is "Invalid expression: leftover
      values". A number token Double.parseDouble rejects (`.`) throws its
      NumberFormatException. */
  const Manual := Dialect(NumberSyntax, MathUtils.IsOperator,
    t => UnknownOperatorNamed(t), t => InvalidPostfixToken(t), LeftoverValues)

  /** tokenize, infixToPostfix with this class's number test, and
      evaluatePostfix, in turn. */
  function Evaluate(expr: string): Result<real> {
    var tokens :- ExpressionParser.Tokens(expr);
    var postfix :- PostfixWith(NumberSyntax, tokens);
    PostfixValueWith(Manual, postfix)
  }

  /** formatDouble of this class: `value == (int) value` compares with the
      saturating 32-bit cast, so only whole values in the int range lose
      their `.0`. */
  predicate IntRoundTrips(value: real) {
    value.Floor as real == value && -0x8000_0000 <= value.Floor <= 0x7FFF_FFFF
  }

  function FormatDoubleInt(value: real): (r: string)
    ensures |r| > 0 && (r[0] == '-' || IsDigit(r[0]))
    ensures IntRoundTrips(value) ==> IsDecimalLiteral(r) && DecimalValue(r) == value
  {
    if IntRoundTrips(value) then
      IntToStringRoundTrip(value.Floor);
      IntToString(value.Floor)
    else DoubleToString(value)
  }

  /** evalSafe: the formatted value, or the message of the exception as an
      error marker; every failure of the pipeline is caught (the
      NumberFormatException of a `.` token is an IllegalArgumentException). */
  function EvalSafe(expr: string): (r: string)
    ensures |r| > 0
    ensures Evaluate(expr).Err? <==> r[0] == '['
    ensures Evaluate(expr).Err? ==> r == ErrorMarker(Evaluate(expr).error)
    ensures Evaluate(expr).Ok? ==> r == FormatDoubleInt(Evaluate(expr).value)
  {
    match Evaluate(expr)
    case Err(e) => ErrorMarker(e)
    case Ok(v) => FormatDoubleInt(v)
  }

  /** A lone `.` passes this class's number test and then fails to parse,
      where the core evaluator rejects it as an unknown operator. */
  lemma DotToken(ts: seq<string>)
    requires ts == ["."]
    ensures PostfixValueWith(Manual, ts).Err? && PostfixValueWith(Manual, ts).error == NumberFormat(".")
    ensures PostfixValue(ts).Err? && PostfixValue(ts).error == UnknownOperator
  {
    assert NumberSyntax(".") by {
      assert MathUtils.DotCount(".") == 1;
    }
    assert !IsDecimalLiteral(".") by {
      assert SkipDigits(".", 0) == 0;
      assert SkipDigits(".", 1) == 1;
    }
    assert ts[1..] == [];
  }

  // ---------------------------------------------------------------------
  // isPotentialExpression

  /** isPotentialExpression of this class: tokenize succeeds with at least
      three tokens; unlike the validator's, no number or operator is asked for. */
  predicate IsPotentialExpression(expr: string) {
    ExpressionParser.Tokens(expr).Ok? && |ExpressionParser.Tokens(expr).value| >= 3
  }

  /** The validator's test is stricter: what it accepts, this one accepts,
      and `(5)` shows the converse fails. */
  lemma ValidatorIsStricter(expr: string, paren: string)
    requires paren == "(5)"
    ensures ExpressionValidator.IsPotentialExpression(expr) ==> IsPotentialExpression(expr)
    ensures IsPotentialExpression(paren) && !ExpressionValidator.IsPotentialExpression(paren)
  {
    ExpressionValidator.ParenthesisedNumberRejected(paren);
  }

  // ---------------------------------------------------------------------
  // process: the parenthesis walker

  function UnmatchedMarker(i: nat): string {
    "[ERROR: Unmatched closing bracket at position " + NatToString(i) + "]"
  }

  function UnclosedMarker(p: nat): string {
    "[ERROR: Unclosed bracket at position " + NatToString(p) + "]"
  }

  /** Positions of `(` in `sb`, strictly increasing: the open-bracket deque
      with its top last. */
  predicate Opens(sb: string, open: seq<nat>) {
    && (forall a, b | 0 <= a < b < |open| :: open[a] < open[b])
    && (forall a | 0 <= a < |open| :: open[a] < |sb| && sb[open[a]] == '(')
  }

  /** The state of the walk: the buffer, the open-bracket positions and the cursor. */
  datatype Walk = Walk(sb: string, open: seq<nat>, i: nat)

  /** The loop invariant: the cursor lies within the buffer and every open
      position lies before it. */
  predicate Valid(w: Walk) {
    w.i <= |w.sb| && Opens(w.sb, w.open) && forall a | 0 <= a < |w.open| :: w.open[a] < w.i
  }

  /** `)` without an open bracket: the unmatched marker is inserted before
      it and the cursor passes both. */
  function Unmatched(w: Walk): (next: Walk)
    requires Valid(w) && w.i < |w.sb| && w.open == []
    ensures Valid(next)
    ensures |next.sb| == |w.sb| + |UnmatchedMarker(w.i)| && next.i == w.i + |UnmatchedMarker(w.i)| + 1
    ensures next.sb[..w.i] == w.sb[..w.i] && next.sb[w.i..next.i] == UnmatchedMarker(w.i) + [w.sb[w.i]]
    ensures next.sb[next.i..] == w.sb[w.i + 1..]
  {
    Insert(w, UnmatchedMarker(w.i))
  }

  /** `m` inserted before the character at the cursor, which the cursor then passes. */
  function Insert(w: Walk, m: string): (next: Walk)
    requires Valid(w) && w.i < |w.sb| && w.open == []
    ensures Valid(next)
    ensures |next.sb| == |w.sb| + |m| && next.i == w.i + |m| + 1
    ensures next.sb[..w.i] == w.sb[..w.i] && next.sb[w.i..next.i] == m + [w.sb[w.i]]
    ensures next.sb[next.i..] == w.sb[w.i + 1..]
  {
    var sb := w.sb[..w.i] + m + w.sb[w.i..];
    assert sb[w.i..w.i + |m| + 1] == m + [w.sb[w.i]];
    assert sb[w.i + |m| + 1..] == w.sb[w.i + 1..];
    Walk(sb, [], w.i + |m| + 1)
  }

  /** The group from the `(` on top to the `)` at the cursor, brackets
      included, replaced by `rep`; the cursor resumes after `rep`. */
  function Splice(w: Walk, rep: string): (next: Walk)
    requires Valid(w) && w.i < |w.sb| && w.open != []
    ensures Valid(next)
    ensures |next.sb| - next.i == |w.sb| - w.i - 1
    ensures var start := w.open[|w.open| - 1];
            && next.i == start + |rep| && next.sb[..start] == w.sb[..start]
            && next.sb[start..next.i] == rep
            && next.sb[next.i..] == w.sb[w.i + 1..]
  {
    var start := w.open[|w.open| - 1];
    var sb := w.sb[..start] + rep + w.sb[w.i + 1..];
    var open := w.open[..|w.open| - 1];
    assert forall a | 0 <= a < |open| :: open[a] < start && sb[open[a]] == w.sb[open[a]];
    assert sb[start..start + |rep|] == rep && sb[start + |rep|..] == w.sb[w.i + 1..];
    Walk(sb, open, start + |rep|)
  }

  /** `)` with an open bracket on top: the group, brackets included, is
      replaced by the evaluation of its inside, the text before the `(` and
      after the `)` stays, and the cursor resumes after the replacement. */
  function Matched(w: Walk): (next: Walk)
    requires Valid(w) && w.i < |w.sb| && w.open != []
    ensures Valid(next)
    ensures |next.sb| - next.i == |w.sb| - w.i - 1
    ensures var start := w.open[|w.open| - 1];
            && start < next.i && next.sb[..start] == w.sb[..start]
            && next.sb[start..next.i] == EvalSafe(w.sb[start + 1..w.i])
            && next.sb[next.i..] == w.sb[w.i + 1..]
  {
    var start := w.open[|w.open| - 1];
    var rep := EvalSafe(w.sb[start + 1..w.i]);
    Splice(w, rep)
  }

  /** One iteration of the walk: `(` is remembered, `)` is unmatched or
      closes the group on top, anything else is passed. The distance from
      the cursor to the end of the buffer shrinks by one in every case. */
  function WalkStep(w: Walk): (next: Walk)
    requires Valid(w) && w.i < |w.sb|
    ensures Valid(next)
    ensures |next.sb| - next.i == |w.sb| - w.i - 1
  {
    var c := w.sb[w.i];
    if c == '(' then Walk(w.sb, w.open + [w.i], w.i + 1)
    else if c == ')' then
      if w.open == [] then Unmatched(w) else Matched(w)
    else Walk(w.sb, w.open, w.i + 1)
  }

  /** The walk from `w` to the end of the buffer. */
  function WalkFrom(w: Walk): (r: Walk)
    requires Valid(w)
    ensures Valid(r) && r.i == |r.sb|
    decreases |w.sb| - w.i
  {
    if w.i == |w.sb| then w else WalkFrom(WalkStep(w))
  }

  /** One iteration of the final loop: the highest open position gets the
      unclosed marker inserted before its `(`; the lower positions still
      hold their `(`. */
  function CloseStep(sb: string, open: seq<nat>): (r: string)
    requires Opens(sb, open) && open != []
    ensures var p := open[|open| - 1]; var m := UnclosedMarker(p);
            && |r| == |sb| + |m| && Opens(r, open[..|open| - 1])
            && r[..p] == sb[..p] && r[p..p + |m|] == m && r[p + |m|..] == sb[p..]
  {
    var p := open[|open| - 1];
    var m := UnclosedMarker(p);
    var r := sb[..p] + m + sb[p..];
    assert forall a | 0 <= a < |open| - 1 :: open[a] < p && r[open[a]] == sb[open[a]];
    assert r[p..p + |m|] == m && r[p + |m|..] == sb[p..];
    r
  }

  /** The final loop: every open position gets its marker, highest first. */
  function CloseAll(sb: string, open: seq<nat>): string
    requires Opens(sb, open)
    decreases |open|
  {
    if open == [] then sb else CloseAll(CloseStep(sb, open), open[..|open| - 1])
  }

  /** What process returns. */
  function Processed(input: string): string {
    var w := WalkFrom(Walk(input, [], 0));
    PlainFrom(CloseAll(w.sb, w.open), 0)
  }

  /** process, as the source writes it: the walk, the markers for the
      brackets left open, and the plain-expression pass. */
  method Process(input: string) returns (r: string)
    ensures r == Processed(input)
  {
    var sb, openStack := WalkBrackets(input);
    sb := MarkUnclosed(sb, openStack);
    r := ReplacePlainExpressions(sb);
  }

  /** The first loop of process. */
  method WalkBrackets(input: string) returns (sb: string, openStack: seq<nat>)
    ensures Walk(sb, openStack, |sb|) == WalkFrom(Walk(input, [], 0))
  {
    sb := input;
    openStack := [];
    var i: nat := 0;
    while i < |sb|
      invariant Valid(Walk(sb, openStack, i))
      invariant WalkFrom(Walk(sb, openStack, i)) == WalkFrom(Walk(input, [], 0))
      decreases |sb| - i
    {
      sb, openStack, i := WalkOnce(sb, openStack, i);
    }
  }

  /** The body of the first loop of process. */
  method WalkOnce(sb0: string, open: seq<nat>, i0: nat) returns (sb: string, openStack: seq<nat>, i: nat)
    requires Valid(Walk(sb0, open, i0)) && i0 < |sb0|
    ensures Walk(sb, openStack, i) == WalkStep(Walk(sb0, open, i0))
  {
    ghost var w := Walk(sb0, open, i0);
    sb, openStack, i := sb0, open, i0;
    var c := sb[i];
    if c == '(' {
      openStack := openStack + [i];
      i := i + 1;
    } else if c == ')' {
      if |openStack| == 0 {
        var marker := "[ERROR: Unmatched closing bracket at position " + NatToString(i) + "]";
        assert marker == UnmatchedMarker(i);
        sb := sb[..i] + marker + sb[i..];
        i := i + |marker| + 1;
        assert Walk(sb, openStack, i) == Unmatched(w);
      } else {
        var start := openStack[|openStack| - 1];
        openStack := openStack[..|openStack| - 1];
        var end := i;
        var inner := sb[start + 1..end];
        var replacement := EvalSafe(inner);
        sb := sb[..start] + replacement + sb[end + 1..];
        i := start + |replacement|;
        assert Walk(sb, openStack, i) == Matched(w);
      }
    } else {
      i := i + 1;
    }
  }

  /** The second loop of process. */
  method MarkUnclosed(sb0: string, open: seq<nat>) returns (sb: string)
    requires Opens(sb0, open)
    ensures sb == CloseAll(sb0, open)
  {
    sb := sb0;
    var openStack := open;
    while |openStack| > 0
      invariant Opens(sb, openStack)
      invariant CloseAll(sb, openStack) == CloseAll(sb0, open)
      decreases |openStack|
    {
      ghost var before := sb;
      ghost var stack := openStack;
      var pos := openStack[|openStack| - 1];
      openStack := openStack[..|openStack| - 1];
      var err := "[ERROR: Unclosed bracket at position " + NatToString(pos) + "]";
      sb := sb[..pos] + err + sb[pos..];
      assert sb == CloseStep(before, stack);
    }
  }

  /** A buffer without parentheses from the cursor on is walked unchanged. */
  lemma {:induction false} WalkWithoutParens(w: Walk)
    requires Valid(w)
    requires forall k | w.i <= k < |w.sb| :: w.sb[k] != '(' && w.sb[k] != ')'
    ensures WalkFrom(w) == Walk(w.sb, w.open, |w.sb|)
    decreases |w.sb| - w.i
  {
    if w.i < |w.sb| {
      WalkWithoutParens(WalkStep(w));
    }
  }

  // ---------------------------------------------------------------------
  // replacePlainExpressions

  /** The inner loop's variables: endPos, hasOperator, lastMeaningfulIndex. */
  datatype Span = Span(end: nat, hasOperator: bool, last: int)

  /** A character the inner loop takes into the candidate: a digit, an
      operator, or a `.` between two digits. */
  predicate Meaningful(text: string, k: nat)
    requires k < |text|
  {
    IsDigit(text[k]) || MathUtils.IsOperatorChar(text[k]) || (text[k] == '.' && MathUtils.IsDecimalPoint(text, k))
  }

  /** The inner loop from `s`: it passes meaningful characters and spaces
      and stops at anything else. */
  function ScanSpan(text: string, s: Span): (r: Span)
    requires s.end <= |text|
    ensures s.end <= r.end <= |text|
    ensures r.last == s.last || s.end <= r.last < r.end
    decreases |text| - s.end
  {
    if s.end < |text| && Meaningful(text, s.end) then
      ScanSpan(text, Span(s.end + 1, s.hasOperator || MathUtils.IsOperatorChar(text[s.end]), s.end))
    else if s.end < |text| && text[s.end] == ' ' then
      ScanSpan(text, Span(s.end + 1, s.hasOperator, s.last))
    else s
  }

  /** What the inner loop passes: only meaningful characters and spaces; it
      stops at the end or at another character; the last meaningful one is
      recorded with only spaces after it; and an operator was seen exactly
      when one was passed. */
  lemma {:induction false} ScanSpanFacts(text: string, s: Span, r: Span)
    requires s.end <= |text| && r == ScanSpan(text, s)
    ensures forall k | s.end <= k < r.end :: Meaningful(text, k) || text[k] == ' '
    ensures r.end == |text| || (!Meaningful(text, r.end) && text[r.end] != ' ')
    ensures r.last == s.last || (0 <= r.last < |text| && Meaningful(text, r.last))
    ensures forall k | s.end <= k < r.end && r.last < k :: text[k] == ' '
    ensures r.hasOperator <==> s.hasOperator || exists k | s.end <= k < r.end :: MathUtils.IsOperatorChar(text[k])
    decreases |text| - s.end
  {
    if s.end < |text| && Meaningful(text, s.end) {
      var next := Span(s.end + 1, s.hasOperator || MathUtils.IsOperatorChar(text[s.end]), s.end);
      assert r == ScanSpan(text, next);
      ScanSpanFacts(text, next, r);
    } else if s.end < |text| && text[s.end] == ' ' {
      var next := Span(s.end + 1, s.hasOperator, s.last);
      assert r == ScanSpan(text, next);
      ScanSpanFacts(text, next, r);
    } else {
      assert r == s;
    }
  }

  /** What the outer loop appends from `pos` on, with the evaluation `rep`
      and the test `accept`. A run starting with a digit, `-` or `+` is
      scanned; when it holds an operator and `accept` takes its candidate (up
      to the last meaningful character), `rep` of the candidate and the
      spaces after it are emitted and the loop continues after them;
      otherwise one character is copied. */
  function PlainWith(rep: string -> string, accept: string -> bool, text: string, pos: nat): string
    requires pos <= |text|
    decreases |text| - pos
  {
    if pos == |text| then ""
    else
      var ch := text[pos];
      if IsDigit(ch) || ch == '-' || ch == '+' then
        var s := ScanSpan(text, Span(pos, false, -1));
        var candidate := text[pos..s.last + 1];
        if s.hasOperator && accept(candidate) then
          rep(candidate) + text[s.last + 1..s.end] + PlainWith(rep, accept, text, s.end)
        else [ch] + PlainWith(rep, accept, text, pos + 1)
      else [ch] + PlainWith(rep, accept, text, pos + 1)
  }

  /** The outer loop as the source has it: evalSafe on every candidate that
      is a potential expression. */
  function PlainFrom(text: string, pos: nat): string
    requires pos <= |text|
  {
    PlainWith(EvalSafe, IsPotentialExpression, text, pos)
  }

  /** The inner loop of replacePlainExpressions, as the source writes it. */
  method ScanRun(text: string, pos: nat) returns (endPos: nat, hasOperator: bool, lastMeaningfulIndex: int)
    requires pos <= |text|
    ensures var s := ScanSpan(text, Span(pos, false, -1));
            endPos == s.end && hasOperator == s.hasOperator && lastMeaningfulIndex == s.last
  {
    endPos := pos;
    hasOperator := false;
    lastMeaningfulIndex := -1;
    while endPos < |text|
      invariant pos <= endPos <= |text|
      invariant ScanSpan(text, Span(endPos, hasOperator, lastMeaningfulIndex)) == ScanSpan(text, Span(pos, false, -1))
      decreases |text| - endPos
    {
      var c := text[endPos];
      if IsDigit(c) || MathUtils.IsOperatorChar(c) || (c == '.' && MathUtils.IsDecimalPoint(text, endPos)) {
        lastMeaningfulIndex := endPos;
        if MathUtils.IsOperatorChar(c) {
          hasOperator := true;
        }
        endPos := endPos + 1;
      } else if c == ' ' {
        endPos := endPos + 1;
      } else {
        break;
      }
    }
  }

  /** replacePlainExpressions, as the source writes it. */
  method ReplacePlainExpressions(text: string) returns (r: string)
    ensures r == PlainFrom(text, 0)
  {
    var result := "";
    var pos: nat := 0;
    while pos < |text|
      invariant pos <= |text|
      invariant result + PlainFrom(text, pos) == PlainFrom(text, 0)
      decreases |text| - pos
    {
      var out, next := PlainOnce(text, pos);
      assert result + PlainFrom(text, pos) == (result + out) + PlainFrom(text, next);
      result := result + out;
      pos := next;
    }
    r := result;
  }

  /** A run that starts with a digit or a sign has its first character meaningful. */
  lemma ScanSpanStarts(text: string, pos: nat)
    requires pos < |text| && (IsDigit(text[pos]) || text[pos] == '-' || text[pos] == '+')
    ensures var s := ScanSpan(text, Span(pos, false, -1));
            pos <= s.last < s.end
  {
    assert Meaningful(text, pos);
  }

  /** The body of the outer loop of replacePlainExpressions: what it appends
      and where `pos` goes. */
  method PlainOnce(text: string, pos: nat) returns (out: string, next: nat)
    requires pos < |text|
    ensures pos < next <= |text|
    ensures out + PlainFrom(text, next) == PlainFrom(text, pos)
  {
    var ch := text[pos];
    if IsDigit(ch) || ch == '-' || ch == '+' {
      var endPos, hasOperator, lastMeaningfulIndex := ScanRun(text, pos);
      PlainRunStep(EvalSafe, IsPotentialExpression, text, pos, endPos, hasOperator, lastMeaningfulIndex);
      var candidate := text[pos..lastMeaningfulIndex + 1];
      var punctuation := text[lastMeaningfulIndex + 1..endPos];
      if hasOperator && IsPotentialExpression(candidate) {
        var replacement := EvalSafe(candidate);
        return replacement + punctuation, endPos;
      }
    } else {
      PlainCopyStep(EvalSafe, IsPotentialExpression, text, pos);
    }
    return [ch], pos + 1;
  }

  /** The outer loop at a run that starts with a digit or a sign. */
  lemma PlainRunStep(rep: string -> string, accept: string -> bool, text: string, pos: nat, end: nat, hasOperator: bool, last: int)
    requires pos < |text| && (IsDigit(text[pos]) || text[pos] == '-' || text[pos] == '+')
    requires var s := ScanSpan(text, Span(pos, false, -1));
             end == s.end && hasOperator == s.hasOperator && last == s.last
    ensures pos <= last < end
    ensures hasOperator && accept(text[pos..last + 1]) ==>
              PlainWith(rep, accept, text, pos) == rep(text[pos..last + 1]) + text[last + 1..end] + PlainWith(rep, accept, text, end)
    ensures !(hasOperator && accept(text[pos..last + 1])) ==>
              PlainWith(rep, accept, text, pos) == [text[pos]] + PlainWith(rep, accept, text, pos + 1)
  {
    ScanSpanStarts(text, pos);
    var c := text[pos..last + 1];
    var whole := PlainWith(rep, accept, text, pos);
    assert whole == if hasOperator && accept(c) then rep(c) + text[last + 1..end] + PlainWith(rep, accept, text, end)
                    else [text[pos]] + PlainWith(rep, accept, text, pos + 1);
  }

  /** The outer loop at any other character copies it. */
  lemma PlainCopyStep(rep: string -> string, accept: string -> bool, text: string, pos: nat)
    requires pos < |text| && !(IsDigit(text[pos]) || text[pos] == '-' || text[pos] == '+')
    ensures PlainWith(rep, accept, text, pos) == [text[pos]] + PlainWith(rep, accept, text, pos + 1)
  {
  }

  /** Text without a digit, `-` or `+` is copied verbatim. */
  lemma {:induction false} PlainVerbatim(text: string, pos: nat)
    requires pos <= |text|
    requires forall k | pos <= k < |text| :: !IsDigit(text[k]) && text[k] != '-' && text[k] != '+'
    ensures PlainFrom(text, pos) == text[pos..]
    decreases |text| - pos
  {
    if pos < |text| {
      PlainVerbatim(text, pos + 1);
      assert text[pos..] == [text[pos]] + text[pos + 1..];
    }
  }

  /** Text without parentheses, digits and signs comes out of process
      unchanged: the walk passes it and the plain pass copies it. */
  lemma ProcessedVerbatim(input: string)
    requires forall k | 0 <= k < |input| :: input[k] != '(' && input[k] != ')'
    requires forall k | 0 <= k < |input| :: !IsDigit(input[k]) && input[k] != '-' && input[k] != '+'
    ensures Processed(input) == input
  {
    WalkWithoutParens(Walk(input, [], 0));
    PlainVerbatim(input, 0);
    assert input[0..] == input;
  }

  /** Text without operator characters comes out of the plain pass
      unchanged: no run it scans holds an operator. */
  lemma PlainWithoutOperators(text: string, pos: nat)
    requires pos <= |text|
    requires forall k | pos <= k < |text| :: !MathUtils.IsOperatorChar(text[k])
    ensures PlainFrom(text, pos) == text[pos..]
  {
    QuietWith(EvalSafe, IsPotentialExpression, text, pos);
  }

  /** The same for any replacement rule and test. */
  lemma {:induction false} QuietWith(rep: string -> string, accept: string -> bool, text: string, pos: nat)
    requires pos <= |text|
    requires forall k | pos <= k < |text| :: !MathUtils.IsOperatorChar(text[k])
    ensures PlainWith(rep, accept, text, pos) == text[pos..]
    decreases |text| - pos
  {
    if pos < |text| {
      QuietStep(rep, accept, text, pos);
      QuietWith(rep, accept, text, pos + 1);
      assert text[pos..] == [text[pos]] + text[pos + 1..];
    }
  }

  /** Without an operator ahead no run is replaced: one character is copied. */
  lemma QuietStep(rep: string -> string, accept: string -> bool, text: string, pos: nat)
    requires pos < |text|
    requires forall k | pos <= k < |text| :: !MathUtils.IsOperatorChar(text[k])
    ensures PlainWith(rep, accept, text, pos) == [text[pos]] + PlainWith(rep, accept, text, pos + 1)
  {
    var ch := text[pos];
    if IsDigit(ch) || ch == '-' || ch == '+' {
      var s := ScanSpan(text, Span(pos, false, -1));
      ScanSpanFacts(text, Span(pos, false, -1), s);
      PlainRunStep(rep, accept, text, pos, s.end, s.hasOperator, s.last);
    } else {
      PlainCopyStep(rep, accept, text, pos);
    }
  }

  /** Characters other than digits and signs are copied one by one. */
  lemma {:induction false} PlainCopies(text: string, pos: nat, j: nat)
    requires pos <= j <= |text|
    requires forall k | pos <= k < j :: !IsDigit(text[k]) && text[k] != '-' && text[k] != '+'
    ensures PlainFrom(text, pos) == text[pos..j] + PlainFrom(text, j)
    decreases j - pos
  {
    if pos < j {
      PlainCopyStep(EvalSafe, IsPotentialExpression, text, pos);
      PlainCopies(text, pos + 1, j);
      calc {
        PlainFrom(text, pos);
        [text[pos]] + (text[pos + 1..j] + PlainFrom(text, j));
        ([text[pos]] + text[pos + 1..j]) + PlainFrom(text, j);
        { assert [text[pos]] + text[pos + 1..j] == text[pos..j]; }
        text[pos..j] + PlainFrom(text, j);
      }
    }
  }

  // ---------------------------------------------------------------------
  // Examples

  /** The walk from `w` is the walk from the state after one step. */
  lemma WalkUnfold(w: Walk)
    requires Valid(w) && w.i < |w.sb|
    ensures WalkFrom(w) == WalkFrom(WalkStep(w))
  {
  }

  lemma StepPasses(w: Walk)
    requires Valid(w) && w.i < |w.sb| && w.sb[w.i] != '(' && w.sb[w.i] != ')'
    ensures WalkStep(w) == Walk(w.sb, w.open, w.i + 1)
  {
  }

  lemma StepOpens(w: Walk)
    requires Valid(w) && w.i < |w.sb| && w.sb[w.i] == '('
    ensures WalkStep(w) == Walk(w.sb, w.open + [w.i], w.i + 1)
  {
  }

  lemma StepCloses(w: Walk, rep: string, next: Walk)
    requires Valid(w) && w.i < |w.sb| && w.sb[w.i] == ')' && w.open != []
    requires var start := w.open[|w.open| - 1];
             && rep == EvalSafe(w.sb[start + 1..w.i])
             && next == Walk(w.sb[..start] + rep + w.sb[w.i + 1..], w.open[..|w.open| - 1], start + |rep|)
    ensures WalkStep(w) == next
  {
  }

  /** The walk passes characters other than parentheses. */
  lemma {:induction false} WalkPass(w: Walk, j: nat)
    requires Valid(w) && w.i <= j <= |w.sb|
    requires forall k | w.i <= k < j :: w.sb[k] != '(' && w.sb[k] != ')'
    ensures WalkFrom(w) == WalkFrom(Walk(w.sb, w.open, j))
    decreases j - w.i
  {
    if w.i < j {
      WalkUnfold(w);
      StepPasses(w);
      WalkPass(Walk(w.sb, w.open, w.i + 1), j);
    } else {
      assert w == Walk(w.sb, w.open, j);
    }
  }

  /** The walk remembers a `(`. */
  lemma WalkOpen(w: Walk, next: Walk)
    requires Valid(w) && w.i < |w.sb| && w.sb[w.i] == '('
    requires next == Walk(w.sb, w.open + [w.i], w.i + 1)
    ensures Valid(next) && WalkFrom(w) == WalkFrom(next)
  {
    WalkUnfold(w);
    StepOpens(w);
  }

  /** The walk replaces the group a `)` closes by `rep`, the evaluation of its inside. */
  lemma WalkClose(w: Walk, rep: string, next: Walk)
    requires Valid(w) && w.i < |w.sb| && w.sb[w.i] == ')' && w.open != []
    requires var start := w.open[|w.open| - 1];
             && rep == EvalSafe(w.sb[start + 1..w.i])
             && next == Walk(w.sb[..start] + rep + w.sb[w.i + 1..], w.open[..|w.open| - 1], start + |rep|)
    ensures Valid(next) && WalkFrom(w) == WalkFrom(next)
  {
    WalkUnfold(w);
    StepCloses(w, rep, next);
  }

  /** A digit, an operator and a digit, with any whitespace around the
      operator, evaluate to the operation on the two digits. */
  lemma SpacedEvaluation(e: string, a: char, o: char, b: char, g1: string, g2: string)
    requires IsDigit(a) && MathUtils.IsOperatorChar(o) && IsDigit(b)
    requires forall k | 0 <= k < |g1| :: IsWhitespace(g1[k])
    requires forall k | 0 <= k < |g2| :: IsWhitespace(g2[k])
    requires e == [a] + g1 + [o] + g2 + [b]
    ensures Evaluate(e) == ExpressionTree.Apply(o, DigitValue(a) as real, DigitValue(b) as real)
  {
    ExpressionParser.SpacedBinary(e, a, o, b, g1, g2);
    assert NumberSyntax([a]) && NumberSyntax([b]) && !NumberSyntax([o]) by {
      MathUtils.DotCountDigits([a]);
      MathUtils.DotCountDigits([b]);
    }
    DigitPostfix(NumberSyntax, a, o, b);
    DigitValues(Manual, a, o, b);
  }

  /** Such an expression with a whole value in the int range is replaced by that value's digits. */
  lemma SpacedWhole(e: string, a: char, o: char, b: char, g1: string, g2: string, n: nat)
    requires IsDigit(a) && MathUtils.IsOperatorChar(o) && IsDigit(b)
    requires forall k | 0 <= k < |g1| :: IsWhitespace(g1[k])
    requires forall k | 0 <= k < |g2| :: IsWhitespace(g2[k])
    requires e == [a] + g1 + [o] + g2 + [b]
    requires ExpressionTree.Apply(o, DigitValue(a) as real, DigitValue(b) as real) == Ok(n as real) && n < 0x8000_0000
    ensures EvalSafe(e) == NatToString(n) && IsPotentialExpression(e)
  {
    SpacedEvaluation(e, a, o, b, g1, g2);
    ExpressionParser.SpacedBinary(e, a, o, b, g1, g2);
    assert IntRoundTrips(n as real);
  }
  /** The walk replaces a group holding a one-digit operation with a
      whole value by that value's digits. */
  lemma WalkCloseSpaced(w: Walk, a: char, o: char, b: char, n: nat, next: Walk)
    requires Valid(w) && w.i < |w.sb| && w.sb[w.i] == ')' && w.open != []
    requires IsDigit(a) && MathUtils.IsOperatorChar(o) && IsDigit(b)
    requires ExpressionTree.Apply(o, DigitValue(a) as real, DigitValue(b) as real) == Ok(n as real) && n < 0x8000_0000
    requires var start := w.open[|w.open| - 1];
             && w.sb[start + 1..w.i] == [a, ' ', o, ' ', b]
             && next == Walk(w.sb[..start] + NatToString(n) + w.sb[w.i + 1..], w.open[..|w.open| - 1], start + |NatToString(n)|)
    ensures Valid(next) && WalkFrom(w) == WalkFrom(next)
  {
    var start := w.open[|w.open| - 1];
    assert [a, ' ', o, ' ', b] == [a] + " " + [o] + " " + [b];
    SpacedWhole(w.sb[start + 1..w.i], a, o, b, " ", " ", n);
    WalkClose(w, NatToString(n), next);
  }

  /** From just inside the `(` on top, a group holding a one-digit
      operation with a whole value is replaced by that value's digits. */
  lemma WalkGroupInside(w: Walk, q: nat, a: char, o: char, b: char, n: nat, next: Walk)
    requires Valid(w) && w.i <= q < |w.sb| && w.sb[q] == ')' && w.open != [] && w.open[|w.open| - 1] + 1 == w.i
    requires IsDigit(a) && MathUtils.IsOperatorChar(o) && IsDigit(b)
    requires ExpressionTree.Apply(o, DigitValue(a) as real, DigitValue(b) as real) == Ok(n as real) && n < 0x8000_0000
    requires w.sb[w.i..q] == [a, ' ', o, ' ', b]
    requires next == Walk(w.sb[..w.i - 1] + NatToString(n) + w.sb[q + 1..], w.open[..|w.open| - 1], w.i - 1 + |NatToString(n)|)
    ensures Valid(next) && WalkFrom(w) == WalkFrom(next)
  {
    PassInside(w, q, a, o, b);
    WalkCloseSpaced(Walk(w.sb, w.open, q), a, o, b, n, next);
  }

  /** The walk passes over a one-digit operation. */
  lemma PassInside(w: Walk, q: nat, a: char, o: char, b: char)
    requires Valid(w) && w.i <= q <= |w.sb|
    requires IsDigit(a) && MathUtils.IsOperatorChar(o) && IsDigit(b)
    requires w.sb[w.i..q] == [a, ' ', o, ' ', b]
    ensures Leads(w, Walk(w.sb, w.open, q))
  {
    assert forall k | w.i <= k < q :: w.sb[k] == w.sb[w.i..q][k - w.i];
    WalkPass(w, q);
  }

  /** The walk from `w` ends where the walk from `v` ends. */
  predicate Leads(w: Walk, v: Walk) {
    Valid(w) && Valid(v) && WalkFrom(w) == WalkFrom(v)
  }

  // "Nested: ((1 + 2) * (3 + 4))", innermost groups first, one walk
  // action per lemma.

  lemma NestedLeftText(input: string, s1: string)
    requires input == "Nested: ((1 + 2) * (3 + 4))" && s1 == "Nested: (3 * (3 + 4))"
    ensures input[10..15] == ['1', ' ', '+', ' ', '2'] && input[..9] + NatToString(3) + input[16..] == s1
  {
    assert NatToString(3) == "3";
  }

  lemma NestedRightText(s1: string, s2: string)
    requires s1 == "Nested: (3 * (3 + 4))" && s2 == "Nested: (3 * 7)"
    ensures s1[14..19] == ['3', ' ', '+', ' ', '4'] && s1[..13] + NatToString(7) + s1[20..] == s2
  {
    assert NatToString(7) == "7";
  }

  lemma NestedOuterText(s2: string, s3: string)
    requires s2 == "Nested: (3 * 7)" && s3 == "Nested: 21"
    ensures s2[9..14] == ['3', ' ', '*', ' ', '7'] && s2[..8] + NatToString(21) + s2[15..] == s3
  {
    assert NatToString(21) == "21";
  }

  lemma NestedPrefix(input: string)
    requires input == "Nested: ((1 + 2) * (3 + 4))"
    ensures Leads(Walk(input, [], 0), Walk(input, [], 8))
  {
    WalkPass(Walk(input, [], 0), 8);
  }

  lemma NestedOuterOpen(input: string)
    requires input == "Nested: ((1 + 2) * (3 + 4))"
    ensures Leads(Walk(input, [], 8), Walk(input, [8], 9))
  {
    assert [] + [8] == [8];
    WalkOpen(Walk(input, [], 8), Walk(input, [8], 9));
  }

  lemma NestedInnerOpen(input: string)
    requires input == "Nested: ((1 + 2) * (3 + 4))"
    ensures Leads(Walk(input, [8], 9), Walk(input, [8, 9], 10))
  {
    WalkOpen(Walk(input, [8], 9), Walk(input, [8, 9], 10));
  }

  lemma NestedLeftGroup(input: string, s1: string)
    requires input == "Nested: ((1 + 2) * (3 + 4))" && s1 == "Nested: (3 * (3 + 4))"
    ensures Leads(Walk(input, [8, 9], 10), Walk(s1, [8], 10))
  {
    NestedLeftText(input, s1);
    WalkGroupInside(Walk(input, [8, 9], 10), 15, '1', '+', '2', 3, Walk(s1, [8], 10));
  }

  lemma NestedMiddle(s1: string)
    requires s1 == "Nested: (3 * (3 + 4))"
    ensures Leads(Walk(s1, [8], 10), Walk(s1, [8], 13))
  {
    WalkPass(Walk(s1, [8], 10), 13);
  }

  lemma NestedRightOpen(s1: string)
    requires s1 == "Nested: (3 * (3 + 4))"
    ensures Leads(Walk(s1, [8], 13), Walk(s1, [8, 13], 14))
  {
    WalkOpen(Walk(s1, [8], 13), Walk(s1, [8, 13], 14));
  }

  lemma NestedRightGroup(s1: string, s2: string)
    requires s1 == "Nested: (3 * (3 + 4))" && s2 == "Nested: (3 * 7)"
    ensures Leads(Walk(s1, [8, 13], 14), Walk(s2, [8], 14))
  {
    NestedRightText(s1, s2);
    WalkGroupInside(Walk(s1, [8, 13], 14), 19, '3', '+', '4', 7, Walk(s2, [8], 14));
  }

  lemma NestedOuterGroup(s2: string, s3: string)
    requires s2 == "Nested: (3 * 7)" && s3 == "Nested: 21"
    ensures Valid(Walk(s2, [8], 14)) && WalkFrom(Walk(s2, [8], 14)) == Walk(s3, [], 10)
  {
    NestedOuterText(s2, s3);
    WalkCloseSpaced(Walk(s2, [8], 14), '3', '*', '7', 21, Walk(s3, [], 10));
  }

  lemma NestedWalk(input: string, s3: string)
    requires input == "Nested: ((1 + 2) * (3 + 4))" && s3 == "Nested: 21"
    ensures Valid(Walk(input, [], 0)) && WalkFrom(Walk(input, [], 0)) == Walk(s3, [], 10)
  {
    var s1 := "Nested: (3 * (3 + 4))";
    var s2 := "Nested: (3 * 7)";
    NestedPrefix(input);
    NestedOuterOpen(input);
    NestedInnerOpen(input);
    NestedLeftGroup(input, s1);
    NestedMiddle(s1);
    NestedRightOpen(s1);
    NestedRightGroup(s1, s2);
    NestedOuterGroup(s2, s3);
  }

  /** Nested groups are evaluated innermost first, and the plain pass
      leaves the lone number alone. */
  lemma NestedGroups(input: string)
    requires input == "Nested: ((1 + 2) * (3 + 4))"
    ensures Processed(input) == "Nested: 21"
  {
    var s3 := "Nested: 21";
    NestedWalk(input, s3);
    assert CloseAll(s3, []) == s3;
    PlainWithoutOperators(s3, 0);
    assert s3[0..] == s3;
  }

  // "The value is   7   -   2   .", an expression without parentheses
  // found by the plain pass.

  /** The inner loop passes a meaningful character. */
  lemma ScanTakes(text: string, s: Span)
    requires s.end < |text| && Meaningful(text, s.end)
    ensures ScanSpan(text, s) == ScanSpan(text, Span(s.end + 1, s.hasOperator || MathUtils.IsOperatorChar(text[s.end]), s.end))
  {
  }

  /** The inner loop passes spaces. */
  lemma {:induction false} ScanBlanks(text: string, s: Span, j: nat)
    requires s.end <= j <= |text|
    requires forall k | s.end <= k < j :: text[k] == ' '
    ensures ScanSpan(text, s) == ScanSpan(text, Span(j, s.hasOperator, s.last))
    decreases j - s.end
  {
    if s.end < j {
      assert !Meaningful(text, s.end);
      ScanBlanks(text, Span(s.end + 1, s.hasOperator, s.last), j);
    }
  }

  lemma ValueLeft(text: string)
    requires text == "The value is   7   -   2   ."
    ensures ScanSpan(text, Span(15, false, -1)) == ScanSpan(text, Span(20, true, 19))
  {
    ScanTakes(text, Span(15, false, -1));
    ScanBlanks(text, Span(16, false, 15), 19);
    ScanTakes(text, Span(19, false, 15));
  }

  lemma ValueRight(text: string)
    requires text == "The value is   7   -   2   ."
    ensures ScanSpan(text, Span(20, true, 19)) == Span(27, true, 23)
  {
    ScanBlanks(text, Span(20, true, 19), 23);
    ScanTakes(text, Span(23, true, 19));
    ScanBlanks(text, Span(24, true, 23), 27);
    assert !MathUtils.IsDecimalPoint(text, 27);
  }

  lemma ValueSpan(text: string)
    requires text == "The value is   7   -   2   ."
    ensures var s := ScanSpan(text, Span(15, false, -1));
            s.end == 27 && s.hasOperator && s.last == 23
  {
    ValueLeft(text);
    ValueRight(text);
  }

  lemma ValueCandidate(text: string)
    requires text == "The value is   7   -   2   ."
    ensures EvalSafe(text[15..24]) == "5" && IsPotentialExpression(text[15..24])
  {
    assert text[15..24] == ['7'] + "   " + ['-'] + "   " + ['2'];
    SpacedWhole(text[15..24], '7', '-', '2', "   ", "   ", 5);
  }

  /** The plain pass replaces a run that holds an operator and is a
      potential expression by its evaluation, and keeps the spaces after it. */
  lemma PlainReplaces(text: string, pos: nat, end: nat, last: int, r: string)
    requires pos < |text| && (IsDigit(text[pos]) || text[pos] == '-' || text[pos] == '+')
    requires var s := ScanSpan(text, Span(pos, false, -1));
             end == s.end && s.hasOperator && last == s.last
    requires pos <= last && IsPotentialExpression(text[pos..last + 1]) && r == EvalSafe(text[pos..last + 1])
    ensures r + text[last + 1..end] + PlainFrom(text, end) == PlainFrom(text, pos)
  {
    PlainRunStep(EvalSafe, IsPotentialExpression, text, pos, end, true, last);
  }

  lemma ValueText(text: string, r: string)
    requires text == "The value is   7   -   2   ." && r == "The value is   5   ."
    ensures |text| == 28 && IsDigit(text[15]) && text[27] == '.'
    ensures text[0..15] + "5" + text[24..27] + [text[27]] == r
    ensures forall k | 0 <= k < 15 :: !IsDigit(text[k]) && text[k] != '-' && text[k] != '+'
  {
  }

  lemma ValueRun(text: string)
    requires text == "The value is   7   -   2   ."
    ensures PlainFrom(text, 15) == "5" + text[24..27] + PlainFrom(text, 27)
  {
    ValueText(text, "The value is   5   .");
    ValueSpan(text);
    ValueCandidate(text);
    PlainReplaces(text, 15, 27, 23, "5");
  }

  /** The outer loop copies a last character that is no digit or sign. */
  lemma PlainLast(text: string)
    requires |text| > 0 && !(IsDigit(text[|text| - 1]) || text[|text| - 1] == '-' || text[|text| - 1] == '+')
    ensures PlainFrom(text, |text| - 1) == [text[|text| - 1]]
  {
    PlainCopyStep(EvalSafe, IsPotentialExpression, text, |text| - 1);
  }

  /** Text made of a prefix without digits or signs, one replaced
      expression, the spaces after it and a last plain character. */
  lemma PlainAround(text: string, p: nat, q: nat, v: string, r: string)
    requires p <= q < |text|
    requires forall k | 0 <= k < p :: !IsDigit(text[k]) && text[k] != '-' && text[k] != '+'
    requires PlainFrom(text, p) == v + text[q..|text| - 1] + PlainFrom(text, |text| - 1)
    requires !(IsDigit(text[|text| - 1]) || text[|text| - 1] == '-' || text[|text| - 1] == '+')
    requires text[0..p] + v + text[q..|text| - 1] + [text[|text| - 1]] == r
    ensures PlainFrom(text, 0) == r
  {
    PlainCopies(text, 0, p);
    PlainLast(text);
    Joined(PlainFrom(text, 0), PlainFrom(text, p), PlainFrom(text, |text| - 1), text[0..p], v, text[q..|text| - 1], [text[|text| - 1]], r);
  }

  /** Chaining three splits of a string into one. */
  lemma Joined(x0: string, x1: string, x2: string, a: string, v: string, b: string, c: string, r: string)
    requires x0 == a + x1 && x1 == v + b + x2 && x2 == c && a + v + b + c == r
    ensures x0 == r
  {
  }

  lemma ValuePlain(input: string, r: string)
    requires input == "The value is   7   -   2   ." && r == "The value is   5   ."
    ensures PlainFrom(input, 0) == r
  {
    ValueText(input, r);
    ValueRun(input);
    PlainAround(input, 15, 24, "5", r);
  }

  /** A plain expression is replaced by its value and the spaces after it
      stay, as do the spaces before it. */
  lemma SpacedSubtraction(input: string)
    requires input == "The value is   7   -   2   ."
    ensures Processed(input) == "The value is   5   ."
  {
    WalkWithoutParens(Walk(input, [], 0));
    assert CloseAll(input, []) == input;
    ValuePlain(input, "The value is   5   .");
  }
}
