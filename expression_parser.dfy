/**
 * ExpressionParser.tokenize: one pass over the characters of an expression.
 * The pass keeps a pending number buffer and a flag `expectUnary` that
 * decides whether a `-` is the sign of a number or the subtraction operator.
 * Whitespace is skipped without ending the pending number.
 */
module ExpressionParser {
  import opened Errors
  import opened JavaLang
  import opened MathUtils

  /** How a token came about: flushed from the number buffer, or written as
      a one-character operator or parenthesis. The source keeps only the
      text; the tag is what the lemmas below use to tell a lone `-` sign
      from the `-` operator. */
  datatype Lexeme = Number(text: string) | Symbol(ch: char)

  function Text(l: Lexeme): string {
    match l
    case Number(t) => t
    case Symbol(c) => [c]
  }

  /** The token strings the source returns. */
  function Texts(ls: seq<Lexeme>): (ts: seq<string>)
    ensures |ts| == |ls|
    ensures forall k | 0 <= k < |ls| :: ts[k] == Text(ls[k])
  {
    seq(|ls|, k requires 0 <= k < |ls| => Text(ls[k]))
  }

  /** The state of the loop: the tokens so far, the number buffer and `expectUnary`. */
  datatype ScanState = ScanState(tokens: seq<Lexeme>, number: string, expectUnary: bool)

  const Start := ScanState([], "", true)

  /** Moves a non-empty number buffer to the tokens. */
  function Flush(st: ScanState): ScanState {
    if st.number == "" then st else ScanState(st.tokens + [Number(st.number)], "", st.expectUnary)
  }

  /** One iteration of the loop, on character `ch`. */
  function Step(st: ScanState, ch: char): Result<ScanState> {
    if IsWhitespace(ch) then Ok(st)
    else if IsNumeralChar(ch) then Ok(ScanState(st.tokens, st.number + [ch], false))
    else if ch == '-' && st.expectUnary then Ok(ScanState(st.tokens, st.number + [ch], false))
    else
      var f := Flush(st);
      if IsOperatorChar(ch) then Ok(ScanState(f.tokens + [Symbol(ch)], "", true))
      else if ch == '(' || ch == ')' then Ok(ScanState(f.tokens + [Symbol(ch)], "", ch == '('))
      else Err(UnknownSymbol([ch]))
  }

  /** The loop run from state `st` over the characters of `s`. */
  function Run(st: ScanState, s: string): Result<ScanState>
    decreases |s|
  {
    if s == [] then Ok(st)
    else
      match Step(st, s[0])
      case Err(e) => Err(e)
      case Ok(next) => Run(next, s[1..])
  }

  /** The tokens of `expr` with how each came about. */
  function LexemesOf(expr: string): Result<seq<Lexeme>> {
    match Run(Start, expr)
    case Err(e) => Err(e)
    case Ok(st) => Ok(Flush(st).tokens)
  }

  /** What tokenize returns, or the error it throws. */
  function Tokens(expr: string): Result<seq<string>> {
    match LexemesOf(expr)
    case Err(e) => Err(e)
    case Ok(ls) => Ok(Texts(ls))
  }

  /** tokenize, as the source writes it. */
  method Tokenize(expr: string) returns (r: Result<seq<string>>)
    ensures r == Tokens(expr)
  {
    var tokens: seq<string> := [];
    var number := "";
    var expectUnary := true;
    ghost var lexemes: seq<Lexeme> := [];
    for i := 0 to |expr|
      invariant tokens == Texts(lexemes)
      invariant Run(Start, expr) == Run(ScanState(lexemes, number, expectUnary), expr[i..])
    {
      var ch := expr[i];
      assert expr[i..] == [ch] + expr[i + 1..];
      if IsWhitespace(ch) {
        continue;
      }
      if IsDigit(ch) || ch == '.' {
        number := number + [ch];
        expectUnary := false;
      } else if ch == '-' && expectUnary {
        number := number + [ch];
        expectUnary := false;
      } else {
        if number != "" {
          tokens := tokens + [number];
          lexemes := lexemes + [Number(number)];
          number := "";
        }
        if IsOperatorChar(ch) {
          tokens := tokens + [[ch]];
          lexemes := lexemes + [Symbol(ch)];
          expectUnary := true;
        } else if ch == '(' || ch == ')' {
          tokens := tokens + [[ch]];
          lexemes := lexemes + [Symbol(ch)];
          expectUnary := ch == '(';
        } else {
          return Err(UnknownSymbol([ch]));
        }
      }
    }
    assert expr[|expr|..] == [];
    ghost var last := ScanState(lexemes, number, expectUnary);
    assert Run(Start, expr) == Ok(last);
    if number != "" {
      TextsSnoc(lexemes, Number(number));
      tokens := tokens + [number];
      lexemes := lexemes + [Number(number)];
    }
    assert lexemes == Flush(last).tokens;
    assert tokens == Texts(lexemes);
    return Ok(tokens);
  }

  // ---------------------------------------------------------------------
  // The tokens spell the input without its whitespace

  function Concat(ts: seq<string>): string
    decreases |ts|
  {
    if ts == [] then "" else Concat(ts[..|ts| - 1]) + ts[|ts| - 1]
  }

  function WithoutWhitespace(s: string): string
    decreases |s|
  {
    if s == [] then "" else (if IsWhitespace(s[0]) then "" else [s[0]]) + WithoutWhitespace(s[1..])
  }

  /** The characters the state holds: its tokens, then the pending number. */
  function Spelled(st: ScanState): string {
    Concat(Texts(st.tokens)) + st.number
  }

  lemma ConcatSnoc(ts: seq<string>, t: string)
    ensures Concat(ts + [t]) == Concat(ts) + t
  {
    assert (ts + [t])[..|ts|] == ts;
  }

  lemma TextsSnoc(ls: seq<Lexeme>, l: Lexeme)
    ensures Texts(ls + [l]) == Texts(ls) + [Text(l)]
  {
  }

  lemma FlushSpelled(st: ScanState)
    ensures Spelled(Flush(st)) == Spelled(st)
  {
    if st.number != "" {
      TextsSnoc(st.tokens, Number(st.number));
      ConcatSnoc(Texts(st.tokens), st.number);
    }
  }

  lemma StepSpelled(st: ScanState, ch: char)
    requires Step(st, ch).Ok?
    ensures Spelled(Step(st, ch).value) == Spelled(st) + (if IsWhitespace(ch) then "" else [ch])
  {
    if IsWhitespace(ch) {
    } else if IsNumeralChar(ch) || (ch == '-' && st.expectUnary) {
      assert Step(st, ch).value == ScanState(st.tokens, st.number + [ch], false);
    } else {
      assert Step(st, ch).value == ScanState(Flush(st).tokens + [Symbol(ch)], "", Step(st, ch).value.expectUnary);
      SymbolSpelled(st, ch, Step(st, ch).value.expectUnary);
    }
  }

  lemma SymbolSpelled(st: ScanState, ch: char, expectUnary: bool)
    ensures Spelled(ScanState(Flush(st).tokens + [Symbol(ch)], "", expectUnary)) == Spelled(st) + [ch]
  {
    var f := Flush(st);
    FlushSpelled(st);
    TextsSnoc(f.tokens, Symbol(ch));
    ConcatSnoc(Texts(f.tokens), [ch]);
  }

  lemma {:induction false} RunSpelled(st: ScanState, s: string)
    requires Run(st, s).Ok?
    ensures Spelled(Run(st, s).value) == Spelled(st) + WithoutWhitespace(s)
    decreases |s|
  {
    if s != [] {
      StepSpelled(st, s[0]);
      RunSpelled(Step(st, s[0]).value, s[1..]);
    }
  }

  /** Concatenating the tokens gives the input with all whitespace removed. */
  lemma TokensSpellInput(expr: string)
    requires Tokens(expr).Ok?
    ensures Concat(Tokens(expr).value) == WithoutWhitespace(expr)
  {
    RunSpelled(Start, expr);
    var st := Run(Start, expr).value;
    FlushSpelled(st);
    assert Flush(st).number == "";
    assert Texts(Start.tokens) == [];
    assert Spelled(Start) == "";
    assert Tokens(expr).value == Texts(Flush(st).tokens);
    assert Spelled(Flush(st)) == Concat(Texts(Flush(st).tokens)) + "";
    assert Concat(Texts(Flush(st).tokens)) + "" == Concat(Texts(Flush(st).tokens));
  }

  // ---------------------------------------------------------------------
  // The shape of the tokens

  predicate WellFormed(l: Lexeme) {
    match l
    case Number(t) => IsNumberShaped(t)
    case Symbol(c) => IsOperatorChar(c) || c == '(' || c == ')'
  }

  /** A lexeme after which a `-` is read as a sign. */
  predicate OpensOperand(l: Lexeme) {
    l.Symbol? && (IsOperatorChar(l.ch) || l.ch == '(')
  }

  /** The shapes tokenize produces: each lexeme well formed; two numbers never
      adjacent; a signed number first or after an operator or `(`; a `-`
      operator after a number or `)`. */
  predicate LexemeShapes(ls: seq<Lexeme>) {
    && (forall k | 0 <= k < |ls| :: WellFormed(ls[k]))
    && (forall k | 0 <= k < |ls| - 1 :: ls[k].Number? ==> ls[k + 1].Symbol?)
    && (forall k | 0 <= k < |ls| :: ls[k].Number? && ls[k].text[0] == '-' && WellFormed(ls[k]) ==>
          k == 0 || OpensOperand(ls[k - 1]))
    && (forall k | 0 <= k < |ls| :: ls[k] == Symbol('-') ==>
          k > 0 && (ls[k - 1].Number? || ls[k - 1] == Symbol(')')))
  }

  function Last(ls: seq<Lexeme>): Lexeme
    requires |ls| > 0
  {
    ls[|ls| - 1]
  }

  /** What holds of every state the loop reaches; in particular a pending
      sign or number means `expectUnary` is false. */
  predicate Reachable(st: ScanState) {
    && LexemeShapes(st.tokens)
    && (|st.tokens| > 0 ==> Last(st.tokens).Symbol?)
    && (st.number != "" ==> IsNumberShaped(st.number))
    && (st.number != "" && st.number[0] == '-' ==> st.tokens == [] || OpensOperand(Last(st.tokens)))
    && (st.expectUnary <==> st.number == "" && (st.tokens == [] || OpensOperand(Last(st.tokens))))
  }

  lemma ShapesSnoc(ls: seq<Lexeme>, l: Lexeme)
    requires LexemeShapes(ls) && WellFormed(l)
    requires |ls| > 0 && l.Number? ==> Last(ls).Symbol?
    requires l.Number? && l.text[0] == '-' ==> ls == [] || OpensOperand(Last(ls))
    requires l == Symbol('-') ==> |ls| > 0 && (Last(ls).Number? || Last(ls) == Symbol(')'))
    requires |ls| > 0 && Last(ls).Number? ==> l.Symbol?
    ensures LexemeShapes(ls + [l])
  {
    var ls' := ls + [l];
    forall k | 0 <= k < |ls'| - 1 && ls'[k].Number? ensures ls'[k + 1].Symbol? {
      if k < |ls| - 1 { assert ls'[k] == ls[k] && ls'[k + 1] == ls[k + 1]; }
    }
  }

  lemma FlushReachable(st: ScanState)
    requires Reachable(st)
    ensures LexemeShapes(Flush(st).tokens)
    ensures Flush(st).number == ""
    ensures st.number != "" ==> Flush(st).tokens == st.tokens + [Number(st.number)]
    ensures st.number == "" ==> Flush(st) == st
  {
    if st.number != "" {
      ShapesSnoc(st.tokens, Number(st.number));
    }
  }

  lemma StepReachable(st: ScanState, ch: char)
    requires Reachable(st) && Step(st, ch).Ok?
    ensures Reachable(Step(st, ch).value)
  {
    if !IsWhitespace(ch) && !IsNumeralChar(ch) && !(ch == '-' && st.expectUnary) {
      var f := Flush(st);
      FlushReachable(st);
      ShapesSnoc(f.tokens, Symbol(ch));
    }
  }

  lemma {:induction false} RunReachable(st: ScanState, s: string)
    requires Reachable(st) && Run(st, s).Ok?
    ensures Reachable(Run(st, s).value)
    decreases |s|
  {
    if s != [] {
      StepReachable(st, s[0]);
      RunReachable(Step(st, s[0]).value, s[1..]);
    }
  }

  /** Every lexeme tokenize produces has the shapes above. */
  lemma LexemesShaped(expr: string)
    requires LexemesOf(expr).Ok?
    ensures LexemeShapes(LexemesOf(expr).value)
  {
    RunReachable(Start, expr);
    var st := Run(Start, expr).value;
    FlushReachable(st);
    if st.number != "" {
      ShapesSnoc(st.tokens, Number(st.number));
    }
  }

  /** Every token is an operator, a parenthesis, or a non-empty run of
      digits and `.` with at most a leading `-`; no token holds whitespace. */
  lemma TokenShapes(expr: string)
    requires Tokens(expr).Ok?
    ensures forall t | t in Tokens(expr).value ::
              IsOperator(t) || t == "(" || t == ")" || IsNumberShaped(t)
  {
    LexemesShaped(expr);
    var ls := LexemesOf(expr).value;
    forall t | t in Tokens(expr).value
      ensures IsOperator(t) || t == "(" || t == ")" || IsNumberShaped(t)
    {
      var k :| 0 <= k < |ls| && t == Text(ls[k]);
      assert WellFormed(ls[k]);
    }
  }

  // ---------------------------------------------------------------------
  // Errors

  /** A character tokenize rejects. */
  predicate IsStray(c: char) {
    !IsWhitespace(c) && !IsNumeralChar(c) && !IsOperatorChar(c) && c != '(' && c != ')'
  }

  lemma {:induction false} RunFails(st: ScanState, s: string)
    ensures Run(st, s).Err? <==> exists k | 0 <= k < |s| :: IsStray(s[k])
    ensures Run(st, s).Err? ==>
              exists k | 0 <= k < |s| :: IsStray(s[k]) && (forall j | 0 <= j < k :: !IsStray(s[j]))
                                         && Run(st, s).error == UnknownSymbol([s[k]])
    decreases |s|
  {
    if s != [] {
      if !IsStray(s[0]) {
        var next := Step(st, s[0]).value;
        RunFails(next, s[1..]);
        if Run(st, s).Err? {
          var k :| 0 <= k < |s[1..]| && IsStray(s[1..][k]) && (forall j | 0 <= j < k :: !IsStray(s[1..][j]))
                   && Run(next, s[1..]).error == UnknownSymbol([s[1..][k]]);
          assert IsStray(s[k + 1]) && forall j | 0 <= j < k + 1 :: !IsStray(s[j]);
        } else {
          forall k | 0 <= k < |s| ensures !IsStray(s[k]) {
            if k > 0 { assert s[k] == s[1..][k - 1]; }
          }
        }
      }
    }
  }

  /** tokenize throws exactly when some character is neither whitespace, a
      digit, `.`, an operator nor a parenthesis, and it names the first one:
      "Unknown operator or symbol: '<c>'". */
  lemma TokensFailOnStray(expr: string)
    ensures Tokens(expr).Err? <==> exists k | 0 <= k < |expr| :: IsStray(expr[k])
    ensures Tokens(expr).Err? ==>
              exists k | 0 <= k < |expr| :: IsStray(expr[k]) && (forall j | 0 <= j < k :: !IsStray(expr[j]))
                                            && Tokens(expr).error == UnknownSymbol([expr[k]])
  {
    RunFails(Start, expr);
  }

  // ---------------------------------------------------------------------
  // Examples

  /** A concrete run given by the state after each character. */
  lemma {:induction false} RunTrace(s: string, states: seq<ScanState>)
    requires |states| == |s| + 1
    requires forall k | 0 <= k < |s| :: Step(states[k], s[k]).Ok? && Step(states[k], s[k]).value == states[k + 1]
    ensures Run(states[0], s).Ok? && Run(states[0], s).value == states[|s|]
    decreases |s|
  {
    if s != [] {
      RunTrace(s[1..], states[1..]);
    }
  }

  // The examples take their input as a parameter so that the verifier
  // follows the given trace instead of unfolding the run on a literal.

  /** A run over `a + b` is a run over `a` continued over `b`. */
  lemma {:induction false} RunAppend(st: ScanState, a: string, b: string)
    requires Run(st, a).Ok?
    ensures Run(st, a + b) == Run(Run(st, a).value, b)
    decreases |a|
  {
    if a == [] {
      assert a + b == b;
    } else {
      assert (a + b)[0] == a[0] && (a + b)[1..] == a[1..] + b;
      RunAppend(Step(st, a[0]).value, a[1..], b);
    }
  }

  /** Whitespace leaves the state of the pass as it is. */
  lemma {:induction false} RunBlank(st: ScanState, s: string)
    requires forall k | 0 <= k < |s| :: IsWhitespace(s[k])
    ensures Run(st, s) == Ok(st)
    decreases |s|
  {
    if s != [] {
      RunBlank(st, s[1..]);
    }
  }

  /** A digit joins the number buffer, and a `-` may follow it as the operator. */
  lemma DigitRun(st: ScanState, d: char, next: ScanState)
    requires IsDigit(d) && next == ScanState(st.tokens, st.number + [d], false)
    ensures Run(st, [d]) == Ok(next)
  {
    assert IsNumeralChar(d) && !IsWhitespace(d);
    assert [d][1..] == [];
  }

  /** An operator after a number flushes it and expects a sign next. */
  lemma OperatorRun(st: ScanState, o: char, next: ScanState)
    requires IsOperatorChar(o) && st.number != "" && !st.expectUnary
    requires next == ScanState(st.tokens + [Number(st.number), Symbol(o)], "", true)
    ensures Run(st, [o]) == Ok(next)
  {
    assert !IsNumeralChar(o) && !IsWhitespace(o);
    assert [o][1..] == [];
    assert Flush(st).tokens + [Symbol(o)] == st.tokens + [Number(st.number), Symbol(o)];
  }

  /** A run over `a + b` that reaches `mid` after `a`. */
  lemma RunThen(st: ScanState, a: string, b: string, mid: ScanState)
    requires Run(st, a) == Ok(mid)
    ensures Run(st, a + b) == Run(mid, b)
  {
    RunAppend(st, a, b);
  }

  /** The pass over a digit, an operator and a digit, with any whitespace
      around the operator: a `-` after a digit is the operator. */
  lemma SpacedBinaryRun(e: string, a: char, o: char, b: char, g1: string, g2: string)
    requires IsDigit(a) && IsOperatorChar(o) && IsDigit(b)
    requires forall k | 0 <= k < |g1| :: IsWhitespace(g1[k])
    requires forall k | 0 <= k < |g2| :: IsWhitespace(g2[k])
    requires e == [a] + g1 + [o] + g2 + [b]
    ensures Run(Start, e) == Ok(ScanState([Number([a]), Symbol(o)], [b], false))
  {
    var s1 := ScanState([], [a], false);
    var s2 := ScanState([Number([a]), Symbol(o)], "", true);
    var s3 := ScanState([Number([a]), Symbol(o)], [b], false);
    var p2 := [a] + g1;
    var p3 := p2 + [o];
    var p4 := p3 + g2;
    assert Start.number + [a] == [a] && s2.number + [b] == [b];
    assert s1.tokens + [Number(s1.number), Symbol(o)] == s2.tokens;
    DigitRun(Start, a, s1);
    RunBlank(s1, g1);
    RunThen(Start, [a], g1, s1);
    OperatorRun(s1, o, s2);
    RunThen(Start, p2, [o], s1);
    RunBlank(s2, g2);
    RunThen(Start, p3, g2, s2);
    DigitRun(s2, b, s3);
    RunThen(Start, p4, [b], s2);
  }

  /** The tokens of a pass that ends in `st`. */
  lemma TokensAfter(e: string, st: ScanState, ls: seq<Lexeme>)
    requires Run(Start, e) == Ok(st) && Flush(st).tokens == ls
    ensures Tokens(e) == Ok(Texts(ls))
  {
  }

  /** A digit, an operator and a digit, with any whitespace around the
      operator, are three tokens. */
  lemma SpacedBinary(e: string, a: char, o: char, b: char, g1: string, g2: string)
    requires IsDigit(a) && IsOperatorChar(o) && IsDigit(b)
    requires forall k | 0 <= k < |g1| :: IsWhitespace(g1[k])
    requires forall k | 0 <= k < |g2| :: IsWhitespace(g2[k])
    requires e == [a] + g1 + [o] + g2 + [b]
    ensures Tokens(e).Ok? && Tokens(e).value == [[a], [o], [b]]
  {
    SpacedBinaryRun(e, a, o, b, g1, g2);
    var ls := [Number([a]), Symbol(o), Number([b])];
    TokensAfter(e, ScanState([Number([a]), Symbol(o)], [b], false), ls);
    var ts := Texts(ls);
    assert ts[0] == [a] && ts[1] == [o] && ts[2] == [b];
    assert ts == [[a], [o], [b]];
  }

  // The documented example "2 + 3*(4-1.5)", in three pieces.

  lemma ExamplePieceOne(e: string)
    requires e == "2 + 3"
    ensures Run(Start, e).Ok? && Run(Start, e).value == ScanState([Number("2"), Symbol('+')], "3", false)
  {
    var a := [Number("2"), Symbol('+')];
    RunTrace(e, [Start, ScanState([], "2", false), ScanState([], "2", false), ScanState(a, "", true),
      ScanState(a, "", true), ScanState(a, "3", false)]);
  }

  lemma ExamplePieceTwo(st: ScanState, e: string)
    requires st == ScanState([Number("2"), Symbol('+')], "3", false) && e == "*(4-"
    ensures Run(st, e).Ok?
    ensures Run(st, e).value == ScanState(st.tokens + [Number("3"), Symbol('*'), Symbol('('), Number("4"), Symbol('-')], "", true)
  {
    var b := st.tokens + [Number("3"), Symbol('*')];
    RunTrace(e, [st, ScanState(b, "", true), ScanState(b + [Symbol('(')], "", true),
      ScanState(b + [Symbol('(')], "4", false), ScanState(b + [Symbol('('), Number("4"), Symbol('-')], "", true)]);
  }

  lemma ExamplePieceThree(st: ScanState, e: string)
    requires st.number == "" && st.expectUnary && e == "1.5)"
    ensures Run(st, e).Ok? && Run(st, e).value == ScanState(st.tokens + [Number("1.5"), Symbol(')')], "", false)
  {
    var c := st.tokens;
    RunTrace(e, [st, ScanState(c, "1", false), ScanState(c, "1.", false), ScanState(c, "1.5", false),
      ScanState(c + [Number("1.5"), Symbol(')')], "", false)]);
  }

  /** The method's documented example. */
  lemma DocumentedExample(e: string)
    requires e == "2 + 3*(4-1.5)"
    ensures Tokens(e).Ok?
    ensures Tokens(e).value == ["2", "+", "3", "*", "(", "4", "-", "1.5", ")"]
  {
    assert e == e[..5] + e[5..9] + e[9..];
    ExamplePieceOne(e[..5]);
    var s1 := Run(Start, e[..5]).value;
    ExamplePieceTwo(s1, e[5..9]);
    var s2 := Run(s1, e[5..9]).value;
    ExamplePieceThree(s2, e[9..]);
    RunAppend(Start, e[..5], e[5..9]);
    RunAppend(Start, e[..5] + e[5..9], e[9..]);
  }

  /** Whitespace does not end a number: `5 3` is the single token `53`. */
  lemma WhitespaceJoinsDigits(e: string)
    requires e == "5 3"
    ensures Tokens(e).Ok? && Tokens(e).value == ["53"]
  {
    RunTrace(e, [Start, ScanState([], "5", false), ScanState([], "5", false), ScanState([], "53", false)]);
  }

  /** A `-` after an operator or `(` is a sign, and after a number it is the operator. */
  lemma SignedOperands(e: string)
    requires e == "(-2--3)"
    ensures Tokens(e).Ok? && Tokens(e).value == ["(", "-2", "-", "-3", ")"]
  {
    var a := [Symbol('(')];
    var b := a + [Number("-2"), Symbol('-')];
    RunTrace(e, [Start, ScanState(a, "", true), ScanState(a, "-", false), ScanState(a, "-2", false),
      ScanState(b, "", true), ScanState(b, "-", false), ScanState(b, "-3", false),
      ScanState(b + [Number("-3"), Symbol(')')], "", false)]);
  }
}
