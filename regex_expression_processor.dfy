/**
 * RegexExpressionProcessor: the pattern-driven processor. Innermost bracket
 * groups `\(([^()]+)\)` whose contents are plain arithmetic are replaced by
 * their value until no replacement changes anything; then every maximal
 * run matching the simple-expression pattern is replaced by its value or an
 * `[ERROR: ...]` marker. It carries its own tokenizer, shunting-yard loop
 * and evaluator; the patterns are modelled by hand-written matchers that
 * find what java.util.regex finds for these three patterns.
 */
module RegexExpressionProcessor {
  import opened Errors
  import opened JavaLang
  import MathUtils
  import ExpressionParser
  import opened ExpressionConverter
  import opened ExpressionEvaluator
  import ExpressionValidator
  import ExpressionTree

  // ---------------------------------------------------------------------
  // Token tests

  /** isNumber: Double.parseDouble accepts the token. */
  predicate IsNumber(token: string) {
    ParseDouble(token).Ok?
  }

  /** String.contains: `needle` is a prefix of `hay` or of one of its
      suffixes. */
  predicate Contains(hay: string, needle: string)
    decreases |hay|
  {
    needle <= hay || (|hay| > 0 && Contains(hay[1..], needle))
  }

  /** isOperator: the token occurs in the string of the four operator
      characters. */
  predicate IsOperator(token: string) {
    Contains("+-*/", token)
  }

  /** Containment accepts the empty string and the runs of adjacent
      operator characters, not only the four operators. */
  lemma OperatorTokens(token: string)
    ensures IsOperator(token) <==>
      token in {"", "+", "-", "*", "/", "+-", "-*", "*/", "+-*", "-*/", "+-*/"}
  {
    assert "+-*/"[1..] == "-*/" && "-*/"[1..] == "*/" && "*/"[1..] == "/" && "/"[1..] == "";
    assert Contains("+-*/", token) <==>
      token <= "+-*/" || token <= "-*/" || token <= "*/" || token <= "/" || token <= "";
    if |token| == 1 {
      assert "+-*/"[..1] == "+" && "-*/"[..1] == "-" && "*/"[..1] == "*";
      assert IsOperator(token) <==> token == "+" || token == "-" || token == "*" || token == "/";
    } else if |token| == 2 {
      assert "+-*/"[..2] == "+-" && "-*/"[..2] == "-*" && "*/"[..2] == "*/";
      assert IsOperator(token) <==> token == "+-" || token == "-*" || token == "*/";
    } else if |token| == 3 {
      assert "+-*/"[..3] == "+-*" && "-*/"[..3] == "-*/";
      assert IsOperator(token) <==> token == "+-*" || token == "-*/";
    } else if |token| == 4 {
      assert IsOperator(token) <==> token == "+-*/";
    }
  }

  /** On a non-empty token that is one character or made of numeral
      characters after its first, containment and the core's test agree. */
  lemma OperatorOnTokens(token: string)
    requires |token| == 1 || (|token| > 1 && MathUtils.IsNumeralChar(token[1]))
    ensures IsOperator(token) <==> MathUtils.IsOperator(token)
  {
    OperatorTokens(token);
    if |token| > 1 {
      assert token[1] != '+' && token[1] != '-' && token[1] != '*' && token[1] != '/';
    } else {
      assert MathUtils.IsOperator(token) <==> token in {"+", "-", "*", "/"};
    }
  }

  // ---------------------------------------------------------------------
  // tokenize

  /** The end of the run of digits and `.` that starts at `i`. */
  function NumeralEnd(s: string, i: nat): (j: nat)
    requires i <= |s|
    ensures i <= j <= |s|
    ensures forall k | i <= k < j :: MathUtils.IsNumeralChar(s[k])
    ensures j == |s| || !MathUtils.IsNumeralChar(s[j])
    decreases |s| - i
  {
    if i < |s| && MathUtils.IsNumeralChar(s[i]) then NumeralEnd(s, i + 1) else i
  }

  /** A `-` starts a number when nothing precedes it or an operator does,
      by the containment test. */
  predicate SignPosition(tokens: seq<string>) {
    tokens == [] || IsOperator(tokens[|tokens| - 1])
  }

  /** Where one iteration of the loop leaves the position and the tokens. */
  datatype Step = Step(next: nat, tokens: seq<string>)

  /** A character the tokenizer accepts. */
  predicate Tokenizable(c: char) {
    IsWhitespace(c) || MathUtils.IsOperatorChar(c) || MathUtils.IsNumeralChar(c)
  }

  /** A token the tokenizer builds: one operator character, or a numeral
      run with an optional leading `-`. */
  predicate TokenShaped(t: string) {
    MathUtils.IsOperator(t) || MathUtils.IsNumberShaped(t)
  }

  /** One iteration on an accepted character: whitespace is skipped, a `-`
      in sign position takes the numeral run after it, another operator
      character is a token of its own, a numeral character starts a run. */
  function Advance(expr: string, i: nat, tokens: seq<string>): (r: Step)
    requires i < |expr| && Tokenizable(expr[i])
    ensures i < r.next <= |expr|
    ensures IsWhitespace(expr[i]) ==> r == Step(i + 1, tokens)
    ensures !IsWhitespace(expr[i]) ==> r.tokens == tokens + [expr[i..r.next]]
  {
    var c := expr[i];
    if IsWhitespace(c) then Step(i + 1, tokens)
    else if MathUtils.IsOperatorChar(c) then
      if c == '-' && SignPosition(tokens) then
        var j := NumeralEnd(expr, i + 1);
        Step(j, tokens + [expr[i..j]])
      else
        assert expr[i..i + 1] == [c];
        Step(i + 1, tokens + [[c]])
    else
      var j := NumeralEnd(expr, i);
      Step(j, tokens + [expr[i..j]])
  }

  /** The token an iteration adds is shaped as an operator or a numeral and
      holds no whitespace. */
  lemma AdvanceToken(expr: string, i: nat, tokens: seq<string>)
    requires i < |expr| && Tokenizable(expr[i]) && !IsWhitespace(expr[i])
    ensures var j := Advance(expr, i, tokens).next;
      && TokenShaped(expr[i..j])
      && forall k | i <= k < j :: !IsWhitespace(expr[k])
  {
  }

  /** The tokenizer loop from position `i` with the tokens found so far; a
      character outside its alphabet throws "Unknown operator". */
  function TokenizeFrom(expr: string, i: nat, tokens: seq<string>): Result<seq<string>>
    requires i <= |expr|
    decreases |expr| - i
  {
    if i == |expr| then Ok(tokens)
    else if !Tokenizable(expr[i]) then Err(UnknownOperator)
    else
      var step := Advance(expr, i, tokens);
      TokenizeFrom(expr, step.next, step.tokens)
  }

  function Tokens(expr: string): Result<seq<string>> {
    TokenizeFrom(expr, 0, [])
  }

  /** tokenize, as the source writes it. */
  method Tokenize(expr: string) returns (r: Result<seq<string>>)
    ensures r == Tokens(expr)
  {
    var tokens: seq<string> := [];
    var i := 0;
    while i < |expr|
      invariant i <= |expr|
      invariant TokenizeFrom(expr, i, tokens) == Tokens(expr)
      decreases |expr| - i
    {
      var c := expr[i];
      if IsWhitespace(c) {
        i := i + 1;
        continue;
      }
      if MathUtils.IsOperatorChar(c) {
        if c == '-' {
          if tokens == [] || IsOperator(tokens[|tokens| - 1]) {
            var start := i;
            i := i + 1;
            i := ScanNumeral(expr, i);
            tokens := tokens + [expr[start..i]];
            continue;
          }
        }
        tokens := tokens + [[c]];
        i := i + 1;
      } else if MathUtils.IsNumeralChar(c) {
        var start := i;
        i := ScanNumeral(expr, i);
        tokens := tokens + [expr[start..i]];
      } else {
        return Err(UnknownOperator);
      }
    }
    return Ok(tokens);
  }

  /** The inner loops of tokenize: the cursor passes digits and `.`. */
  method ScanNumeral(expr: string, start: nat) returns (i: nat)
    requires start <= |expr|
    ensures i == NumeralEnd(expr, start)
  {
    i := start;
    while i < |expr| && MathUtils.IsNumeralChar(expr[i])
      invariant start <= i <= |expr|
      invariant NumeralEnd(expr, i) == NumeralEnd(expr, start)
      decreases |expr| - i
    {
      i := i + 1;
    }
  }

  lemma {:induction false} WithoutWhitespaceRun(s: string, n: nat)
    requires n <= |s| && forall k | 0 <= k < n :: !IsWhitespace(s[k])
    ensures ExpressionParser.WithoutWhitespace(s) == s[..n] + ExpressionParser.WithoutWhitespace(s[n..])
    decreases n
  {
    if n > 0 {
      WithoutWhitespaceRun(s[1..], n - 1);
      assert s[1..][..n - 1] == s[1..n] && s[1..][n - 1..] == s[n..];
      assert s[..n] == [s[0]] + s[1..n];
    }
  }

  lemma WithoutWhitespaceFrom(expr: string, i: nat, j: nat)
    requires i <= j <= |expr| && forall k | i <= k < j :: !IsWhitespace(expr[k])
    ensures ExpressionParser.WithoutWhitespace(expr[i..])
      == expr[i..j] + ExpressionParser.WithoutWhitespace(expr[j..])
  {
    WithoutWhitespaceRun(expr[i..], j - i);
    assert expr[i..][..j - i] == expr[i..j] && expr[i..][j - i..] == expr[j..];
  }

  /** The tokenizer fails exactly on a character outside its alphabet, and
      then with "Unknown operator". */
  lemma {:induction false} TokenizeFromFails(expr: string, i: nat, tokens: seq<string>)
    requires i <= |expr|
    ensures TokenizeFrom(expr, i, tokens).Ok? <==> forall k | i <= k < |expr| :: Tokenizable(expr[k])
    ensures TokenizeFrom(expr, i, tokens).Err? ==> TokenizeFrom(expr, i, tokens).error == UnknownOperator
    decreases |expr| - i
  {
    if i < |expr| && Tokenizable(expr[i]) {
      var step := Advance(expr, i, tokens);
      TokenizeFromFails(expr, step.next, step.tokens);
      if forall k | step.next <= k < |expr| :: Tokenizable(expr[k]) {
        forall k | i <= k < |expr| ensures Tokenizable(expr[k]) {
          if k < step.next && !IsWhitespace(expr[i]) {
            AdvanceToken(expr, i, tokens);
            assert expr[i..step.next][k - i] == expr[k];
          }
        }
      }
    }
  }

  /** On success the tokens found so far stay in front and every new
      token is shaped as an operator or a numeral. */
  lemma {:induction false} TokenizeFromShapes(expr: string, i: nat, tokens: seq<string>)
    requires i <= |expr| && TokenizeFrom(expr, i, tokens).Ok?
    ensures var ts := TokenizeFrom(expr, i, tokens).value;
      && |ts| >= |tokens| && ts[..|tokens|] == tokens
      && (forall k | |tokens| <= k < |ts| :: TokenShaped(ts[k]))
    decreases |expr| - i
  {
    if i < |expr| {
      var step := Advance(expr, i, tokens);
      assert TokenizeFrom(expr, i, tokens) == TokenizeFrom(expr, step.next, step.tokens);
      TokenizeFromShapes(expr, step.next, step.tokens);
      var ts := TokenizeFrom(expr, i, tokens).value;
      assert ts[..|tokens|] == ts[..|step.tokens|][..|tokens|];
      if !IsWhitespace(expr[i]) {
        AdvanceToken(expr, i, tokens);
        assert ts[|tokens|] == step.tokens[|tokens|];
      }
    }
  }

  /** On success the new tokens spell the rest of the input without its
      whitespace. */
  lemma {:induction false} TokenizeFromSpells(expr: string, i: nat, tokens: seq<string>)
    requires i <= |expr| && TokenizeFrom(expr, i, tokens).Ok?
    ensures ExpressionParser.Concat(TokenizeFrom(expr, i, tokens).value)
      == ExpressionParser.Concat(tokens) + ExpressionParser.WithoutWhitespace(expr[i..])
    decreases |expr| - i
  {
    if i == |expr| {
      assert expr[i..] == [];
    } else {
      var step := Advance(expr, i, tokens);
      assert TokenizeFrom(expr, i, tokens) == TokenizeFrom(expr, step.next, step.tokens);
      TokenizeFromSpells(expr, step.next, step.tokens);
      AdvanceSpells(expr, i, tokens);
    }
  }

  /** One iteration moves the characters it consumes, whitespace dropped,
      into the tokens. */
  lemma AdvanceSpells(expr: string, i: nat, tokens: seq<string>)
    requires i < |expr| && Tokenizable(expr[i])
    ensures var step := Advance(expr, i, tokens);
      ExpressionParser.Concat(step.tokens) + ExpressionParser.WithoutWhitespace(expr[step.next..])
      == ExpressionParser.Concat(tokens) + ExpressionParser.WithoutWhitespace(expr[i..])
  {
    var step := Advance(expr, i, tokens);
    var rest := ExpressionParser.WithoutWhitespace(expr[step.next..]);
    var before := ExpressionParser.Concat(tokens);
    if IsWhitespace(expr[i]) {
      assert expr[i..][1..] == expr[i + 1..];
      assert ExpressionParser.WithoutWhitespace(expr[i..]) == rest;
    } else {
      var t := expr[i..step.next];
      assert ExpressionParser.Concat(step.tokens) == before + t by {
        assert step.tokens[..|step.tokens| - 1] == tokens;
      }
      AdvanceToken(expr, i, tokens);
      WithoutWhitespaceFrom(expr, i, step.next);
      assert (before + t) + rest == before + (t + rest);
    }
  }

  lemma TokensFacts(expr: string)
    ensures Tokens(expr).Ok? <==> forall k | 0 <= k < |expr| :: Tokenizable(expr[k])
    ensures Tokens(expr).Err? ==> Tokens(expr).error == UnknownOperator
    ensures Tokens(expr).Ok? ==>
      && (forall t | t in Tokens(expr).value :: TokenShaped(t))
      && ExpressionParser.Concat(Tokens(expr).value) == ExpressionParser.WithoutWhitespace(expr)
  {
    TokenizeFromFails(expr, 0, []);
    if Tokens(expr).Ok? {
      TokenizeFromShapes(expr, 0, []);
      TokenizeFromSpells(expr, 0, []);
      assert expr[0..] == expr;
    }
  }

  // ---------------------------------------------------------------------
  // toRPN

  /** One iteration of toRPN's loop: numbers go to the output; an operator
      first moves the stacked operators of at least its precedence, then is
      pushed; any other token throws "Unknown operator". */
  function RpnStep(st: Shunt, token: string): Result<Shunt> {
    if IsNumber(token) then Ok(Shunt(st.output + [token], st.ops))
    else if IsOperator(token) then
      var p := PopHigher(IsOperator, st, token);
      Ok(Shunt(p.output, p.ops + [token]))
    else Err(UnknownOperator)
  }

  function RpnRun(st: Shunt, tokens: seq<string>): Result<Shunt>
    decreases |tokens|
  {
    if tokens == [] then Ok(st)
    else
      match RpnStep(st, tokens[0])
      case Err(e) => Err(e)
      case Ok(next) => RpnRun(next, tokens[1..])
  }

  /** The final loop: the whole stack goes to the output, top first, with no
      check for what it holds. */
  function PopAll(st: Shunt): (r: seq<string>)
    ensures |r| == |st.output| + |st.ops| && r[..|st.output|] == st.output
    ensures multiset(r) == multiset(st.output) + multiset(st.ops)
    decreases |st.ops|
  {
    if |st.ops| == 0 then st.output
    else
      var r := PopAll(Move(st));
      assert st.ops == Below(st.ops) + [Top(st.ops)];
      assert r[..|st.output|] == r[..|st.output| + 1][..|st.output|];
      r
  }

  /** What toRPN returns or throws. */
  function Rpn(tokens: seq<string>): Result<seq<string>> {
    match RpnRun(Empty, tokens)
    case Err(e) => Err(e)
    case Ok(st) => Ok(PopAll(st))
  }

  /** toRPN, as the source writes it. */
  method ToRPN(tokens: seq<string>) returns (r: Result<seq<string>>)
    ensures r == Rpn(tokens)
  {
    var output: seq<string> := [];
    var stack: seq<string> := [];
    for i := 0 to |tokens|
      invariant RpnRun(Empty, tokens) == RpnRun(Shunt(output, stack), tokens[i..])
    {
      var token := tokens[i];
      assert tokens[i..] == [token] + tokens[i + 1..];
      if IsNumber(token) {
        output := output + [token];
      } else if IsOperator(token) {
        ghost var before := Shunt(output, stack);
        while |stack| > 0 && IsOperator(stack[|stack| - 1])
            && MathUtils.Precedence(stack[|stack| - 1]) >= MathUtils.Precedence(token)
          invariant PopHigher(IsOperator, Shunt(output, stack), token) == PopHigher(IsOperator, before, token)
          decreases |stack|
        {
          output := output + [stack[|stack| - 1]];
          stack := stack[..|stack| - 1];
        }
        stack := stack + [token];
      } else {
        return Err(UnknownOperator);
      }
    }
    assert tokens[|tokens|..] == [];
    ghost var last := Shunt(output, stack);
    while |stack| > 0
      invariant PopAll(last) == PopAll(Shunt(output, stack))
      decreases |stack|
    {
      output := output + [stack[|stack| - 1]];
      stack := stack[..|stack| - 1];
    }
    return Ok(output);
  }

  /** toRPN fails exactly when some token is neither a number nor an
      operator by the containment test, and then with "Unknown operator". */
  lemma {:induction false} RpnRunAccepts(st: Shunt, tokens: seq<string>)
    ensures RpnRun(st, tokens).Ok? <==> forall t | t in tokens :: IsNumber(t) || IsOperator(t)
    ensures RpnRun(st, tokens).Err? ==> RpnRun(st, tokens).error == UnknownOperator
    decreases |tokens|
  {
    if tokens != [] {
      assert forall t | t in tokens :: t == tokens[0] || t in tokens[1..];
      if RpnStep(st, tokens[0]).Ok? {
        RpnRunAccepts(RpnStep(st, tokens[0]).value, tokens[1..]);
      }
    }
  }

  lemma RpnAccepts(tokens: seq<string>)
    ensures Rpn(tokens).Ok? <==> forall t | t in tokens :: IsNumber(t) || IsOperator(t)
    ensures Rpn(tokens).Err? ==> Rpn(tokens).error == UnknownOperator
  {
    RpnRunAccepts(Empty, tokens);
  }

  /** PopHigher only moves tokens from the stack to the output. */
  lemma {:induction false} PopHigherKeeps(isOperator: string -> bool, st: Shunt, token: string)
    ensures var p := PopHigher(isOperator, st, token);
      multiset(p.output) + multiset(p.ops) == multiset(st.output) + multiset(st.ops)
    decreases |st.ops|
  {
    if |st.ops| > 0 && isOperator(Top(st.ops)) && MathUtils.Precedence(Top(st.ops)) >= MathUtils.Precedence(token) {
      assert st.ops == Below(st.ops) + [Top(st.ops)];
      PopHigherKeeps(isOperator, Move(st), token);
    }
  }

  lemma {:induction false} RpnRunKeeps(st: Shunt, tokens: seq<string>, r: Shunt)
    requires RpnRun(st, tokens).Ok? && RpnRun(st, tokens).value == r
    ensures multiset(r.output) + multiset(r.ops) == multiset(st.output) + multiset(st.ops) + multiset(tokens)
    decreases |tokens|
  {
    if tokens != [] {
      var t, rest := tokens[0], tokens[1..];
      var next := RpnStep(st, t).value;
      RpnStepKeeps(st, t);
      RpnRunKeeps(next, rest, r);
      assert tokens == [t] + rest;
      assert multiset(tokens) == multiset{t} + multiset(rest);
    }
  }

  /** One successful step moves the token into the output or onto the stack. */
  lemma RpnStepKeeps(st: Shunt, token: string)
    requires RpnStep(st, token).Ok?
    ensures var next := RpnStep(st, token).value;
      multiset(next.output) + multiset(next.ops) == multiset(st.output) + multiset(st.ops) + multiset{token}
  {
    PopHigherKeeps(IsOperator, st, token);
  }

  /** On success the output is a permutation of the input tokens. */
  lemma RpnPermutes(tokens: seq<string>)
    requires Rpn(tokens).Ok?
    ensures multiset(Rpn(tokens).value) == multiset(tokens)
  {
    RpnRunKeeps(Empty, tokens, RpnRun(Empty, tokens).value);
  }

  // ---------------------------------------------------------------------
  // toRPN against infixToPostfix: on numbers and the four operators the
  // containment test changes nothing.

  predicate CoreOperators(ops: seq<string>) {
    forall t | t in ops :: MathUtils.IsOperator(t)
  }

  predicate NumbersAndOperators(tokens: seq<string>) {
    forall t | t in tokens :: IsNumber(t) || MathUtils.IsOperator(t)
  }

  lemma {:induction false} PopHigherAgrees(st: Shunt, token: string)
    requires CoreOperators(st.ops)
    ensures PopHigher(IsOperator, st, token) == PopHigher(MathUtils.IsOperator, st, token)
    ensures CoreOperators(PopHigher(IsOperator, st, token).ops)
    decreases |st.ops|
  {
    if |st.ops| > 0 {
      assert Top(st.ops) in st.ops;
      OperatorOnTokens(Top(st.ops));
      assert forall t | t in Below(st.ops) :: t in st.ops;
      PopHigherAgrees(Move(st), token);
    }
  }

  lemma {:induction false} RunAgrees(st: Shunt, tokens: seq<string>)
    requires CoreOperators(st.ops) && NumbersAndOperators(tokens)
    ensures RpnRun(st, tokens).Ok? && ShuntRun(MathUtils.IsNumber, st, tokens).Ok?
    ensures RpnRun(st, tokens).value == ShuntRun(MathUtils.IsNumber, st, tokens).value
    ensures CoreOperators(RpnRun(st, tokens).value.ops)
    decreases |tokens|
  {
    if tokens != [] {
      var t := tokens[0];
      assert t in tokens;
      assert forall u | u in tokens[1..] :: u in tokens;
      if !IsNumber(t) {
        OperatorOnTokens(t);
        PopHigherAgrees(st, t);
      }
      var next := RpnStep(st, t).value;
      assert ShuntStep(MathUtils.IsNumber, st, t).Ok? && ShuntStep(MathUtils.IsNumber, st, t).value == next;
      RunAgrees(next, tokens[1..]);
    }
  }

  lemma {:induction false} DrainAgrees(st: Shunt)
    requires CoreOperators(st.ops)
    ensures Drain(st).Ok? && Drain(st).value == PopAll(st)
    decreases |st.ops|
  {
    if |st.ops| > 0 {
      assert Top(st.ops) in st.ops;
      assert forall t | t in Below(st.ops) :: t in st.ops;
      DrainAgrees(Move(st));
    }
  }

  /** On tokens that are numbers or the four operators, toRPN returns what
      infixToPostfix returns; so its output keeps the numbers in order and is
      a valid postfix form. */
  lemma RpnAgreesWithPostfix(tokens: seq<string>)
    requires NumbersAndOperators(tokens)
    ensures Rpn(tokens).Ok? && Postfix(tokens).Ok?
    ensures Rpn(tokens).value == Postfix(tokens).value
  {
    RunAgrees(Empty, tokens);
    DrainAgrees(RpnRun(Empty, tokens).value);
  }

  // ---------------------------------------------------------------------
  // evalRPN and evalExpression

  /** evalRPN: this processor's tests, "Unknown operator" for a stray
      token and for the switch's default case, "Invalid expression" for a
      leftover stack. */
  const Regex := Dialect(IsNumber, IsOperator, t => UnknownOperator, t => UnknownOperator, InvalidExpression)

  lemma {:induction false} EvalRunAgrees(stack: seq<real>, tokens: seq<string>)
    requires NumbersAndOperators(tokens)
    ensures EvalRun(Regex, stack, tokens) == EvalRun(Core, stack, tokens)
    decreases |tokens|
  {
    if tokens != [] {
      var t := tokens[0];
      assert t in tokens;
      assert forall u | u in tokens[1..] :: u in tokens;
      if !IsNumber(t) {
        OperatorOnTokens(t);
      }
      assert EvalStep(Regex, stack, t) == EvalStep(Core, stack, t);
      if EvalStep(Core, stack, t).Ok? {
        EvalRunAgrees(EvalStep(Core, stack, t).value, tokens[1..]);
      }
    }
  }

  /** On numbers and the four operators evalRPN computes what the core
      evaluator computes, values and errors alike. */
  lemma EvalAgrees(tokens: seq<string>)
    requires NumbersAndOperators(tokens)
    ensures PostfixValueWith(Regex, tokens) == PostfixValue(tokens)
  {
    EvalRunAgrees([], tokens);
  }

  /** tokenize, toRPN and evalRPN in turn; the first exception ends the
      pipeline. */
  function Evaluate(expr: string): Result<real> {
    var tokens :- Tokens(expr);
    var rpn :- Rpn(tokens);
    PostfixValueWith(Regex, rpn)
  }

  /** evalExpression, as the source writes it. */
  method EvalExpression(expr: string) returns (r: Result<real>)
    ensures r == Evaluate(expr)
  {
    var tokens := Tokenize(expr);
    if tokens.Err? {
      return Err(tokens.error);
    }
    var rpn := ToRPN(tokens.value);
    if rpn.Err? {
      return Err(rpn.error);
    }
    r := EvaluatePostfix(Regex, rpn.value);
  }

  /** When the text tokenizes, the pipeline either fails on a numeral that
      is not a number with "Unknown operator", or agrees with the core
      converter and evaluator run on the same tokens. */
  lemma EvaluateAgrees(expr: string)
    requires Tokens(expr).Ok?
    ensures var ts := Tokens(expr).value;
      && (NumbersAndOperators(ts) ==> Postfix(ts).Ok? && Evaluate(expr) == PostfixValue(Postfix(ts).value))
      && (!NumbersAndOperators(ts) ==> Evaluate(expr).Err? && Evaluate(expr).error == UnknownOperator)
  {
    var ts := Tokens(expr).value;
    TokensFacts(expr);
    RpnAccepts(ts);
    if NumbersAndOperators(ts) {
      RpnAgreesWithPostfix(ts);
      PostfixPermutes(MathUtils.IsNumber, ts);
      NumberSeparates();
      var rpn := Rpn(ts).value;
      assert NumbersAndOperators(rpn) by {
        forall t | t in rpn ensures IsNumber(t) || MathUtils.IsOperator(t) {
          assert t in Postfix(ts).value;
        }
      }
      EvalAgrees(rpn);
    } else {
      var t :| t in ts && !IsNumber(t) && !MathUtils.IsOperator(t);
      assert TokenShaped(t);
      OperatorOnTokens(t);
    }
  }

  // ---------------------------------------------------------------------
  // INNER_BRACKETS_PATTERN, `\(([^()]+)\)`

  predicate ParenChar(c: char) {
    c == '(' || c == ')'
  }

  /** A match of the bracket pattern over s[start..end]: a `(`, one or more
      characters that are no parenthesis, a `)`. */
  predicate InnerGroup(s: string, start: nat, end: nat) {
    && start + 3 <= end <= |s| && s[start] == '(' && s[end - 1] == ')'
    && forall k | start < k < end - 1 :: !ParenChar(s[k])
  }

  /** The first parenthesis at or after `i`, or the end of `s`. */
  function NextParen(s: string, i: nat): (j: nat)
    requires i <= |s|
    ensures i <= j <= |s|
    ensures forall k | i <= k < j :: !ParenChar(s[k])
    ensures j == |s| || ParenChar(s[j])
    decreases |s| - i
  {
    if i == |s| || ParenChar(s[i]) then i else NextParen(s, i + 1)
  }

  /** Where the match that starts at `start` ends, if there is one:
      `[^()]+` runs up to the next parenthesis, which has to be a `)`. */
  function GroupEnd(s: string, start: nat): (r: Option<nat>)
    requires start < |s|
    ensures r.Some? ==> InnerGroup(s, start, r.value)
  {
    if s[start] != '(' then None
    else
      var j := NextParen(s, start + 1);
      if j < |s| && s[j] == ')' && j > start + 1 then Some(j + 1) else None
  }

  /** Every group that starts at `start` is the one GroupEnd finds. */
  lemma GroupEndFinds(s: string, start: nat, end: nat)
    requires start < |s| && InnerGroup(s, start, end)
    ensures GroupEnd(s, start) == Some(end)
  {
  }

  /** A match: s[start..end]. */
  datatype Match = Match(start: nat, end: nat)

  /** Matcher.find from `from` on a text of length `n`, for a pattern
      whose match at each start, if any, is `matchAt` of that start: the
      leftmost start that has one. */
  function FirstMatch(matchAt: nat -> Option<nat>, from: nat, n: nat): (r: Option<Match>)
    requires from <= n
    ensures r.Some? ==> from <= r.value.start < n
    ensures r.Some? ==> matchAt(r.value.start).Some? && matchAt(r.value.start).value == r.value.end
    decreases n - from
  {
    if from == n then None
    else
      match matchAt(from)
      case Some(e) => Some(Match(from, e))
      case None => FirstMatch(matchAt, from + 1, n)
  }

  /** No start before the one found has a match; when none is found, no
      start has one. */
  lemma {:induction false} FirstMatchLeftmost(matchAt: nat -> Option<nat>, from: nat, n: nat)
    requires from <= n
    ensures var r := FirstMatch(matchAt, from, n);
      && (r.Some? ==> forall p | from <= p < r.value.start :: matchAt(p).None?)
      && (r.None? ==> forall p | from <= p < n :: matchAt(p).None?)
    decreases n - from
  {
    if from < n && matchAt(from).None? {
      FirstMatchLeftmost(matchAt, from + 1, n);
    }
  }

  /** The bracket pattern at each start of `s`. */
  function GroupAt(s: string): nat -> Option<nat> {
    (p: nat) => if p < |s| then GroupEnd(s, p) else None
  }

  /** Matcher.find from `from` with the bracket pattern. */
  function FindGroup(s: string, from: nat): (r: Option<Match>)
    requires from <= |s|
    ensures r.Some? ==> from <= r.value.start && InnerGroup(s, r.value.start, r.value.end)
  {
    FirstMatch(GroupAt(s), from, |s|)
  }

  /** The match found is the leftmost one, and when none is found there is
      no group from `from` on. */
  lemma FindGroupLeftmost(s: string, from: nat)
    requires from <= |s|
    ensures var r := FindGroup(s, from);
      && (r.Some? ==> forall p: nat, e: nat | from <= p < r.value.start :: !InnerGroup(s, p, e))
      && (r.None? ==> forall p: nat, e: nat | from <= p :: !InnerGroup(s, p, e))
  {
    FirstMatchLeftmost(GroupAt(s), from, |s|);
    var r := FindGroup(s, from);
    forall p: nat, e: nat | from <= p && (r.Some? ==> p < r.value.start) && InnerGroup(s, p, e)
      ensures false
    {
      assert GroupAt(s)(p) == GroupEnd(s, p);
      GroupEndFinds(s, p, e);
    }
  }

  /** What a group is replaced by, given its contents: its value when they
      are plain arithmetic and evaluate, the group itself otherwise. */
  function Replacement(inner: string): string {
    if ExpressionValidator.IsValidMathExpression(ExpressionValidator.IsMathChar, inner) then
      match Evaluate(inner)
      case Ok(v) => MathUtils.FormatDouble(v)
      case Err(_) => "(" + inner + ")"
    else "(" + inner + ")"
  }

  /** The group is kept exactly when its contents are not plain arithmetic
      or do not evaluate; otherwise it becomes the formatted value. */
  lemma ReplacementKeeps(inner: string)
    ensures Replacement(inner) != "(" + inner + ")" <==>
      ExpressionValidator.IsValidMathExpression(ExpressionValidator.IsMathChar, inner) && Evaluate(inner).Ok?
    ensures Replacement(inner) != "(" + inner + ")" ==>
      Replacement(inner) == MathUtils.FormatDouble(Evaluate(inner).value)
  {
    if ExpressionValidator.IsValidMathExpression(ExpressionValidator.IsMathChar, inner) && Evaluate(inner).Ok? {
      assert MathUtils.FormatDouble(Evaluate(inner).value)[0] != '(';
    }
  }

  /** The number of parentheses in `s`. */
  function ParenCount(s: string): nat {
    multiset(s)['('] + multiset(s)[')']
  }

  lemma NoParens(s: string)
    requires forall k | 0 <= k < |s| :: !ParenChar(s[k])
    ensures ParenCount(s) == 0
  {
    assert '(' !in s && ')' !in s;
  }

  /** A replacement rule that keeps a group or removes every parenthesis. */
  ghost predicate KeepsOrClears(rep: string -> string) {
    forall inner :: rep(inner) == "(" + inner + ")" || ParenCount(rep(inner)) == 0
  }

  lemma KeepsOrClearsAt(rep: string -> string, inner: string)
    requires KeepsOrClears(rep)
    ensures rep(inner) == "(" + inner + ")" || ParenCount(rep(inner)) == 0
  {
  }

  lemma ReplacementClears()
    ensures KeepsOrClears(Replacement)
  {
    forall inner
      ensures Replacement(inner) == "(" + inner + ")" || ParenCount(Replacement(inner)) == 0
    {
      if ExpressionValidator.IsValidMathExpression(ExpressionValidator.IsMathChar, inner) && Evaluate(inner).Ok? {
        var r := MathUtils.FormatDouble(Evaluate(inner).value);
        assert forall k | 0 <= k < |r| :: r[k] == '-' || MathUtils.IsNumeralChar(r[k]);
        NoParens(r);
      }
    }
  }

  /** The state the do-while body leaves: the rebuilt text and `found`. */
  datatype Pass = Pass(text: string, found: bool)

  /** The find loop from `lastEnd` with replacement rule `rep`: the text
      before each match, then the replacement of the match's contents, then
      what follows the last match; `found` says that some replacement
      differs from its group. */
  function PassWith(rep: string -> string, s: string, lastEnd: nat): Pass
    requires lastEnd <= |s|
    decreases |s| - lastEnd
  {
    match FindGroup(s, lastEnd)
    case None => Pass(s[lastEnd..], false)
    case Some(m) =>
      var r := rep(s[m.start + 1..m.end - 1]);
      var rest := PassWith(rep, s, m.end);
      Pass(s[lastEnd..m.start] + r + rest.text, rest.found || r != s[m.start..m.end])
  }

  /** One match of the find loop. */
  lemma PassStep(rep: string -> string, s: string, lastEnd: nat, m: Match, r: string)
    requires lastEnd <= |s| && FindGroup(s, lastEnd).Some? && FindGroup(s, lastEnd).value == m
    requires r == rep(s[m.start + 1..m.end - 1])
    ensures PassWith(rep, s, lastEnd).text == s[lastEnd..m.start] + r + PassWith(rep, s, m.end).text
    ensures PassWith(rep, s, lastEnd).found == (PassWith(rep, s, m.end).found || r != s[m.start..m.end])
  {
  }

  /** The pass of the source's do-while loop. */
  function PassFrom(s: string, lastEnd: nat): Pass
    requires lastEnd <= |s|
  {
    PassWith(Replacement, s, lastEnd)
  }

  /** A group holds two parentheses around a contents with none. */
  lemma GroupParens(s: string, m: Match)
    requires InnerGroup(s, m.start, m.end)
    ensures s[m.start..m.end] == "(" + s[m.start + 1..m.end - 1] + ")"
    ensures ParenCount(s[m.start + 1..m.end - 1]) == 0
    ensures ParenCount(s[m.start..m.end]) == 2
  {
    var inner := s[m.start + 1..m.end - 1];
    assert s[m.start..m.end] == "(" + inner + ")";
    NoParens(inner);
  }

  /** A pass that changes something removes at least two parentheses; one
      that changes nothing gives back the text. */
  lemma {:induction false} PassParens(rep: string -> string, s: string, lastEnd: nat)
    requires lastEnd <= |s| && KeepsOrClears(rep)
    ensures PassShrinks(s[lastEnd..], PassWith(rep, s, lastEnd))
    decreases |s| - lastEnd
  {
    var found := FindGroup(s, lastEnd);
    if found.Some? {
      var m := found.value;
      PassParens(rep, s, m.end);
      var inner := s[m.start + 1..m.end - 1];
      KeepsOrClearsAt(rep, inner);
      PassParensMatch(rep, s, lastEnd, m, rep(inner));
    }
  }

  /** The first match of a pass, given what the pass after it gives. */
  lemma PassParensMatch(rep: string -> string, s: string, lastEnd: nat, m: Match, r: string)
    requires lastEnd <= |s| && FindGroup(s, lastEnd).Some? && FindGroup(s, lastEnd).value == m
    requires r == rep(s[m.start + 1..m.end - 1])
    requires r == "(" + s[m.start + 1..m.end - 1] + ")" || ParenCount(r) == 0
    requires PassShrinks(s[m.end..], PassWith(rep, s, m.end))
    ensures PassShrinks(s[lastEnd..], PassWith(rep, s, lastEnd))
  {
    PassStep(rep, s, lastEnd, m, r);
    var whole, rest := PassWith(rep, s, lastEnd), PassWith(rep, s, m.end);
    PassParensStep(s, lastEnd, m, r, whole, rest);
  }

  /** What a pass over `text` gives: two parentheses fewer at least when
      something changed, the text itself otherwise. */
  predicate PassShrinks(text: string, pass: Pass) {
    && ParenCount(pass.text) + (if pass.found then 2 else 0) <= ParenCount(text)
    && (!pass.found ==> pass.text == text)
  }

  /** One match of a pass, given what the rest of the pass gives. */
  lemma PassParensStep(s: string, lastEnd: nat, m: Match, r: string, whole: Pass, rest: Pass)
    requires lastEnd <= m.start && InnerGroup(s, m.start, m.end)
    requires r == "(" + s[m.start + 1..m.end - 1] + ")" || ParenCount(r) == 0
    requires whole.text == s[lastEnd..m.start] + r + rest.text
    requires whole.found == (rest.found || r != s[m.start..m.end])
    requires PassShrinks(s[m.end..], rest)
    ensures PassShrinks(s[lastEnd..], whole)
  {
    GroupParens(s, m);
    SliceSplit(s, lastEnd, m.start, m.end);
    CountStep(s[lastEnd..m.start], s[m.start + 1..m.end - 1], r, rest.text, s[m.end..], rest.found);
  }

  /** The counting behind one match: the group's two parentheses go when
      its replacement differs from it. */
  lemma CountStep(before: string, inner: string, r: string, restText: string, tail: string, restFound: bool)
    requires ParenCount(inner) == 0
    requires r == "(" + inner + ")" || ParenCount(r) == 0
    requires ParenCount(restText) + (if restFound then 2 else 0) <= ParenCount(tail)
    requires !restFound ==> restText == tail
    ensures var found := restFound || r != "(" + inner + ")";
      ParenCount(before + r + restText) + (if found then 2 else 0) <= ParenCount(before + ("(" + inner + ")") + tail)
    ensures !(restFound || r != "(" + inner + ")") ==> before + r + restText == before + ("(" + inner + ")") + tail
  {
    var group := "(" + inner + ")";
    assert multiset(group) == multiset{'('} + multiset(inner) + multiset{')'};
  }

  lemma SliceSplit(s: string, i: nat, j: nat, k: nat)
    requires i <= j <= k <= |s|
    ensures s[i..] == s[i..j] + s[j..k] + s[k..]
  {
  }

  lemma GroupsApart(s: string, m: Match, p: nat, e: nat)
    requires InnerGroup(s, m.start, m.end) && InnerGroup(s, p, e) && m.start <= p < m.end
    ensures p == m.start && e == m.end
  {
    GroupEndFinds(s, p, e);
    GroupEndFinds(s, m.start, m.end);
  }

  /** A pass that finds nothing to change leaves every group from `lastEnd`
      on as the rule would: the matches cover every group, because two
      groups never overlap. */
  lemma {:induction false} StableFrom(rep: string -> string, s: string, lastEnd: nat)
    requires lastEnd <= |s| && !PassWith(rep, s, lastEnd).found
    ensures forall p: nat, e: nat | lastEnd <= p && InnerGroup(s, p, e) :: rep(s[p + 1..e - 1]) == s[p..e]
    decreases |s| - lastEnd
  {
    FindGroupLeftmost(s, lastEnd);
    match FindGroup(s, lastEnd)
    case None =>
    case Some(m) =>
      StableFrom(rep, s, m.end);
      forall p: nat, e: nat | lastEnd <= p && InnerGroup(s, p, e) ensures rep(s[p + 1..e - 1]) == s[p..e] {
        if p < m.end {
          GroupsApart(s, m, p, e);
        }
      }
  }

  /** The do-while loop: passes until one changes nothing. It ends because
      every changing pass removes parentheses, and on what it returns every
      innermost group is one its replacement keeps. */
  function Innermost(s: string): (r: string)
    ensures forall p: nat, e: nat | InnerGroup(r, p, e) :: Replacement(r[p + 1..e - 1]) == r[p..e]
    decreases ParenCount(s)
  {
    var pass := PassFrom(s, 0);
    ReplacementClears();
    PassParens(Replacement, s, 0);
    assert s[0..] == s;
    if pass.found then Innermost(pass.text)
    else
      StableFrom(Replacement, s, 0);
      s
  }

  /** The body of the find loop: the replacement, computed as the source
      does, with a failed evaluation caught. */
  method ReplaceGroup(inner: string) returns (replacement: string)
    ensures replacement == Replacement(inner)
  {
    replacement := "(" + inner + ")";
    if ExpressionValidator.IsValidMathExpression(ExpressionValidator.IsMathChar, inner) {
      var value := EvalExpression(inner);
      if value.Ok? {
        replacement := MathUtils.FormatDouble(value.value);
      }
    }
  }

  /** One iteration of the find loop: the text up to the match and the
      replacement, appended to the builder, and whether it changed the
      group. */
  method PassOnce(s: string, lastEnd: nat, m: Match) returns (piece: string, changed: bool)
    requires lastEnd <= |s| && FindGroup(s, lastEnd).Some? && FindGroup(s, lastEnd).value == m
    ensures m.end <= |s|
    ensures PassFrom(s, lastEnd).text == piece + PassFrom(s, m.end).text
    ensures PassFrom(s, lastEnd).found == (PassFrom(s, m.end).found || changed)
  {
    var replacement := ReplaceGroup(s[m.start + 1..m.end - 1]);
    PassStep(Replacement, s, lastEnd, m, replacement);
    piece := s[lastEnd..m.start] + replacement;
    changed := replacement != s[m.start..m.end];
  }

  /** The do-while body, as the source writes it: the find loop with
      appends into a builder. */
  method BracketPass(s: string) returns (text: string, found: bool)
    ensures Pass(text, found) == PassFrom(s, 0)
  {
    var sb := "";
    var lastEnd := 0;
    found := false;
    var m := FindGroup(s, 0);
    while m.Some?
      invariant lastEnd <= |s| && m == FindGroup(s, lastEnd)
      invariant sb + PassFrom(s, lastEnd).text == PassFrom(s, 0).text
      invariant (found || PassFrom(s, lastEnd).found) == PassFrom(s, 0).found
      decreases |s| - lastEnd
    {
      var piece, changed := PassOnce(s, lastEnd, m.value);
      assert (sb + piece) + PassFrom(s, m.value.end).text == sb + (piece + PassFrom(s, m.value.end).text);
      sb := sb + piece;
      lastEnd := m.value.end;
      if changed {
        found := true;
      }
      m := FindGroup(s, lastEnd);
    }
    text := sb + s[lastEnd..];
  }

  // ---------------------------------------------------------------------
  // SIMPLE_EXPR_PATTERN: a number, then one or more tails, each of them
  // optional `\s` characters, an operator character, optional `\s`
  // characters and a number; a number is an optional `-`, digits, and a `.`
  // followed by digits when there is one. Every quantifier of the pattern is
  // greedy and giving back a character never lets a later part match (a
  // shorter digit run leaves a digit next, fewer spaces leave a space), so at
  // each start the match is the maximal munch computed below.

  /** The first position at or after `i` that holds no `\s` character. */
  function SkipSpaces(s: string, i: nat): (j: nat)
    requires i <= |s|
    ensures i <= j <= |s|
    ensures forall k | i <= k < j :: IsRegexSpace(s[k])
    ensures j == |s| || !IsRegexSpace(s[j])
    decreases |s| - i
  {
    if i < |s| && IsRegexSpace(s[i]) then SkipSpaces(s, i + 1) else i
  }

  /** Where the number that starts at `i` ends, if one does: a number needs
      a digit after the optional sign, and takes every digit there is. */
  function NumberEnd(s: string, i: nat): (r: Option<nat>)
    requires i <= |s|
    ensures r.Some? ==> i < r.value <= |s|
  {
    var d := if i < |s| && s[i] == '-' then i + 1 else i;
    var e := SkipDigits(s, d);
    if e == d then None
    else if e + 1 < |s| && s[e] == '.' && IsDigit(s[e + 1]) then Some(SkipDigits(s, e + 1))
    else Some(e)
  }

  /** A number is found exactly when a digit follows the optional sign;
      it is a `-` or a digit, then digits and `.`, ends with a digit and is
      followed by no digit. */
  lemma NumberShape(s: string, i: nat)
    requires i <= |s|
    ensures var r := NumberEnd(s, i);
      && (r.Some? <==> var d := if i < |s| && s[i] == '-' then i + 1 else i; d < |s| && IsDigit(s[d]))
      && (r.Some? ==>
            && IsDigit(s[r.value - 1])
            && (s[i] == '-' || IsDigit(s[i]))
            && (forall k | i < k < r.value :: IsDigit(s[k]) || s[k] == '.')
            && (r.value == |s| || !IsDigit(s[r.value])))
  {
  }

  /** Where the tail that starts at `i` ends, if one does. */
  function TailEnd(s: string, i: nat): (r: Option<nat>)
    requires i <= |s|
    ensures r.Some? ==> i < r.value <= |s|
  {
    var j := SkipSpaces(s, i);
    if j < |s| && MathUtils.IsOperatorChar(s[j]) then NumberEnd(s, SkipSpaces(s, j + 1)) else None
  }

  /** A tail is made of characters of the regex class and ends with a
      digit. */
  lemma TailShape(s: string, i: nat, e: nat)
    requires i <= |s| && TailEnd(s, i).Some? && TailEnd(s, i).value == e
    ensures i < e <= |s| && IsDigit(s[e - 1])
    ensures forall k | i <= k < e :: ExpressionValidator.IsMathChar(s[k])
  {
    var j := SkipSpaces(s, i);
    NumberShape(s, SkipSpaces(s, j + 1));
  }

  /** As many tails as follow `i`: the greedy repetition stops at the first
      position where no tail starts. */
  function TailsEnd(s: string, i: nat): (j: nat)
    requires i <= |s|
    ensures i <= j <= |s|
    decreases |s| - i
  {
    match TailEnd(s, i)
    case None => i
    case Some(e) => TailsEnd(s, e)
  }

  lemma {:induction false} TailsShape(s: string, i: nat, j: nat)
    requires i <= |s| && j == TailsEnd(s, i)
    ensures j > i ==> IsDigit(s[j - 1])
    ensures forall k | i <= k < j :: ExpressionValidator.IsMathChar(s[k])
    decreases |s| - i
  {
    var t := TailEnd(s, i);
    if t.Some? {
      var e := t.value;
      TailsEndStep(s, i, e);
      TailShape(s, i, e);
      TailsShape(s, e, j);
      MathCharsJoin(s, i, e, j);
    }
  }

  /** After a tail the repetition goes on from its end. */
  lemma TailsEndStep(s: string, i: nat, e: nat)
    requires i <= |s| && TailEnd(s, i).Some? && TailEnd(s, i).value == e
    ensures e <= |s| && TailsEnd(s, i) == TailsEnd(s, e)
  {
  }

  /** Two adjacent runs of class characters, the first ending with a digit,
      make one such run. */
  lemma MathCharsJoin(s: string, i: nat, e: nat, j: nat)
    requires i < e <= j <= |s| && IsDigit(s[e - 1])
    requires forall k | i <= k < e :: ExpressionValidator.IsMathChar(s[k])
    requires j > e ==> IsDigit(s[j - 1])
    requires forall k | e <= k < j :: ExpressionValidator.IsMathChar(s[k])
    ensures IsDigit(s[j - 1]) && forall k | i <= k < j :: ExpressionValidator.IsMathChar(s[k])
  {
  }

  /** What a match of the pattern looks like: characters of the regex
      class only, a `-` or a digit first, a digit last. */
  predicate SimpleShaped(t: string) {
    && ExpressionValidator.IsValidMathExpression(ExpressionValidator.IsMathChar, t)
    && (t[0] == '-' || IsDigit(t[0])) && IsDigit(t[|t| - 1])
  }

  /** Where the match that starts at `p` ends, if there is one: a number
      and at least one tail. */
  function SimpleEnd(s: string, p: nat): (r: Option<nat>)
    requires p <= |s|
    ensures r.Some? ==> p < r.value <= |s|
  {
    match NumberEnd(s, p)
    case None => None
    case Some(e) =>
      var t := TailsEnd(s, e);
      if t == e then None else Some(t)
  }

  /** The repetition of tails ends where no tail starts. */
  lemma {:induction false} TailsMaximal(s: string, i: nat)
    requires i <= |s|
    ensures TailEnd(s, TailsEnd(s, i)).None?
    decreases |s| - i
  {
    var t := TailEnd(s, i);
    if t.Some? {
      TailsMaximal(s, t.value);
      assert TailsEnd(s, i) == TailsEnd(s, t.value);
    }
  }

  /** No match can be extended by another tail. */
  lemma SimpleMaximal(s: string, p: nat)
    requires p <= |s| && SimpleEnd(s, p).Some?
    ensures TailEnd(s, SimpleEnd(s, p).value).None?
  {
    TailsMaximal(s, NumberEnd(s, p).value);
  }

  /** A match is shaped as the pattern says. */
  lemma SimpleShape(s: string, p: nat)
    requires p <= |s| && SimpleEnd(s, p).Some?
    ensures SimpleShaped(s[p..SimpleEnd(s, p).value])
  {
    var e := NumberEnd(s, p).value;
    var end := TailsEnd(s, e);
    assert SimpleEnd(s, p).value == end && e < end;
    NumberShape(s, p);
    TailsShape(s, e, end);
    ShapedSlice(s, p, e, end);
  }

  /** A number from `p` to `e` followed by tails up to `end` is shaped as
      the pattern says. */
  lemma ShapedSlice(s: string, p: nat, e: nat, end: nat)
    requires p < e < end <= |s|
    requires (s[p] == '-' || IsDigit(s[p])) && forall k | p < k < e :: IsDigit(s[k]) || s[k] == '.'
    requires IsDigit(s[end - 1]) && forall k | e <= k < end :: ExpressionValidator.IsMathChar(s[k])
    ensures SimpleShaped(s[p..end])
  {
    var t := s[p..end];
    forall k | 0 <= k < |t| ensures ExpressionValidator.IsMathChar(t[k]) {
      assert t[k] == s[p + k];
    }
  }

  /** The simple-expression pattern at each start of `s`. */
  function SimpleAt(s: string): nat -> Option<nat> {
    (p: nat) => if p <= |s| then SimpleEnd(s, p) else None
  }

  /** Matcher.find from `from` with this pattern. */
  function FindSimple(s: string, from: nat): (r: Option<Match>)
    requires from <= |s|
    ensures r.Some? ==> from <= r.value.start < r.value.end <= |s|
    ensures r.Some? ==> SimpleEnd(s, r.value.start).Some? && SimpleEnd(s, r.value.start).value == r.value.end
  {
    FirstMatch(SimpleAt(s), from, |s|)
  }

  /** The match found starts leftmost; when none is found, none starts
      from `from` on. */
  lemma FindSimpleLeftmost(s: string, from: nat)
    requires from <= |s|
    ensures var r := FindSimple(s, from);
      && (r.Some? ==> forall p | from <= p < r.value.start :: SimpleEnd(s, p).None?)
      && (r.None? ==> forall p | from <= p < |s| :: SimpleEnd(s, p).None?)
  {
    FirstMatchLeftmost(SimpleAt(s), from, |s|);
    var r := FindSimple(s, from);
    if r.Some? {
      forall p | from <= p < r.value.start ensures SimpleEnd(s, p).None? {
        assert SimpleAt(s)(p).None?;
      }
    } else {
      forall p | from <= p < |s| ensures SimpleEnd(s, p).None? {
        assert SimpleAt(s)(p).None?;
      }
    }
  }

  /** A text without digits holds no match. */
  lemma NoDigitsNoMatch(s: string, from: nat)
    requires from <= |s| && forall k | 0 <= k < |s| :: !IsDigit(s[k])
    ensures FindSimple(s, from).None?
  {
    if FindSimple(s, from).Some? {
      var m := FindSimple(s, from).value;
      SimpleShape(s, m.start);
    }
  }

  /** What a match is replaced by: its value, or the marker of the
      EvaluationException evalExpression throws. */
  function SimpleReplacement(expr: string): string {
    match Evaluate(expr)
    case Ok(v) => MathUtils.FormatDouble(v)
    case Err(e) => ErrorMarker(e)
  }

  /** The find loop with appendReplacement and appendTail, with rule
      `rep`: the text before each match, then its replacement, then what
      follows the last match. */
  function SimpleWith(rep: string -> string, s: string, from: nat): string
    requires from <= |s|
    decreases |s| - from
  {
    match FindSimple(s, from)
    case None => s[from..]
    case Some(m) => s[from..m.start] + rep(s[m.start..m.end]) + SimpleWith(rep, s, m.end)
  }

  function SimpleFrom(s: string, from: nat): string
    requires from <= |s|
  {
    SimpleWith(SimpleReplacement, s, from)
  }

  lemma SimpleStep(rep: string -> string, s: string, from: nat, m: Match)
    requires from <= |s| && FindSimple(s, from).Some? && FindSimple(s, from).value == m
    ensures SimpleWith(rep, s, from) == s[from..m.start] + rep(s[m.start..m.end]) + SimpleWith(rep, s, m.end)
  {
  }

  /** A text without digits comes back unchanged. */
  lemma NoDigitsUnchanged(s: string)
    requires forall k | 0 <= k < |s| :: !IsDigit(s[k])
    ensures SimpleFrom(s, 0) == s
  {
    NoDigitsNoMatch(s, 0);
    assert s[0..] == s;
  }

  /** Every match tokenizes: its characters are all in the tokenizer's
      alphabet, so what it evaluates to is settled by toRPN and evalRPN. */
  lemma SimpleMatchTokenizes(s: string, from: nat)
    requires from <= |s| && FindSimple(s, from).Some?
    ensures var m := FindSimple(s, from).value; Tokens(s[m.start..m.end]).Ok?
  {
    var m := FindSimple(s, from).value;
    var t := s[m.start..m.end];
    SimpleShape(s, m.start);
    TokensFacts(t);
    assert forall k | 0 <= k < |t| :: Tokenizable(t[k]) by {
      forall k | 0 <= k < |t| ensures Tokenizable(t[k]) {
        assert ExpressionValidator.IsMathChar(t[k]);
      }
    }
  }

  lemma {:induction false} EvalRunErrors(stack: seq<real>, tokens: seq<string>)
    ensures var r := EvalRun(Regex, stack, tokens);
      r.Err? ==> r.error in {UnknownOperator, InvalidExpression, DivisionByZero}
    decreases |tokens|
  {
    if tokens != [] {
      var step := EvalStep(Regex, stack, tokens[0]);
      if step.Ok? {
        EvalRunErrors(step.value, tokens[1..]);
      }
    }
  }

  /** evalExpression throws only "Unknown operator", "Invalid expression"
      and "Division by zero": the catch-all branch of the source's
      replaceSimpleExpressions is never taken. */
  lemma EvaluateErrors(expr: string)
    ensures Evaluate(expr).Err? ==> Evaluate(expr).error in {UnknownOperator, InvalidExpression, DivisionByZero}
  {
    TokensFacts(expr);
    if Tokens(expr).Ok? {
      RpnAccepts(Tokens(expr).value);
      if Rpn(Tokens(expr).value).Ok? {
        EvalRunErrors([], Rpn(Tokens(expr).value).value);
      }
    }
  }

  /** The three messages evaluation can fail with hold neither `$` nor a
      backslash, and neither does their marker. */
  lemma MarkerIsLiteral(e: Error)
    requires e in {UnknownOperator, InvalidExpression, DivisionByZero}
    ensures '$' !in ErrorMarker(e) && '\\' !in ErrorMarker(e)
  {
    var m := Message(e);
    assert m in {"Unknown operator", "Invalid expression", "Division by zero"};
    assert '$' !in m && '\\' !in m;
    assert '$' !in "[ERROR: " && '\\' !in "[ERROR: " && '$' !in "]" && '\\' !in "]";
    LiteralJoin("[ERROR: ", m, "]");
  }

  /** Three pieces without `$` or a backslash make a whole without them. */
  lemma LiteralJoin(a: string, b: string, c: string)
    requires '$' !in a && '\\' !in a && '$' !in b && '\\' !in b && '$' !in c && '\\' !in c
    ensures '$' !in a + b + c && '\\' !in a + b + c
  {
  }

  /** A rendered number holds only `-`, digits and `.`. */
  lemma NumeralIsLiteral(r: string)
    requires forall k | 0 <= k < |r| :: r[k] == '-' || MathUtils.IsNumeralChar(r[k])
    ensures '$' !in r && '\\' !in r
  {
  }

  /** A replacement holds neither `$` nor a backslash, so appendReplacement
      copies it as it is. */
  lemma ReplacementIsLiteral(expr: string)
    ensures '$' !in SimpleReplacement(expr) && '\\' !in SimpleReplacement(expr)
  {
    EvaluateErrors(expr);
    match Evaluate(expr)
    case Ok(v) =>
      NumeralIsLiteral(MathUtils.FormatDouble(v));
    case Err(e) =>
      MarkerIsLiteral(e);
  }

  /** The loop body: evaluate, or catch the exception into its marker. */
  method ReplaceSimple(expr: string) returns (replacement: string)
    ensures replacement == SimpleReplacement(expr)
  {
    var value := EvalExpression(expr);
    if value.Ok? {
      replacement := MathUtils.FormatDouble(value.value);
    } else {
      replacement := ErrorMarker(value.error);
    }
  }

  /** One iteration of the find loop: the text up to the match and its
      replacement. */
  method SimpleOnce(s: string, from: nat, m: Match) returns (piece: string)
    requires from <= |s| && FindSimple(s, from).Some? && FindSimple(s, from).value == m
    ensures m.end <= |s|
    ensures SimpleFrom(s, from) == piece + SimpleFrom(s, m.end)
  {
    var replacement := ReplaceSimple(s[m.start..m.end]);
    SimpleStep(SimpleReplacement, s, from, m);
    piece := s[from..m.start] + replacement;
  }

  /** replaceSimpleExpressions, as the source writes it. */
  method ReplaceSimpleExpressions(input: string) returns (r: string)
    ensures r == SimpleFrom(input, 0)
  {
    var sb := "";
    var appendPos := 0;
    var m := FindSimple(input, 0);
    while m.Some?
      invariant appendPos <= |input| && m == FindSimple(input, appendPos)
      invariant sb + SimpleFrom(input, appendPos) == SimpleFrom(input, 0)
      decreases |input| - appendPos
    {
      var piece := SimpleOnce(input, appendPos, m.value);
      assert (sb + piece) + SimpleFrom(input, m.value.end) == sb + (piece + SimpleFrom(input, m.value.end));
      sb := sb + piece;
      appendPos := m.value.end;
      m := FindSimple(input, appendPos);
    }
    r := sb + input[appendPos..];
  }

  // ---------------------------------------------------------------------
  // process

  /** What process returns: the empty text as it is; otherwise the bracket
      passes to their end, then the simple expressions. */
  function Processed(input: string): string {
    if input == [] then input else SimpleFrom(Innermost(input), 0)
  }

  /** process, as the source writes it, with the do-while loop entered by
      setting `found` first. */
  method Process(input: string) returns (r: string)
    ensures r == Processed(input)
  {
    if input == [] {
      return input;
    }
    var result := input;
    var found := true;
    while found
      invariant Innermost(result) == Innermost(input)
      invariant !found ==> result == Innermost(input)
      decreases ParenCount(result) + (if found then 1 else 0)
    {
      var text, changed := BracketPass(result);
      ReplacementClears();
      PassParens(Replacement, result, 0);
      assert result[0..] == result;
      found := changed;
      if found {
        result := text;
      }
    }
    r := ReplaceSimpleExpressions(result);
  }

  /** A text without parentheses goes straight to the simple expressions. */
  lemma NoParensProcessed(input: string)
    requires input != [] && ParenCount(input) == 0
    ensures Processed(input) == SimpleFrom(input, 0)
  {
  }

  // ---------------------------------------------------------------------
  // Examples

  /** `a o b` with single spaces tokenizes into its three characters: the
      digit before the operator is no operator, so a `-` is no sign here. */
  lemma SpacedTokens(e: string, a: char, o: char, b: char)
    requires IsDigit(a) && MathUtils.IsOperatorChar(o) && IsDigit(b) && e == [a, ' ', o, ' ', b]
    ensures Tokens(e) == Ok([[a], [o], [b]])
  {
    OperatorTokens([a]);
    assert NumeralEnd(e, 1) == 1 && NumeralEnd(e, 0) == 1;
    assert NumeralEnd(e, 5) == 5 && NumeralEnd(e, 4) == 5;
    assert e[0..1] == [a] && e[4..5] == [b];
    assert Advance(e, 0, []) == Step(1, [[a]]);
    assert Advance(e, 1, [[a]]) == Step(2, [[a]]);
    assert Advance(e, 2, [[a]]) == Step(3, [[a], [o]]);
    assert Advance(e, 3, [[a], [o]]) == Step(4, [[a], [o]]);
    assert Advance(e, 4, [[a], [o]]) == Step(5, [[a], [o], [b]]);
    assert Tokenizable(e[0]) && Tokenizable(e[1]) && Tokenizable(e[2]) && Tokenizable(e[3]) && Tokenizable(e[4]);
    assert TokenizeFrom(e, 5, [[a], [o], [b]]) == Ok([[a], [o], [b]]);
    assert TokenizeFrom(e, 4, [[a], [o]]) == Ok([[a], [o], [b]]);
    assert TokenizeFrom(e, 3, [[a], [o]]) == Ok([[a], [o], [b]]);
    assert TokenizeFrom(e, 2, [[a]]) == Ok([[a], [o], [b]]);
    assert TokenizeFrom(e, 1, [[a]]) == Ok([[a], [o], [b]]);
  }

  /** `a o b` with single spaces evaluates to `a o b`. */
  lemma SpacedEvaluation(e: string, a: char, o: char, b: char)
    requires IsDigit(a) && MathUtils.IsOperatorChar(o) && IsDigit(b) && e == [a, ' ', o, ' ', b]
    ensures Evaluate(e) == ExpressionTree.Apply(o, DigitValue(a) as real, DigitValue(b) as real)
  {
    SpacedTokens(e, a, o, b);
    DigitParses([a]);
    DigitParses([b]);
    assert MathUtils.IsNumber([a]) && MathUtils.IsNumber([b]) && !MathUtils.IsNumber([o]);
    assert MathUtils.IsOperator([o]);
    assert NumbersAndOperators([[a], [o], [b]]);
    EvaluateAgrees(e);
    DigitPostfix(MathUtils.IsNumber, a, o, b);
    DigitValues(Core, a, o, b);
  }

  /** formatDouble renders a whole value by its digits. */
  lemma WholeFormat(n: nat)
    requires n < 0x8000_0000_0000_0000
    ensures MathUtils.FormatDouble(n as real) == NatToString(n)
  {
    assert (n as real).Floor == n;
  }

  /** A group holding `a o b` with a whole value is replaced by that
      value's digits. */
  lemma SpacedGroup(inner: string, a: char, o: char, b: char, n: nat)
    requires IsDigit(a) && MathUtils.IsOperatorChar(o) && IsDigit(b) && inner == [a, ' ', o, ' ', b]
    requires ExpressionTree.Apply(o, DigitValue(a) as real, DigitValue(b) as real) == Ok(n as real)
    requires n < 0x8000_0000_0000_0000
    ensures Replacement(inner) == NatToString(n)
  {
    SpacedEvaluation(inner, a, o, b);
    assert ExpressionValidator.IsValidMathExpression(ExpressionValidator.IsMathChar, inner) by {
      forall k | 0 <= k < |inner| ensures ExpressionValidator.IsMathChar(inner[k]) {
        assert inner[k] in [a, ' ', o, ' ', b];
      }
    }
    WholeFormat(n);
  }

  /** A simple expression `a o b` with a whole value is replaced by that
      value's digits. */
  lemma SpacedSimple(expr: string, a: char, o: char, b: char, n: nat)
    requires IsDigit(a) && MathUtils.IsOperatorChar(o) && IsDigit(b) && expr == [a, ' ', o, ' ', b]
    requires ExpressionTree.Apply(o, DigitValue(a) as real, DigitValue(b) as real) == Ok(n as real)
    requires n < 0x8000_0000_0000_0000
    ensures SimpleReplacement(expr) == NatToString(n)
  {
    SpacedEvaluation(expr, a, o, b);
    WholeFormat(n);
  }

  /** Contents with a character outside the class keep their group. */
  lemma KeptGroup(inner: string, k: nat)
    requires k < |inner| && !ExpressionValidator.IsMathChar(inner[k])
    ensures Replacement(inner) == "(" + inner + ")"
  {
  }

  /** A `(` followed by another `(` before any `)` starts no group. */
  lemma OpenBeforeOpen(s: string, p: nat, q: nat)
    requires p < q < |s| && s[p] == '(' && s[q] == '('
    requires forall k | p < k < q :: !ParenChar(s[k])
    ensures GroupEnd(s, p).None?
  {
  }

  /** The group found is one at `m` when no start before it has one. */
  lemma FindGroupAt(s: string, from: nat, m: Match)
    requires from <= m.start && InnerGroup(s, m.start, m.end)
    requires forall p | from <= p < m.start :: GroupEnd(s, p).None?
    ensures FindGroup(s, from) == Some(m)
  {
    FindGroupLeftmost(s, from);
    GroupEndFinds(s, m.start, m.end);
    var r := FindGroup(s, from);
    if r.Some? {
      GroupEndFinds(s, r.value.start, r.value.end);
    }
  }

  /** No group starts where no `(` is left. */
  lemma NoOpenNoGroup(s: string, from: nat)
    requires from <= |s| && forall k | from <= k < |s| :: s[k] != '('
    ensures FindGroup(s, from).None?
  {
  }

  /** A pass over a text with one group that starts before every other
      `(` that begins a group and has no `(` after it: the text around
      the group and its replacement. */
  lemma PassOneGroup(s: string, m: Match)
    requires InnerGroup(s, m.start, m.end)
    requires forall p | 0 <= p < m.start :: GroupEnd(s, p).None?
    requires forall k | m.end <= k < |s| :: s[k] != '('
    ensures var r := Replacement(s[m.start + 1..m.end - 1]);
      PassFrom(s, 0) == Pass(s[..m.start] + r + s[m.end..], r != s[m.start..m.end])
  {
    FindGroupAt(s, 0, m);
    NoOpenNoGroup(s, m.end);
    var r := Replacement(s[m.start + 1..m.end - 1]);
    PassStep(Replacement, s, 0, m, r);
    assert s[0..m.start] == s[..m.start];
  }

  /** No match starts at a character that is neither a digit nor `-`. */
  lemma NoNumberAt(s: string, p: nat)
    requires p < |s| && !IsDigit(s[p]) && s[p] != '-'
    ensures SimpleEnd(s, p).None?
  {
  }

  /** The match found is one at `m` when no start before it has one. */
  lemma FindSimpleAt(s: string, from: nat, m: Match)
    requires from <= m.start <= |s| && SimpleEnd(s, m.start) == Some(m.end)
    requires forall p | from <= p < m.start :: SimpleEnd(s, p).None?
    ensures FindSimple(s, from) == Some(m)
  {
    FindSimpleStart(s, from, m.start);
  }

  /** The match found starts at the first start that has one. */
  lemma FindSimpleStart(s: string, from: nat, start: nat)
    requires from <= start < |s| && SimpleEnd(s, start).Some?
    requires forall p | from <= p < start :: SimpleEnd(s, p).None?
    ensures FindSimple(s, from).Some? && FindSimple(s, from).value.start == start
  {
    FindSimpleLeftmost(s, from);
  }

  /** `a o b` with single spaces, then a space and no operator: one match
      of the simple-expression pattern, five characters long. */
  lemma SpacedSimpleEnd(s: string, p: nat)
    requires p + 6 < |s| && IsDigit(s[p]) && s[p + 1] == ' ' && MathUtils.IsOperatorChar(s[p + 2])
    requires s[p + 3] == ' ' && IsDigit(s[p + 4]) && s[p + 5] == ' '
    requires !IsRegexSpace(s[p + 6]) && !MathUtils.IsOperatorChar(s[p + 6])
    ensures SimpleEnd(s, p) == Some(p + 5)
  {
    assert SkipDigits(s, p + 1) == p + 1 && SkipDigits(s, p) == p + 1;
    assert NumberEnd(s, p) == Some(p + 1);
    assert SkipSpaces(s, p + 2) == p + 2 && SkipSpaces(s, p + 1) == p + 2;
    assert SkipSpaces(s, p + 4) == p + 4 && SkipSpaces(s, p + 3) == p + 4;
    assert SkipDigits(s, p + 5) == p + 5 && SkipDigits(s, p + 4) == p + 5;
    assert NumberEnd(s, p + 4) == Some(p + 5);
    assert TailEnd(s, p + 1) == Some(p + 5);
    assert SkipSpaces(s, p + 6) == p + 6 && SkipSpaces(s, p + 5) == p + 6;
    assert TailEnd(s, p + 5).None?;
    assert TailsEnd(s, p + 1) == TailsEnd(s, p + 5) == p + 5;
  }

  /** A text without digits from `from` on is copied from there. */
  lemma DigitlessTail(s: string, from: nat)
    requires from <= |s| && forall k | from <= k < |s| :: !IsDigit(s[k])
    ensures SimpleFrom(s, from) == s[from..]
  {
    if FindSimple(s, from).Some? {
      var m := FindSimple(s, from).value;
      SimpleShape(s, m.start);
    }
  }

  /** Where the parentheses of the first text stand: `(` at 22, 33 and
      38, and the only group from 38 to 45. */
  lemma UnclosedText(input: string)
    requires input == "Unclosed parentheses: (test text (3 + (4 - 2) words)"
    ensures |input| == 52 && input[22] == '(' && input[33] == '(' && InnerGroup(input, 38, 45)
    ensures forall k | 22 < k < 33 :: !ParenChar(input[k])
    ensures forall k | 33 < k < 38 :: !ParenChar(input[k])
  {
  }

  /** No `(` before the first one at 22, nor after the group. */
  lemma UnclosedOutside(input: string)
    requires input == "Unclosed parentheses: (test text (3 + (4 - 2) words)"
    ensures |input| == 52
    ensures forall k | 0 <= k < 22 :: input[k] != '('
    ensures forall k | 45 <= k < 52 :: input[k] != '('
  {
    var prefix := "Unclosed parentheses: ";
    assert input == prefix + input[22..];
    NoOpenIn(prefix);
  }

  lemma NoOpenIn(prefix: string)
    requires prefix == "Unclosed parentheses: "
    ensures forall k | 0 <= k < |prefix| :: prefix[k] != '('
  {
  }

  /** The group's contents, and what replacing it by `2` leaves. */
  lemma UnclosedSplice(input: string, s1: string)
    requires input == "Unclosed parentheses: (test text (3 + (4 - 2) words)"
    requires s1 == "Unclosed parentheses: (test text (3 + 2 words)"
    ensures |input| == 52 && input[39..44] == ['4', ' ', '-', ' ', '2']
    ensures input[..38] + "2" + input[45..] == s1
  {
  }

  /** The first pass replaces `(4 - 2)`, the only group, by `2`. */
  lemma UnclosedFirstPass(input: string, s1: string)
    requires input == "Unclosed parentheses: (test text (3 + (4 - 2) words)"
    requires s1 == "Unclosed parentheses: (test text (3 + 2 words)"
    ensures PassFrom(input, 0) == Pass(s1, true)
  {
    UnclosedText(input);
    UnclosedOutside(input);
    UnclosedSplice(input, s1);
    forall p | 0 <= p < 38 ensures GroupEnd(input, p).None? {
      if p == 22 {
        OpenBeforeOpen(input, 22, 33);
      } else if p == 33 {
        OpenBeforeOpen(input, 33, 38);
      }
    }
    DifferenceValue(input[39..44]);
    PassReplacesOne(input, Match(38, 45), "2", s1);
  }

  /** `(4 - 2)` is replaced by `2`. */
  lemma DifferenceValue(inner: string)
    requires inner == ['4', ' ', '-', ' ', '2']
    ensures Replacement(inner) == "2"
  {
    SpacedGroup(inner, '4', '-', '2', 2);
    assert NatToString(2) == "2";
  }

  /** A pass whose one group is replaced by something of another length. */
  lemma PassReplacesOne(s: string, m: Match, v: string, r: string)
    requires InnerGroup(s, m.start, m.end)
    requires forall p | 0 <= p < m.start :: GroupEnd(s, p).None?
    requires forall k | m.end <= k < |s| :: s[k] != '('
    requires Replacement(s[m.start + 1..m.end - 1]) == v && |v| != m.end - m.start
    requires s[..m.start] + v + s[m.end..] == r
    ensures PassFrom(s, 0) == Pass(r, true)
  {
    PassOneGroup(s, m);
    assert |s[m.start..m.end]| == m.end - m.start;
  }

  /** A pass whose one group is kept changes nothing. */
  lemma PassKeepsOne(s: string, m: Match)
    requires InnerGroup(s, m.start, m.end)
    requires forall p | 0 <= p < m.start :: GroupEnd(s, p).None?
    requires forall k | m.end <= k < |s| :: s[k] != '('
    requires var inner := s[m.start + 1..m.end - 1]; Replacement(inner) == "(" + inner + ")"
    ensures !PassFrom(s, 0).found
  {
    PassOneGroup(s, m);
    GroupParens(s, m);
  }

  /** Where the parentheses of the second text stand: `(` at 22, and the
      group from 33 to its end, whose contents hold a `w`. */
  lemma SecondText(s1: string)
    requires s1 == "Unclosed parentheses: (test text (3 + 2 words)"
    ensures |s1| == 46 && s1[22] == '(' && s1[33] == '(' && InnerGroup(s1, 33, 46)
    ensures forall k | 22 < k < 33 :: !ParenChar(s1[k])
    ensures s1[34..45] == "3 + 2 words"
  {
  }

  lemma SecondOutside(s1: string)
    requires s1 == "Unclosed parentheses: (test text (3 + 2 words)"
    ensures |s1| == 46
    ensures forall k | 0 <= k < 22 :: s1[k] != '('
  {
    var prefix := "Unclosed parentheses: ";
    assert s1 == prefix + s1[22..];
    NoOpenIn(prefix);
  }

  /** The second pass keeps `(3 + 2 words)`, the only group, since its
      contents are not plain arithmetic, and so changes nothing. */
  lemma UnclosedSecondPass(s1: string)
    requires s1 == "Unclosed parentheses: (test text (3 + 2 words)"
    ensures !PassFrom(s1, 0).found
  {
    SecondText(s1);
    SecondOutside(s1);
    forall p | 0 <= p < 33 ensures GroupEnd(s1, p).None? {
      if p == 22 {
        OpenBeforeOpen(s1, 22, 33);
      }
    }
    WordsKept(s1[34..45]);
    PassKeepsOne(s1, Match(33, 46));
  }

  /** `(3 + 2 words)` holds letters, so it stays. */
  lemma WordsKept(inner: string)
    requires inner == "3 + 2 words"
    ensures Replacement(inner) == "(" + inner + ")"
  {
    KeptGroup(inner, 6);
  }

  /** The bracket passes stop after the second one. */
  lemma UnclosedInnermost(input: string, s1: string)
    requires input == "Unclosed parentheses: (test text (3 + (4 - 2) words)"
    requires s1 == "Unclosed parentheses: (test text (3 + 2 words)"
    ensures Innermost(input) == s1
  {
    UnclosedFirstPass(input, s1);
    UnclosedSecondPass(s1);
    assert Innermost(s1) == s1;
  }

  /** Where the one simple expression of the second text stands. */
  lemma SimpleText(s1: string, r: string)
    requires s1 == "Unclosed parentheses: (test text (3 + 2 words)"
    requires r == "Unclosed parentheses: (test text (5 words)"
    ensures |s1| == 46 && s1[34..39] == ['3', ' ', '+', ' ', '2']
    ensures s1[..34] + "5" + s1[39..] == r
  {
  }

  /** The cells of the simple expression and of what follows it. */
  lemma SimpleCells(s1: string)
    requires s1 == "Unclosed parentheses: (test text (3 + 2 words)"
    ensures |s1| == 46 && IsDigit(s1[34]) && s1[35] == ' ' && s1[36] == '+' && s1[37] == ' '
    ensures IsDigit(s1[38]) && s1[39] == ' ' && s1[40] == 'w'
    ensures forall k | 39 <= k < 46 :: !IsDigit(s1[k])
  {
  }

  /** No digit and no `-` before the simple expression. */
  lemma SimplePrefix(s1: string)
    requires s1 == "Unclosed parentheses: (test text (3 + 2 words)"
    ensures |s1| == 46
    ensures forall k | 0 <= k < 34 :: !IsDigit(s1[k]) && s1[k] != '-'
  {
    var prefix := "Unclosed parentheses: (test text (";
    assert s1 == prefix + s1[34..];
    NoNumberIn(prefix);
  }

  lemma NoNumberIn(prefix: string)
    requires prefix == "Unclosed parentheses: (test text ("
    ensures forall k | 0 <= k < |prefix| :: !IsDigit(prefix[k]) && prefix[k] != '-'
  {
  }

  /** The one match of the second text is `3 + 2`. */
  lemma UnclosedMatch(s1: string)
    requires s1 == "Unclosed parentheses: (test text (3 + 2 words)"
    ensures FindSimple(s1, 0) == Some(Match(34, 39))
  {
    SimpleCells(s1);
    SimplePrefix(s1);
    forall p | 0 <= p < 34 ensures SimpleEnd(s1, p).None? {
      NoNumberAt(s1, p);
    }
    SpacedSimpleEnd(s1, 34);
    FindSimpleAt(s1, 0, Match(34, 39));
  }

  /** A text with one match, no digit after it: the text around the match
      and its replacement. */
  lemma OneSimple(s: string, m: Match, v: string, r: string)
    requires FindSimple(s, 0) == Some(m)
    requires SimpleReplacement(s[m.start..m.end]) == v
    requires forall k | m.end <= k < |s| :: !IsDigit(s[k])
    requires s[..m.start] + v + s[m.end..] == r
    ensures SimpleFrom(s, 0) == r
  {
    SimpleStep(SimpleReplacement, s, 0, m);
    DigitlessTail(s, m.end);
    assert s[0..m.start] == s[..m.start];
  }

  /** The simple pass replaces `3 + 2` by `5` and copies the rest. */
  lemma UnclosedSimple(s1: string, r: string)
    requires s1 == "Unclosed parentheses: (test text (3 + 2 words)"
    requires r == "Unclosed parentheses: (test text (5 words)"
    ensures SimpleFrom(s1, 0) == r
  {
    UnclosedMatch(s1);
    SimpleText(s1, r);
    SimpleCells(s1);
    SumValue(s1[34..39]);
    OneSimple(s1, Match(34, 39), "5", r);
  }

  /** `3 + 2` is replaced by `5`. */
  lemma SumValue(e: string)
    requires e == ['3', ' ', '+', ' ', '2']
    ensures SimpleReplacement(e) == "5"
  {
    SpacedSimple(e, '3', '+', '2', 5);
    assert NatToString(5) == "5";
  }

  /** A group inside an unclosed one is evaluated; the group around its
      value holds words and stays, and the simple expression left in it
      is evaluated. */
  lemma UnclosedParentheses(input: string)
    requires input == "Unclosed parentheses: (test text (3 + (4 - 2) words)"
    ensures Processed(input) == "Unclosed parentheses: (test text (5 words)"
  {
    var s1 := "Unclosed parentheses: (test text (3 + 2 words)";
    UnclosedInnermost(input, s1);
    UnclosedSimple(s1, "Unclosed parentheses: (test text (5 words)");
  }
}
