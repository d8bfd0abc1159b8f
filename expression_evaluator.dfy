/**
 * ExpressionEvaluator: the postfix value-stack machine and evalExpression,
 * the tokenize / infixToPostfix / evaluate pipeline that turns any failure
 * into an `[ERROR: ...]` marker. The manual and regex processors run the
 * same machine with their own number and operator tests and their own
 * message texts; a `Dialect` holds those differences.
 */
module ExpressionEvaluator {
  import opened Errors
  import opened JavaLang
  import opened MathUtils
  import opened ExpressionTree
  import ExpressionParser
  import opened ExpressionConverter

  /** What the copies of the evaluator do differently: which tokens are
      numbers and operators, the error of the switch's default case, the
      error for a token that is neither, and the error for a final stack
      that does not hold exactly one value. */
  datatype Dialect = Dialect(
    isNumber: string -> bool,
    isOperator: string -> bool,
    unknownOperator: string -> Error,
    strayToken: string -> Error,
    leftover: Error)

  /** ExpressionEvaluator.evaluatePostfix: MathUtils' tests, and "Unknown
      operator" / "Invalid expression" for every failure but the two others. */
  const Core := Dialect(IsNumber, IsOperator, t => UnknownOperator, t => UnknownOperator, InvalidExpression)

  /** The switch on the operator token, with `a` below `b` on the stack. */
  function Operate(d: Dialect, token: string, a: real, b: real): Result<real> {
    if IsOperator(token) then Apply(token[0], a, b) else Err(d.unknownOperator(token))
  }

  /** One iteration of the loop; the top of the deque is the last element. */
  function EvalStep(d: Dialect, stack: seq<real>, token: string): Result<seq<real>> {
    if d.isNumber(token) then
      match ParseDouble(token)
      case Err(e) => Err(e)
      case Ok(v) => Ok(stack + [v])
    else if d.isOperator(token) then
      if |stack| < 2 then Err(InvalidExpression)
      else
        match Operate(d, token, stack[|stack| - 2], stack[|stack| - 1])
        case Err(e) => Err(e)
        case Ok(v) => Ok(stack[..|stack| - 2] + [v])
    else Err(d.strayToken(token))
  }

  function EvalRun(d: Dialect, stack: seq<real>, tokens: seq<string>): Result<seq<real>>
    decreases |tokens|
  {
    if tokens == [] then Ok(stack)
    else
      match EvalStep(d, stack, tokens[0])
      case Err(e) => Err(e)
      case Ok(next) => EvalRun(d, next, tokens[1..])
  }

  /** What the evaluator returns or throws. */
  function PostfixValueWith(d: Dialect, tokens: seq<string>): Result<real> {
    match EvalRun(d, [], tokens)
    case Err(e) => Err(e)
    case Ok(stack) => if |stack| != 1 then Err(d.leftover) else Ok(stack[0])
  }

  function PostfixValue(tokens: seq<string>): Result<real> {
    PostfixValueWith(Core, tokens)
  }

  /** The switch expression on the operator token. */
  method Switch(d: Dialect, token: string, a: real, b: real) returns (r: Result<real>)
    ensures r.Ok? <==> Operate(d, token, a, b).Ok?
    ensures r.Ok? ==> r.value == Operate(d, token, a, b).value
    ensures r.Err? ==> r.error == Operate(d, token, a, b).error
  {
    if token == "+" {
      assert token[0] == '+';
      r := Ok(a + b);
    } else if token == "-" {
      assert token[0] == '-';
      r := Ok(a - b);
    } else if token == "*" {
      assert token[0] == '*';
      r := Ok(a * b);
    } else if token == "/" {
      assert token[0] == '/';
      if b == 0.0 {
        return Err(DivisionByZero);
      }
      r := Ok(a / b);
    } else {
      r := Err(d.unknownOperator(token));
    }
  }

  /** evaluatePostfix, as the source writes it. */
  method EvaluatePostfix(d: Dialect, tokens: seq<string>) returns (r: Result<real>)
    ensures r == PostfixValueWith(d, tokens)
  {
    var stack: seq<real> := [];
    for i := 0 to |tokens|
      invariant EvalRun(d, [], tokens) == EvalRun(d, stack, tokens[i..])
    {
      var token := tokens[i];
      assert tokens[i..] == [token] + tokens[i + 1..];
      if d.isNumber(token) {
        var parsed := ParseDouble(token);
        if parsed.Err? {
          return Err(parsed.error);
        }
        stack := stack + [parsed.value];
      } else if d.isOperator(token) {
        if |stack| < 2 {
          return Err(InvalidExpression);
        }
        var b := stack[|stack| - 1];
        var a := stack[|stack| - 2];
        stack := stack[..|stack| - 2];
        var res := Switch(d, token, a, b);
        if res.Err? {
          return Err(res.error);
        }
        stack := stack + [res.value];
      } else {
        return Err(d.strayToken(token));
      }
    }
    if |stack| != 1 {
      return Err(d.leftover);
    }
    r := Ok(stack[0]);
  }

  // ---------------------------------------------------------------------
  // Counting: the stack grows by one per number and shrinks by one per
  // operator.

  function NumberCount(d: Dialect, ts: seq<string>): nat
    decreases |ts|
  {
    if ts == [] then 0 else (if d.isNumber(ts[0]) then 1 else 0) + NumberCount(d, ts[1..])
  }

  function OperatorCount(d: Dialect, ts: seq<string>): nat
    decreases |ts|
  {
    if ts == [] then 0
    else (if !d.isNumber(ts[0]) && d.isOperator(ts[0]) then 1 else 0) + OperatorCount(d, ts[1..])
  }

  /** A successful run consumes only numbers and operators, and its stack
      ends with as many more values as there were numbers beyond operators. */
  lemma {:induction false} RunCounts(d: Dialect, stack: seq<real>, ts: seq<string>)
    requires EvalRun(d, stack, ts).Ok?
    ensures |EvalRun(d, stack, ts).value| == |stack| + NumberCount(d, ts) - OperatorCount(d, ts)
    ensures forall t | t in ts :: d.isNumber(t) || d.isOperator(t)
    decreases |ts|
  {
    if ts != [] {
      var next := EvalStep(d, stack, ts[0]).value;
      RunCounts(d, next, ts[1..]);
      assert forall t | t in ts :: t == ts[0] || t in ts[1..];
    }
  }

  /** Running over `a + b` is running over `a`, then over `b` from where `a`
      left the stack. */
  lemma {:induction false} RunAppend(d: Dialect, stack: seq<real>, a: seq<string>, b: seq<string>)
    ensures EvalRun(d, stack, a).Err? ==> EvalRun(d, stack, a + b).Err? && EvalRun(d, stack, a + b).error == EvalRun(d, stack, a).error
    ensures EvalRun(d, stack, a).Ok? ==> EvalRun(d, stack, a + b) == EvalRun(d, EvalRun(d, stack, a).value, b)
    decreases |a|
  {
    if a == [] {
      assert a + b == b;
    } else {
      assert (a + b)[0] == a[0] && (a + b)[1..] == a[1..] + b;
      match EvalStep(d, stack, a[0])
      case Err(e) =>
      case Ok(next) => RunAppend(d, next, a[1..], b);
    }
  }

  /** After every token of a successful run, the stack holds as many values
      as numbers seen minus operators seen. */
  lemma StackSizeAfterEachToken(d: Dialect, ts: seq<string>, k: nat)
    requires EvalRun(d, [], ts).Ok? && k <= |ts|
    ensures EvalRun(d, [], ts[..k]).Ok?
    ensures |EvalRun(d, [], ts[..k]).value| == NumberCount(d, ts[..k]) - OperatorCount(d, ts[..k])
  {
    assert ts == ts[..k] + ts[k..];
    RunAppend(d, [], ts[..k], ts[k..]);
    RunCounts(d, [], ts[..k]);
  }

  /** Once the loop has consumed every token, the result is a value exactly
      when there are k operators and k + 1 numbers; otherwise it is the
      leftover error. */
  lemma SuccessNeedsOneMoreNumber(d: Dialect, ts: seq<string>)
    requires EvalRun(d, [], ts).Ok?
    ensures PostfixValueWith(d, ts).Ok? <==> NumberCount(d, ts) == OperatorCount(d, ts) + 1
    ensures PostfixValueWith(d, ts).Err? ==> PostfixValueWith(d, ts).error == d.leftover
  {
    RunCounts(d, [], ts);
  }

  /** The first failing token decides the error of the whole evaluation. */
  lemma FailsAt(d: Dialect, ts: seq<string>, k: nat, stack: seq<real>)
    requires k < |ts|
    requires EvalRun(d, [], ts[..k]).Ok? && stack == EvalRun(d, [], ts[..k]).value
    requires EvalStep(d, stack, ts[k]).Err?
    ensures PostfixValueWith(d, ts).Err? && PostfixValueWith(d, ts).error == EvalStep(d, stack, ts[k]).error
  {
    assert ts == ts[..k] + ([ts[k]] + ts[k + 1..]);
    RunAppend(d, [], ts[..k], [ts[k]] + ts[k + 1..]);
    assert ([ts[k]] + ts[k + 1..])[0] == ts[k];
  }

  /** An operator met with fewer than two values fails with "Invalid expression". */
  lemma UnderflowFails(d: Dialect, ts: seq<string>, k: nat)
    requires k < |ts| && !d.isNumber(ts[k]) && d.isOperator(ts[k])
    requires EvalRun(d, [], ts[..k]).Ok? && |EvalRun(d, [], ts[..k]).value| < 2
    ensures PostfixValueWith(d, ts).Err? && PostfixValueWith(d, ts).error == InvalidExpression
  {
    FailsAt(d, ts, k, EvalRun(d, [], ts[..k]).value);
  }

  /** `/` with a zero on top of the stack fails with "Division by zero". */
  lemma DivisionByZeroFails(d: Dialect, ts: seq<string>, k: nat)
    requires k < |ts| && ts[k] == "/" && !d.isNumber("/") && d.isOperator("/")
    requires EvalRun(d, [], ts[..k]).Ok?
    requires var s := EvalRun(d, [], ts[..k]).value; |s| >= 2 && s[|s| - 1] == 0.0
    ensures PostfixValueWith(d, ts).Err? && PostfixValueWith(d, ts).error == DivisionByZero
  {
    FailsAt(d, ts, k, EvalRun(d, [], ts[..k]).value);
  }

  /** A token that is neither a number nor an operator fails with the
      dialect's error for it ("Unknown operator" in the core). */
  lemma StrayTokenFails(d: Dialect, ts: seq<string>, k: nat)
    requires k < |ts| && !d.isNumber(ts[k]) && !d.isOperator(ts[k])
    requires EvalRun(d, [], ts[..k]).Ok?
    ensures PostfixValueWith(d, ts).Err? && PostfixValueWith(d, ts).error == d.strayToken(ts[k])
  {
    FailsAt(d, ts, k, EvalRun(d, [], ts[..k]).value);
  }

  /** Two numbers leave their values on the stack in order. */
  lemma TwoNumbers(d: Dialect, x: string, y: string, rest: seq<string>)
    requires d.isNumber(x) && d.isNumber(y) && ParseDouble(x).Ok? && ParseDouble(y).Ok?
    ensures EvalRun(d, [], [x, y] + rest) == EvalRun(d, [ParseDouble(x).value, ParseDouble(y).value], rest)
  {
    var a := ParseDouble(x).value;
    var b := ParseDouble(y).value;
    var ts := [x, y] + rest;
    assert ts[0] == x && ts[1..] == [y] + rest && ts[1..][0] == y && ts[1..][1..] == rest;
    assert EvalStep(d, [], x).Ok? && EvalStep(d, [], x).value == [a];
    assert EvalStep(d, [a], y).Ok? && EvalStep(d, [a], y).value == [a, b];
  }

  /** An operator on a two-value stack leaves `a op b`, or fails as the
      switch does. */
  lemma LastOperator(d: Dialect, a: real, b: real, o: string)
    requires !d.isNumber(o) && d.isOperator(o) && IsOperator(o)
    ensures EvalRun(d, [a, b], [o]).Ok? <==> Apply(o[0], a, b).Ok?
    ensures Apply(o[0], a, b).Ok? ==> EvalRun(d, [a, b], [o]).value == [Apply(o[0], a, b).value]
    ensures Apply(o[0], a, b).Err? ==> EvalRun(d, [a, b], [o]).error == Apply(o[0], a, b).error
  {
    assert [o][0] == o && [o][1..] == [];
    assert [a, b][..0] == [];
  }

  /** `a b o` of one-digit numbers is `a o b`. */
  lemma DigitValues(d: Dialect, a: char, o: char, b: char)
    requires IsDigit(a) && IsOperatorChar(o) && IsDigit(b)
    requires d.isNumber([a]) && d.isNumber([b]) && !d.isNumber([o]) && d.isOperator([o])
    ensures PostfixValueWith(d, [[a], [b], [o]]) == Apply(o, DigitValue(a) as real, DigitValue(b) as real)
  {
    DigitParses([a]);
    DigitParses([b]);
    assert [[a], [b], [o]] == [[a], [b]] + [[o]];
    TwoNumbers(d, [a], [b], [[o]]);
    assert IsOperator([o]);
    LastOperator(d, DigitValue(a) as real, DigitValue(b) as real, [o]);
  }

  /** For `x y -` and `x y /` the value below is the left operand: `x - y`
      and `x / y`, not the reverse; a zero divisor fails. */
  lemma OperandOrder(d: Dialect, x: string, y: string, o: string)
    requires SeparatesNumbers(d.isNumber) && d.isOperator(o) && (o == "-" || o == "/")
    requires d.isNumber(x) && d.isNumber(y) && ParseDouble(x).Ok? && ParseDouble(y).Ok?
    ensures var a := ParseDouble(x).value; var b := ParseDouble(y).value;
            && (o == "-" ==> PostfixValueWith(d, [x, y, o]).Ok? && PostfixValueWith(d, [x, y, o]).value == a - b)
            && (o == "/" && b != 0.0 ==> PostfixValueWith(d, [x, y, o]).Ok? && PostfixValueWith(d, [x, y, o]).value == a / b)
            && (o == "/" && b == 0.0 ==> PostfixValueWith(d, [x, y, o]).Err? && PostfixValueWith(d, [x, y, o]).error == DivisionByZero)
  {
    var a := ParseDouble(x).value;
    var b := ParseDouble(y).value;
    assert [x, y, o] == [x, y] + [o];
    TwoNumbers(d, x, y, [o]);
    assert o[0] == '-' || o[0] == '/';
    LastOperator(d, a, b, o);
  }

  // ---------------------------------------------------------------------
  // The tree partner: evaluating the postfix form of a tree gives the
  // tree's value, with `a op b` for the left operand below the right one.

  /** The four operator strings are operators and not numbers. */
  predicate Separates(d: Dialect) {
    SeparatesNumbers(d.isNumber)
    && d.isOperator("+") && d.isOperator("-") && d.isOperator("*") && d.isOperator("/")
  }

  lemma CoreSeparates()
    ensures Separates(Core)
  {
    NumberSeparates();
  }

  lemma OperatorToken(d: Dialect, op: char)
    requires Separates(d) && IsOperatorChar(op)
    ensures !d.isNumber([op]) && d.isOperator([op]) && IsOperator([op])
  {
    if op == '+' { assert [op] == "+"; }
    else if op == '-' { assert [op] == "-"; }
    else if op == '*' { assert [op] == "*"; }
    else { assert [op] == "/"; }
  }

  lemma {:induction false} RunTreeValue(d: Dialect, e: Expr, stack: seq<real>, rest: seq<string>)
    requires Separates(d) && WellFormed(e) && LeavesAreNumbers(d.isNumber, e)
    ensures Value(e).Err? ==>
              EvalRun(d, stack, PostfixOf(e) + rest).Err? && EvalRun(d, stack, PostfixOf(e) + rest).error == Value(e).error
    ensures Value(e).Ok? ==> EvalRun(d, stack, PostfixOf(e) + rest) == EvalRun(d, stack + [Value(e).value], rest)
    decreases e
  {
    match e
    case Leaf(n) =>
      assert ([n] + rest)[0] == n && ([n] + rest)[1..] == rest;
    case Binary(op, l, r) =>
      var opRest := [[op]] + rest;
      assert PostfixOf(e) + rest == PostfixOf(l) + (PostfixOf(r) + opRest);
      RunTreeValue(d, l, stack, PostfixOf(r) + opRest);
      if Value(l).Ok? {
        var a := Value(l).value;
        RunTreeValue(d, r, stack + [a], opRest);
        if Value(r).Ok? {
          OperatorApplies(d, stack, a, Value(r).value, op, rest);
        }
      }
  }

  /** The operator token of a node applies to the two operand values on top. */
  lemma OperatorApplies(d: Dialect, stack: seq<real>, a: real, b: real, op: char, rest: seq<string>)
    requires Separates(d) && IsOperatorChar(op)
    ensures Apply(op, a, b).Err? ==>
              EvalRun(d, stack + [a] + [b], [[op]] + rest).Err? && EvalRun(d, stack + [a] + [b], [[op]] + rest).error == Apply(op, a, b).error
    ensures Apply(op, a, b).Ok? ==> EvalRun(d, stack + [a] + [b], [[op]] + rest) == EvalRun(d, stack + [Apply(op, a, b).value], rest)
  {
    var full := stack + [a] + [b];
    var opRest := [[op]] + rest;
    assert full[|full| - 2] == a && full[|full| - 1] == b && full[..|full| - 2] == stack;
    OperatorToken(d, op);
    assert [op][0] == op;
    assert opRest[0] == [op] && opRest[1..] == rest;
  }

  /** The evaluator agrees with the tree's value on the tree's postfix form. */
  lemma PostfixOfTreeValue(d: Dialect, e: Expr)
    requires Separates(d) && WellFormed(e) && LeavesAreNumbers(d.isNumber, e)
    ensures PostfixValueWith(d, PostfixOf(e)).Ok? <==> Value(e).Ok?
    ensures Value(e).Ok? ==> PostfixValueWith(d, PostfixOf(e)).value == Value(e).value
    ensures Value(e).Err? ==> PostfixValueWith(d, PostfixOf(e)).error == Value(e).error
  {
    RunTreeValue(d, e, [], []);
    assert PostfixOf(e) + [] == PostfixOf(e);
  }

  lemma {:induction false} WellFormedLeaves(e: Expr)
    requires WellFormed(e)
    ensures LeavesAreNumbers(IsNumber, e)
  {
    match e
    case Leaf(n) =>
    case Binary(op, l, r) =>
      WellFormedLeaves(l);
      WellFormedLeaves(r);
  }

  /** Converting a tree's parenthesised infix tokens and evaluating the
      postfix result gives the tree's value: the converter and the evaluator
      together respect operand order and grouping. */
  lemma InfixValue(e: Expr)
    requires WellFormed(e)
    ensures Postfix(Infix(e)).Ok?
    ensures PostfixValue(Postfix(Infix(e)).value).Ok? <==> Value(e).Ok?
    ensures Value(e).Ok? ==> PostfixValue(Postfix(Infix(e)).value).value == Value(e).value
    ensures Value(e).Err? ==> PostfixValue(Postfix(Infix(e)).value).error == Value(e).error
  {
    WellFormedLeaves(e);
    NumberSeparates();
    InfixToPostfixOfTree(IsNumber, e);
    CoreSeparates();
    PostfixOfTreeValue(Core, e);
  }

  // ---------------------------------------------------------------------
  // evalExpression

  /** tokenize, infixToPostfix and evaluatePostfix in turn; the first
      exception ends the pipeline. */
  function Evaluate(expr: string): Result<real> {
    var tokens :- ExpressionParser.Tokens(expr);
    var postfix :- Postfix(tokens);
    PostfixValue(postfix)
  }

  /** evalExpression: the formatted value, or the caught exception's message
      as an error marker. A result starts with `[` exactly when the pipeline
      failed. */
  function EvalExpression(expr: string): (r: string)
    ensures |r| > 0
    ensures Evaluate(expr).Err? <==> r[0] == '['
    ensures Evaluate(expr).Err? ==> r == ErrorMarker(Evaluate(expr).error)
    ensures Evaluate(expr).Ok? ==> r == FormatDouble(Evaluate(expr).value)
  {
    match Evaluate(expr)
    case Err(e) => ErrorMarker(e)
    case Ok(v) => FormatDouble(v)
  }
}
