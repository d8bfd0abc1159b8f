/**
 * A reference meaning for the token pipeline: binary expression trees over
 * numerals, their fully parenthesised infix tokens, their postfix tokens and
 * their value. The tokenizer, converter and evaluator are related to these
 * definitions by lemmas in their own modules.
 */
module ExpressionTree {
  import opened Errors
  import opened JavaLang
  import opened MathUtils

  datatype Expr = Leaf(numeral: string) | Binary(op: char, left: Expr, right: Expr)

  /** Leaves are numerals the tokenizer produces and isNumber accepts; inner
      nodes carry one of the four operators. */
  predicate WellFormed(e: Expr) {
    match e
    case Leaf(n) => IsNumberShaped(n) && IsNumber(n)
    case Binary(op, l, r) => IsOperatorChar(op) && WellFormed(l) && WellFormed(r)
  }

  /** The infix tokens with every binary node in parentheses. */
  function Infix(e: Expr): seq<string> {
    match e
    case Leaf(n) => [n]
    case Binary(op, l, r) => ["("] + Infix(l) + [[op]] + Infix(r) + [")"]
  }

  /** The postfix tokens: both operands, then the operator. */
  function PostfixOf(e: Expr): seq<string> {
    match e
    case Leaf(n) => [n]
    case Binary(op, l, r) => PostfixOf(l) + PostfixOf(r) + [[op]]
  }

  /** One operator on two values, as the evaluators' switch computes it. */
  function Apply(op: char, a: real, b: real): (r: Result<real>)
    requires IsOperatorChar(op)
    ensures r.Err? <==> op == '/' && b == 0.0
    ensures r.Err? ==> r.error == DivisionByZero
    ensures op == '/' && b != 0.0 ==> r.value * b == a
  {
    match op
    case '+' => Ok(a + b)
    case '-' => Ok(a - b)
    case '*' => Ok(a * b)
    case '/' => if b == 0.0 then Err(DivisionByZero) else Ok(a / b)
  }

  /** The value of a tree, or the division by zero met first when the left
      operand is computed before the right one. */
  function Value(e: Expr): Result<real>
    requires WellFormed(e)
  {
    match e
    case Leaf(n) => ParseDouble(n)
    case Binary(op, l, r) =>
      var a :- Value(l);
      var b :- Value(r);
      Apply(op, a, b)
  }
}
