/**
 * The failures of the expression pipeline. The source signals them by
 * throwing exceptions whose message texts it writes itself; here they are
 * one sum type, with `Message` giving the text each exception carries.
 */
module Errors {

  datatype Error =
    | UnknownSymbol(symbol: string)        // tokenizer and converter: a character or token outside the grammar
    | MismatchedParentheses                // converter: a `)` without `(`, or a `(` left at the end
    | InvalidExpression                    // evaluators: operand underflow or a leftover stack
    | LeftoverValues                       // the manual evaluator's wording of a leftover stack
    | DivisionByZero                       // evaluators: `/` with a zero right operand
    | UnknownOperator                      // core and regex evaluators, regex tokenizer and converter
    | UnknownOperatorNamed(token: string)  // the manual evaluator's wording, naming the token
    | InvalidPostfixToken(token: string)   // manual evaluator: neither a number nor an operator
    | NumberFormat(input: string)          // Double.parseDouble rejected its input

  /** The message text of the exception that carries `e`. The last case is
      the JDK's NumberFormatException text, not one the source writes. */
  function Message(e: Error): string
  {
    match e
    case UnknownSymbol(s) => "Unknown operator or symbol: '" + s + "'"
    case MismatchedParentheses => "Mismatched parentheses"
    case InvalidExpression => "Invalid expression"
    case LeftoverValues => "Invalid expression: leftover values"
    case DivisionByZero => "Division by zero"
    case UnknownOperator => "Unknown operator"
    case UnknownOperatorNamed(t) => "Unknown operator: " + t
    case InvalidPostfixToken(t) => "Invalid postfix token: " + t
    case NumberFormat(s) => if s == "" then "empty String" else "For input string: \"" + s + "\""
  }

  /** The marker a failed evaluation is rewritten to: `[ERROR: <message>]`. */
  function ErrorMarker(e: Error): (m: string)
    ensures |m| >= 9 && m[..8] == "[ERROR: " && m[|m| - 1] == ']'
    ensures m[8..|m| - 1] == Message(e)
  {
    "[ERROR: " + Message(e) + "]"
  }

  /** Either a value or the error that stopped the computation; usable with `:-`. */
  datatype Result<+T> = Ok(value: T) | Err(error: Error) {

    predicate IsFailure() {
      Err?
    }

    function PropagateFailure<U>(): Result<U>
      requires Err?
    {
      Err(error)
    }

    function Extract(): T
      requires Ok?
    {
      value
    }
  }

  datatype Option<+T> = None | Some(value: T)
}
