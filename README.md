# Arithmetic expression transformer, modelled in Dafny

The arithmetic expression transformer is a text filter. It finds the
arithmetic expressions written inside ordinary prose and replaces each one
with its value, for example `Nested: ((1 + 2) * (3 + 4))` becomes
`Nested: 21`. It comes with two processors that reach the same goal by two
different routes:

- **ManualExpressionProcessor** is written without regular expressions. A
  walker keeps a stack of `(` positions over a `StringBuilder` and rewrites
  each matched group, innermost first, with its value. It inserts an
  `[ERROR: ...]` marker before an unmatched `)` and before every `(` left
  open. A second scanner then rewrites the expressions written without
  parentheses, keeping the spaces that follow each one.
- **RegexExpressionProcessor** repeatedly replaces the innermost groups
  `\(([^()]+)\)` whose contents are plain arithmetic, until a pass changes
  nothing. It then replaces every match of its simple-expression pattern.

The two processors evaluate along two different pipelines. The manual
processor follows the core classes: a tokenizer that skips whitespace
everywhere, Dijkstra's shunting-yard conversion to postfix, and a postfix
value-stack machine. The regex processor carries its own `tokenize`,
`toRPN` and `evalRPN`. There whitespace ends a number, `(` and `)` are
rejected as an unknown operator, a `-` starts a signed number when no token
precedes it or when the last token is contained in `"+-*/"`, and the
operator test is containment in `"+-*/"`.

The processors also treat failures differently:

- The manual walker writes an `[ERROR: <message>]` marker in place of a
  group that fails to evaluate.
- The manual plain-expression scanner treats a candidate that does not
  tokenize as no expression at all and copies it unchanged.
- The regex bracket pass keeps a group that fails as `(` + contents + `)`.
- The regex simple pass writes an `[ERROR: <message>]` marker in place of
  a match that fails to evaluate.

The Dafny modules follow the Java classes:

| module | Java class |
|---|---|
| `MathUtils` | `processors/core/MathUtils` |
| `ExpressionParser` | `processors/core/ExpressionParser` |
| `ExpressionConverter` | `expressions/core/ExpressionConverter` |
| `ExpressionEvaluator` | `expressions/core/ExpressionEvaluator` |
| `ExpressionValidator` | `processors/core/ExpressionValidator` |
| `ManualExpressionProcessor` | `processors/ManualExpressionProcessor` |
| `RegexExpressionProcessor` | `processors/RegexExpressionProcessor` (the live class) |

Three helper modules support them:

- `Errors` holds the exceptions as one sum type. Each case carries the
  message text the source writes.
- `JavaLang` models the library calls the code relies on:
  `Character.isDigit` and `Character.isWhitespace`, the regex class `\s`,
  `Double.parseDouble` on decimal literals, `String.valueOf(long)`, and
  `Double.toString`.
- `ExpressionTree` is a reference evaluator over binary expression trees.
  The lemmas about infix (tokens) → postfix → value are stated against it.

Each loop of the source is a Dafny `method` with a `while` loop and its
invariants. Its `ensures` ties the result to a specification function, and
the properties are proved about that function. The specification
functions are left folds over the input, one step per iteration of the
source's loop.

`ManualExpressionProcessor` has its own copies of `tokenize` and
`infixToPostfix`. They read exactly like the core classes' versions, apart
from the number test the converter is given, so the model shares them.
Its `evaluatePostfix` differs in its number test and its messages. The
evaluator is therefore parameterised by a `Dialect`, which holds the number
test, the operator test and the three message choices; the core, manual
and regex copies are three dialects.

Where the code and its documentation disagree, the model follows the code:

- `isNumber` in `MathUtils` and in the regex processor is
  `Double.parseDouble`. So `5.` and `.5` are numbers, not only
  `[+-]?digits(.digits)?`.
- The manual walker evaluates every parenthesised group and inserts
  bracket error markers. It does not leave failed groups or stray brackets
  as they were, which the shared tests expect of both processors.
- After a rejected candidate, the plain-expression scanner resumes at the
  next character, not after the candidate.

## Model

| member | source | states |
|---|---|---|
| MathUtils.IsOperator | src/main/java/org/example/processors/core/MathUtils.java:21-27 | a string is an operator exactly when it is one of the four one-character operators `+ - * /` |
| MathUtils.Precedence | src/main/java/org/example/processors/core/MathUtils.java:29-35 | precedence is positive exactly for the operators, lies in 0..2, and is 2 exactly for `*` and `/` |
| MathUtils.IsNumber | src/main/java/org/example/processors/core/MathUtils.java:8-19 | a token is a number exactly when `Double.parseDouble` accepts it (so never the empty string) |
| MathUtils.IsDecimalPoint | src/main/java/org/example/processors/core/MathUtils.java:37-41 | a decimal point is never at index 0 or at the last index |
| MathUtils.DecimalPointIgnoresItself | src/main/java/org/example/processors/core/MathUtils.java:37-41 | whether index i is a decimal point does not depend on the character at i |
| MathUtils.NumberOnNumberShaped | src/main/java/org/example/processors/core/MathUtils.java:12-18 | on the tokenizer's number tokens (a leading `-`, then digits and `.`), isNumber holds exactly when there is at most one `.` and at least one digit |
| MathUtils.NumberHasOneDotAndDigit | src/main/java/org/example/processors/core/MathUtils.java:12-18 | a number-shaped token that parses has at most one `.` and some digit |
| MathUtils.OneDotAndDigitIsNumber | src/main/java/org/example/processors/core/MathUtils.java:12-18 | a number-shaped token with at most one `.` and some digit parses |
| MathUtils.NumberDots | src/main/java/org/example/processors/core/MathUtils.java:12-18 | a decimal literal holds at most one `.` |
| MathUtils.DigitIsNumber | src/main/java/org/example/processors/core/MathUtils.java:8-19 | a single digit is a number |
| MathUtils.FormatDouble | src/main/java/org/example/processors/core/MathUtils.java:49-55 | for a whole value in the long range the text reads back as that value, as `String.valueOf(long)` does; that the text is non-empty, starts with `-` or a digit and holds only `-`, digits and `.` is a property of the model's plain-decimal rendering of other values, not of Java, which can print E notation |
| JavaLang.ParseDouble | src/main/java/org/example/processors/core/MathUtils.java:13 | parsing succeeds exactly on decimal literals, and otherwise fails with a NumberFormatException naming the input |
| JavaLang.IntToStringRoundTrip | src/main/java/org/example/processors/core/MathUtils.java:51 | `String.valueOf` of a whole number is a decimal literal whose value is that number |
| JavaLang.NatToStringValue | src/main/java/org/example/processors/core/MathUtils.java:51 | the digits of `String.valueOf(n)` denote n |
| Errors.ErrorMarker | src/main/java/org/example/expressions/core/ExpressionEvaluator.java:35 | a failure is written as `[ERROR: ` + its message + `]` |
| ExpressionTree.Apply | src/main/java/org/example/expressions/core/ExpressionEvaluator.java:57-68 | applying an operator fails exactly on `/` with a zero right operand, with "Division by zero"; otherwise a quotient times the divisor gives back the dividend |
| ExpressionParser.Tokenize | src/main/java/org/example/processors/core/ExpressionParser.java:15-52 | the loop returns what the character-by-character scan specifies |
| ExpressionParser.TokensSpellInput | src/main/java/org/example/processors/core/ExpressionParser.java:20-50 | on success the tokens, concatenated, give the input with its whitespace removed |
| ExpressionParser.RunSpelled | src/main/java/org/example/processors/core/ExpressionParser.java:20-47 | each scanned piece adds its non-whitespace characters to the tokens and pending number, in order |
| ExpressionParser.TokenShapes | src/main/java/org/example/processors/core/ExpressionParser.java:25-50 | every token is an operator, a parenthesis, or a number-shaped token: non-empty, `-` only in front, otherwise digits and `.` |
| ExpressionParser.RunReachable | src/main/java/org/example/processors/core/ExpressionParser.java:18-42 | the scan keeps its invariant: when `expectUnary` holds the number buffer is empty, a signed number follows only the start, an operator or `(`, and a binary `-` follows only a number or `)` |
| ExpressionParser.FlushReachable | src/main/java/org/example/processors/core/ExpressionParser.java:32-35 | a pending number is emitted as one token before a symbol, and the buffer is empty afterwards |
| ExpressionParser.LexemesShaped | src/main/java/org/example/processors/core/ExpressionParser.java:31-50 | the emitted token list, including the final flush, keeps the token-shape invariant |
| ExpressionParser.TokensFailOnStray | src/main/java/org/example/processors/core/ExpressionParser.java:43-45 | tokenizing fails exactly when some non-whitespace character is not a digit, `.`, operator or parenthesis, and the message names the first such character |
| ExpressionParser.RunFails | src/main/java/org/example/processors/core/ExpressionParser.java:20-47 | from any scan state, the scan fails exactly on a stray character, naming the first one |
| ExpressionParser.DocumentedExample | src/main/java/org/example/processors/core/ExpressionParser.java:12-13 | `2 + 3*(4-1.5)` tokenizes to `2 + 3 * ( 4 - 1.5 )` |
| ExpressionParser.WhitespaceJoinsDigits | src/main/java/org/example/processors/core/ExpressionParser.java:21-27 | whitespace does not end a number, so `5 3` is the single token `53` |
| ExpressionParser.SignedOperands | src/main/java/org/example/processors/core/ExpressionParser.java:18-30 | `-` joins the number after `(` and after an operator, and is an operator after a number: `(-2--3)` is `( -2 - -3 )` |
| ExpressionConverter.InfixToPostfix | src/main/java/org/example/expressions/core/ExpressionConverter.java:13-53 | the loop and its inner loops return what the shunting-yard specification gives |
| ExpressionConverter.StackDisciplineHolds | src/main/java/org/example/expressions/core/ExpressionConverter.java:20-28 | after every prefix of the input the stack holds only operators and `(`, with precedences strictly increasing between `(` markers |
| ExpressionConverter.PostfixPermutes | src/main/java/org/example/expressions/core/ExpressionConverter.java:17-52 | on success the output holds only numbers and operators, is a permutation of the input without its parentheses, and keeps the numbers in input order |
| ExpressionConverter.RunInvariant | src/main/java/org/example/expressions/core/ExpressionConverter.java:17-46 | the main loop keeps the stack shape, accounts for every token read, and keeps the numbers in order |
| ExpressionConverter.DrainKeeps | src/main/java/org/example/expressions/core/ExpressionConverter.java:47-51 | draining fails exactly when a `(` is still open, and otherwise completes the permutation |
| ExpressionConverter.PopHigherStops | src/main/java/org/example/expressions/core/ExpressionConverter.java:21-25 | popping before an operator removes only stack-top operators, and stops at an empty stack, a `(` or a lower precedence |
| ExpressionConverter.PopToOpenFails | src/main/java/org/example/expressions/core/ExpressionConverter.java:29-42 | a `)` fails exactly when no `(` is on the stack |
| ExpressionConverter.PopToOpenMismatched | src/main/java/org/example/expressions/core/ExpressionConverter.java:40-42 | that failure is "Mismatched parentheses" |
| ExpressionConverter.DrainMismatched | src/main/java/org/example/expressions/core/ExpressionConverter.java:47-49 | a failure while draining is "Mismatched parentheses" |
| ExpressionConverter.RunFailsOnClose | src/main/java/org/example/expressions/core/ExpressionConverter.java:29-42 | on known tokens the loop fails exactly when the parenthesis depth dips below zero, with "Mismatched parentheses" |
| ExpressionConverter.StepFailsOnClose | src/main/java/org/example/expressions/core/ExpressionConverter.java:17-46 | one token fails exactly when it is a `)` at depth zero; otherwise the depth changes by the token's weight |
| ExpressionConverter.DipsPrefix | src/main/java/org/example/expressions/core/ExpressionConverter.java:29-42 | the depth dips below zero exactly when some prefix of the tokens has more `)` than `(` |
| ExpressionConverter.PostfixFailsOnUnbalanced | src/main/java/org/example/expressions/core/ExpressionConverter.java:29-49 | on known tokens, conversion fails exactly when the parentheses are unbalanced, and then with "Mismatched parentheses" |
| ExpressionConverter.PostfixUnknown | src/main/java/org/example/expressions/core/ExpressionConverter.java:43-45 | an "Unknown operator or symbol" failure names an input token that is neither a number, an operator nor a parenthesis, and any such token makes conversion fail |
| ExpressionConverter.RunUnknown | src/main/java/org/example/expressions/core/ExpressionConverter.java:43-45 | the same, for the main loop from any state |
| ExpressionConverter.InfixToPostfixOfTree | src/main/java/org/example/expressions/core/ExpressionConverter.java:13-53 | the fully parenthesised infix form of an expression tree converts to the tree's postfix form |
| ExpressionConverter.RunTree | src/main/java/org/example/expressions/core/ExpressionConverter.java:17-46 | a tree's infix tokens move exactly its postfix form to the output and leave the stack as it was |
| ExpressionConverter.LeftAssociative | src/main/java/org/example/expressions/core/ExpressionConverter.java:20-26 | equal precedence pops first: `1 - 2 - 3` becomes `1 2 - 3 -` |
| ExpressionConverter.MultiplicationFirst | src/main/java/org/example/expressions/core/ExpressionConverter.java:20-26 | higher precedence stays on the stack: `1 + 2 * 3` becomes `1 2 3 * +` |
| ExpressionConverter.MalformedNumeral | src/main/java/org/example/expressions/core/ExpressionConverter.java:43-45 | `1.2.3` is no number and fails with "Unknown operator or symbol: '1.2.3'" |
| ExpressionEvaluator.EvaluatePostfix | src/main/java/org/example/expressions/core/ExpressionEvaluator.java:46-78 | the loop returns what the value-stack specification gives, in every dialect |
| ExpressionEvaluator.Switch | src/main/java/org/example/expressions/core/ExpressionEvaluator.java:57-68 | the switch computes `a op b`, with the dialect's failure for the default case |
| ExpressionEvaluator.StackSizeAfterEachToken | src/main/java/org/example/expressions/core/ExpressionEvaluator.java:48-69 | after each prefix of a successful run, the stack size is the numbers seen minus the operators seen |
| ExpressionEvaluator.RunCounts | src/main/java/org/example/expressions/core/ExpressionEvaluator.java:48-73 | a successful run reads only numbers and operators, and its stack grows by numbers minus operators |
| ExpressionEvaluator.SuccessNeedsOneMoreNumber | src/main/java/org/example/expressions/core/ExpressionEvaluator.java:74-77 | after a successful loop, evaluation succeeds exactly when there is one more number than operators, and otherwise fails with the leftover error |
| ExpressionEvaluator.UnderflowFails | src/main/java/org/example/expressions/core/ExpressionEvaluator.java:52-54 | an operator met with fewer than two values fails with "Invalid expression" |
| ExpressionEvaluator.DivisionByZeroFails | src/main/java/org/example/expressions/core/ExpressionEvaluator.java:61-64 | `/` with a zero top value fails with "Division by zero" |
| ExpressionEvaluator.StrayTokenFails | src/main/java/org/example/expressions/core/ExpressionEvaluator.java:70-72 | a token that is neither a number nor an operator fails with the dialect's stray-token error |
| ExpressionEvaluator.FailsAt | src/main/java/org/example/expressions/core/ExpressionEvaluator.java:48-73 | the first failing token's error is the evaluation's error |
| ExpressionEvaluator.RunAppend | src/main/java/org/example/expressions/core/ExpressionEvaluator.java:48-73 | running two token lists in a row is running their concatenation, and a failure in the first is final |
| ExpressionEvaluator.OperandOrder | src/main/java/org/example/expressions/core/ExpressionEvaluator.java:55-69 | the top value is the right operand: `x y -` is x − y, `x y /` is x / y, and fails when y is zero |
| ExpressionEvaluator.LastOperator | src/main/java/org/example/expressions/core/ExpressionEvaluator.java:55-69 | an operator on a two-value stack leaves exactly `a op b`, or its failure |
| ExpressionEvaluator.PostfixOfTreeValue | src/main/java/org/example/expressions/core/ExpressionEvaluator.java:46-78 | evaluating a tree's postfix form gives the tree's value, or the tree's failure |
| ExpressionEvaluator.RunTreeValue | src/main/java/org/example/expressions/core/ExpressionEvaluator.java:48-73 | a tree's postfix tokens push exactly the tree's value onto any stack |
| ExpressionEvaluator.InfixValue | src/main/java/org/example/expressions/core/ExpressionEvaluator.java:28-37 | converting a tree's infix form and evaluating the postfix gives the tree's value, or its division-by-zero failure |
| ExpressionEvaluator.EvalExpression | src/main/java/org/example/expressions/core/ExpressionEvaluator.java:28-37 | no failure escapes: the result is the formatted value, or `[ERROR: message]`, and it starts with `[` exactly when the pipeline failed |
| ExpressionValidator.StrayCharacterRejects | src/main/java/org/example/processors/core/ExpressionValidator.java:27-35 | a character the tokenizer rejects makes the text no potential expression |
| ExpressionValidator.PotentialHasDigitAndOperator | src/main/java/org/example/processors/core/ExpressionValidator.java:26-36 | a potential expression contains a digit, an operator character and no stray character |
| ExpressionValidator.TokenCharInInput | src/main/java/org/example/processors/core/ExpressionValidator.java:28 | every character of a token is a character of the input |
| ExpressionValidator.ValidMathTokenizes | src/main/java/org/example/processors/core/ExpressionValidator.java:46-48 | a text matching `[0-9+\-*/.\s]+` tokenizes without error and holds no parenthesis |
| ExpressionValidator.SignedNumberRejected | src/main/java/org/example/processors/core/ExpressionValidator.java:29 | `-5` is one token, so fewer than three, and is rejected |
| ExpressionValidator.ParenthesisedNumberRejected | src/main/java/org/example/processors/core/ExpressionValidator.java:29-32 | `(5)` has three tokens but no operator, and is rejected |
| ExpressionValidator.WordsRejected | src/main/java/org/example/processors/core/ExpressionValidator.java:33-35 | `test + words` does not tokenize, and is rejected |
| ExpressionValidator.SumTokens | src/main/java/org/example/processors/core/ExpressionValidator.java:28 | `2 + 2` tokenizes to a number, an operator and a number |
| ExpressionValidator.SumAccepted | src/main/java/org/example/processors/core/ExpressionValidator.java:29-32 | `2 + 2` is a potential expression |
| ManualExpressionProcessor.IsNumber | src/main/java/org/example/processors/ManualExpressionProcessor.java:308-330 | the index loop decides that the token is non-empty, more than a sign, has only digits and `.` after the sign, and at most one `.` |
| ManualExpressionProcessor.DotCountPrefix | src/main/java/org/example/processors/ManualExpressionProcessor.java:319-327 | the loop's `hasDecimal` flag counts the `.` seen so far |
| ManualExpressionProcessor.NumberSyntaxOnTokens | src/main/java/org/example/processors/ManualExpressionProcessor.java:308-330 | on number-shaped tokens this test accepts `.` and `-.`, which `Double.parseDouble` rejects; it agrees with parsing once a digit is present |
| ManualExpressionProcessor.DotToken | src/main/java/org/example/processors/ManualExpressionProcessor.java:276-277 | a lone `.` passes this number test and then fails to parse, where the core evaluator reports "Unknown operator" |
| ManualExpressionProcessor.FormatDoubleInt | src/main/java/org/example/processors/ManualExpressionProcessor.java:368-374 | the text starts with `-` or a digit, and a whole value in the `int` range reads back as itself |
| ManualExpressionProcessor.EvalSafe | src/main/java/org/example/processors/ManualExpressionProcessor.java:154-163 | no failure escapes: the formatted value, or `[ERROR: message]`, starting with `[` exactly on failure |
| ManualExpressionProcessor.ValidatorIsStricter | src/main/java/org/example/processors/ManualExpressionProcessor.java:133-140 | what the validator accepts this class accepts too, and `(5)` is accepted here but not there |
| ManualExpressionProcessor.Process | src/main/java/org/example/processors/ManualExpressionProcessor.java:15-52 | the walk, the unclosed-bracket markers and the plain pass, in that order, give the specified output |
| ManualExpressionProcessor.WalkBrackets | src/main/java/org/example/processors/ManualExpressionProcessor.java:19-40 | the walk loop runs to the end of the buffer and returns the specified buffer and open positions |
| ManualExpressionProcessor.WalkOnce | src/main/java/org/example/processors/ManualExpressionProcessor.java:21-39 | one iteration performs exactly the specified step |
| ManualExpressionProcessor.WalkStep | src/main/java/org/example/processors/ManualExpressionProcessor.java:17-40 | each step keeps the invariant (open positions strictly increasing, all before the cursor, each at a `(`) and shortens what is left to walk by one |
| ManualExpressionProcessor.WalkFrom | src/main/java/org/example/processors/ManualExpressionProcessor.java:20-40 | the walk ends with the cursor at the end of the buffer and the invariant kept |
| ManualExpressionProcessor.Matched | src/main/java/org/example/processors/ManualExpressionProcessor.java:31-36 | a matched pair is replaced by evalSafe of its contents, text before the `(` is untouched, and the cursor resumes right after the replacement |
| ManualExpressionProcessor.Splice | src/main/java/org/example/processors/ManualExpressionProcessor.java:35-36 | the buffer edit replaces `[start, i]` by the replacement and puts the cursor after it |
| ManualExpressionProcessor.Unmatched | src/main/java/org/example/processors/ManualExpressionProcessor.java:26-29 | an unmatched `)` gets the "Unmatched closing bracket at position i" marker before it, and the cursor skips the marker and the `)` |
| ManualExpressionProcessor.Insert | src/main/java/org/example/processors/ManualExpressionProcessor.java:27-28 | inserting a marker before the cursor keeps everything else and moves the cursor past the marker and the character |
| ManualExpressionProcessor.CloseStep | src/main/java/org/example/processors/ManualExpressionProcessor.java:42-46 | the highest open position gets its "Unclosed bracket" marker, and the lower positions still point at their `(` |
| ManualExpressionProcessor.MarkUnclosed | src/main/java/org/example/processors/ManualExpressionProcessor.java:42-46 | the loop marks every open position, highest first |
| ManualExpressionProcessor.WalkWithoutParens | src/main/java/org/example/processors/ManualExpressionProcessor.java:20-40 | a buffer with no parenthesis after the cursor is walked without change |
| ManualExpressionProcessor.ScanSpan | src/main/java/org/example/processors/ManualExpressionProcessor.java:86-97 | the inner loop only moves forward, and the last meaningful index is either unchanged or a position it passed |
| ManualExpressionProcessor.ScanSpanFacts | src/main/java/org/example/processors/ManualExpressionProcessor.java:86-97 | the inner loop passes only digits, operators, decimal points and spaces and stops at anything else; only spaces follow the last meaningful character; an operator was seen exactly when one was passed |
| ManualExpressionProcessor.ScanSpanStarts | src/main/java/org/example/processors/ManualExpressionProcessor.java:81-103 | a run starting with a digit, `-` or `+` has a meaningful character at its start, so the branch for lastMeaningfulIndex == -1 is unreachable |
| ManualExpressionProcessor.ScanRun | src/main/java/org/example/processors/ManualExpressionProcessor.java:82-97 | the inner loop's three variables end as the scan specifies |
| ManualExpressionProcessor.ReplacePlainExpressions | src/main/java/org/example/processors/ManualExpressionProcessor.java:75-119 | the outer loop builds the specified text |
| ManualExpressionProcessor.PlainOnce | src/main/java/org/example/processors/ManualExpressionProcessor.java:80-116 | one outer iteration advances `pos` by at least one and emits exactly the specified piece |
| ManualExpressionProcessor.PlainRunStep | src/main/java/org/example/processors/ManualExpressionProcessor.java:99-116 | an accepted candidate with an operator is replaced, followed by its trailing spaces, and the scan resumes after them; otherwise one character is copied |
| ManualExpressionProcessor.PlainCopyStep | src/main/java/org/example/processors/ManualExpressionProcessor.java:115-116 | a character that cannot start an expression is copied |
| ManualExpressionProcessor.PlainVerbatim | src/main/java/org/example/processors/ManualExpressionProcessor.java:79-117 | text without a digit, `+` or `-` is copied unchanged |
| RegexExpressionProcessor.OperatorTokens | src/main/java/org/example/processors/RegexExpressionProcessor.java:866-868 | `"+-*/".contains` accepts exactly the empty string and the ten runs of adjacent operator characters, eleven strings in all |
| RegexExpressionProcessor.OperatorOnTokens | src/main/java/org/example/processors/RegexExpressionProcessor.java:866-868 | on the tokenizer's tokens, containment agrees with MathUtils.isOperator |
| RegexExpressionProcessor.Tokenize | src/main/java/org/example/processors/RegexExpressionProcessor.java:797-832 | the index loop returns what the tokenizer specification gives |
| RegexExpressionProcessor.ScanNumeral | src/main/java/org/example/processors/RegexExpressionProcessor.java:811-826 | the digit loop stops at the first character that is not a digit or `.` |
| RegexExpressionProcessor.NumeralEnd | src/main/java/org/example/processors/RegexExpressionProcessor.java:812-825 | the numeral ends at the maximal run of digits and `.` |
| RegexExpressionProcessor.Advance | src/main/java/org/example/processors/RegexExpressionProcessor.java:801-830 | each iteration moves forward, skips whitespace, and otherwise adds exactly the characters it passed as one token |
| RegexExpressionProcessor.AdvanceToken | src/main/java/org/example/processors/RegexExpressionProcessor.java:808-826 | a token is an operator, a `-` fused with the digits after it, or a run of digits and `.` |
| RegexExpressionProcessor.TokenizeFromFails | src/main/java/org/example/processors/RegexExpressionProcessor.java:827-829 | tokenizing fails exactly on a character other than whitespace, a digit, `.` or an operator (so on `(` and `)`), with "Unknown operator" |
| RegexExpressionProcessor.TokensFacts | src/main/java/org/example/processors/RegexExpressionProcessor.java:797-832 | it fails exactly on such a character; on success every token has a token shape, and the tokens spell the input without its whitespace |
| RegexExpressionProcessor.TokenizeFromSpells | src/main/java/org/example/processors/RegexExpressionProcessor.java:801-830 | the tokens from any position spell the rest of the input without whitespace |
| RegexExpressionProcessor.AdvanceSpells | src/main/java/org/example/processors/RegexExpressionProcessor.java:801-830 | one iteration keeps the spelling invariant |
| RegexExpressionProcessor.TokenizeFromShapes | src/main/java/org/example/processors/RegexExpressionProcessor.java:801-830 | tokens already emitted are kept, and each new one has a token shape |
| RegexExpressionProcessor.ToRPN | src/main/java/org/example/processors/RegexExpressionProcessor.java:834-855 | the loop returns what the RPN specification gives |
| RegexExpressionProcessor.PopAll | src/main/java/org/example/processors/RegexExpressionProcessor.java:851-853 | draining appends the whole stack to the output, keeping the output's prefix |
| RegexExpressionProcessor.RpnAccepts | src/main/java/org/example/processors/RegexExpressionProcessor.java:838-850 | conversion succeeds exactly when every token is a number or an operator, and otherwise fails with "Unknown operator" |
| RegexExpressionProcessor.RpnRunAccepts | src/main/java/org/example/processors/RegexExpressionProcessor.java:838-850 | the same for the loop from any state |
| RegexExpressionProcessor.RpnPermutes | src/main/java/org/example/processors/RegexExpressionProcessor.java:834-855 | the output is a permutation of the input tokens |
| RegexExpressionProcessor.RpnRunKeeps | src/main/java/org/example/processors/RegexExpressionProcessor.java:838-850 | the loop keeps every token it reads, in the output or on the stack |
| RegexExpressionProcessor.PopHigherKeeps | src/main/java/org/example/processors/RegexExpressionProcessor.java:842-845 | popping moves tokens from the stack to the output and loses none |
| RegexExpressionProcessor.RpnAgreesWithPostfix | src/main/java/org/example/processors/RegexExpressionProcessor.java:834-855 | on numbers and the four operators, toRPN gives exactly what ExpressionConverter.infixToPostfix gives |
| RegexExpressionProcessor.RunAgrees | src/main/java/org/example/processors/RegexExpressionProcessor.java:838-850 | the two main loops agree on numbers and the four operators |
| RegexExpressionProcessor.DrainAgrees | src/main/java/org/example/processors/RegexExpressionProcessor.java:851-853 | on a stack of the four operators the two drains agree and cannot fail |
| RegexExpressionProcessor.PopHigherAgrees | src/main/java/org/example/processors/RegexExpressionProcessor.java:842-845 | on a stack of the four operators, containment and equality pop the same operators |
| RegexExpressionProcessor.EvalAgrees | src/main/java/org/example/processors/RegexExpressionProcessor.java:876-908 | on numbers and the four operators, evalRPN gives what ExpressionEvaluator.evaluatePostfix gives |
| RegexExpressionProcessor.EvalRunAgrees | src/main/java/org/example/processors/RegexExpressionProcessor.java:878-903 | the two evaluation loops agree on numbers and the four operators |
| RegexExpressionProcessor.EvalExpression | src/main/java/org/example/processors/RegexExpressionProcessor.java:791-795 | tokenize, toRPN and evalRPN run in turn, and the first failure ends the evaluation |
| RegexExpressionProcessor.EvaluateAgrees | src/main/java/org/example/processors/RegexExpressionProcessor.java:791-795 | when the tokens are numbers and operators the pipeline computes the core evaluator's value of the converted tokens; otherwise it fails with "Unknown operator" (a lone `-` from a sign with no digits counts as an operator) |
| RegexExpressionProcessor.EvaluateErrors | src/main/java/org/example/processors/RegexExpressionProcessor.java:791-908 | every failure is "Unknown operator", "Invalid expression" or "Division by zero", so the "Unknown error" branch cannot be taken |
| RegexExpressionProcessor.NextParen | src/main/java/org/example/processors/RegexExpressionProcessor.java:686 | the scan stops at the first parenthesis |
| RegexExpressionProcessor.GroupEnd | src/main/java/org/example/processors/RegexExpressionProcessor.java:686 | a match at a position is `(`, one or more characters other than parentheses, then `)` |
| RegexExpressionProcessor.GroupEndFinds | src/main/java/org/example/processors/RegexExpressionProcessor.java:686 | every such group is found at its start |
| RegexExpressionProcessor.FindGroup | src/main/java/org/example/processors/RegexExpressionProcessor.java:729-730 | `find` returns an innermost group at or after the search position |
| RegexExpressionProcessor.FindGroupLeftmost | src/main/java/org/example/processors/RegexExpressionProcessor.java:729-730 | it is the leftmost one, and no group follows when nothing is found |
| RegexExpressionProcessor.GroupParens | src/main/java/org/example/processors/RegexExpressionProcessor.java:686-748 | a matched group is `(` + its contents + `)`, with exactly two parentheses |
| RegexExpressionProcessor.FirstMatch | src/main/java/org/example/processors/RegexExpressionProcessor.java:729 | the search returns the first position where the pattern matches |
| RegexExpressionProcessor.FirstMatchLeftmost | src/main/java/org/example/processors/RegexExpressionProcessor.java:729 | no earlier position matches |
| RegexExpressionProcessor.ReplacementKeeps | src/main/java/org/example/processors/RegexExpressionProcessor.java:732-741 | a group is written back unchanged exactly when its contents are not plain arithmetic or fail to evaluate; otherwise it becomes the formatted value |
| RegexExpressionProcessor.ReplacementClears | src/main/java/org/example/processors/RegexExpressionProcessor.java:732-741 | a replacement either keeps the group or holds no parenthesis |
| RegexExpressionProcessor.PassStep | src/main/java/org/example/processors/RegexExpressionProcessor.java:743-750 | one match appends the text before it and its replacement, and sets `found` when the replacement differs from the group |
| RegexExpressionProcessor.PassParens | src/main/java/org/example/processors/RegexExpressionProcessor.java:729-756 | a pass that sets `found` removes at least one `(` and one `)`, and a pass that does not leaves the text unchanged |
| RegexExpressionProcessor.StableFrom | src/main/java/org/example/processors/RegexExpressionProcessor.java:748-757 | when a pass sets no `found`, every innermost group is kept by its replacement |
| RegexExpressionProcessor.GroupsApart | src/main/java/org/example/processors/RegexExpressionProcessor.java:686 | two innermost groups that overlap are the same group |
| RegexExpressionProcessor.Innermost | src/main/java/org/example/processors/RegexExpressionProcessor.java:702-757 | the do-while loop terminates, and on its result every innermost group is one the replacement keeps |
| RegexExpressionProcessor.ReplaceGroup | src/main/java/org/example/processors/RegexExpressionProcessor.java:731-741 | the loop body computes the replacement, catching a failed evaluation |
| RegexExpressionProcessor.PassOnce | src/main/java/org/example/processors/RegexExpressionProcessor.java:730-750 | one iteration appends exactly the piece up to the match's end and records whether it changed anything |
| RegexExpressionProcessor.BracketPass | src/main/java/org/example/processors/RegexExpressionProcessor.java:704-756 | one pass of the find loop returns the specified text and `found` |
| RegexExpressionProcessor.SkipSpaces | src/main/java/org/example/processors/RegexExpressionProcessor.java:688 | `\s*` takes the maximal run of regex whitespace |
| RegexExpressionProcessor.NumberShape | src/main/java/org/example/processors/RegexExpressionProcessor.java:688 | a numeral `-?\d+(?:\.\d+)?` matches exactly where an optional `-` is followed by a digit; it ends in a digit, holds only digits and `.` after its start, and is not followed by a digit |
| RegexExpressionProcessor.TailShape | src/main/java/org/example/processors/RegexExpressionProcessor.java:688 | an operator-operand repetition ends in a digit and holds only characters of the math class |
| RegexExpressionProcessor.TailsShape | src/main/java/org/example/processors/RegexExpressionProcessor.java:688 | the repeated tails end in a digit and hold only characters of the math class |
| RegexExpressionProcessor.TailsMaximal | src/main/java/org/example/processors/RegexExpressionProcessor.java:688 | the repetition is greedy: no further tail follows it |
| RegexExpressionProcessor.SimpleMaximal | src/main/java/org/example/processors/RegexExpressionProcessor.java:688 | a simple-expression match cannot be extended by another tail |
| RegexExpressionProcessor.SimpleShape | src/main/java/org/example/processors/RegexExpressionProcessor.java:687-689 | a simple-expression match starts with `-` or a digit, ends in a digit, and holds only math characters |
| RegexExpressionProcessor.FindSimple | src/main/java/org/example/processors/RegexExpressionProcessor.java:773-774 | `find` returns a non-empty match of the simple-expression pattern at or after the search position |
| RegexExpressionProcessor.FindSimpleLeftmost | src/main/java/org/example/processors/RegexExpressionProcessor.java:773-774 | it is the leftmost match, and none remains when nothing is found |
| RegexExpressionProcessor.NoDigitsNoMatch | src/main/java/org/example/processors/RegexExpressionProcessor.java:687-689 | a text without digits has no simple expression |
| RegexExpressionProcessor.NoDigitsUnchanged | src/main/java/org/example/processors/RegexExpressionProcessor.java:769-789 | replaceSimpleExpressions leaves a text without digits unchanged |
| RegexExpressionProcessor.SimpleMatchTokenizes | src/main/java/org/example/processors/RegexExpressionProcessor.java:773-777 | a simple-expression match always tokenizes |
| RegexExpressionProcessor.SimpleStep | src/main/java/org/example/processors/RegexExpressionProcessor.java:773-786 | each match is replaced, and the text between matches is copied |
| RegexExpressionProcessor.MarkerIsLiteral | src/main/java/org/example/processors/RegexExpressionProcessor.java:780 | the markers of the three reachable failures hold no `$` and no `\` |
| RegexExpressionProcessor.ReplacementIsLiteral | src/main/java/org/example/processors/RegexExpressionProcessor.java:776-784 | no replacement holds `$` or `\`, so appendReplacement inserts it literally |
| RegexExpressionProcessor.ReplaceSimple | src/main/java/org/example/processors/RegexExpressionProcessor.java:774-783 | the loop body computes the value or the error marker |
| RegexExpressionProcessor.SimpleOnce | src/main/java/org/example/processors/RegexExpressionProcessor.java:773-785 | one iteration appends exactly the text before the match and its replacement |
| RegexExpressionProcessor.ReplaceSimpleExpressions | src/main/java/org/example/processors/RegexExpressionProcessor.java:769-789 | the find loop with appendReplacement and appendTail builds the specified text |
| RegexExpressionProcessor.Process | src/main/java/org/example/processors/RegexExpressionProcessor.java:694-763 | the empty input is returned as it is; otherwise the bracket fixpoint runs, then the simple expressions are replaced |
| RegexExpressionProcessor.NoParensProcessed | src/main/java/org/example/processors/RegexExpressionProcessor.java:699-760 | a text without parentheses skips straight to the simple expressions |
| ExpressionValidator.IsPotentialExpression | src/main/java/org/example/processors/core/ExpressionValidator.java:26-36 | definition: false when tokenizing fails or gives fewer than three tokens, otherwise true exactly when some token is a number and some token an operator; PotentialHasDigit, PotentialHasOperator and StrayCharacterRejects state its consequences |
| ExpressionValidator.IsValidMathExpression | src/main/java/org/example/processors/core/ExpressionValidator.java:46-48 | definition: `matches` of a pattern `[class]+`, so a non-empty string whose every character is in the class |
| ExpressionValidator.IsMathChar | src/main/java/org/example/processors/RegexExpressionProcessor.java:690 | definition: the class `[0-9+\-*/.\s]`, a digit, one of the four operators, `.` or a regex space |
| MathUtils.IsOperatorChar | src/main/java/org/example/processors/core/MathUtils.java:25-27 | definition: one of `+`, `-`, `*`, `/`; MathUtils.IsOperator states that the string test accepts exactly these as one-character strings |
| ManualExpressionProcessor.IsPotentialExpression | src/main/java/org/example/processors/ManualExpressionProcessor.java:133-140 | definition: tokenizing succeeds with at least three tokens, and a tokenizer failure gives false; ValidatorIsStricter relates it to the validator's test |
| ManualExpressionProcessor.NumberSyntax | src/main/java/org/example/processors/ManualExpressionProcessor.java:308-330 | definition: a token longer than its optional leading sign whose remaining characters are digits and `.`, with at most one `.`; the IsNumber method is proved to compute it |
| ManualExpressionProcessor.Evaluate | src/main/java/org/example/processors/ManualExpressionProcessor.java:154-159 | definition: this class's tokenize, the converter with NumberSyntax as its number test and the manual evaluator dialect, in turn, the first failure being the result; SpacedEvaluation states its value on a one-digit operation |
| ExpressionEvaluator.Evaluate | src/main/java/org/example/expressions/core/ExpressionEvaluator.java:28-33 | definition: the core tokenize, infixToPostfix and evaluatePostfix in turn, the first failure being the result; InfixValue states that on the infix tokens of a well-formed tree it gives the tree's value or the same failure |
| RegexExpressionProcessor.Evaluate | src/main/java/org/example/processors/RegexExpressionProcessor.java:791-795 | definition: this class's tokenize, toRPN and evalRPN in turn, the first failure being the result; EvaluateAgrees relates it to the core pipeline |
| RegexExpressionProcessor.IsNumber | src/main/java/org/example/processors/RegexExpressionProcessor.java:857-864 | definition: `Double.parseDouble` accepts the token |
| RegexExpressionProcessor.IsOperator | src/main/java/org/example/processors/RegexExpressionProcessor.java:866-868 | definition: the token is contained in `"+-*/"`; OperatorTokens lists exactly which tokens that accepts |
| RegexExpressionProcessor.Replacement | src/main/java/org/example/processors/RegexExpressionProcessor.java:732-741 | definition: the formatted value of contents in the math class that evaluate, and otherwise the group itself; ReplacementKeeps states both directions |
| RegexExpressionProcessor.SimpleReplacement | src/main/java/org/example/processors/RegexExpressionProcessor.java:776-783 | definition: the formatted value of a match, or the `[ERROR: message]` marker of the failure its evaluation raises; MarkerIsLiteral states the marker has no `$` or `\` |
| ManualExpressionProcessor.Processed | src/main/java/org/example/processors/ManualExpressionProcessor.java:15-52 | definition: the walk over the buffer, the markers for brackets left open, then the plain pass; Process is proved to compute it |
| RegexExpressionProcessor.Processed | src/main/java/org/example/processors/RegexExpressionProcessor.java:694-763 | definition: the empty input unchanged, otherwise the bracket passes until one changes nothing, then the simple pass; Process is proved to compute it |
| JavaLang.DigitParses | src/main/java/org/example/processors/core/MathUtils.java:13 | `Double.parseDouble` reads a one-digit string as that digit's value |
| ExpressionParser.DigitRun | src/main/java/org/example/processors/core/ExpressionParser.java:25-27 | a digit joins the number buffer and clears the expectation of a sign |
| ExpressionParser.OperatorRun | src/main/java/org/example/processors/core/ExpressionParser.java:32-39 | an operator after a number flushes the number, emits the operator and expects a sign next |
| ExpressionParser.RunThen | src/main/java/org/example/processors/core/ExpressionParser.java:20-47 | the scan of a concatenation is the scan of its second part from the state the first part reaches |
| ExpressionParser.SpacedBinaryRun | src/main/java/org/example/processors/core/ExpressionParser.java:20-47 | over a digit, an operator and a digit with any whitespace around the operator, the scan ends with the first digit and the operator emitted and the second digit buffered, so a `-` after a digit is the operator |
| ExpressionParser.TokensAfter | src/main/java/org/example/processors/core/ExpressionParser.java:48-51 | the tokens are those of the scan's final state after the buffered number is flushed |
| ExpressionParser.SpacedBinary | src/main/java/org/example/processors/core/ExpressionParser.java:15-52 | a digit, an operator and a digit with any whitespace around the operator tokenize to exactly those three one-character tokens |
| ExpressionConverter.DigitPostfix | src/main/java/org/example/expressions/core/ExpressionConverter.java:17-26 | for any number test that accepts two digits and rejects an operator, `a o b` converts to `a b o` |
| ExpressionEvaluator.DigitValues | src/main/java/org/example/expressions/core/ExpressionEvaluator.java:46-78 | in any dialect whose tests accept the digits as numbers and the operator as an operator, `a b o` evaluates to the operation on the two digit values, or its failure |
| ManualExpressionProcessor.SpacedEvaluation | src/main/java/org/example/processors/ManualExpressionProcessor.java:154-159 | a digit, an operator and a digit with any whitespace around the operator evaluate to the operation on the two digits |
| ManualExpressionProcessor.SpacedWhole | src/main/java/org/example/processors/ManualExpressionProcessor.java:133-163 | such an expression with a whole value in the int range is a potential expression, and evalSafe gives that value's digits |
| ManualExpressionProcessor.WalkOpen | src/main/java/org/example/processors/ManualExpressionProcessor.java:22-24 | at a `(` the walk pushes its position and moves on, ending where it would have |
| ManualExpressionProcessor.WalkClose | src/main/java/org/example/processors/ManualExpressionProcessor.java:31-36 | at a `)` with an open `(` the walk replaces the group by the evaluation of its inside and resumes after the replacement, ending where it would have |
| ManualExpressionProcessor.WalkCloseSpaced | src/main/java/org/example/processors/ManualExpressionProcessor.java:31-36 | a group holding a one-digit operation written with single spaces, with a whole value in the int range, is replaced by that value's digits |
| ManualExpressionProcessor.PassInside | src/main/java/org/example/processors/ManualExpressionProcessor.java:37-39 | the walk passes over a one-digit operation written with single spaces |
| ManualExpressionProcessor.WalkGroupInside | src/main/java/org/example/processors/ManualExpressionProcessor.java:20-40 | from just inside the innermost open `(`, a group holding a one-digit operation with a whole value is replaced by that value's digits |
| ManualExpressionProcessor.NestedGroups | src/test/java/org/example/expressions/processors/AbstractExpressionProcessorTest.java:102-106 | process turns `Nested: ((1 + 2) * (3 + 4))` into `Nested: 21`, innermost groups first |
| ManualExpressionProcessor.ProcessedVerbatim | src/main/java/org/example/processors/ManualExpressionProcessor.java:15-52 | text without parentheses, digits, `+` or `-` comes out of process unchanged |
| ManualExpressionProcessor.PlainWithoutOperators | src/main/java/org/example/processors/ManualExpressionProcessor.java:79-117 | text without operator characters comes out of the plain pass unchanged, since no scanned run holds an operator |
| ManualExpressionProcessor.QuietWith | src/main/java/org/example/processors/ManualExpressionProcessor.java:79-117 | the same for any replacement rule and any acceptance test |
| ManualExpressionProcessor.PlainCopies | src/main/java/org/example/processors/ManualExpressionProcessor.java:115-116 | a stretch without digits and signs is copied character by character |
| ManualExpressionProcessor.PlainLast | src/main/java/org/example/processors/ManualExpressionProcessor.java:115-116 | a last character that is no digit or sign is copied |
| ManualExpressionProcessor.PlainReplaces | src/main/java/org/example/processors/ManualExpressionProcessor.java:99-113 | a run that holds an operator and whose candidate is a potential expression is replaced by its evaluation followed by the spaces after it |
| ManualExpressionProcessor.PlainAround | src/main/java/org/example/processors/ManualExpressionProcessor.java:79-117 | for a plain prefix, one replaced expression, the spaces after it and a plain last character, the plain pass gives the prefix, the value, the spaces and that character |
| ManualExpressionProcessor.SpacedSubtraction | src/test/java/org/example/expressions/processors/AbstractExpressionProcessorTest.java:258-262 | process turns `The value is   7   -   2   .` into `The value is   5   .`, keeping the spaces before and after the expression |
| RegexExpressionProcessor.SpacedTokens | src/main/java/org/example/processors/RegexExpressionProcessor.java:797-832 | `a o b` with single spaces tokenizes to its three characters, because the digit before the operator is not contained in `"+-*/"`, so a `-` there is no sign |
| RegexExpressionProcessor.SpacedEvaluation | src/main/java/org/example/processors/RegexExpressionProcessor.java:791-795 | `a o b` with single spaces evaluates to the operation on the two digits |
| RegexExpressionProcessor.WholeFormat | src/main/java/org/example/processors/core/MathUtils.java:49-55 | formatDouble renders a whole value in the long range by its digits |
| RegexExpressionProcessor.SpacedGroup | src/main/java/org/example/processors/RegexExpressionProcessor.java:732-741 | a group holding `a o b` with a whole value is replaced by that value's digits |
| RegexExpressionProcessor.SpacedSimple | src/main/java/org/example/processors/RegexExpressionProcessor.java:776-783 | a simple match `a o b` with a whole value is replaced by that value's digits |
| RegexExpressionProcessor.KeptGroup | src/main/java/org/example/processors/RegexExpressionProcessor.java:732-741 | contents with a character outside the math class keep their group as `(` + contents + `)` |
| RegexExpressionProcessor.OpenBeforeOpen | src/main/java/org/example/processors/RegexExpressionProcessor.java:686 | a `(` followed by another `(` before any `)` starts no match of the group pattern |
| RegexExpressionProcessor.FindGroupAt | src/main/java/org/example/processors/RegexExpressionProcessor.java:729-730 | `find` returns the group at a position when no earlier position starts one |
| RegexExpressionProcessor.NoOpenNoGroup | src/main/java/org/example/processors/RegexExpressionProcessor.java:729-730 | `find` returns nothing where no `(` is left |
| RegexExpressionProcessor.PassOneGroup | src/main/java/org/example/processors/RegexExpressionProcessor.java:703-757 | a pass over a text whose only group is the given one gives the text around it with the group's replacement, and sets `found` exactly when the replacement differs from the group |
| RegexExpressionProcessor.PassReplacesOne | src/main/java/org/example/processors/RegexExpressionProcessor.java:703-757 | a pass whose one group is replaced by a string of a different length yields the spliced text and sets `found` |
| RegexExpressionProcessor.PassKeepsOne | src/main/java/org/example/processors/RegexExpressionProcessor.java:703-757 | a pass whose one group is kept does not set `found` |
| RegexExpressionProcessor.NoNumberAt | src/main/java/org/example/processors/RegexExpressionProcessor.java:687-689 | no simple match starts at a character that is neither a digit nor `-` |
| RegexExpressionProcessor.FindSimpleStart | src/main/java/org/example/processors/RegexExpressionProcessor.java:773-774 | `find` returns a match starting at the first position that starts one |
| RegexExpressionProcessor.FindSimpleAt | src/main/java/org/example/processors/RegexExpressionProcessor.java:773-774 | `find` returns the match at a position when no earlier position starts one |
| RegexExpressionProcessor.SpacedSimpleEnd | src/main/java/org/example/processors/RegexExpressionProcessor.java:687-689 | `a o b` with single spaces, followed by a space and a character that is neither a space nor an operator, is one five-character match; the space after it is not part of the match |
| RegexExpressionProcessor.DigitlessTail | src/main/java/org/example/processors/RegexExpressionProcessor.java:773-786 | after the last digit, appendTail copies the rest of the text |
| RegexExpressionProcessor.OneSimple | src/main/java/org/example/processors/RegexExpressionProcessor.java:769-789 | when the first simple match has no digit after it, the pass gives the text before the match, the replacement and the text after it |
| RegexExpressionProcessor.UnclosedInnermost | src/main/java/org/example/processors/RegexExpressionProcessor.java:702-757 | on `Unclosed parentheses: (test text (3 + (4 - 2) words)` the first pass replaces `(4 - 2)` by `2`, and the second pass keeps `(3 + 2 words)` and ends the loop |
| RegexExpressionProcessor.UnclosedSimple | src/main/java/org/example/processors/RegexExpressionProcessor.java:769-789 | the simple pass then replaces `3 + 2` by `5` and copies the rest |
| RegexExpressionProcessor.UnclosedParentheses | src/test/java/org/example/expressions/processors/AbstractExpressionProcessorTest.java:177-181 | process turns `Unclosed parentheses: (test text (3 + (4 - 2) words)` into `Unclosed parentheses: (test text (5 words)` |
| ExpressionParser.Tokens | src/main/java/org/example/processors/core/ExpressionParser.java:15-52 | definition: the tokens of the character-by-character scan, or the error for the first stray character; TokensSpellInput, TokenShapes and TokensFailOnStray state its properties, and Tokenize is proved to compute it |
| ExpressionConverter.PostfixWith | src/main/java/org/example/expressions/core/ExpressionConverter.java:13-53 | definition: the shunting-yard fold over the tokens for a given number test, then the drain of the operator stack; PostfixPermutes, PostfixFailsOnUnbalanced and InfixToPostfixOfTree state its properties |
| ExpressionConverter.Postfix | src/main/java/org/example/expressions/core/ExpressionConverter.java:13-53 | definition: PostfixWith with MathUtils.isNumber as the number test; InfixToPostfix is proved to compute it |
| ExpressionEvaluator.PostfixValueWith | src/main/java/org/example/expressions/core/ExpressionEvaluator.java:46-78 | definition: the value-stack fold over the tokens in a dialect, then the single value left or the dialect's leftover error; SuccessNeedsOneMoreNumber and PostfixOfTreeValue state its properties |
| ExpressionEvaluator.PostfixValue | src/main/java/org/example/expressions/core/ExpressionEvaluator.java:46-78 | definition: PostfixValueWith in the core dialect |
| ExpressionValidator.PotentialHasDigit | src/main/java/org/example/processors/core/ExpressionValidator.java:26-36 | a potential expression holds a digit character |
| ExpressionValidator.PotentialHasOperator | src/main/java/org/example/processors/core/ExpressionValidator.java:26-36 | a potential expression holds an operator character |
| ManualExpressionProcessor.PlainWith | src/main/java/org/example/processors/ManualExpressionProcessor.java:75-119 | definition: the outer scan for any replacement rule and acceptance test, replacing an accepted run that holds an operator and keeping its trailing spaces, otherwise copying one character; PlainRunStep, PlainCopyStep and PlainVerbatim state its steps |
| ManualExpressionProcessor.PlainFrom | src/main/java/org/example/processors/ManualExpressionProcessor.java:75-119 | definition: PlainWith with evalSafe and isPotentialExpression; ReplacePlainExpressions is proved to compute it |
| ManualExpressionProcessor.CloseAll | src/main/java/org/example/processors/ManualExpressionProcessor.java:42-46 | definition: every position left open gets its marker, highest first; CloseStep states one step and MarkUnclosed is proved to compute it |
| RegexExpressionProcessor.Tokens | src/main/java/org/example/processors/RegexExpressionProcessor.java:797-832 | definition: the index scan from the start with no tokens; TokensFacts states when it fails, the token shapes and the spelling, and Tokenize is proved to compute it |
| RegexExpressionProcessor.Rpn | src/main/java/org/example/processors/RegexExpressionProcessor.java:834-855 | definition: the conversion fold, then the stack popped onto the output; RpnAccepts, RpnPermutes and RpnAgreesWithPostfix state its properties, and ToRPN is proved to compute it |
| RegexExpressionProcessor.PassWith | src/main/java/org/example/processors/RegexExpressionProcessor.java:705-756 | definition: one find loop for any replacement rule, the text before each group, its replacement, then the rest, with `found` set when a replacement differs from its group; PassParens and StableFrom state its properties |
| RegexExpressionProcessor.PassFrom | src/main/java/org/example/processors/RegexExpressionProcessor.java:705-756 | definition: PassWith with the bracket replacement; BracketPass is proved to compute it |
| RegexExpressionProcessor.SimpleWith | src/main/java/org/example/processors/RegexExpressionProcessor.java:769-789 | definition: the find loop with appendReplacement and appendTail for any replacement rule; SimpleStep and NoDigitsUnchanged state its properties |
| RegexExpressionProcessor.SimpleFrom | src/main/java/org/example/processors/RegexExpressionProcessor.java:769-789 | definition: SimpleWith with the simple replacement; ReplaceSimpleExpressions is proved to compute it |

## Left out

- Floating point. Numbers are exact reals. `Double.parseDouble` gives the
  exact decimal value of a plain decimal literal, and the four operations
  are exact, so IEEE rounding, infinities, NaN and `-0.0` are not modelled.
  `Double.parseDouble` also accepts exponents, hexadecimal forms, `Infinity`,
  `NaN` and type suffixes. None of these can arise from the tokenizers,
  which only emit digits, `.` and a leading sign, so they are not modelled either.
- MathUtils.FormatDouble: `Double.toString` is approximated by the integer
  part, a `.` and a fixed number of fraction digits. The contract only pins
  down whole values in the `long` range, which print as `String.valueOf(long)`.
  E notation is not modelled. Java prints in E notation every value that
  goes to `String.valueOf(double)` and whose magnitude is below 10^-3 or at
  least 10^7. Two kinds of value go there:
  - values that are not whole;
  - whole values outside the `long` range, for which `value == (long)
    value` is false.

  For example, Java prints `1.0E-4` and `1.0E19` where the model prints
  `0.0001` and `10000000000000000000.0`. The clause that the text holds
  only `-`, digits and `.` is true of the model's rendering only. The difference matters
  because both processors read their own output again:
  - on `(1/10000) + 1` the regex bracket pass gives `1.0E-4 + 1` in Java;
  - its simple-expression pattern then matches `-4 + 1` and Java outputs
    `1.0E-3`;
  - the model outputs `1.0001`;
  - the manual plain-expression scan likewise reads a printed `E` number
    again; see the `FormatDoubleInt` line for an example.

  ReplacementClears, and ReplacementIsLiteral through NumeralIsLiteral, are
  derived from the plain-decimal clause. What they conclude, no parentheses
  and no `$` or `\` in a rendered number, also holds of Java's E notation.
- ManualExpressionProcessor.FormatDoubleInt: the same approximation, with the
  `(int)` cast's range instead of the `long` range. E notation is missing
  for the same values, and that includes every whole value outside the
  `int` range, since `value == (int) value` is false for it. In the manual
  processor:
  - `(50000 * 50000)` gives `2.5E9` in Java, where the model gives
    `2500000000.0`;
  - `(50000 * 50000) + 1` gives `2.5E10` in Java: the walk writes
    `2.5E9 + 1`, the plain scan stops at `E`, and then it evaluates
    `9 + 1`;
  - the model gives `2500000001.0`, because its plain scan evaluates the
    whole of `2500000000.0 + 1` and the sum is again outside the `int`
    range.
- Null inputs. `isNumber(null)` and `isValidMathExpression(null)` are not
  modelled, because Dafny strings cannot be null. `process(null)` is not
  modelled for the same reason.
- Unicode. `Character.isDigit`, `Character.isWhitespace` and the regex `\s`
  are restricted to ASCII; the exact character sets are in `JavaLang`.
- java.util.regex. The three patterns are hand-written matchers. The
  bracket pattern and `VALID_MATH_EXPR` need no backtracking. The
  simple-expression pattern's quantifiers never have to give anything
  back, so the leftmost match found by the engine is the maximal one the
  matcher finds. That equivalence is argued here, not proved against a
  model of the regex engine.
- RegexExpressionProcessor.ReplaceSimpleExpressions: `appendReplacement`
  treats `$` and `\` in the replacement specially. The model inserts the
  replacement literally, which ReplacementIsLiteral justifies.
- RegexExpressionProcessor.EvaluateErrors: the `catch (Exception)` branch
  that writes "[ERROR: Unknown error]" is not modelled, because this lemma
  shows every failure is an EvaluationException.
- I/O and wiring. `Main`, `SimpleFileReader`, `SimpleFileWriter` and the
  three factory classes are not part of this model.
- Dead code. The commented-out draft classes at the top of
  `RegexExpressionProcessor.java` and the commented find loop inside its
  `process` are not modelled.
- Tests. The test classes call constructors that ManualExpressionProcessor
  and RegexExpressionProcessor do not declare. They are used only as
  sources of examples.
- Regex precedence. `RegexExpressionProcessor.precedence` is the same
  function as MathUtils' `precedence`, so the model uses MathUtils.Precedence.
- Helper methods. Each loop body of the source that the verifier reasons
  about separately is its own method: WalkOnce, ScanRun, PlainOnce,
  ScanNumeral, PassOnce, ReplaceGroup, SimpleOnce and ReplaceSimple.
  Together they do exactly what the inline Java code does.
- ExpressionEvaluator.InfixValue: stated for fully parenthesised trees
  only. Precedence and associativity are shown on examples instead, in
  ExpressionConverter.LeftAssociative and MultiplicationFirst.
