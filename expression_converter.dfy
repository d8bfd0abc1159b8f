/**
 * ExpressionConverter.infixToPostfix: Dijkstra's shunting-yard algorithm
 * over an operator stack. The number test is a parameter because the manual
 * processor runs the same loop with its own isNumber.
 */
module ExpressionConverter {
  import opened Errors
  import opened JavaLang
  import opened MathUtils
  import opened ExpressionTree

  /** The state of the loop: the output list and the operator deque, whose
      top is the last element. */
  datatype Shunt = Shunt(output: seq<string>, ops: seq<string>)

  function Top(ops: seq<string>): string
    requires |ops| > 0
  {
    ops[|ops| - 1]
  }

  function Below(ops: seq<string>): seq<string>
    requires |ops| > 0
  {
    ops[..|ops| - 1]
  }

  /** Moves the top of the operator deque to the output. */
  function Move(st: Shunt): Shunt
    requires |st.ops| > 0
  {
    Shunt(st.output + [Top(st.ops)], Below(st.ops))
  }

  /** The inner loop before `token` is pushed: stacked operators of
      precedence at least the token's go to the output. The operator test is
      a parameter because the regex processor's toRPN runs the same loop. */
  function PopHigher(isOperator: string -> bool, st: Shunt, token: string): Shunt
    decreases |st.ops|
  {
    if |st.ops| > 0 && isOperator(Top(st.ops)) && Precedence(Top(st.ops)) >= Precedence(token)
    then PopHigher(isOperator, Move(st), token)
    else st
  }

  /** The loop on `)`: everything above the nearest `(` goes to the output and
      the `(` is dropped; with no `(` the parentheses are mismatched. */
  function PopToOpen(st: Shunt): Result<Shunt>
    decreases |st.ops|
  {
    if |st.ops| == 0 then Err(MismatchedParentheses)
    else if Top(st.ops) == "(" then Ok(Shunt(st.output, Below(st.ops)))
    else PopToOpen(Move(st))
  }

  /** One iteration of the loop over the tokens. */
  function ShuntStep(isNumber: string -> bool, st: Shunt, token: string): Result<Shunt> {
    if isNumber(token) then Ok(Shunt(st.output + [token], st.ops))
    else if IsOperator(token) then
      var p := PopHigher(IsOperator, st, token);
      Ok(Shunt(p.output, p.ops + [token]))
    else if token == "(" then Ok(Shunt(st.output, st.ops + [token]))
    else if token == ")" then PopToOpen(st)
    else Err(UnknownSymbol(token))
  }

  function ShuntRun(isNumber: string -> bool, st: Shunt, tokens: seq<string>): Result<Shunt>
    decreases |tokens|
  {
    if tokens == [] then Ok(st)
    else
      match ShuntStep(isNumber, st, tokens[0])
      case Err(e) => Err(e)
      case Ok(next) => ShuntRun(isNumber, next, tokens[1..])
  }

  /** The final loop: the stack is emptied onto the output, and a parenthesis
      still on it means they are mismatched. */
  function Drain(st: Shunt): Result<seq<string>>
    decreases |st.ops|
  {
    if |st.ops| == 0 then Ok(st.output)
    else if Top(st.ops) == "(" || Top(st.ops) == ")" then Err(MismatchedParentheses)
    else Drain(Move(st))
  }

  const Empty := Shunt([], [])

  /** What infixToPostfix returns or throws, for a given number test. */
  function PostfixWith(isNumber: string -> bool, tokens: seq<string>): Result<seq<string>> {
    match ShuntRun(isNumber, Empty, tokens)
    case Err(e) => Err(e)
    case Ok(st) => Drain(st)
  }

  /** infixToPostfix with MathUtils.isNumber. */
  function Postfix(tokens: seq<string>): Result<seq<string>> {
    PostfixWith(IsNumber, tokens)
  }

  /** infixToPostfix, as the source writes it. */
  method InfixToPostfix(isNumber: string -> bool, tokens: seq<string>) returns (r: Result<seq<string>>)
    ensures r == PostfixWith(isNumber, tokens)
  {
    var output: seq<string> := [];
    var ops: seq<string> := [];
    for i := 0 to |tokens|
      invariant ShuntRun(isNumber, Empty, tokens) == ShuntRun(isNumber, Shunt(output, ops), tokens[i..])
    {
      var token := tokens[i];
      assert tokens[i..] == [token] + tokens[i + 1..];
      if isNumber(token) {
        output := output + [token];
      } else if IsOperator(token) {
        ghost var before := Shunt(output, ops);
        while |ops| > 0 && IsOperator(ops[|ops| - 1])
          invariant PopHigher(IsOperator, Shunt(output, ops), token) == PopHigher(IsOperator, before, token)
          decreases |ops|
        {
          if !(Precedence(ops[|ops| - 1]) >= Precedence(token)) {
            break;
          }
          output := output + [ops[|ops| - 1]];
          ops := ops[..|ops| - 1];
        }
        ops := ops + [token];
      } else if token == "(" {
        ops := ops + [token];
      } else if token == ")" {
        ghost var before := Shunt(output, ops);
        var foundOpen := false;
        while |ops| > 0
          invariant !foundOpen ==> PopToOpen(Shunt(output, ops)) == PopToOpen(before)
          invariant foundOpen ==> PopToOpen(before) == Ok(Shunt(output, ops))
          decreases |ops|, !foundOpen
        {
          var top := ops[|ops| - 1];
          ops := ops[..|ops| - 1];
          if top == "(" {
            foundOpen := true;
            break;
          } else {
            output := output + [top];
          }
        }
        if !foundOpen {
          return Err(MismatchedParentheses);
        }
      } else {
        return Err(UnknownSymbol(token));
      }
    }
    assert tokens[|tokens|..] == [];
    ghost var last := Shunt(output, ops);
    while |ops| > 0
      invariant Drain(last) == Drain(Shunt(output, ops))
      decreases |ops|
    {
      var top := ops[|ops| - 1];
      ops := ops[..|ops| - 1];
      if top == "(" || top == ")" {
        return Err(MismatchedParentheses);
      }
      output := output + [top];
    }
    return Ok(output);
  }

  // ---------------------------------------------------------------------
  // Token classes

  predicate IsParen(t: string) {
    t == "(" || t == ")"
  }

  /** The number test accepts no operator and no parenthesis, as both of the
      source's isNumber methods do. */
  predicate SeparatesNumbers(isNumber: string -> bool) {
    && !isNumber("+") && !isNumber("-") && !isNumber("*") && !isNumber("/")
    && !isNumber("(") && !isNumber(")")
  }

  lemma NumberSeparates()
    ensures SeparatesNumbers(IsNumber)
  {
  }

  /** A token infixToPostfix accepts. */
  predicate Known(isNumber: string -> bool, t: string) {
    isNumber(t) || IsOperator(t) || IsParen(t)
  }

  /** The tokens without the parentheses. */
  function WithoutParens(ts: seq<string>): seq<string>
    decreases |ts|
  {
    if ts == [] then [] else WithoutParens(Below(ts)) + (if IsParen(Top(ts)) then [] else [Top(ts)])
  }

  /** The number tokens, in order. */
  function NumbersOf(isNumber: string -> bool, ts: seq<string>): seq<string>
    decreases |ts|
  {
    if ts == [] then [] else NumbersOf(isNumber, Below(ts)) + (if isNumber(Top(ts)) then [Top(ts)] else [])
  }

  /** The number of `(` tokens minus the number of `)` tokens. */
  function Depth(ts: seq<string>): int
    decreases |ts|
  {
    if ts == [] then 0 else Depth(Below(ts)) + Delta(Top(ts))
  }

  /** How one token changes the nesting depth. */
  function Delta(t: string): int {
    if t == "(" then 1 else if t == ")" then -1 else 0
  }

  /** Starting from `depth`, some prefix of `ts` takes the depth below zero. */
  predicate Dips(depth: int, ts: seq<string>)
    decreases |ts|
  {
    ts != [] && (depth + Delta(ts[0]) < 0 || Dips(depth + Delta(ts[0]), ts[1..]))
  }

  /** Every `)` closes an earlier `(` and every `(` is closed. */
  predicate Balanced(ts: seq<string>) {
    (forall k | 0 <= k <= |ts| :: Depth(ts[..k]) >= 0) && Depth(ts) == 0
  }

  lemma BelowSnoc(ts: seq<string>, t: string)
    ensures Top(ts + [t]) == t && Below(ts + [t]) == ts
  {
  }

  // ---------------------------------------------------------------------
  // The loop invariant, in three parts: the shape of the state, how it
  // accounts for the tokens consumed so far, and the order of the numbers

  /** Along a stretch of operators the precedences strictly increase towards
      the top; a `(` starts a new stretch. */
  predicate Increasing(ops: seq<string>) {
    forall k | 0 <= k < |ops| - 1 :: IsOperator(ops[k]) && IsOperator(ops[k + 1]) ==>
      Precedence(ops[k]) < Precedence(ops[k + 1])
  }

  /** The deque holds only operators and `(`, in increasing precedence. */
  predicate StackDiscipline(ops: seq<string>) {
    (forall t | t in ops :: IsOperator(t) || t == "(") && Increasing(ops)
  }

  /** The output holds numbers and operators, the deque keeps its discipline. */
  predicate Shape(isNumber: string -> bool, st: Shunt) {
    && (forall t | t in st.output :: isNumber(t) || IsOperator(t))
    && StackDiscipline(st.ops)
  }

  /** Only tokens the number test rejected wait on the deque: operators and `(`. */
  predicate Pending(isNumber: string -> bool, ops: seq<string>) {
    forall t | t in ops :: (IsOperator(t) || t == "(") && !isNumber(t)
  }

  /** Neither parenthesis passes the number test. */
  predicate ParensAreNotNumbers(isNumber: string -> bool) {
    !isNumber("(") && !isNumber(")")
  }

  /** Output and deque together hold the consumed tokens but the
      parentheses, and the `(` on the deque are the ones not yet closed. */
  predicate Accounts(isNumber: string -> bool, done: seq<string>, st: Shunt) {
    && Pending(isNumber, st.ops)
    && multiset(st.output) + multiset(WithoutParens(st.ops)) == multiset(WithoutParens(done))
    && Depth(st.ops) == Depth(done)
  }

  /** The numbers consumed so far are on the output, in their input order. */
  predicate InOrder(isNumber: string -> bool, done: seq<string>, st: Shunt) {
    Pending(isNumber, st.ops) && NumbersOf(isNumber, st.output) == NumbersOf(isNumber, done)
  }

  lemma SnocParens(ts: seq<string>, t: string)
    ensures WithoutParens(ts + [t]) == WithoutParens(ts) + (if IsParen(t) then [] else [t])
    ensures Depth(ts + [t]) == Depth(ts) + Delta(t)
  {
    BelowSnoc(ts, t);
  }

  lemma SnocNumbers(isNumber: string -> bool, ts: seq<string>, t: string)
    ensures NumbersOf(isNumber, ts + [t]) == NumbersOf(isNumber, ts) + (if isNumber(t) then [t] else [])
  {
    BelowSnoc(ts, t);
  }

  lemma MoveShape(isNumber: string -> bool, st: Shunt)
    requires Shape(isNumber, st) && |st.ops| > 0 && Top(st.ops) != "("
    ensures Shape(isNumber, Move(st))
  {
    assert Top(st.ops) in st.ops;
  }

  lemma MoveAccounts(isNumber: string -> bool, done: seq<string>, st: Shunt)
    requires Accounts(isNumber, done, st) && |st.ops| > 0 && Top(st.ops) != "("
    ensures Accounts(isNumber, done, Move(st))
  {
    var top := Top(st.ops);
    assert top in st.ops;
    assert IsOperator(top);
    assert WithoutParens(st.ops) == WithoutParens(Below(st.ops)) + [top];
    assert Depth(st.ops) == Depth(Below(st.ops));
    var a, b := multiset(st.output), multiset(WithoutParens(Below(st.ops)));
    assert multiset(st.output + [top]) == a + multiset{top};
    assert multiset(WithoutParens(st.ops)) == b + multiset{top};
    assert (a + multiset{top}) + b == a + (b + multiset{top});
  }

  lemma MoveInOrder(isNumber: string -> bool, done: seq<string>, st: Shunt)
    requires InOrder(isNumber, done, st) && |st.ops| > 0
    ensures InOrder(isNumber, done, Move(st))
  {
    var top := Top(st.ops);
    assert top in st.ops;
    SnocNumbers(isNumber, st.output, top);
  }

  lemma PopHigherShape(isNumber: string -> bool, st: Shunt, token: string)
    requires Shape(isNumber, st)
    ensures Shape(isNumber, PopHigher(IsOperator, st, token))
    decreases |st.ops|
  {
    if |st.ops| > 0 && IsOperator(Top(st.ops)) && Precedence(Top(st.ops)) >= Precedence(token) {
      MoveShape(isNumber, st);
      PopHigherShape(isNumber, Move(st), token);
    }
  }

  lemma PopHigherAccounts(isNumber: string -> bool, done: seq<string>, st: Shunt, token: string)
    requires Accounts(isNumber, done, st)
    ensures Accounts(isNumber, done, PopHigher(IsOperator, st, token))
    decreases |st.ops|
  {
    if |st.ops| > 0 && IsOperator(Top(st.ops)) && Precedence(Top(st.ops)) >= Precedence(token) {
      MoveAccounts(isNumber, done, st);
      PopHigherAccounts(isNumber, done, Move(st), token);
      assert PopHigher(IsOperator, st, token) == PopHigher(IsOperator, Move(st), token);
    }
  }

  lemma PopHigherInOrder(isNumber: string -> bool, done: seq<string>, st: Shunt, token: string)
    requires InOrder(isNumber, done, st)
    ensures InOrder(isNumber, done, PopHigher(IsOperator, st, token))
    decreases |st.ops|
  {
    if |st.ops| > 0 && IsOperator(Top(st.ops)) && Precedence(Top(st.ops)) >= Precedence(token) {
      MoveInOrder(isNumber, done, st);
      PopHigherInOrder(isNumber, done, Move(st), token);
    }
  }

  /** PopHigher pops from the top only, and stops below an operator of lower
      precedence, a `(`, or the bottom. */
  lemma PopHigherStops(isOperator: string -> bool, st: Shunt, token: string)
    ensures var p := PopHigher(isOperator, st, token);
      && |p.ops| <= |st.ops| && p.ops == st.ops[..|p.ops|]
      && (|p.ops| == 0 || !isOperator(Top(p.ops)) || Precedence(Top(p.ops)) < Precedence(token))
    decreases |st.ops|
  {
    if |st.ops| > 0 && isOperator(Top(st.ops)) && Precedence(Top(st.ops)) >= Precedence(token) {
      PopHigherStops(isOperator, Move(st), token);
    }
  }

  lemma PushOperatorShape(isNumber: string -> bool, st: Shunt, token: string)
    requires Shape(isNumber, st) && IsOperator(token)
    ensures var p := PopHigher(IsOperator, st, token);
      Shape(isNumber, Shunt(p.output, p.ops + [token]))
  {
    var p := PopHigher(IsOperator, st, token);
    PopHigherShape(isNumber, st, token);
    PopHigherStops(IsOperator, st, token);
    var ops := p.ops + [token];
    forall k | 0 <= k < |ops| - 1 && IsOperator(ops[k]) && IsOperator(ops[k + 1])
      ensures Precedence(ops[k]) < Precedence(ops[k + 1])
    {
      if k < |p.ops| - 1 {
        assert ops[k] == p.ops[k] && ops[k + 1] == p.ops[k + 1];
      } else {
        assert ops[k] == Top(p.ops) && ops[k + 1] == token;
      }
    }
  }

  lemma PushOperatorAccounts(isNumber: string -> bool, done: seq<string>, st: Shunt, token: string)
    requires Accounts(isNumber, done, st) && IsOperator(token) && !isNumber(token)
    ensures var p := PopHigher(IsOperator, st, token);
      Accounts(isNumber, done + [token], Shunt(p.output, p.ops + [token]))
  {
    PopHigherAccounts(isNumber, done, st, token);
    PushOtherAccounts(isNumber, done, PopHigher(IsOperator, st, token), token);
  }

  /** Pushing an operator the number test rejected. */
  lemma PushOtherAccounts(isNumber: string -> bool, done: seq<string>, st: Shunt, token: string)
    requires Accounts(isNumber, done, st) && IsOperator(token) && !isNumber(token)
    ensures Accounts(isNumber, done + [token], Shunt(st.output, st.ops + [token]))
  {
    SnocParens(st.ops, token);
    SnocParens(done, token);
    assert !IsParen(token);
    MultisetSnoc(st.output, WithoutParens(st.ops), WithoutParens(done), token);
    PendingSnoc(isNumber, st.ops, token);
  }

  lemma MultisetSnoc(output: seq<string>, kept: seq<string>, done: seq<string>, t: string)
    requires multiset(output) + multiset(kept) == multiset(done)
    ensures multiset(output) + multiset(kept + [t]) == multiset(done + [t])
  {
    assert multiset(kept + [t]) == multiset(kept) + multiset{t};
    assert multiset(done + [t]) == multiset(done) + multiset{t};
  }

  lemma PendingSnoc(isNumber: string -> bool, ops: seq<string>, t: string)
    requires Pending(isNumber, ops) && (IsOperator(t) || t == "(") && !isNumber(t)
    ensures Pending(isNumber, ops + [t])
  {
    assert forall u | u in ops + [t] :: u in ops || u == t;
  }

  lemma PushOperatorInOrder(isNumber: string -> bool, done: seq<string>, st: Shunt, token: string)
    requires InOrder(isNumber, done, st) && IsOperator(token) && !isNumber(token)
    ensures var p := PopHigher(IsOperator, st, token);
      InOrder(isNumber, done + [token], Shunt(p.output, p.ops + [token]))
  {
    PopHigherInOrder(isNumber, done, st, token);
    SnocNumbers(isNumber, done, token);
  }

  lemma PushNumberAccounts(isNumber: string -> bool, done: seq<string>, st: Shunt, token: string)
    requires ParensAreNotNumbers(isNumber) && Accounts(isNumber, done, st) && isNumber(token)
    ensures Accounts(isNumber, done + [token], Shunt(st.output + [token], st.ops))
  {
    SnocParens(done, token);
    var a, b := multiset(st.output), multiset(WithoutParens(st.ops));
    assert multiset(st.output + [token]) == a + multiset{token};
    assert multiset(WithoutParens(done + [token])) == multiset(WithoutParens(done)) + multiset{token};
    assert (a + multiset{token}) + b == (a + b) + multiset{token};
  }

  lemma PushNumberInOrder(isNumber: string -> bool, done: seq<string>, st: Shunt, token: string)
    requires InOrder(isNumber, done, st) && isNumber(token)
    ensures InOrder(isNumber, done + [token], Shunt(st.output + [token], st.ops))
  {
    SnocNumbers(isNumber, st.output, token);
    SnocNumbers(isNumber, done, token);
  }

  lemma PushOpenAccounts(isNumber: string -> bool, done: seq<string>, st: Shunt)
    requires Accounts(isNumber, done, st) && !isNumber("(")
    ensures Accounts(isNumber, done + ["("], Shunt(st.output, st.ops + ["("]))
  {
    SnocParens(st.ops, "(");
    SnocParens(done, "(");
    assert IsParen("(");
    PendingSnoc(isNumber, st.ops, "(");
  }

  lemma PushOpenInOrder(isNumber: string -> bool, done: seq<string>, st: Shunt)
    requires InOrder(isNumber, done, st) && !isNumber("(")
    ensures InOrder(isNumber, done + ["("], Shunt(st.output, st.ops + ["("]))
  {
    SnocNumbers(isNumber, done, "(");
  }

  /** A `)` that meets its `(` on top of the deque. */
  lemma CloseAccounts(isNumber: string -> bool, done: seq<string>, st: Shunt)
    requires Accounts(isNumber, done, st) && |st.ops| > 0 && Top(st.ops) == "("
    ensures Accounts(isNumber, done + [")"], Shunt(st.output, Below(st.ops)))
  {
    SnocParens(done, ")");
    assert WithoutParens(st.ops) == WithoutParens(Below(st.ops)) + [];
    assert Depth(st.ops) == Depth(Below(st.ops)) + 1;
    assert WithoutParens(done + [")"]) == WithoutParens(done) + [];
  }

  lemma PopToOpenShape(isNumber: string -> bool, st: Shunt)
    requires Shape(isNumber, st) && PopToOpen(st).Ok?
    ensures Shape(isNumber, PopToOpen(st).value)
    decreases |st.ops|
  {
    if Top(st.ops) == "(" {
      assert Increasing(Below(st.ops));
    } else {
      MoveShape(isNumber, st);
      PopToOpenShape(isNumber, Move(st));
    }
  }

  lemma PopToOpenAccounts(isNumber: string -> bool, done: seq<string>, st: Shunt)
    requires Accounts(isNumber, done, st) && PopToOpen(st).Ok?
    ensures Accounts(isNumber, done + [")"], PopToOpen(st).value)
    decreases |st.ops|
  {
    if Top(st.ops) == "(" {
      CloseAccounts(isNumber, done, st);
    } else {
      MoveAccounts(isNumber, done, st);
      PopToOpenAccounts(isNumber, done, Move(st));
    }
  }

  lemma PopToOpenInOrder(isNumber: string -> bool, done: seq<string>, st: Shunt)
    requires InOrder(isNumber, done, st) && PopToOpen(st).Ok? && !isNumber(")")
    ensures InOrder(isNumber, done + [")"], PopToOpen(st).value)
    decreases |st.ops|
  {
    if Top(st.ops) == "(" {
      SnocNumbers(isNumber, done, ")");
    } else {
      MoveInOrder(isNumber, done, st);
      PopToOpenInOrder(isNumber, done, Move(st));
    }
  }

  /** On a stack of operators and `(`, `)` fails exactly when there is no `(`,
      that is when the depth is zero. */
  lemma PopToOpenFails(st: Shunt)
    requires forall t | t in st.ops :: IsOperator(t) || t == "("
    ensures PopToOpen(st).Err? <==> Depth(st.ops) == 0
    ensures Depth(st.ops) >= 0
    decreases |st.ops|
  {
    if |st.ops| > 0 {
      assert Top(st.ops) in st.ops;
      if Top(st.ops) == "(" {
        PopToOpenFails(Shunt(st.output, Below(st.ops)));
      } else {
        PopToOpenFails(Move(st));
      }
    }
  }

  lemma {:induction false} PopToOpenMismatched(st: Shunt)
    ensures PopToOpen(st).Err? ==> PopToOpen(st).error == MismatchedParentheses
    decreases |st.ops|
  {
    if |st.ops| > 0 && Top(st.ops) != "(" {
      PopToOpenMismatched(Move(st));
    }
  }

  lemma {:induction false} DrainMismatched(st: Shunt)
    ensures Drain(st).Err? ==> Drain(st).error == MismatchedParentheses
    decreases |st.ops|
  {
    if |st.ops| > 0 && Top(st.ops) != "(" && Top(st.ops) != ")" {
      DrainMismatched(Move(st));
    }
  }

  lemma StepShape(isNumber: string -> bool, st: Shunt, token: string)
    requires Shape(isNumber, st) && ShuntStep(isNumber, st, token).Ok?
    ensures Shape(isNumber, ShuntStep(isNumber, st, token).value)
  {
    if isNumber(token) {
    } else if IsOperator(token) {
      PushOperatorShape(isNumber, st, token);
    } else if token == "(" {
      var ops := st.ops + [token];
      forall k | 0 <= k < |ops| - 1 && IsOperator(ops[k]) && IsOperator(ops[k + 1])
        ensures Precedence(ops[k]) < Precedence(ops[k + 1])
      {
        assert ops[k] == st.ops[k] && ops[k + 1] == st.ops[k + 1];
      }
    } else {
      PopToOpenShape(isNumber, st);
    }
  }

  lemma StepAccounts(isNumber: string -> bool, done: seq<string>, st: Shunt, token: string)
    requires ParensAreNotNumbers(isNumber) && Accounts(isNumber, done, st) && ShuntStep(isNumber, st, token).Ok?
    ensures Accounts(isNumber, done + [token], ShuntStep(isNumber, st, token).value)
  {
    if isNumber(token) {
      PushNumberAccounts(isNumber, done, st, token);
    } else if IsOperator(token) {
      PushOperatorAccounts(isNumber, done, st, token);
    } else if token == "(" {
      PushOpenAccounts(isNumber, done, st);
    } else {
      PopToOpenAccounts(isNumber, done, st);
    }
  }

  lemma StepInOrder(isNumber: string -> bool, done: seq<string>, st: Shunt, token: string)
    requires InOrder(isNumber, done, st) && ShuntStep(isNumber, st, token).Ok?
    ensures InOrder(isNumber, done + [token], ShuntStep(isNumber, st, token).value)
  {
    if isNumber(token) {
      PushNumberInOrder(isNumber, done, st, token);
    } else if IsOperator(token) {
      PushOperatorInOrder(isNumber, done, st, token);
    } else if token == "(" {
      PushOpenInOrder(isNumber, done, st);
    } else {
      PopToOpenInOrder(isNumber, done, st);
    }
  }

  /** A property of (consumed tokens, state) that every step keeps holds
      after any run. */
  lemma {:induction false} RunPreserves(isNumber: string -> bool, inv: (seq<string>, Shunt) -> bool,
                                        done: seq<string>, st: Shunt, ts: seq<string>)
    requires forall d, s, t :: inv(d, s) && ShuntStep(isNumber, s, t).Ok? ==> inv(d + [t], ShuntStep(isNumber, s, t).value)
    requires inv(done, st) && ShuntRun(isNumber, st, ts).Ok?
    ensures inv(done + ts, ShuntRun(isNumber, st, ts).value)
    decreases |ts|
  {
    if ts == [] {
      assert done + ts == done;
    } else {
      assert done + ts == (done + [ts[0]]) + ts[1..];
      RunPreserves(isNumber, inv, done + [ts[0]], ShuntStep(isNumber, st, ts[0]).value, ts[1..]);
    }
  }

  lemma RunShape(isNumber: string -> bool, st: Shunt, ts: seq<string>)
    requires Shape(isNumber, st) && ShuntRun(isNumber, st, ts).Ok?
    ensures Shape(isNumber, ShuntRun(isNumber, st, ts).value)
  {
    var inv := (d: seq<string>, s: Shunt) => Shape(isNumber, s);
    forall d, s, t | inv(d, s) && ShuntStep(isNumber, s, t).Ok?
      ensures inv(d + [t], ShuntStep(isNumber, s, t).value)
    {
      StepShape(isNumber, s, t);
    }
    RunPreserves(isNumber, inv, [], st, ts);
  }

  lemma RunAccounts(isNumber: string -> bool, done: seq<string>, st: Shunt, ts: seq<string>)
    requires ParensAreNotNumbers(isNumber) && Accounts(isNumber, done, st) && ShuntRun(isNumber, st, ts).Ok?
    ensures Accounts(isNumber, done + ts, ShuntRun(isNumber, st, ts).value)
  {
    var inv := (d: seq<string>, s: Shunt) => Accounts(isNumber, d, s);
    forall d, s, t | inv(d, s) && ShuntStep(isNumber, s, t).Ok?
      ensures inv(d + [t], ShuntStep(isNumber, s, t).value)
    {
      StepAccounts(isNumber, d, s, t);
    }
    RunPreserves(isNumber, inv, done, st, ts);
  }

  lemma RunInOrder(isNumber: string -> bool, done: seq<string>, st: Shunt, ts: seq<string>)
    requires InOrder(isNumber, done, st) && ShuntRun(isNumber, st, ts).Ok?
    ensures InOrder(isNumber, done + ts, ShuntRun(isNumber, st, ts).value)
  {
    var inv := (d: seq<string>, s: Shunt) => InOrder(isNumber, d, s);
    forall d, s, t | inv(d, s) && ShuntStep(isNumber, s, t).Ok?
      ensures inv(d + [t], ShuntStep(isNumber, s, t).value)
    {
      StepInOrder(isNumber, d, s, t);
    }
    RunPreserves(isNumber, inv, done, st, ts);
  }

  /** The state after consuming all of `tokens`, with the three parts of the invariant. */
  lemma RunInvariant(isNumber: string -> bool, tokens: seq<string>)
    requires ParensAreNotNumbers(isNumber) && ShuntRun(isNumber, Empty, tokens).Ok?
    ensures Shape(isNumber, ShuntRun(isNumber, Empty, tokens).value)
    ensures Accounts(isNumber, tokens, ShuntRun(isNumber, Empty, tokens).value)
    ensures InOrder(isNumber, tokens, ShuntRun(isNumber, Empty, tokens).value)
  {
    RunShape(isNumber, Empty, tokens);
    RunAccounts(isNumber, [], Empty, tokens);
    RunInOrder(isNumber, [], Empty, tokens);
    assert [] + tokens == tokens;
  }

  lemma {:induction false} DrainKeeps(isNumber: string -> bool, done: seq<string>, st: Shunt)
    requires Shape(isNumber, st) && Accounts(isNumber, done, st)
    ensures Drain(st).Err? <==> Depth(done) > 0
    ensures Drain(st).Ok? ==>
              && (forall t | t in Drain(st).value :: isNumber(t) || IsOperator(t))
              && multiset(Drain(st).value) == multiset(WithoutParens(done))
    decreases |st.ops|
  {
    PopToOpenFails(st);
    if |st.ops| > 0 {
      assert Top(st.ops) in st.ops;
      if Top(st.ops) != "(" {
        MoveShape(isNumber, st);
        MoveAccounts(isNumber, done, st);
        DrainKeeps(isNumber, done, Move(st));
      }
    }
  }

  lemma {:induction false} DrainInOrder(isNumber: string -> bool, done: seq<string>, st: Shunt)
    requires InOrder(isNumber, done, st)
    ensures Drain(st).Ok? ==> NumbersOf(isNumber, Drain(st).value) == NumbersOf(isNumber, done)
    decreases |st.ops|
  {
    if |st.ops| > 0 && Top(st.ops) != "(" && Top(st.ops) != ")" {
      MoveInOrder(isNumber, done, st);
      DrainInOrder(isNumber, done, Move(st));
    }
  }

  // ---------------------------------------------------------------------
  // What infixToPostfix promises

  /** Every state the loop reaches keeps its stack discipline: only
      operators and `(` on the deque, precedences strictly increasing along
      each stretch of operators. */
  lemma StackDisciplineHolds(isNumber: string -> bool, tokens: seq<string>, k: nat)
    requires SeparatesNumbers(isNumber) && k <= |tokens|
    requires ShuntRun(isNumber, Empty, tokens[..k]).Ok?
    ensures StackDiscipline(ShuntRun(isNumber, Empty, tokens[..k]).value.ops)
  {
    RunInvariant(isNumber, tokens[..k]);
  }

  /** On success the output holds only numbers and operators, it is a
      permutation of the input tokens without the parentheses, and the
      numbers keep their input order. */
  lemma PostfixPermutes(isNumber: string -> bool, tokens: seq<string>)
    requires SeparatesNumbers(isNumber) && PostfixWith(isNumber, tokens).Ok?
    ensures forall t | t in PostfixWith(isNumber, tokens).value :: isNumber(t) || IsOperator(t)
    ensures multiset(PostfixWith(isNumber, tokens).value) == multiset(WithoutParens(tokens))
    ensures NumbersOf(isNumber, PostfixWith(isNumber, tokens).value) == NumbersOf(isNumber, tokens)
  {
    RunInvariant(isNumber, tokens);
    DrainKeeps(isNumber, tokens, ShuntRun(isNumber, Empty, tokens).value);
    DrainInOrder(isNumber, tokens, ShuntRun(isNumber, Empty, tokens).value);
  }

  lemma PrefixSnoc(done: seq<string>, t: string, rest: seq<string>, k: nat)
    requires k <= |rest|
    ensures (done + [t]) + rest[..k] == done + ([t] + rest)[..k + 1]
  {
  }

  lemma MoveDepth(isNumber: string -> bool, st: Shunt)
    requires Pending(isNumber, st.ops) && |st.ops| > 0 && Top(st.ops) != "("
    ensures Pending(isNumber, Move(st).ops) && Depth(Move(st).ops) == Depth(st.ops)
  {
    assert Top(st.ops) in st.ops;
  }

  lemma PopHigherDepth(isNumber: string -> bool, st: Shunt, token: string)
    requires Pending(isNumber, st.ops)
    ensures var p := PopHigher(IsOperator, st, token);
      Pending(isNumber, p.ops) && Depth(p.ops) == Depth(st.ops)
    decreases |st.ops|
  {
    if |st.ops| > 0 && IsOperator(Top(st.ops)) && Precedence(Top(st.ops)) >= Precedence(token) {
      MoveDepth(isNumber, st);
      PopHigherDepth(isNumber, Move(st), token);
    }
  }

  lemma PopToOpenDepth(isNumber: string -> bool, st: Shunt)
    requires Pending(isNumber, st.ops) && PopToOpen(st).Ok?
    ensures Pending(isNumber, PopToOpen(st).value.ops) && Depth(PopToOpen(st).value.ops) == Depth(st.ops) - 1
    decreases |st.ops|
  {
    if Top(st.ops) != "(" {
      MoveDepth(isNumber, st);
      PopToOpenDepth(isNumber, Move(st));
    }
  }

  /** Each step keeps the deque pending and changes its depth as the token
      changes the depth of the input. */
  lemma StepDepth(isNumber: string -> bool, st: Shunt, t: string)
    requires ParensAreNotNumbers(isNumber) && Pending(isNumber, st.ops) && ShuntStep(isNumber, st, t).Ok?
    ensures var next := ShuntStep(isNumber, st, t).value;
      Pending(isNumber, next.ops) && Depth(next.ops) == Depth(st.ops) + Delta(t)
  {
    if isNumber(t) {
    } else if IsOperator(t) {
      PopHigherDepth(isNumber, st, t);
      SnocParens(PopHigher(IsOperator, st, t).ops, t);
    } else if t == "(" {
      SnocParens(st.ops, t);
    } else {
      PopToOpenDepth(isNumber, st);
    }
  }

  /** Over known tokens the loop fails exactly when a `)` takes the depth
      below zero, and then with "Mismatched parentheses". */
  lemma {:induction false} RunFailsOnClose(isNumber: string -> bool, st: Shunt, ts: seq<string>)
    requires ParensAreNotNumbers(isNumber) && Pending(isNumber, st.ops)
    requires forall t | t in ts :: Known(isNumber, t)
    ensures ShuntRun(isNumber, st, ts).Err? <==> Dips(Depth(st.ops), ts)
    ensures ShuntRun(isNumber, st, ts).Err? ==> ShuntRun(isNumber, st, ts).error == MismatchedParentheses
    decreases |ts|
  {
    if ts != [] {
      var t := ts[0];
      assert t in ts;
      StepFailsOnClose(isNumber, st, t);
      if ShuntStep(isNumber, st, t).Ok? {
        forall u | u in ts[1..] ensures Known(isNumber, u) { assert u in ts; }
        RunFailsOnClose(isNumber, ShuntStep(isNumber, st, t).value, ts[1..]);
      }
    }
  }

  /** One known token fails exactly when it is a `)` at depth zero. */
  lemma StepFailsOnClose(isNumber: string -> bool, st: Shunt, t: string)
    requires ParensAreNotNumbers(isNumber) && Pending(isNumber, st.ops) && Known(isNumber, t)
    ensures ShuntStep(isNumber, st, t).Err? <==> Depth(st.ops) + Delta(t) < 0
    ensures ShuntStep(isNumber, st, t).Err? ==> ShuntStep(isNumber, st, t).error == MismatchedParentheses
    ensures ShuntStep(isNumber, st, t).Ok? ==>
              var next := ShuntStep(isNumber, st, t).value;
              Pending(isNumber, next.ops) && Depth(next.ops) == Depth(st.ops) + Delta(t)
  {
    PopToOpenFails(st);
    PopToOpenMismatched(st);
    if ShuntStep(isNumber, st, t).Ok? {
      StepDepth(isNumber, st, t);
    }
  }

  /** Dips is the existence of a prefix with negative depth. */
  lemma {:induction false} DipsPrefix(d: seq<string>, ts: seq<string>)
    ensures Dips(Depth(d), ts) <==> PrefixDips(d, ts)
    decreases |ts|
  {
    if ts != [] {
      var t := ts[0];
      SnocParens(d, t);
      DipsPrefix(d + [t], ts[1..]);
      PrefixDipsStep(d, ts);
    }
  }

  /** Some non-empty prefix of `ts` after `d` has negative depth. */
  predicate PrefixDips(d: seq<string>, ts: seq<string>) {
    exists k | 1 <= k <= |ts| :: Depth(d + ts[..k]) < 0
  }

  /** A prefix dips when the first token does or a prefix of the rest does. */
  lemma PrefixDipsStep(d: seq<string>, ts: seq<string>)
    requires ts != []
    ensures PrefixDips(d, ts) <==> Depth(d + [ts[0]]) < 0 || PrefixDips(d + [ts[0]], ts[1..])
  {
    var t, rest := ts[0], ts[1..];
    assert ts == [t] + rest;
    assert d + ts[..1] == d + [t];
    forall k | 1 <= k <= |rest| ensures (d + [t]) + rest[..k] == d + ts[..k + 1] {
      PrefixSnoc(d, t, rest, k);
    }
    if PrefixDips(d, ts) && Depth(d + [t]) >= 0 {
      var k :| 1 <= k <= |ts| && Depth(d + ts[..k]) < 0;
      assert k > 1 && Depth((d + [t]) + rest[..k - 1]) < 0;
    }
    if PrefixDips(d + [t], rest) {
      var k :| 1 <= k <= |rest| && Depth((d + [t]) + rest[..k]) < 0;
      assert Depth(d + ts[..k + 1]) < 0;
    }
  }

  /** Given tokens infixToPostfix knows, it fails exactly when the
      parentheses are unbalanced, and then with "Mismatched parentheses":
      either a `)` finds no `(` or a `(` is left at the end. */
  lemma PostfixFailsOnUnbalanced(isNumber: string -> bool, tokens: seq<string>)
    requires SeparatesNumbers(isNumber)
    requires forall t | t in tokens :: Known(isNumber, t)
    ensures PostfixWith(isNumber, tokens).Err? <==> !Balanced(tokens)
    ensures PostfixWith(isNumber, tokens).Err? ==> PostfixWith(isNumber, tokens).error == MismatchedParentheses
  {
    RunFailsOnClose(isNumber, Empty, tokens);
    DipsPrefix([], tokens);
    assert forall k | 0 <= k <= |tokens| :: [] + tokens[..k] == tokens[..k];
    assert tokens[..0] == [];
    if ShuntRun(isNumber, Empty, tokens).Ok? {
      RunInvariant(isNumber, tokens);
      DrainKeeps(isNumber, tokens, ShuntRun(isNumber, Empty, tokens).value);
      DrainMismatched(ShuntRun(isNumber, Empty, tokens).value);
      assert tokens[..|tokens|] == tokens;
    }
  }

  /** A token that is not a number, an operator or a parenthesis makes the
      conversion fail, and the only failure naming a symbol names such a
      token. */
  lemma {:induction false} RunUnknown(isNumber: string -> bool, st: Shunt, ts: seq<string>)
    ensures ShuntRun(isNumber, st, ts).Err? && ShuntRun(isNumber, st, ts).error.UnknownSymbol? ==>
              var s := ShuntRun(isNumber, st, ts).error.symbol;
              s in ts && !Known(isNumber, s)
    ensures (exists t | t in ts :: !Known(isNumber, t)) ==> ShuntRun(isNumber, st, ts).Err?
    decreases |ts|
  {
    if ts != [] {
      var t := ts[0];
      PopToOpenMismatched(st);
      if ShuntStep(isNumber, st, t).Ok? {
        RunUnknown(isNumber, ShuntStep(isNumber, st, t).value, ts[1..]);
        assert forall u | u in ts && u != t :: u in ts[1..] by { assert ts == [t] + ts[1..]; }
      }
    }
  }

  lemma PostfixUnknown(isNumber: string -> bool, tokens: seq<string>)
    ensures PostfixWith(isNumber, tokens).Err? && PostfixWith(isNumber, tokens).error.UnknownSymbol? ==>
              var s := PostfixWith(isNumber, tokens).error.symbol;
              s in tokens && !Known(isNumber, s)
    ensures (exists t | t in tokens :: !Known(isNumber, t)) ==> PostfixWith(isNumber, tokens).Err?
  {
    RunUnknown(isNumber, Empty, tokens);
    if ShuntRun(isNumber, Empty, tokens).Ok? {
      DrainMismatched(ShuntRun(isNumber, Empty, tokens).value);
    }
  }

  // ---------------------------------------------------------------------
  // The reference: fully parenthesised trees

  /** Every leaf passes the number test. */
  predicate LeavesAreNumbers(isNumber: string -> bool, e: Expr) {
    match e
    case Leaf(n) => isNumber(n)
    case Binary(op, l, r) => IsOperatorChar(op) && LeavesAreNumbers(isNumber, l) && LeavesAreNumbers(isNumber, r)
  }

  lemma RunCons(isNumber: string -> bool, st: Shunt, t: string, rest: seq<string>)
    requires ShuntStep(isNumber, st, t).Ok?
    ensures ShuntRun(isNumber, st, [t] + rest) == ShuntRun(isNumber, ShuntStep(isNumber, st, t).value, rest)
  {
    assert ([t] + rest)[0] == t && ([t] + rest)[1..] == rest;
  }

  /** A `(` is pushed. */
  lemma OpenStep(isNumber: string -> bool, st: Shunt, rest: seq<string>)
    requires SeparatesNumbers(isNumber)
    ensures ShuntRun(isNumber, st, ["("] + rest) == ShuntRun(isNumber, Shunt(st.output, st.ops + ["("]), rest)
  {
    RunCons(isNumber, st, "(", rest);
  }

  /** An operator right above a `(` pops nothing. */
  lemma OperatorAfterOpen(isNumber: string -> bool, output: seq<string>, ops: seq<string>, o: string, rest: seq<string>)
    requires SeparatesNumbers(isNumber) && IsOperator(o)
    ensures ShuntRun(isNumber, Shunt(output, ops + ["("]), [o] + rest)
         == ShuntRun(isNumber, Shunt(output, (ops + ["("]) + [o]), rest)
  {
    var st := Shunt(output, ops + ["("]);
    assert !isNumber(o);
    assert PopHigher(IsOperator, st, o) == st;
    RunCons(isNumber, st, o, rest);
  }

  /** A `)` right above an operator and its `(` moves the operator to the output. */
  lemma CloseAfterOperator(isNumber: string -> bool, output: seq<string>, ops: seq<string>, o: string, rest: seq<string>)
    requires SeparatesNumbers(isNumber) && IsOperator(o)
    ensures ShuntRun(isNumber, Shunt(output, (ops + ["("]) + [o]), [")"] + rest)
         == ShuntRun(isNumber, Shunt(output + [o], ops), rest)
  {
    var st := Shunt(output, (ops + ["("]) + [o]);
    assert Move(st) == Shunt(output + [o], ops + ["("]);
    assert PopToOpen(Move(st)) == Ok(Shunt(output + [o], ops));
    RunCons(isNumber, st, ")", rest);
  }

  lemma {:induction false} RunTree(isNumber: string -> bool, e: Expr, st: Shunt, rest: seq<string>)
    requires SeparatesNumbers(isNumber) && LeavesAreNumbers(isNumber, e)
    ensures ShuntRun(isNumber, st, Infix(e) + rest) == ShuntRun(isNumber, Shunt(st.output + PostfixOf(e), st.ops), rest)
    decreases e
  {
    match e
    case Leaf(n) =>
      RunCons(isNumber, st, n, rest);
    case Binary(op, l, r) =>
      var o := [op];
      var afterRight := [")"] + rest;
      var afterLeft := [o] + (Infix(r) + afterRight);
      TreeTokens(op, l, r, rest, st.output);
      OpenStep(isNumber, st, Infix(l) + afterLeft);
      RunTree(isNumber, l, Shunt(st.output, st.ops + ["("]), afterLeft);
      var left := st.output + PostfixOf(l);
      OperatorAfterOpen(isNumber, left, st.ops, o, Infix(r) + afterRight);
      RunTree(isNumber, r, Shunt(left, (st.ops + ["("]) + [o]), afterRight);
      CloseAfterOperator(isNumber, left + PostfixOf(r), st.ops, o, rest);
  }

  /** How the tokens of a binary node and its postfix form regroup. */
  lemma TreeTokens(op: char, l: Expr, r: Expr, rest: seq<string>, output: seq<string>)
    ensures Infix(Binary(op, l, r)) + rest == ["("] + (Infix(l) + ([[op]] + (Infix(r) + ([")"] + rest))))
    ensures ((output + PostfixOf(l)) + PostfixOf(r)) + [[op]] == output + PostfixOf(Binary(op, l, r))
  {
  }

  /** A fully parenthesised tree converts to its postfix form. */
  lemma InfixToPostfixOfTree(isNumber: string -> bool, e: Expr)
    requires SeparatesNumbers(isNumber) && LeavesAreNumbers(isNumber, e)
    ensures PostfixWith(isNumber, Infix(e)).Ok?
    ensures PostfixWith(isNumber, Infix(e)).value == PostfixOf(e)
  {
    RunTree(isNumber, e, Empty, []);
    assert Infix(e) + [] == Infix(e);
  }

  // ---------------------------------------------------------------------
  // Examples

  lemma NumberStep(isNumber: string -> bool, st: Shunt, t: string, rest: seq<string>, next: Shunt)
    requires isNumber(t) && next == Shunt(st.output + [t], st.ops)
    ensures ShuntRun(isNumber, st, [t] + rest) == ShuntRun(isNumber, next, rest)
  {
    RunCons(isNumber, st, t, rest);
  }

  lemma OperatorStep(isNumber: string -> bool, st: Shunt, t: string, rest: seq<string>, next: Shunt)
    requires !isNumber(t) && IsOperator(t)
    requires var p := PopHigher(IsOperator, st, t); next == Shunt(p.output, p.ops + [t])
    ensures ShuntRun(isNumber, st, [t] + rest) == ShuntRun(isNumber, next, rest)
  {
    RunCons(isNumber, st, t, rest);
  }

  /** `a o b` on an empty deque leaves both numbers on the output and the operator stacked. */
  lemma BinaryPrefix(isNumber: string -> bool, st: Shunt, a: string, o: string, b: string, rest: seq<string>, next: Shunt)
    requires isNumber(a) && isNumber(b) && !isNumber(o) && IsOperator(o) && st.ops == []
    requires next == Shunt(st.output + [a, b], [o])
    ensures ShuntRun(isNumber, st, [a, o, b] + rest) == ShuntRun(isNumber, next, rest)
  {
    var s1 := Shunt(st.output + [a], []);
    assert [a, o, b] + rest == [a] + ([o] + ([b] + rest));
    NumberStep(isNumber, st, a, [o] + ([b] + rest), s1);
    assert PopHigher(IsOperator, s1, o) == s1;
    OperatorStep(isNumber, s1, o, [b] + rest, Shunt(s1.output, [o]));
    NumberStep(isNumber, Shunt(s1.output, [o]), b, rest, next);
  }

  /** `a o b` of one-digit numbers becomes `a b o`, for any number test
      that accepts the digits and not the operator. */
  lemma DigitPostfix(isNumber: string -> bool, a: char, o: char, b: char)
    requires isNumber([a]) && isNumber([b]) && !isNumber([o]) && IsOperatorChar(o)
    ensures PostfixWith(isNumber, [[a], [o], [b]]) == Ok([[a], [b], [o]])
  {
    assert IsOperator([o]);
    var st := Shunt([[a], [b]], [[o]]);
    BinaryPrefix(isNumber, Empty, [a], [o], [b], [], st);
    assert [[a], [o], [b]] + [] == [[a], [o], [b]];
    assert ShuntRun(isNumber, st, []) == Ok(st);
    assert Top(st.ops) == [o] && Below(st.ops) == [] && [o] != "(" && [o] != ")";
    assert Move(st) == Shunt([[a], [b], [o]], []);
    assert Drain(Move(st)) == Ok([[a], [b], [o]]);
  }

  /** Equal precedence pops: `1 - 2 - 3` is `(1 - 2) - 3`, for any number
      test that accepts the digits and separates numbers. */
  lemma LeftAssociative(isNumber: string -> bool, ts: seq<string>)
    requires SeparatesNumbers(isNumber) && isNumber("1") && isNumber("2") && isNumber("3")
    requires ts == ["1", "-", "2", "-", "3"]
    ensures PostfixWith(isNumber, ts).Ok? && PostfixWith(isNumber, ts).value == ["1", "2", "-", "3", "-"]
  {
    assert ts == ["1", "-", "2"] + (["-"] + (["3"] + []));
    var s3 := Shunt(["1", "2"], ["-"]);
    BinaryPrefix(isNumber, Empty, "1", "-", "2", ["-"] + (["3"] + []), s3);
    var s4 := Shunt(["1", "2", "-"], ["-"]);
    assert PopHigher(IsOperator, Move(s3), "-") == Move(s3);
    OperatorStep(isNumber, s3, "-", ["3"] + [], s4);
    var s5 := Shunt(["1", "2", "-", "3"], ["-"]);
    NumberStep(isNumber, s4, "3", [], s5);
    assert ShuntRun(isNumber, s5, []) == Ok(s5);
    var out := ["1", "2", "-", "3", "-"];
    assert Move(s5) == Shunt(out, []);
    assert Drain(s5) == Drain(Shunt(out, []));
  }

  /** `*` binds tighter than `+`. */
  lemma MultiplicationFirst(isNumber: string -> bool, ts: seq<string>)
    requires SeparatesNumbers(isNumber) && isNumber("1") && isNumber("2") && isNumber("3")
    requires ts == ["1", "+", "2", "*", "3"]
    ensures PostfixWith(isNumber, ts).Ok? && PostfixWith(isNumber, ts).value == ["1", "2", "3", "*", "+"]
  {
    assert ts == ["1", "+", "2"] + (["*"] + (["3"] + []));
    var s3 := Shunt(["1", "2"], ["+"]);
    BinaryPrefix(isNumber, Empty, "1", "+", "2", ["*"] + (["3"] + []), s3);
    var s4 := Shunt(["1", "2"], ["+", "*"]);
    assert PopHigher(IsOperator, s3, "*") == s3;
    OperatorStep(isNumber, s3, "*", ["3"] + [], s4);
    var s5 := Shunt(["1", "2", "3"], ["+", "*"]);
    NumberStep(isNumber, s4, "3", [], s5);
    assert ShuntRun(isNumber, s5, []) == Ok(s5);
    var out := ["1", "2", "3", "*", "+"];
    assert Move(Move(s5)) == Shunt(out, []);
    assert Drain(s5) == Drain(Shunt(out, []));
  }

  /** A malformed numeral is an unknown symbol. */
  lemma MalformedNumeral(ts: seq<string>)
    requires ts == ["1.2.3"]
    ensures Postfix(ts).Err? && Postfix(ts).error == UnknownSymbol("1.2.3")
  {
    var t := "1.2.3";
    assert SkipDigits(t, 1) == 1;
    assert SkipDigits(t, 0) == 1;
    assert SkipDigits(t, 3) == 3;
    assert SkipDigits(t, 2) == 3;
    assert !IsNumber(t);
    assert ts == [t] + [];
  }
}
