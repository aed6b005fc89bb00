/** The postfix stack machine of src/eval.h.

    The arithmetic is floating point (`atof`, `sprintf("%f")`, `pow`,
    `fmod`) and is not modelled: an `Arith` value supplies it as functions
    over an abstract number type. What is modelled is the control logic:
    which tokens are pushed, what is popped in which order, which errors are
    reported and what is left on the result stack.

    `UnaryOn`, `BinaryOn`, `EvalToken`, `EvalList` and `EvalExpr` are the
    specification; `EvalUnary`, `EvalOperator` and `Eval` are the procedures
    of the source, proved equal to them. */
module Eval {
  import opened Tokens
  import opened Lexer
  import opened Postfix

  /** The floating-point side of the evaluator: `atof` reads a lexeme,
      `format` is `sprintf("%f")`, and `unset` is what the uninitialised
      result buffer holds when an operand is not a number. */
  datatype Arith<!Num> = Arith(
    atof: string -> Num,
    format: Num -> string,
    neg: Num -> Num,
    add: (Num, Num) -> Num,
    sub: (Num, Num) -> Num,
    mul: (Num, Num) -> Num,
    div: (Num, Num) -> Num,
    pow: (Num, Num) -> Num,
    fmod: (Num, Num) -> Num,
    unset: string)

  /** What `+u` does to a number: the source negates it (eval.h:41), the
      comment above that line says it copies it. */
  datatype PlusSign = Negates | Copies

  /** The evaluator's outcome: the error, if any, and the result stack
      (`stack[0]` is its top) as it is then. */
  datatype Machine = Machine(err: Option<ErrorCode>, stack: seq<Token>)

  /** The unary lexemes evalUnary knows (eval.h:29, 37). */
  predicate IsUnaryOp(op: string) {
    op == "-u" || op == "+u"
  }

  /** The binary lexemes evalOperator knows (eval.h:83-133). */
  predicate IsBinaryOp(op: string) {
    op == "+" || op == "-" || op == "*" || op == "/" || op == "^" || op == "%"
  }

  /** The lexeme evalUnary pushes for operator `op` and operand `x`. */
  function UnaryValue<Num>(op: string, x: Token, A: Arith<Num>, plus: PlusSign): string
    requires IsUnaryOp(op)
  {
    if x.kind != Number then A.unset
    else if op == "-u" || plus == Negates then A.format(A.neg(A.atof(x.lexeme)))
    else A.format(A.atof(x.lexeme))
  }

  /** The number evalOperator computes for `op` from the left operand `a`
      and the right operand `b`. */
  function Apply<Num>(op: string, a: Num, b: Num, A: Arith<Num>): Num
    requires IsBinaryOp(op)
  {
    if op == "+" then A.add(a, b)
    else if op == "-" then A.sub(a, b)
    else if op == "*" then A.mul(a, b)
    else if op == "/" then A.div(a, b)
    else if op == "^" then A.pow(a, b)
    else A.fmod(a, b)
  }

  /** The lexeme evalOperator pushes for operator `op`, left operand `x` and
      right operand `y`. */
  function BinaryValue<Num>(op: string, x: Token, y: Token, A: Arith<Num>): string
    requires IsBinaryOp(op)
  {
    if x.kind == Number && y.kind == Number then A.format(Apply(op, A.atof(x.lexeme), A.atof(y.lexeme), A))
    else A.unset
  }

  /** evalUnary (eval.h:7-51) on a result stack whose top is the operator:
      pop the operator, pop the operand, push the result as a number. A pop
      that fails leaves what the earlier pops left; an unknown operator is
      found only after both pops. */
  function UnaryOn<Num>(stack: seq<Token>, A: Arith<Num>, plus: PlusSign): Machine {
    if stack == [] then Machine(Some(StackUnderflow), stack)
    else if |stack| == 1 then Machine(Some(StackUnderflow), [])
    else if !IsUnaryOp(stack[0].lexeme) then Machine(Some(UnknownOperator), stack[2..])
    else Machine(None, [Token(UnaryValue(stack[0].lexeme, stack[1], A, plus), Number)] + stack[2..])
  }

  /** evalOperator (eval.h:54-149): pop the operator, then the right
      operand, then the left operand, and push the result as a number. */
  function BinaryOn<Num>(stack: seq<Token>, A: Arith<Num>): Machine {
    if stack == [] then Machine(Some(StackUnderflow), stack)
    else if |stack| < 3 then Machine(Some(StackUnderflow), [])
    else if !IsBinaryOp(stack[0].lexeme) then Machine(Some(UnknownOperator), stack[3..])
    else Machine(None, [Token(BinaryValue(stack[0].lexeme, stack[2], stack[1], A), Number)] + stack[3..])
  }

  /** The body of eval's loop (eval.h:170-199) for one postfix token.
      Operands are pushed as they are; a unary or binary operator is pushed
      and then evaluated; every other kind is skipped. */
  function EvalToken<Num>(t: Token, stack: seq<Token>, A: Arith<Num>, plus: PlusSign): (r: Machine)
    ensures t.kind == Unary ==>
      (r.err == Some(StackUnderflow) <==> stack == []) &&
      (r.err == Some(UnknownOperator) <==> stack != [] && !IsUnaryOp(t.lexeme)) &&
      (r.err == None ==> |r.stack| == |stack| && r.stack[0].kind == Number && r.stack[1..] == stack[1..])
    ensures t.kind == Operator ==>
      (r.err == Some(StackUnderflow) <==> |stack| < 2) &&
      (r.err == Some(UnknownOperator) <==> |stack| >= 2 && !IsBinaryOp(t.lexeme)) &&
      (r.err == None ==> |r.stack| == |stack| - 1 && r.stack[0].kind == Number && r.stack[1..] == stack[2..])
    ensures t.kind in {Number, String, Variable} ==> r == Machine(None, [t] + stack)
    ensures t.kind !in {Number, String, Variable, Unary, Operator} ==> r == Machine(None, stack)
  {
    match t.kind
    case Number | String | Variable => Machine(None, [t] + stack)
    case Unary =>
      var s := [t] + stack;
      assert |s| >= 2 ==> s[2..] == stack[1..];
      UnaryOn(s, A, plus)
    case Operator =>
      var s := [t] + stack;
      assert |s| >= 3 ==> s[3..] == stack[2..];
      BinaryOn(s, A)
    case _ => Machine(None, stack)
  }

  /** eval's loop (eval.h:169-201): the postfix list in order, stopping at
      the first error. */
  function EvalList<Num>(ts: seq<Token>, stack: seq<Token>, A: Arith<Num>, plus: PlusSign): Machine
    decreases |ts|
  {
    if ts == [] then Machine(None, stack)
    else
      var m := EvalToken(ts[0], stack, A, plus);
      if m.err.Some? then m else EvalList(ts[1..], m.stack, A, plus)
  }

  /** eval (eval.h:152-202): convert, return a conversion error before
      anything is pushed, otherwise run the postfix list. The source falls
      off the end of the function after the loop; the model reports no
      error there. */
  function EvalExpr<Num>(expr: string, st: LexState, stack: seq<Token>, A: Arith<Num>, tagging: Tagging, plus: PlusSign): Machine
    requires st.pos <= |expr|
  {
    var c := ConvertFrom(expr, st, [], [], tagging);
    if c.err.Some? then Machine(c.err, stack) else EvalList(c.out, stack, A, plus)
  }

  /** evalUnary (eval.h:7-51), with `+u` copying its operand. */
  method EvalUnary<Num>(stack: TokenStack, A: Arith<Num>) returns (err: Option<ErrorCode>)
    modifies stack
    ensures Machine(err, stack.items) == UnaryOn(old(stack.items), A, Copies)
  {
    var op := stack.Pop();
    if op.Err? {
      return Some(op.error);
    }
    var op1 := stack.Pop();
    if op1.Err? {
      return Some(op1.error);
    }
    var result := A.unset;
    if op.value.lexeme == "-u" {
      if op1.value.kind == Number {
        result := A.format(A.neg(A.atof(op1.value.lexeme)));
      }
    } else if op.value.lexeme == "+u" {
      if op1.value.kind == Number {
        result := A.format(A.atof(op1.value.lexeme));
      }
    } else {
      return Some(UnknownOperator);
    }
    stack.Push(Token(result, Number));
    err := None;
  }

  /** evalOperator (eval.h:54-149). */
  method EvalOperator<Num>(stack: TokenStack, A: Arith<Num>) returns (err: Option<ErrorCode>)
    modifies stack
    ensures Machine(err, stack.items) == BinaryOn(old(stack.items), A)
  {
    var op := stack.Pop();
    if op.Err? {
      return Some(op.error);
    }
    var op2 := stack.Pop();
    if op2.Err? {
      return Some(op2.error);
    }
    var op1 := stack.Pop();
    if op1.Err? {
      return Some(op1.error);
    }
    if !IsBinaryOp(op.value.lexeme) {
      return Some(UnknownOperator);
    }
    var result := A.unset;
    if op1.value.kind == Number && op2.value.kind == Number {
      var a, b := A.atof(op1.value.lexeme), A.atof(op2.value.lexeme);
      var r;
      if op.value.lexeme == "+" {
        r := A.add(a, b);
      } else if op.value.lexeme == "-" {
        r := A.sub(a, b);
      } else if op.value.lexeme == "*" {
        r := A.mul(a, b);
      } else if op.value.lexeme == "/" {
        r := A.div(a, b);
      } else if op.value.lexeme == "^" {
        r := A.pow(a, b);
      } else {
        r := A.fmod(a, b);
      }
      result := A.format(r);
    }
    stack.Push(Token(result, Number));
    err := None;
  }

  /** The body of eval's loop (eval.h:170-199) for the postfix token `t`. */
  method EvalStep<Num>(t: Token, stack: TokenStack, A: Arith<Num>) returns (err: Option<ErrorCode>)
    modifies stack
    ensures Machine(err, stack.items) == EvalToken(t, old(stack.items), A, Copies)
  {
    err := None;
    if t.kind == Number || t.kind == String || t.kind == Variable {
      stack.Push(t);
    } else if t.kind == Unary {
      stack.Push(t);
      err := EvalUnary(stack, A);
    } else if t.kind == Operator {
      stack.Push(t);
      err := EvalOperator(stack, A);
    }
  }

  /** eval (eval.h:152-202): the expression is converted into a local
      postfix list, which is then walked from its head. */
  method Eval<Num>(ctx: ParseContext, expr: string, A: Arith<Num>, stack: TokenStack) returns (err: Option<ErrorCode>)
    requires ctx.pExpr <= |expr|
    modifies ctx, stack
    ensures Machine(err, stack.items) == EvalExpr(expr, old(ctx.State()), old(stack.items), A, OwnKind, Copies)
    ensures ctx.State() == ConvertFrom(expr, old(ctx.State()), [], [], OwnKind).st
  {
    var postfix := new TokenStack();
    err := InfixToPostfix(ctx, expr, postfix);
    if err.Some? {
      return;
    }
    var ts := postfix.items;
    ghost var goal := EvalList(ts, stack.items, A, Copies);
    var i := 0;
    while i < |ts|
      invariant 0 <= i <= |ts|
      invariant EvalList(ts[i..], stack.items, A, Copies) == goal
      invariant ctx.State() == ConvertFrom(expr, old(ctx.State()), [], [], OwnKind).st
    {
      assert ts[i..][0] == ts[i] && ts[i..][1..] == ts[i + 1..];
      err := EvalStep(ts[i], stack, A);
      if err.Some? {
        return;
      }
      i := i + 1;
    }
    err := None;
  }
}
