/** The shunting-yard converter of src/postfix.h: infix tokens, read one at a
    time from the lexer, become a postfix token list.

    `ConvertFrom` is the specification: the whole of `infixToPostfix` as a
    function of the lexer registers, the operator stack and the output list.
    `Shunt` is the work done for one token and does not touch the lexer.
    `InfixToPostfix` is the loop of the source, proved equal to
    `ConvertFrom`. */
module Postfix {
  import opened Tokens
  import opened Lexer
  import opened LexerFacts

  /** getPrecedence (postfix.h:11-25). Everything that is not one of the
      listed binary operators, including unary lexemes, functions and
      parentheses, has precedence 0. */
  function Precedence(op: string): nat {
    if op == "^" then 5
    else if op == "*" || op == "/" then 4
    else if op == "+" || op == "-" then 3
    else if op == ">" || op == ">=" || op == "<" || op == "<=" || op == "==" || op == "!=" then 2
    else if op == "=" then 1
    else 0
  }

  /** isLeftAssociative (postfix.h:28-36). */
  predicate IsLeftAssociative(op: string) {
    op != "^" && op != "-u"
  }

  /** The test of the operator loop (postfix.h:69): `top` leaves the stack
      before `t` is pushed. */
  predicate Outranks(top: Token, t: Token) {
    Precedence(top.lexeme) > Precedence(t.lexeme) ||
    (Precedence(top.lexeme) == Precedence(t.lexeme) && IsLeftAssociative(top.lexeme))
  }

  /** How a token popped from the operator stack is tagged when it is
      appended to the output. The source tags it with the kind of the token
      being processed (`CurrentKind`); the evaluator dispatches on the tag,
      so the intended tag is the popped token's own kind (`OwnKind`). */
  datatype Tagging = CurrentKind | OwnKind

  function Tag(popped: Token, current: Kind, tagging: Tagging): Token {
    match tagging
    case CurrentKind => Token(popped.lexeme, current)
    case OwnKind => popped
  }

  /** The tokens of `ops`, top first, each tagged for the output. */
  function Tagged(ops: seq<Token>, current: Kind, tagging: Tagging): seq<Token>
    decreases |ops|
  {
    if ops == [] then [] else [Tag(ops[0], current, tagging)] + Tagged(ops[1..], current, tagging)
  }

  /** The operator stack (`ops[0]` is its top) and the output list. */
  datatype Stacks = Stacks(ops: seq<Token>, out: seq<Token>)

  /** The operator loop (postfix.h:69-76): pop and emit while the top
      outranks the incoming operator `t`. */
  function PopOutranking(ops: seq<Token>, out: seq<Token>, t: Token, tagging: Tagging): Stacks
    decreases |ops|
  {
    if ops != [] && Outranks(ops[0], t) then
      PopOutranking(ops[1..], out + [Tag(ops[0], Operator, tagging)], t, tagging)
    else Stacks(ops, out)
  }

  /** The loops of `)`, `]` and `,` (postfix.h:92-99, 130-137, 153-160): pop
      and emit until the top is of kind `stop1` or `stop2`, tagging as a
      token of kind `current` would. */
  function PopUntil(ops: seq<Token>, out: seq<Token>, stop1: Kind, stop2: Kind, current: Kind, tagging: Tagging): Stacks
    decreases |ops|
  {
    if ops != [] && ops[0].kind != stop1 && ops[0].kind != stop2 then
      PopUntil(ops[1..], out + [Tag(ops[0], current, tagging)], stop1, stop2, current, tagging)
    else Stacks(ops, out)
  }

  /** The outcome of processing one token: an error (only ERROR_SYNTAX) or
      none, with the stacks as they are then. */
  datatype Step = Step(err: Option<ErrorCode>, ops: seq<Token>, out: seq<Token>)

  /** The body of the main loop for one token `t` other than the end token
      (postfix.h:55-164), apart from the depth counters. */
  function Shunt(t: Token, ops: seq<Token>, out: seq<Token>, tagging: Tagging): Step {
    match t.kind
    case Number | String | Variable => Step(None, ops, out + [t])
    case Function | Unary | LParen => Step(None, [t] + ops, out)
    case Operator =>
      var k := PopOutranking(ops, out, t, tagging);
      Step(None, [t] + k.ops, k.out)
    case RParen => CloseParen(PopUntil(ops, out, LParen, LParen, RParen, tagging), tagging)
    case LBracket => Step(None, [t] + ops, out + [t])
    case RBracket => CloseBracket(t, PopUntil(ops, out, LBracket, LBracket, RBracket, tagging))
    case Comma =>
      var k := PopUntil(ops, out, LParen, LBracket, Comma, tagging);
      if k.ops == [] then Step(Some(Syntax), k.ops, k.out)
      else Step(None, k.ops, k.out)
    case End | Error => Step(None, ops, out)
  }

  /** The end of the `)` branch (postfix.h:100-114) once the loop has
      stopped: no `(` left is a syntax error; otherwise the `(` is dropped
      and a function right under it is emitted. */
  function CloseParen(k: Stacks, tagging: Tagging): Step {
    if k.ops == [] then Step(Some(Syntax), k.ops, k.out)
    else
      var rest := k.ops[1..];
      if rest != [] && rest[0].kind == Function then
        Step(None, rest[1..], k.out + [Tag(rest[0], RParen, tagging)])
      else Step(None, rest, k.out)
  }

  /** The end of the `]` branch (postfix.h:138-146): no `[` left is a syntax
      error; otherwise `]` is emitted and the `[` dropped. */
  function CloseBracket(t: Token, k: Stacks): Step {
    if k.ops == [] then Step(Some(Syntax), k.ops, k.out)
    else Step(None, k.ops[1..], k.out + [t])
  }

  /** The registers after a token has been processed: the converter records
      its kind as the previous kind (postfix.h:165) and moves the depths a
      second time (postfix.h:87, 115, 122, 147). */
  function Bump(st: LexState, k: Kind): LexState {
    st.(prev := k, pLevel := st.pLevel + ParenStep(k), bLevel := st.bLevel + BracketStep(k))
  }

  /** The outcome of a conversion: the error, if any, the output list as it
      stands (tokens already appended stay appended) and the registers. */
  datatype Converted = Converted(err: Option<ErrorCode>, out: seq<Token>, st: LexState)

  /** infixToPostfix (postfix.h:39-187) from registers `st`, operator stack
      `ops` and output `out`. */
  function ConvertFrom(expr: string, st: LexState, ops: seq<Token>, out: seq<Token>, tagging: Tagging): Converted
    requires st.pos <= |expr|
    decreases |expr| - st.pos
  {
    var lx := Lex(expr, st);
    match lx.result
    case Err(e) => Converted(Some(e), out, lx.st)
    case Ok(t) =>
      if t.kind == End then
        if lx.st.pLevel != 0 || lx.st.bLevel != 0 then Converted(Some(Syntax), out, lx.st)
        else Converted(None, out + Tagged(ops, End, tagging), lx.st)
      else
        var k := Shunt(t, ops, out, tagging);
        if k.err.Some? then Converted(k.err, k.out, lx.st)
        else ConvertFrom(expr, Bump(lx.st, t.kind), k.ops, k.out, tagging)
  }

  /** The loop at postfix.h:69-76. */
  method PopOutrankingLoop(ops: TokenStack, out: TokenStack, t: Token)
    requires ops != out
    modifies ops, out
    ensures Stacks(ops.items, out.items) == PopOutranking(old(ops.items), old(out.items), t, OwnKind)
  {
    while ops.items != [] && Outranks(ops.Top(), t)
      invariant PopOutranking(ops.items, out.items, t, OwnKind) == PopOutranking(old(ops.items), old(out.items), t, OwnKind)
      decreases |ops.items|
    {
      var top := ops.Pop();
      out.Append(Tag(top.value, Operator, OwnKind));
    }
  }

  /** The loops at postfix.h:92-99, 130-137 and 153-160. */
  method PopUntilLoop(ops: TokenStack, out: TokenStack, stop1: Kind, stop2: Kind, current: Kind)
    requires ops != out
    modifies ops, out
    ensures Stacks(ops.items, out.items) == PopUntil(old(ops.items), old(out.items), stop1, stop2, current, OwnKind)
  {
    while ops.items != [] && ops.Top().kind != stop1 && ops.Top().kind != stop2
      invariant PopUntil(ops.items, out.items, stop1, stop2, current, OwnKind) ==
        PopUntil(old(ops.items), old(out.items), stop1, stop2, current, OwnKind)
      decreases |ops.items|
    {
      var top := ops.Pop();
      out.Append(Tag(top.value, current, OwnKind));
    }
  }

  /** One iteration of the main loop of infixToPostfix for the token `t`
      (postfix.h:55-164), apart from the depth counters. */
  method ShuntToken(t: Token, ops: TokenStack, out: TokenStack) returns (err: Option<ErrorCode>)
    requires ops != out
    modifies ops, out
    ensures Step(err, ops.items, out.items) == Shunt(t, old(ops.items), old(out.items), OwnKind)
  {
    err := None;
    match t.kind
    case Number | String | Variable =>
      out.Append(t);
    case Function | Unary | LParen =>
      ops.Push(t);
    case Operator =>
      PopOutrankingLoop(ops, out, t);
      ops.Push(t);
    case RParen =>
      PopUntilLoop(ops, out, LParen, LParen, RParen);
      if ops.items == [] {
        return Some(Syntax);
      }
      var paren := ops.Pop();
      if ops.items != [] && ops.Top().kind == Function {
        var f := ops.Pop();
        out.Append(Tag(f.value, RParen, OwnKind));
      }
    case LBracket =>
      ops.Push(t);
      out.Append(t);
    case RBracket =>
      PopUntilLoop(ops, out, LBracket, LBracket, RBracket);
      if ops.items == [] {
        return Some(Syntax);
      }
      out.Append(t);
      var bracket := ops.Pop();
    case Comma =>
      PopUntilLoop(ops, out, LParen, LBracket, Comma);
      if ops.items == [] {
        return Some(Syntax);
      }
    case End | Error =>
  }

  /** The final loop (postfix.h:177-184): every operator left on the stack
      is appended, top first. */
  method Drain(ops: TokenStack, out: TokenStack)
    requires ops != out
    modifies ops, out
    ensures ops.items == []
    ensures out.items == old(out.items) + Tagged(old(ops.items), End, OwnKind)
  {
    while ops.items != []
      invariant out.items + Tagged(ops.items, End, OwnKind) == old(out.items) + Tagged(old(ops.items), End, OwnKind)
      decreases |ops.items|
    {
      ghost var before := ops.items;
      var top := ops.Pop();
      out.Append(Tag(top.value, End, OwnKind));
      assert Tagged(before, End, OwnKind) == [Tag(top.value, End, OwnKind)] + Tagged(ops.items, End, OwnKind);
    }
  }

  /** One token of the main loop after the lexer has produced it: its
      shunting step, then the converter's own depth counts and the record
      of its kind (postfix.h:55-165). */
  method Advance(ctx: ParseContext, t: Token, ops: TokenStack, out: TokenStack) returns (err: Option<ErrorCode>)
    requires ops != out
    modifies ctx, ops, out
    ensures Step(err, ops.items, out.items) == Shunt(t, old(ops.items), old(out.items), OwnKind)
    ensures ctx.State() == if err.Some? then old(ctx.State()) else Bump(old(ctx.State()), t.kind)
  {
    err := ShuntToken(t, ops, out);
    if err.Some? {
      return;
    }
    ctx.pLevel := ctx.pLevel + ParenStep(t.kind);
    ctx.bLevel := ctx.bLevel + BracketStep(t.kind);
    ctx.pType := t.kind;
  }

  /** `ConvertFrom` past one token that the shunting step accepts. */
  lemma ConvertPast(expr: string, st: LexState, ops: seq<Token>, out: seq<Token>, tagging: Tagging,
                    t: Token, st1: LexState, k: Step)
    requires st.pos <= |expr| && Lex(expr, st) == Lexed(Ok(t), st1) && t.kind != End
    requires k == Shunt(t, ops, out, tagging) && k.err == None
    ensures Bump(st1, t.kind).pos <= |expr|
    ensures ConvertFrom(expr, st, ops, out, tagging) == ConvertFrom(expr, Bump(st1, t.kind), k.ops, k.out, tagging)
  {
  }

  /** infixToPostfix (postfix.h:39-187): appends the postfix form of `expr`
      to `tokens`, reading it with the lexer registers of `ctx`. Popped
      operators keep their own kind. */
  method InfixToPostfix(ctx: ParseContext, expr: string, tokens: TokenStack) returns (err: Option<ErrorCode>)
    requires ctx.pExpr <= |expr|
    modifies ctx, tokens
    ensures var c := ConvertFrom(expr, old(ctx.State()), [], old(tokens.items), OwnKind);
      err == c.err && tokens.items == c.out && ctx.State() == c.st
  {
    var ops := new TokenStack();
    ghost var goal := ConvertFrom(expr, ctx.State(), [], tokens.items, OwnKind);
    while true
      invariant ctx.pExpr <= |expr|
      invariant fresh(ops) && ops != tokens
      invariant ConvertFrom(expr, ctx.State(), ops.items, tokens.items, OwnKind) == goal
      decreases |expr| - ctx.pExpr
    {
      ghost var st, ops0, out0 := ctx.State(), ops.items, tokens.items;
      var r := ctx.NextToken(expr);
      if r.Err? {
        return Some(r.error);
      }
      var t := r.value;
      if t.kind == End {
        break;
      }
      ghost var st1 := ctx.State();
      err := Advance(ctx, t, ops, tokens);
      if err.Some? {
        return err;
      }
      ConvertPast(expr, st, ops0, out0, OwnKind, t, st1, Step(err, ops.items, tokens.items));
    }
    if ctx.pLevel != 0 || ctx.bLevel != 0 {
      return Some(Syntax);
    }
    Drain(ops, tokens);
    err := None;
  }
}
