/** Properties of the converter specification `Postfix.ConvertFrom`: it is
    the shunting-yard fold `ShuntAll` over the token list the lexer accepts,
    its pop loops remove exactly the expected prefix of the operator stack,
    operands come out in input order, and the test vectors of the driver. */
module PostfixFacts {
  import opened Tokens
  import opened Lexer
  import opened LexerFacts
  import opened Postfix

  // ---------------------------------------------------------------------
  // The precedence table.

  /** Only the twelve listed binary operators have a positive precedence;
      of those only `^` is right-associative. */
  lemma PositivePrecedence(op: string)
    ensures Precedence(op) > 0 <==>
      op in {"^", "*", "/", "+", "-", ">", ">=", "<", "<=", "==", "!=", "="}
    ensures Precedence(op) > 0 ==> (IsLeftAssociative(op) <==> op != "^")
  {
  }

  /** The lexemes of unary signs (`-u`, `+u`, `!u`), functions and the
      opening parenthesis and bracket. */
  predicate PrefixLexeme(lexeme: string) {
    |lexeme| > 0 &&
    (IsLetter(lexeme[0]) || lexeme == "(" || lexeme == "[" || (|lexeme| == 2 && lexeme[1] == 'u'))
  }

  /** A binary operator of positive precedence never pops a pending unary
      sign, function or opening parenthesis or bracket: all of them rank 0.
      A precedence-0 operator (such as `#`) pops every one of them except
      `-u`. */
  lemma PendingPrefixes(top: Token, t: Token)
    requires PrefixLexeme(top.lexeme)
    ensures Precedence(top.lexeme) == 0
    ensures Precedence(t.lexeme) > 0 ==> !Outranks(top, t)
    ensures Precedence(t.lexeme) == 0 ==> (Outranks(top, t) <==> top.lexeme != "-u")
  {
    var x := top.lexeme;
    if |x| == 1 {
      assert x != "^" && x != "*" && x != "/" && x != "+" && x != "-" && x != ">" && x != "<" && x != "=" by {
        assert x[0] != '^' && x[0] != '*' && x[0] != '/' && x[0] != '+' && x[0] != '-' && x[0] != '>' && x[0] != '<' && x[0] != '=';
      }
    } else if |x| == 2 {
      assert x != ">=" && x != "<=" && x != "==" && x != "!=" by {
        assert x[1] != '=' || IsLetter(x[0]);
      }
    }
  }

  // ---------------------------------------------------------------------
  // The pop loops.

  lemma TaggedOwn(ops: seq<Token>, current: Kind)
    ensures Tagged(ops, current, OwnKind) == ops
    decreases |ops|
  {
  }

  lemma {:induction false} TaggedAppend(a: seq<Token>, b: seq<Token>, current: Kind, tagging: Tagging)
    ensures Tagged(a + b, current, tagging) == Tagged(a, current, tagging) + Tagged(b, current, tagging)
    decreases |a|
  {
    if a != [] {
      assert (a + b)[0] == a[0] && (a + b)[1..] == a[1..] + b;
      TaggedAppend(a[1..], b, current, tagging);
      assert Tagged(a + b, current, tagging) ==
        [Tag(a[0], current, tagging)] + Tagged(a[1..] + b, current, tagging);
    } else {
      assert a + b == b;
    }
  }

  /** The operator loop pops exactly the longest prefix of the stack whose
      tokens outrank the incoming operator, emitting it top first. */
  lemma {:induction false} PopOutrankingPrefix(ops: seq<Token>, out: seq<Token>, t: Token, tagging: Tagging)
    returns (n: nat)
    ensures n <= |ops|
    ensures PopOutranking(ops, out, t, tagging) == Stacks(ops[n..], out + Tagged(ops[..n], Operator, tagging))
    ensures forall i :: 0 <= i < n ==> Outranks(ops[i], t)
    ensures n < |ops| ==> !Outranks(ops[n], t)
    decreases |ops|
  {
    if ops != [] && Outranks(ops[0], t) {
      var head := Tag(ops[0], Operator, tagging);
      var m := PopOutrankingPrefix(ops[1..], out + [head], t, tagging);
      n := m + 1;
      assert ops[1..][m..] == ops[n..];
      assert ops[..n][0] == ops[0] && ops[..n][1..] == ops[1..][..m];
      assert out + [head] + Tagged(ops[1..][..m], Operator, tagging) == out + Tagged(ops[..n], Operator, tagging);
      forall i | 0 <= i < n ensures Outranks(ops[i], t) {
        if i > 0 { assert ops[i] == ops[1..][i - 1]; }
      }
    } else {
      n := 0;
      assert ops[..0] == [] && ops[0..] == ops;
    }
  }

  /** The loops of `)`, `]` and `,` pop exactly the longest prefix of the
      stack holding neither stop kind; the new top, if any, is a stop kind. */
  lemma {:induction false} PopUntilPrefix(ops: seq<Token>, out: seq<Token>, stop1: Kind, stop2: Kind, current: Kind, tagging: Tagging)
    returns (n: nat)
    ensures n <= |ops|
    ensures PopUntil(ops, out, stop1, stop2, current, tagging) == Stacks(ops[n..], out + Tagged(ops[..n], current, tagging))
    ensures forall i :: 0 <= i < n ==> ops[i].kind != stop1 && ops[i].kind != stop2
    ensures n < |ops| ==> ops[n].kind == stop1 || ops[n].kind == stop2
    decreases |ops|
  {
    if ops != [] && ops[0].kind != stop1 && ops[0].kind != stop2 {
      var head := Tag(ops[0], current, tagging);
      var m := PopUntilPrefix(ops[1..], out + [head], stop1, stop2, current, tagging);
      n := m + 1;
      assert ops[1..][m..] == ops[n..];
      assert ops[..n][0] == ops[0] && ops[..n][1..] == ops[1..][..m];
      assert out + [head] + Tagged(ops[1..][..m], current, tagging) == out + Tagged(ops[..n], current, tagging);
      forall i | 0 <= i < n ensures ops[i].kind != stop1 && ops[i].kind != stop2 {
        if i > 0 { assert ops[i] == ops[1..][i - 1]; }
      }
    } else {
      n := 0;
      assert ops[..0] == [] && ops[0..] == ops;
    }
  }

  // ---------------------------------------------------------------------
  // The converter as a fold over the token list.

  /** The outcome of converting a token list. */
  datatype Outcome = Outcome(err: Option<ErrorCode>, out: seq<Token>)

  /** Shunting yard over an already lexed token list: each token in turn,
      then the remaining operators, top first. */
  function ShuntAll(ts: seq<Token>, ops: seq<Token>, out: seq<Token>, tagging: Tagging): Outcome
    decreases |ts|, 1
  {
    if ts == [] then Outcome(None, out + Tagged(ops, End, tagging))
    else Resume(Shunt(ts[0], ops, out, tagging), ts[1..], tagging)
  }

  /** Stops at a failed step, otherwise goes on with the rest of the list. */
  function Resume(k: Step, rest: seq<Token>, tagging: Tagging): Outcome
    decreases |rest| + 1, 0
  {
    if k.err.Some? then Outcome(k.err, k.out)
    else ShuntAll(rest, k.ops, k.out, tagging)
  }

  /** The registers as the converter keeps them: both depths counted twice. */
  function Doubled(s: LexState): LexState {
    s.(pLevel := 2 * s.pLevel, bLevel := 2 * s.bLevel)
  }

  /** One lexer step as the converter sees it: on doubled depths the lexer
      returns what tokenize's lexer returns, and after the converter's own
      count the registers are again the doubled registers of tokenize. */
  lemma ConvertStep(expr: string, s: LexState) returns (r: Result<Token>, s': LexState)
    requires s.pos <= |expr| && s.pLevel >= 0 && s.bLevel >= 0
    ensures Lex(expr, Doubled(s)).result == r
    ensures r.Ok? && r.value.kind == End ==>
      Lex(expr, Doubled(s)).st.pLevel == 0 && Lex(expr, Doubled(s)).st.bLevel == 0 &&
      TokenizeFrom(expr, s).result == Ok([])
    ensures r.Err? ==> TokenizeFrom(expr, s).result == Err(r.error)
    ensures r.Ok? && r.value.kind != End ==>
      s.pos < s'.pos <= |expr| && s'.pLevel >= 0 && s'.bLevel >= 0 &&
      Bump(Lex(expr, Doubled(s)).st, r.value.kind) == Doubled(s') &&
      TokenizeFrom(expr, s).result ==
        match TokenizeFrom(expr, s').result
        case Err(e) => Err(e)
        case Ok(ts) => Ok([r.value] + ts)
  {
    var p := SkipSpaces(expr, s.pos);
    LexDepths(expr, s, p);
    LexDoubledDepths(expr, s);
    var lx := Lex(expr, s);
    r := lx.result;
    s' := if r.Ok? then lx.st.(prev := r.value.kind) else lx.st;
  }

  /** Where the lexer accepts the whole text, the converter is the
      shunting-yard fold over the lexer's token list; in particular the
      depth checks after its main loop (postfix.h:170-175) never fire. */
  lemma {:induction false} ConvertIsShuntAll(expr: string, s: LexState, ops: seq<Token>, out: seq<Token>, tagging: Tagging)
    requires s.pos <= |expr| && s.pLevel >= 0 && s.bLevel >= 0
    requires TokenizeFrom(expr, s).result.Ok?
    ensures var c := ConvertFrom(expr, Doubled(s), ops, out, tagging);
      var a := ShuntAll(TokenizeFrom(expr, s).result.value, ops, out, tagging);
      c.err == a.err && c.out == a.out
    decreases |expr| - s.pos
  {
    var r, s' := ConvertStep(expr, s);
    var ts := TokenizeFrom(expr, s).result.value;
    if r.value.kind != End {
      var k := Shunt(r.value, ops, out, tagging);
      assert ts[0] == r.value && ts[1..] == TokenizeFrom(expr, s').result.value;
      if k.err.None? {
        ConvertIsShuntAll(expr, s', k.ops, k.out, tagging);
      }
    }
  }

  /** A lexer error comes out of the converter unchanged, unless an earlier
      token already failed the shunting step with a syntax error. */
  lemma {:induction false} ConvertLexError(expr: string, s: LexState, ops: seq<Token>, out: seq<Token>, tagging: Tagging)
    requires s.pos <= |expr| && s.pLevel >= 0 && s.bLevel >= 0
    requires TokenizeFrom(expr, s).result.Err?
    ensures var c := ConvertFrom(expr, Doubled(s), ops, out, tagging);
      c.err == Some(TokenizeFrom(expr, s).result.error) || c.err == Some(Syntax)
    decreases |expr| - s.pos
  {
    var r, s' := ConvertStep(expr, s);
    if r.Ok? && r.value.kind != End {
      var k := Shunt(r.value, ops, out, tagging);
      if k.err.None? {
        ConvertLexError(expr, s', k.ops, k.out, tagging);
      }
    }
  }

  // ---------------------------------------------------------------------
  // What the output holds.

  predicate IsOperand(t: Token) { t.kind == Number || t.kind == String || t.kind == Variable }

  /** The operands of a token list, in order. */
  function Operands(ts: seq<Token>): seq<Token>
    decreases |ts|
  {
    if ts == [] then []
    else if IsOperand(ts[0]) then [ts[0]] + Operands(ts[1..])
    else Operands(ts[1..])
  }

  lemma {:induction false} OperandsAppend(a: seq<Token>, b: seq<Token>)
    ensures Operands(a + b) == Operands(a) + Operands(b)
    decreases |a|
  {
    if a != [] {
      assert (a + b)[0] == a[0] && (a + b)[1..] == a[1..] + b;
      OperandsAppend(a[1..], b);
      if IsOperand(a[0]) {
        assert Operands(a + b) == [a[0]] + Operands(a[1..] + b);
      }
    } else {
      assert a + b == b;
    }
  }

  /** The kinds the converter ever pushes onto its operator stack. */
  predicate Stackable(k: Kind) {
    k == Function || k == Unary || k == LParen || k == Operator || k == LBracket
  }

  predicate AllStackable(ops: seq<Token>) {
    forall i :: 0 <= i < |ops| ==> Stackable(ops[i].kind)
  }

  /** The kinds that may appear in the output: never a comma, a closing
      parenthesis, an end or an error token. */
  predicate Emittable(k: Kind) {
    k != Comma && k != RParen && k != End && k != Error
  }

  predicate AllEmittable(ts: seq<Token>) {
    forall i :: 0 <= i < |ts| ==> Emittable(ts[i].kind)
  }

  lemma {:induction false} StackableOperands(ops: seq<Token>)
    requires AllStackable(ops)
    ensures Operands(ops) == []
    decreases |ops|
  {
    if ops != [] {
      StackableOperands(ops[1..]);
    }
  }

  /** Popping a prefix of the stack onto the output keeps the invariants
      and adds no operand. */
  lemma PopPrefix(ops: seq<Token>, out: seq<Token>, n: nat)
    requires n <= |ops| && AllStackable(ops) && AllEmittable(out)
    ensures AllStackable(ops[n..]) && AllEmittable(out + ops[..n])
    ensures Operands(out + ops[..n]) == Operands(out)
  {
    assert AllStackable(ops[..n]);
    StackableOperands(ops[..n]);
    OperandsAppend(out, ops[..n]);
  }

  /** One shunting step with popped tokens keeping their kind: the operator
      stack holds only operators, signs, functions and openers; the output
      gains the incoming operand, if it is one, and no other operand, and
      never a comma or a closing parenthesis. */
  lemma ShuntOwnKind(t: Token, ops: seq<Token>, out: seq<Token>)
    requires AllStackable(ops) && AllEmittable(out) && t.kind != End && t.kind != Error
    ensures var k := Shunt(t, ops, out, OwnKind);
      AllStackable(k.ops) && AllEmittable(k.out) &&
      (k.err.None? ==> Operands(k.out) == Operands(out) + Operands([t]))
  {
    assert Operands([t]) == (if IsOperand(t) then [t] else []);
    match t.kind
    case Operator => PopOutrankingOwnKind(ops, out, t);
    case RParen => ShuntRParenOwnKind(t, ops, out);
    case RBracket => ShuntRBracketOwnKind(t, ops, out);
    case Comma => PopUntilOwnKind(ops, out, LParen, LBracket, Comma);
    case _ => OperandsAppend(out, [t]);
  }

  /** Emitting a token that is no operand keeps the output's operands. */
  lemma EmitNonOperand(out: seq<Token>, x: Token)
    requires AllEmittable(out) && Emittable(x.kind) && !IsOperand(x)
    ensures AllEmittable(out + [x]) && Operands(out + [x]) == Operands(out)
  {
    OperandsAppend(out, [x]);
    assert Operands([x]) == [];
  }

  lemma PopOutrankingOwnKind(ops: seq<Token>, out: seq<Token>, t: Token)
    requires AllStackable(ops) && AllEmittable(out)
    ensures var k := PopOutranking(ops, out, t, OwnKind);
      AllStackable(k.ops) && AllEmittable(k.out) && Operands(k.out) == Operands(out)
  {
    var n := PopOutrankingPrefix(ops, out, t, OwnKind);
    TaggedOwn(ops[..n], Operator);
    PopPrefix(ops, out, n);
  }

  lemma PopUntilOwnKind(ops: seq<Token>, out: seq<Token>, stop1: Kind, stop2: Kind, current: Kind)
    requires AllStackable(ops) && AllEmittable(out)
    ensures var k := PopUntil(ops, out, stop1, stop2, current, OwnKind);
      AllStackable(k.ops) && AllEmittable(k.out) && Operands(k.out) == Operands(out)
  {
    var n := PopUntilPrefix(ops, out, stop1, stop2, current, OwnKind);
    TaggedOwn(ops[..n], current);
    PopPrefix(ops, out, n);
  }

  lemma ShuntRParenOwnKind(t: Token, ops: seq<Token>, out: seq<Token>)
    requires AllStackable(ops) && AllEmittable(out) && t.kind == RParen
    ensures var k := Shunt(t, ops, out, OwnKind);
      AllStackable(k.ops) && AllEmittable(k.out) && Operands(k.out) == Operands(out)
  {
    var k := PopUntil(ops, out, LParen, LParen, RParen, OwnKind);
    PopUntilOwnKind(ops, out, LParen, LParen, RParen);
    if k.ops != [] {
      var rest := k.ops[1..];
      assert AllStackable(rest);
      if rest != [] && rest[0].kind == Function {
        EmitNonOperand(k.out, rest[0]);
        assert AllStackable(rest[1..]);
      }
    }
  }

  lemma ShuntRBracketOwnKind(t: Token, ops: seq<Token>, out: seq<Token>)
    requires AllStackable(ops) && AllEmittable(out) && t.kind == RBracket
    ensures var k := Shunt(t, ops, out, OwnKind);
      AllStackable(k.ops) && AllEmittable(k.out) && Operands(k.out) == Operands(out)
  {
    var k := PopUntil(ops, out, LBracket, LBracket, RBracket, OwnKind);
    PopUntilOwnKind(ops, out, LBracket, LBracket, RBracket);
    if k.ops != [] {
      EmitNonOperand(k.out, t);
      assert AllStackable(k.ops[1..]);
    }
  }

  /** The final drain emits no operand. */
  lemma DrainOwnKind(ops: seq<Token>, out: seq<Token>)
    requires AllStackable(ops) && AllEmittable(out)
    ensures AllEmittable(out + Tagged(ops, End, OwnKind))
    ensures Operands(out + Tagged(ops, End, OwnKind)) == Operands(out)
  {
    TaggedOwn(ops, End);
    PopPrefix(ops, out, |ops|);
    assert ops[..|ops|] == ops;
  }

  /** Over a whole token list no comma, closing parenthesis or end token
      is ever emitted. */
  lemma {:induction false} ShuntAllEmittable(ts: seq<Token>, ops: seq<Token>, out: seq<Token>)
    requires AllStackable(ops) && AllEmittable(out)
    requires forall i :: 0 <= i < |ts| ==> ts[i].kind != End && ts[i].kind != Error
    ensures AllEmittable(ShuntAll(ts, ops, out, OwnKind).out)
    decreases |ts|
  {
    if ts == [] {
      DrainOwnKind(ops, out);
    } else {
      ShuntOwnKind(ts[0], ops, out);
      var k := Shunt(ts[0], ops, out, OwnKind);
      if k.err.None? {
        ShuntAllEmittable(ts[1..], k.ops, k.out);
      }
    }
  }

  lemma OperandsChain(out: seq<Token>, t: Token, rest: seq<Token>, mid: seq<Token>, last: seq<Token>)
    requires Operands(mid) == Operands(out) + Operands([t])
    requires Operands(last) == Operands(mid) + Operands(rest)
    ensures Operands(last) == Operands(out) + Operands([t] + rest)
  {
    OperandsAppend([t], rest);
    ConcatAssoc(Operands(out), Operands([t]), Operands(rest));
  }

  /** Associativity on its own, away from the `Operands` unfoldings that
      make the same step too costly inline. */
  lemma ConcatAssoc(a: seq<Token>, b: seq<Token>, c: seq<Token>)
    ensures (a + b) + c == a + (b + c)
  {
  }

  /** Over a whole token list: operands leave in the order they came in. */
  lemma {:induction false} ShuntAllOperands(ts: seq<Token>, ops: seq<Token>, out: seq<Token>)
    requires AllStackable(ops) && AllEmittable(out)
    requires forall i :: 0 <= i < |ts| ==> ts[i].kind != End && ts[i].kind != Error
    ensures var a := ShuntAll(ts, ops, out, OwnKind);
      a.err.None? ==> Operands(a.out) == Operands(out) + Operands(ts)
    decreases |ts|
  {
    if ts == [] {
      DrainOwnKind(ops, out);
      assert Operands(ts) == [];
      assert Operands(out) + [] == Operands(out);
    } else {
      var t, rest := ts[0], ts[1..];
      ShuntOwnKind(t, ops, out);
      var k := Shunt(t, ops, out, OwnKind);
      if k.err.None? {
        var a := ShuntAll(rest, k.ops, k.out, OwnKind);
        assert ShuntAll(ts, ops, out, OwnKind) == a;
        ShuntAllOperands(rest, k.ops, k.out);
        if a.err.None? {
          assert ts == [t] + rest;
          OperandsChain(out, t, rest, k.out, a.out);
        }
      }
    }
  }
}

module PostfixExamples {
  import opened Tokens
  import opened Lexer
  import opened LexerFacts
  import opened Postfix
  import opened PostfixFacts

  /** A one-character number: a digit not followed by another digit or dot. */
  lemma LexDigit(expr: string, s: LexState)
    requires s.pos < |expr| && IsDigit(expr[s.pos]) && PTokenValid2(s.prev)
    requires !IsNumChar(At(expr, s.pos + 1))
    ensures Lex(expr, s) == Lexed(Ok(Token([expr[s.pos]], Number)), s.(pos := s.pos + 1))
  {
    assert SkipSpaces(expr, s.pos) == s.pos;
    assert expr[s.pos..s.pos + 1] == [expr[s.pos]];
  }

  /** A one-character binary operator: an operator character after an
      operand, not followed by `=` or `>`. */
  lemma LexOperator(expr: string, s: LexState)
    requires s.pos < |expr| && IsOpStart(expr[s.pos]) && PTokenValid6(s.prev)
    requires !IsOpChar(At(expr, s.pos + 1))
    ensures Lex(expr, s) == Lexed(Ok(Token([expr[s.pos]], Operator)), s.(pos := s.pos + 1))
  {
    assert SkipSpaces(expr, s.pos) == s.pos;
    assert expr[s.pos..s.pos + 1] == [expr[s.pos]];
  }

  /** The end of the text after an operand, with nothing left open. */
  lemma LexAtEnd(expr: string, s: LexState)
    requires s.pos == |expr| && !PTokenValid3(s.prev) && s.pLevel == 0 && s.bLevel == 0
    ensures Lex(expr, s) == Lexed(Ok(Token("", End)), s)
  {
  }

  /** One step of tokenize over a token that the lexer hands out. */
  lemma TokenizeCons(expr: string, s: LexState, t: Token, s1: LexState, rest: seq<Token>, ts: seq<Token>)
    requires s.pos <= |expr| && Lex(expr, s) == Lexed(Ok(t), s1) && t.kind != End
    requires TokenizeFrom(expr, s1.(prev := t.kind)).result == Ok(rest) && ts == [t] + rest
    ensures TokenizeFrom(expr, s).result == Ok(ts)
  {
  }

  /** The lexer splits "2+3*4^5" into seven tokens. */
  lemma PowerTokens()
    ensures TokenizeFrom("2+3*4^5", Start).result == Ok(PowerInfix())
  {
    PowerTokensBack("2+3*4^5", PowerInfix());
    PowerTokensFront("2+3*4^5", PowerInfix());
  }

  /** The first four tokens of "2+3*4^5", given the rest. */
  lemma PowerTokensFront(e: string, ts: seq<Token>)
    requires e == "2+3*4^5" && ts == PowerInfix()
    requires TokenizeFrom(e, LexState(4, Operator, 0, 0)).result == Ok(ts[4..])
    ensures TokenizeFrom(e, Start).result == Ok(ts)
  {
    PowerTokensMiddle(e, ts);
    LexOperator(e, LexState(1, Number, 0, 0));
    TokenizeCons(e, LexState(1, Number, 0, 0), ts[1], LexState(2, Number, 0, 0), ts[2..], ts[1..]);
    LexDigit(e, LexState(0, End, 0, 0));
    TokenizeCons(e, LexState(0, End, 0, 0), ts[0], LexState(1, End, 0, 0), ts[1..], ts);
  }

  /** The tokens of "2+3*4^5" from the `3` on, given those after `*`. */
  lemma PowerTokensMiddle(e: string, ts: seq<Token>)
    requires e == "2+3*4^5" && ts == PowerInfix()
    requires TokenizeFrom(e, LexState(4, Operator, 0, 0)).result == Ok(ts[4..])
    ensures TokenizeFrom(e, LexState(2, Operator, 0, 0)).result == Ok(ts[2..])
  {
    LexOperator(e, LexState(3, Number, 0, 0));
    TokenizeCons(e, LexState(3, Number, 0, 0), ts[3], LexState(4, Number, 0, 0), ts[4..], ts[3..]);
    LexDigit(e, LexState(2, Operator, 0, 0));
    TokenizeCons(e, LexState(2, Operator, 0, 0), ts[2], LexState(3, Operator, 0, 0), ts[3..], ts[2..]);
  }

  /** The last three tokens of "2+3*4^5", lexed after the `*`. */
  lemma PowerTokensBack(e: string, ts: seq<Token>)
    requires e == "2+3*4^5" && ts == PowerInfix()
    ensures TokenizeFrom(e, LexState(4, Operator, 0, 0)).result == Ok(ts[4..])
  {
    LexAtEnd(e, LexState(7, Number, 0, 0));
    assert TokenizeFrom(e, LexState(7, Number, 0, 0)).result == Ok(ts[7..]);
    LexDigit(e, LexState(6, Operator, 0, 0));
    TokenizeCons(e, LexState(6, Operator, 0, 0), ts[6], LexState(7, Operator, 0, 0), ts[7..], ts[6..]);
    LexOperator(e, LexState(5, Number, 0, 0));
    TokenizeCons(e, LexState(5, Number, 0, 0), ts[5], LexState(6, Number, 0, 0), ts[6..], ts[5..]);
    LexDigit(e, LexState(4, Operator, 0, 0));
    TokenizeCons(e, LexState(4, Operator, 0, 0), ts[4], LexState(5, Operator, 0, 0), ts[5..], ts[4..]);
  }

  /** One successful step of the list fold. */
  lemma ShuntAllStep(ts: seq<Token>, ops: seq<Token>, out: seq<Token>, tagging: Tagging, ops': seq<Token>, out': seq<Token>)
    requires ts != [] && Shunt(ts[0], ops, out, tagging) == Step(None, ops', out')
    ensures ShuntAll(ts, ops, out, tagging) == ShuntAll(ts[1..], ops', out', tagging)
  {
  }

  /** One successful step of the list fold, on a list `[t] + rest`. */
  lemma ShuntAllCons(t: Token, rest: seq<Token>, ops: seq<Token>, out: seq<Token>, tagging: Tagging, ops': seq<Token>, out': seq<Token>)
    requires Shunt(t, ops, out, tagging) == Step(None, ops', out')
    ensures ShuntAll([t] + rest, ops, out, tagging) == ShuntAll(rest, ops', out', tagging)
  {
    assert ([t] + rest)[0] == t && ([t] + rest)[1..] == rest;
  }

  /** The tokens of "2+3*4^5" (eval.c:73): operands and operators alternate. */
  function PowerInfix(): seq<Token> {
    [Token("2", Number), Token("+", Operator), Token("3", Number), Token("*", Operator),
     Token("4", Number), Token("^", Operator), Token("5", Number)]
  }

  /** The shunting step on the tokens of "2+3*4^5": the operands in order,
      then the pending operators, `^` above `*` above `+`. */
  lemma PowerShunt(tagging: Tagging)
    ensures ShuntAll(PowerInfix(), [], [], tagging) ==
      Outcome(None, [Token("2", Number), Token("3", Number), Token("4", Number), Token("5", Number)] +
        Tagged([Token("^", Operator), Token("*", Operator), Token("+", Operator)], End, tagging))
  {
    var two, plus, three, times := Token("2", Number), Token("+", Operator), Token("3", Number), Token("*", Operator);
    var r2 := [three, times, Token("4", Number), Token("^", Operator), Token("5", Number)];
    var r1 := [plus] + r2;
    assert PowerInfix() == [two] + r1;
    assert [] + [two] == [two];
    ShuntAllCons(two, r1, [], [], tagging, [], [two]);
    assert [plus] + [] == [plus];
    ShuntAllCons(plus, r2, [], [two], tagging, [plus], [two]);
    PowerShuntMiddle(tagging);
  }

  /** The shunting step on "3*4^5" with `+` pending. */
  lemma PowerShuntMiddle(tagging: Tagging)
    ensures var two, plus, three, times := Token("2", Number), Token("+", Operator), Token("3", Number), Token("*", Operator);
      ShuntAll([three, times, Token("4", Number), Token("^", Operator), Token("5", Number)], [plus], [two], tagging) ==
      Outcome(None, [Token("2", Number), Token("3", Number), Token("4", Number), Token("5", Number)] +
        Tagged([Token("^", Operator), Token("*", Operator), Token("+", Operator)], End, tagging))
  {
    var two, plus, three, times := Token("2", Number), Token("+", Operator), Token("3", Number), Token("*", Operator);
    var r4 := [Token("4", Number), Token("^", Operator), Token("5", Number)];
    assert [three, times, Token("4", Number), Token("^", Operator), Token("5", Number)] == [three] + ([times] + r4);
    ShuntAllCons(three, [times] + r4, [plus], [two], tagging, [plus], [two, three]);
    assert !Outranks(plus, times);
    ShuntAllCons(times, r4, [plus], [two, three], tagging, [times, plus], [two, three]);
    PowerShuntBack(tagging);
  }

  /** The shunting step on "4^5", the last tokens of "2+3*4^5", with `*`
      and `+` pending. */
  lemma PowerShuntBack(tagging: Tagging)
    ensures var two, plus, three, times := Token("2", Number), Token("+", Operator), Token("3", Number), Token("*", Operator);
      ShuntAll([Token("4", Number), Token("^", Operator), Token("5", Number)], [times, plus], [two, three], tagging) ==
      Outcome(None, [Token("2", Number), Token("3", Number), Token("4", Number), Token("5", Number)] +
        Tagged([Token("^", Operator), Token("*", Operator), Token("+", Operator)], End, tagging))
  {
    var two, plus, three, times := Token("2", Number), Token("+", Operator), Token("3", Number), Token("*", Operator);
    var four, power, five := Token("4", Number), Token("^", Operator), Token("5", Number);
    ShuntAllCons(four, [power, five], [times, plus], [two, three], tagging, [times, plus], [two, three, four]);
    assert !Outranks(times, power);
    ShuntAllCons(power, [five], [times, plus], [two, three, four], tagging, [power, times, plus], [two, three, four]);
    ShuntAllCons(five, [], [power, times, plus], [two, three, four], tagging, [power, times, plus], [two, three, four, five]);
  }

  /** With every popped token keeping its own kind, "2+3*4^5" becomes
      "2 3 4 5 ^ * +" (eval.c:73-74), the operators tagged as operators. */
  lemma PowerPostfix()
    ensures ShuntAll(PowerInfix(), [], [], OwnKind) ==
      Outcome(None, [Token("2", Number), Token("3", Number), Token("4", Number), Token("5", Number),
        Token("^", Operator), Token("*", Operator), Token("+", Operator)])
  {
    PowerShunt(OwnKind);
    TaggedOwn([Token("^", Operator), Token("*", Operator), Token("+", Operator)], End);
  }

  /** As written, the operators drained at the end are tagged with the kind
      of the end token, so the evaluator does not recognise them. */
  lemma PowerPostfixAsWritten()
    ensures ShuntAll(PowerInfix(), [], [], CurrentKind) ==
      Outcome(None, [Token("2", Number), Token("3", Number), Token("4", Number), Token("5", Number),
        Token("^", End), Token("*", End), Token("+", End)])
  {
    PowerShunt(CurrentKind);
    var plus := [Token("+", Operator)];
    var times := [Token("*", Operator)] + plus;
    assert Tagged(plus, End, CurrentKind) == [Token("+", End)];
    assert times[1..] == plus;
    assert Tagged(times, End, CurrentKind) == [Token("*", End), Token("+", End)];
    assert ([Token("^", Operator)] + times)[1..] == times;
  }

  /** The converter itself turns "2+3*4^5" into "2 3 4 5 ^ * +". */
  lemma PowerConvert()
    ensures var c := ConvertFrom("2+3*4^5", Start, [], [], OwnKind);
      c.err == None && c.out == [Token("2", Number), Token("3", Number), Token("4", Number), Token("5", Number),
        Token("^", Operator), Token("*", Operator), Token("+", Operator)]
  {
    PowerTokens();
    assert Doubled(Start) == Start;
    ConvertIsShuntAll("2+3*4^5", Start, [], [], OwnKind);
    PowerPostfix();
  }
}
