/** Properties of the lexer specification `Lexer.Lex` and of `Lexer.TokenizeFrom`. */
module LexerFacts {
  import opened Tokens
  import opened Lexer

  /** The grammar table: which previous kinds each token kind may follow. */
  predicate MayFollow(prev: Kind, k: Kind) {
    match k
    case End => !PTokenValid3(prev)
    case Unary => PTokenValid1(prev)
    case Number | String | Variable | Function => PTokenValid2(prev)
    case Comma => PTokenValid4(prev)
    case LParen => PTokenValid5(prev)
    case Operator | RParen | RBracket => PTokenValid6(prev)
    case LBracket => prev == Variable
    case Error => false
  }

  /** The kind of token a character starts, given the previous kind (a sign
      is unary only where a unary sign may stand, otherwise it is an operator). */
  function StartKind(c: char, prev: Kind): Kind {
    if c == '\0' then End
    else if IsUnarySign(c) && PTokenValid1(prev) then Unary
    else if IsNumChar(c) then Number
    else if c == '\'' || c == '"' then String
    else if IsOpStart(c) then Operator
    else if c == '$' then Variable
    else if IsLetter(c) then Function
    else if c == ',' then Comma
    else if c == '(' then LParen
    else if c == ')' then RParen
    else if c == '[' then LBracket
    else if c == ']' then RBracket
    else Error
  }

  /** A C string holds no NUL before its terminator. */
  predicate NoNul(expr: string) { forall k :: 0 <= k < |expr| ==> expr[k] != '\0' }

  /** Only whitespace from `i` on. */
  predicate Blank(expr: string, i: nat) { forall k :: i <= k < |expr| ==> IsSpace(expr[k]) }

  lemma {:induction false} SkipSpacesReachesEnd(expr: string, i: nat)
    requires i <= |expr| && NoNul(expr)
    ensures At(expr, SkipSpaces(expr, i)) == '\0' <==> Blank(expr, i)
    decreases |expr| - i
  {
    if i < |expr| && IsSpace(expr[i]) {
      SkipSpacesReachesEnd(expr, i + 1);
    }
  }

  /** The end token is returned exactly when only whitespace is left, no
      operand is still expected and both depths are zero; otherwise the end
      of the text is an invalid character, then an unbalanced parenthesis,
      then an unbalanced bracket, in that priority. */
  lemma LexEnd(expr: string, s: LexState)
    requires s.pos <= |expr| && NoNul(expr)
    ensures Lex(expr, s).result == Ok(Token("", End)) <==>
      Blank(expr, s.pos) && !PTokenValid3(s.prev) && s.pLevel == 0 && s.bLevel == 0
    ensures Blank(expr, s.pos) && PTokenValid3(s.prev) ==> Lex(expr, s).result == Err(InvalidCharacter)
    ensures Blank(expr, s.pos) && !PTokenValid3(s.prev) && s.pLevel != 0 ==> Lex(expr, s).result == Err(UnbalancedParen)
    ensures Blank(expr, s.pos) && !PTokenValid3(s.prev) && s.pLevel == 0 && s.bLevel != 0 ==>
      Lex(expr, s).result == Err(UnbalancedBracket)
  {
    SkipSpacesReachesEnd(expr, s.pos);
  }

  /** Every token is of the kind its first character starts and is accepted
      only after a previous kind the grammar table allows; a token the table
      forbids is an invalid character at its first character. */
  lemma LexFollowsGrammar(expr: string, s: LexState, p: nat)
    requires p <= |expr|
    ensures var k := StartKind(At(expr, p), s.prev);
      var r := LexAt(expr, s, p);
      (r.result.Ok? ==> r.result.value.kind == k && MayFollow(s.prev, k)) &&
      (!MayFollow(s.prev, k) ==> r.result == Err(InvalidCharacter) && r.st.pos == p)
  {
    var c := At(expr, p);
    if c == '\0' {
    } else if IsUnarySign(c) && PTokenValid1(s.prev) {
    } else if IsNumChar(c) {
    } else if c == '\'' {
    } else if c == '"' {
    } else if IsOpStart(c) {
    } else if c == '$' {
    } else if IsLetter(c) {
    } else if c == ',' {
    } else if c == '(' {
    } else if c == ')' {
    } else if c == '[' {
    } else if c == ']' {
    }
  }

  /** Number of decimal points in `s`. */
  function Dots(s: string): nat {
    if s == [] then 0 else (if s[|s| - 1] == '.' then 1 else 0) + Dots(s[..|s| - 1])
  }

  /** Number of decimal points in `expr[a..b]`, counted by position. */
  function DotsIn(expr: string, a: nat, b: nat): nat
    requires a <= b <= |expr|
    decreases b - a
  {
    if a == b then 0 else DotsIn(expr, a, b - 1) + (if expr[b - 1] == '.' then 1 else 0)
  }

  lemma {:induction false} DotsInSlice(expr: string, a: nat, b: nat)
    requires a <= b <= |expr|
    ensures DotsIn(expr, a, b) == Dots(expr[a..b])
    decreases b - a
  {
    if a < b {
      DotsInSlice(expr, a, b - 1);
      assert expr[a..b] == expr[a..b - 1] + [expr[b - 1]];
      assert expr[a..b][..b - a - 1] == expr[a..b - 1];
    } else {
      assert expr[a..b] == [];
    }
  }

  lemma {:induction false} ScanNumberScanned(expr: string, start: nat, i: nat, dots: nat)
    requires start < i <= |expr|
    requires forall k :: start <= k < i ==> IsNumChar(expr[k])
    requires dots == DotsIn(expr, start, i) && dots <= 1 && i - start <= MaxTokenLength
    requires ScanNumber(expr, start, i, dots).Scanned?
    ensures var n := ScanNumber(expr, start, i, dots).next;
      (forall k :: start <= k < n ==> IsNumChar(expr[k])) &&
      DotsIn(expr, start, n) <= 1 && n - start <= MaxTokenLength
    decreases |expr| - i
  {
    var c := At(expr, i);
    if IsNumChar(c) && i - start < MaxTokenLength {
      ScanNumberScanned(expr, start, i + 1, if c == '.' then dots + 1 else dots);
    }
  }

  lemma {:induction false} ScanNumberLexeme(expr: string, start: nat, i: nat, dots: nat)
    requires start < i <= |expr|
    ensures var r := ScanNumber(expr, start, i, dots);
      r.Scanned? ==> r.lexeme == expr[start..r.next]
    decreases |expr| - i
  {
    var c := At(expr, i);
    if IsNumChar(c) && i - start < MaxTokenLength && (if c == '.' then dots + 1 else dots) <= 1 {
      ScanNumberLexeme(expr, start, i + 1, if c == '.' then dots + 1 else dots);
    }
  }

  lemma {:induction false} ScanNumberFailed(expr: string, start: nat, i: nat, dots: nat)
    requires start < i <= |expr|
    requires forall k :: start <= k < i ==> IsNumChar(expr[k])
    requires dots == DotsIn(expr, start, i) && dots <= 1
    requires ScanNumber(expr, start, i, dots).Failed?
    ensures var q := ScanNumber(expr, start, i, dots).at;
      q < |expr| && expr[q] == '.' &&
      (forall k :: start <= k <= q ==> IsNumChar(expr[k])) && DotsIn(expr, start, q + 1) == 2
    decreases |expr| - i
  {
    var c := At(expr, i);
    if c != '.' || dots == 0 {
      ScanNumberFailed(expr, start, i + 1, if c == '.' then dots + 1 else dots);
    }
  }

  lemma {:induction false} ScanRunShape(expr: string, cls: RunClass, start: nat, i: nat)
    requires start < i <= |expr| && i - start <= MaxTokenLength
    requires forall k :: start < k < i ==> InRun(cls, expr[k])
    ensures var r := ScanRun(expr, cls, start, i);
      r.lexeme == expr[start..r.next] &&
      (forall k :: 1 <= k < |r.lexeme| ==> InRun(cls, r.lexeme[k])) &&
      |r.lexeme| <= MaxTokenLength &&
      (!InRun(cls, At(expr, r.next)) || |r.lexeme| == MaxTokenLength)
    decreases |expr| - i
  {
    if InRun(cls, At(expr, i)) && i - start < MaxTokenLength {
      ScanRunShape(expr, cls, start, i + 1);
    }
  }

  lemma {:induction false} ScanQuotedShape(expr: string, start: nat, i: nat)
    requires start < i <= |expr| && expr[start] == '\''
    ensures var r := ScanQuoted(expr, start, i);
      r.Scanned? ==> r.lexeme == expr[start..r.next] && 2 <= |r.lexeme| <= MaxTokenLength &&
                     r.lexeme[|r.lexeme| - 1] == '\''
    decreases |expr| - i
  {
    var c := At(expr, i);
    if c != '\'' && i - start < MaxTokenLength && c != '\0' {
      ScanQuotedShape(expr, start, i + 1);
    }
  }

  lemma {:induction false} ScanDQuotedShape(expr: string, tok: string, i: nat)
    requires 1 <= |tok| && i <= |expr| && tok[0] == '"'
    ensures var r := ScanDQuoted(expr, tok, i);
      r.Scanned? ==> 2 <= |r.lexeme| <= MaxTokenLength && r.lexeme[0] == '"' &&
                     r.lexeme[|r.lexeme| - 1] == '"'
    decreases |expr| - i
  {
    var c := At(expr, i);
    if c != '"' && |tok| < MaxTokenLength && c != '\0' {
      if c == '\\' {
        if At(expr, i + 1) != '\0' {
          ScanDQuotedShape(expr, tok + [At(expr, i + 1)], i + 2);
        }
      } else {
        ScanDQuotedShape(expr, tok + [c], i + 1);
      }
    }
  }

  /** The shape of a token of each kind lexed from position `p`, the cursor
      ending at `next`: a unary sign is the sign and `u` and moves the
      cursor by one; a number holds only digits and at most one decimal
      point; a string starts and ends with its quote; an operator is one
      operator character and then the longest run of `=` and `>`; a
      variable is `$` and name characters; a function is a letter and lower
      case letters; the punctuation tokens are their one character. Every
      lexeme is at most 512 characters long, and apart from unary signs and
      double-quoted strings (whose escapes are dropped) it is the text the
      cursor moved over. */
  predicate Shaped(expr: string, p: nat, t: Token, next: nat) {
    var x := t.lexeme;
    p <= next <= |expr| && |x| <= MaxTokenLength &&
    match t.kind
    case End => x == [] && next == p
    case Unary => next == p + 1 && x == [expr[p], 'u'] && IsUnarySign(expr[p])
    case Number =>
      x == expr[p..next] && x != [] && (forall k :: 0 <= k < |x| ==> IsNumChar(x[k])) && Dots(x) <= 1
    case String =>
      2 <= |x| && x[|x| - 1] == x[0] && (x[0] == '"' || (x[0] == '\'' && x == expr[p..next]))
    case Operator =>
      x == expr[p..next] && x != [] && IsOpStart(x[0]) && (forall k :: 1 <= k < |x| ==> IsOpChar(x[k])) &&
      (!IsOpChar(At(expr, next)) || |x| == MaxTokenLength)
    case Variable =>
      x == expr[p..next] && x != [] && x[0] == '$' && forall k :: 1 <= k < |x| ==> IsVarChar(x[k])
    case Function =>
      x == expr[p..next] && x != [] && IsLetter(x[0]) && forall k :: 1 <= k < |x| ==> IsFunChar(x[k])
    case Comma | LParen | RParen | LBracket | RBracket => next == p + 1 && x == expr[p..next]
    case Error => false
  }

  lemma NumberShaped(expr: string, p: nat)
    requires p < |expr| && IsNumChar(expr[p])
    ensures var sc := ScanNumber(expr, p, p + 1, if expr[p] == '.' then 1 else 0);
      sc.Scanned? ==> Shaped(expr, p, Token(sc.lexeme, Number), sc.next)
  {
    var d := if expr[p] == '.' then 1 else 0;
    var sc := ScanNumber(expr, p, p + 1, d);
    if sc.Scanned? {
      ScanNumberScanned(expr, p, p + 1, d);
      ScanNumberLexeme(expr, p, p + 1, d);
      DotsInSlice(expr, p, sc.next);
      var x := sc.lexeme;
      assert forall k :: 0 <= k < |x| ==> IsNumChar(x[k]) by {
        forall k | 0 <= k < |x| ensures IsNumChar(x[k]) {
          assert x[k] == expr[p + k];
        }
      }
    }
  }

  lemma QuotedShaped(expr: string, p: nat)
    requires p < |expr| && expr[p] == '\''
    ensures var sc := ScanQuoted(expr, p, p + 1);
      sc.Scanned? ==> Shaped(expr, p, Token(sc.lexeme, String), sc.next)
  {
    ScanQuotedShape(expr, p, p + 1);
  }

  lemma DQuotedShaped(expr: string, p: nat)
    requires p < |expr| && expr[p] == '"'
    ensures var sc := ScanDQuoted(expr, ['"'], p + 1);
      sc.Scanned? ==> Shaped(expr, p, Token(sc.lexeme, String), sc.next)
  {
    ScanDQuotedShape(expr, ['"'], p + 1);
  }

  lemma RunShaped(expr: string, p: nat, cls: RunClass, k: Kind)
    requires p < |expr|
    requires k == (match cls case OpChars => Operator case VarChars => Variable case FunChars => Function)
    requires cls == OpChars ==> IsOpStart(expr[p])
    requires cls == VarChars ==> expr[p] == '$'
    requires cls == FunChars ==> IsLetter(expr[p])
    ensures var sc := ScanRun(expr, cls, p, p + 1);
      Shaped(expr, p, Token(sc.lexeme, k), sc.next)
  {
    ScanRunShape(expr, cls, p, p + 1);
  }

  /** Every token the lexer accepts has the shape of its kind. */
  lemma LexemeShape(expr: string, s: LexState, p: nat)
    requires p <= |expr|
    requires LexAt(expr, s, p).result.Ok?
    ensures Shaped(expr, p, LexAt(expr, s, p).result.value, LexAt(expr, s, p).st.pos)
  {
    var c := At(expr, p);
    if c == '\0' {
    } else if IsUnarySign(c) && PTokenValid1(s.prev) {
    } else if IsNumChar(c) {
      NumberShaped(expr, p);
    } else if c == '\'' {
      QuotedShaped(expr, p);
    } else if c == '"' {
      DQuotedShaped(expr, p);
    } else if IsOpStart(c) {
      RunShaped(expr, p, OpChars, Operator);
    } else if c == '$' {
      RunShaped(expr, p, VarChars, Variable);
    } else if IsLetter(c) {
      RunShaped(expr, p, FunChars, Function);
    } else if c == ',' {
    } else if c == '(' {
    } else if c == ')' {
    } else if c == '[' {
    } else if c == ']' {
    }
  }

  /** `expr[p..q + 1]` is a number with a second decimal point at `q`. */
  predicate TwoDots(expr: string, p: nat, q: nat) {
    p < q < |expr| && expr[q] == '.' &&
    (forall k :: p <= k <= q ==> IsNumChar(expr[k])) && Dots(expr[p..q + 1]) == 2
  }

  lemma TwoDotsByPosition(expr: string, p: nat, q: nat)
    requires p < q < |expr| && expr[q] == '.'
    requires forall k :: p <= k <= q ==> IsNumChar(expr[k])
    requires DotsIn(expr, p, q + 1) == 2
    ensures TwoDots(expr, p, q)
  {
    DotsInSlice(expr, p, q + 1);
  }

  lemma NumberFailedAt(expr: string, p: nat)
    requires p < |expr| && IsNumChar(expr[p])
    ensures var sc := ScanNumber(expr, p, p + 1, if expr[p] == '.' then 1 else 0);
      sc.Failed? ==> TwoDots(expr, p, sc.at)
  {
    var sc := ScanNumber(expr, p, p + 1, if expr[p] == '.' then 1 else 0);
    if sc.Failed? {
      ScanNumberFailed(expr, p, p + 1, if expr[p] == '.' then 1 else 0);
      TwoDotsByPosition(expr, p, sc.at);
    }
  }

  /** A number with a second decimal point is rejected at that point: the
      text from the number's first character to it holds only number
      characters and exactly two decimal points. */
  lemma InvalidNumberWitness(expr: string, s: LexState, p: nat)
    requires p <= |expr|
    requires LexAt(expr, s, p).result == Err(InvalidNumber)
    ensures TwoDots(expr, p, LexAt(expr, s, p).st.pos)
  {
    var c := At(expr, p);
    if c == '\0' || (IsUnarySign(c) && PTokenValid1(s.prev)) || !IsNumChar(c) {
      assert false;
    } else {
      NumberFailedAt(expr, p);
    }
  }

  /** How a token moves the paren and bracket depths. */
  function ParenStep(k: Kind): int {
    if k == LParen then 1 else if k == RParen then -1 else 0
  }
  function BracketStep(k: Kind): int {
    if k == LBracket then 1 else if k == RBracket then -1 else 0
  }

  /** Each accepted token moves the depths by its own step and never below
      zero; a closing parenthesis or bracket that would is rejected without
      moving the cursor past it. */
  lemma LexDepths(expr: string, s: LexState, p: nat)
    requires p <= |expr| && s.pLevel >= 0 && s.bLevel >= 0
    ensures var r := LexAt(expr, s, p);
      (r.result == Ok(Token("", End)) ==> s.pLevel == 0 && s.bLevel == 0) &&
      (r.result.Ok? ==>
         r.st.pLevel == s.pLevel + ParenStep(r.result.value.kind) && r.st.pLevel >= 0 &&
         r.st.bLevel == s.bLevel + BracketStep(r.result.value.kind) && r.st.bLevel >= 0 &&
         r.st.prev == (if r.result.value.kind == Unary then Unary else s.prev)) &&
      (r.result == Err(UnbalancedParen) && At(expr, p) != '\0' ==>
         s.pLevel == 0 && r.st.pos == p && expr[p] == ')') &&
      (r.result == Err(UnbalancedBracket) && At(expr, p) != '\0' ==>
         s.bLevel == 0 && r.st.pos == p && expr[p] == ']')
  {
    var c := At(expr, p);
    if c == '\0' {
    } else if IsUnarySign(c) && PTokenValid1(s.prev) {
    } else if IsNumChar(c) {
    } else if c == '\'' {
    } else if c == '"' {
    } else if IsOpStart(c) {
    } else if c == '$' {
    } else if IsLetter(c) {
    } else if c == ',' {
    } else if c == '(' {
    } else if c == ')' {
    } else if c == '[' {
    } else if c == ']' {
    }
  }

  /** The converter counts every parenthesis and bracket a second time in the
      same registers, so the lexer runs on doubled depths. Only whether a
      depth is zero and whether it drops below zero matter to the lexer, so
      it behaves on doubled depths exactly as on single ones. */
  lemma LexDoubledDepths(expr: string, s: LexState)
    requires s.pos <= |expr| && s.pLevel >= 0 && s.bLevel >= 0
    ensures var a := Lex(expr, s);
      var b := Lex(expr, s.(pLevel := 2 * s.pLevel, bLevel := 2 * s.bLevel));
      a.result == b.result && a.st.pos == b.st.pos && a.st.prev == b.st.prev &&
      b.st.pLevel == a.st.pLevel + s.pLevel && b.st.bLevel == a.st.bLevel + s.bLevel
  {
    var p := SkipSpaces(expr, s.pos);
    LexAtDoubledDepths(expr, s, p);
  }

  lemma LexAtDoubledDepths(expr: string, s: LexState, p: nat)
    requires p <= |expr| && s.pLevel >= 0 && s.bLevel >= 0
    ensures var a := LexAt(expr, s, p);
      var b := LexAt(expr, s.(pLevel := 2 * s.pLevel, bLevel := 2 * s.bLevel), p);
      a.result == b.result && a.st.pos == b.st.pos && a.st.prev == b.st.prev &&
      b.st.pLevel == a.st.pLevel + s.pLevel && b.st.bLevel == a.st.bLevel + s.bLevel
  {
    var c := At(expr, p);
    if c == '\0' {
    } else if IsUnarySign(c) && PTokenValid1(s.prev) {
    } else if IsNumChar(c) {
    } else if c == '\'' {
    } else if c == '"' {
    } else if IsOpStart(c) {
    } else if c == '$' {
    } else if IsLetter(c) {
    } else if c == ',' {
    } else if c == '(' {
    } else if c == ')' {
    } else if c == '[' {
    } else if c == ']' {
    }
  }

  /** Consecutive tokens obey the grammar table, starting from `prev`. */
  predicate Chained(prev: Kind, ts: seq<Token>)
    decreases |ts|
  {
    ts == [] || (MayFollow(prev, ts[0].kind) && Chained(ts[0].kind, ts[1..]))
  }

  /** Starting from depths `p` and `b`, no prefix of `ts` closes more than it
      opened and the whole of `ts` leaves both depths at zero. */
  predicate Nested(p: int, b: int, ts: seq<Token>)
    decreases |ts|
  {
    if ts == [] then p == 0 && b == 0
    else
      var p' := p + ParenStep(ts[0].kind);
      var b' := b + BracketStep(ts[0].kind);
      p' >= 0 && b' >= 0 && Nested(p', b', ts[1..])
  }

  lemma NestedCons(s: LexState, s': LexState, t: Token, ts: seq<Token>, rest: seq<Token>)
    requires s'.pLevel == s.pLevel + ParenStep(t.kind) && s'.pLevel >= 0
    requires s'.bLevel == s.bLevel + BracketStep(t.kind) && s'.bLevel >= 0
    requires Nested(s'.pLevel, s'.bLevel, rest) && ts == [t] + rest
    ensures Nested(s.pLevel, s.bLevel, ts)
  {
    assert ts[1..] == rest;
  }

  /** The kind of the last token of `ts`, or `prev` if there is none. */
  function LastKind(prev: Kind, ts: seq<Token>): Kind {
    if ts == [] then prev else ts[|ts| - 1].kind
  }

  /** One step of tokenize: the first token `t`, the registers `s'` the rest
      of the list is lexed from, and what the lexer guarantees about them. */
  lemma TokenizeStep(expr: string, s: LexState) returns (t: Token, s': LexState)
    requires s.pos <= |expr| && s.pLevel >= 0 && s.bLevel >= 0
    requires TokenizeFrom(expr, s).result.Ok?
    ensures var ts := TokenizeFrom(expr, s).result.value;
      MayFollow(s.prev, t.kind) &&
      (t.kind == End ==> ts == [] && s.pLevel == 0 && s.bLevel == 0) &&
      (t.kind != End ==>
         s.pos < s'.pos <= |expr| && s'.prev == t.kind &&
         s'.pLevel == s.pLevel + ParenStep(t.kind) && s'.pLevel >= 0 &&
         s'.bLevel == s.bLevel + BracketStep(t.kind) && s'.bLevel >= 0 &&
         TokenizeFrom(expr, s').result.Ok? && ts == [t] + TokenizeFrom(expr, s').result.value)
  {
    var p := SkipSpaces(expr, s.pos);
    LexFollowsGrammar(expr, s, p);
    LexDepths(expr, s, p);
    var lx := Lex(expr, s);
    t := lx.result.value;
    s' := lx.st.(prev := t.kind);
  }

  /** A token list that tokenize accepts is a sentence of the grammar: each
      token may follow the one before it and the list does not end in a
      token that still needs an operand. */
  lemma {:induction false} TokenizeChained(expr: string, s: LexState)
    requires s.pos <= |expr| && s.pLevel >= 0 && s.bLevel >= 0
    requires TokenizeFrom(expr, s).result.Ok?
    ensures var ts := TokenizeFrom(expr, s).result.value;
      Chained(s.prev, ts) && !PTokenValid3(LastKind(s.prev, ts))
    decreases |expr| - s.pos
  {
    var t, s' := TokenizeStep(expr, s);
    if t.kind != End {
      TokenizeChained(expr, s');
      var ts := TokenizeFrom(expr, s).result.value;
      var rest := TokenizeFrom(expr, s').result.value;
      assert ts[1..] == rest;
      if rest != [] {
        assert LastKind(s.prev, ts) == LastKind(t.kind, rest);
      }
    }
  }

  /** In an accepted token list parentheses and brackets are balanced: no
      prefix closes more than it opened and the whole list closes all. */
  lemma {:induction false} TokenizeNested(expr: string, s: LexState)
    requires s.pos <= |expr| && s.pLevel >= 0 && s.bLevel >= 0
    requires TokenizeFrom(expr, s).result.Ok?
    ensures Nested(s.pLevel, s.bLevel, TokenizeFrom(expr, s).result.value)
    decreases |expr| - s.pos
  {
    var t, s' := TokenizeStep(expr, s);
    if t.kind != End {
      TokenizeNested(expr, s');
      NestedCons(s, s', t, TokenizeFrom(expr, s).result.value, TokenizeFrom(expr, s').result.value);
    }
  }

  /** An accepted token list holds no end token and no error token. */
  lemma {:induction false} TokenizeNoEnd(expr: string, s: LexState)
    requires s.pos <= |expr| && s.pLevel >= 0 && s.bLevel >= 0
    requires TokenizeFrom(expr, s).result.Ok?
    ensures var ts := TokenizeFrom(expr, s).result.value;
      forall k :: 0 <= k < |ts| ==> ts[k].kind != End && ts[k].kind != Error
    decreases |expr| - s.pos
  {
    var t, s' := TokenizeStep(expr, s);
    if t.kind != End {
      TokenizeNoEnd(expr, s');
      var ts := TokenizeFrom(expr, s).result.value;
      assert forall k :: 1 <= k < |ts| ==> ts[k] == TokenizeFrom(expr, s').result.value[k - 1];
    }
  }

  /** The `[` test as written (token.h:416): `!pType` is 0 or 1, and it is
      compared with the code of TOKEN_VARIABLE. */
  predicate LBracketRejectedAsWritten(prev: Kind) {
    (if KindCode(prev) == 0 then 1 else 0) == KindCode(Variable)
  }

  /** As written the test never rejects, so `[` is accepted after anything,
      a number included; the model accepts it only after a variable. */
  lemma LBracketAfterNumber()
    ensures forall prev :: !LBracketRejectedAsWritten(prev)
    ensures LexAt("1[", LexState(1, Number, 0, 0), 1).result == Err(InvalidCharacter)
    ensures LexAt("$a[", LexState(2, Variable, 0, 0), 2).result == Ok(Token("[", LBracket))
  {
  }

  /** The number branch as written (token.h:308-316): the first character
      is copied before the loop and is never counted as a decimal point. */
  function NumberAsWritten(expr: string, p: nat): Scan
    requires p < |expr|
  {
    ScanNumber(expr, p, p + 1, 0)
  }

  /** As written ".1.2" is one number; counting the leading point, the model
      rejects it at the second point. */
  lemma LeadingDot()
    ensures NumberAsWritten(".1.2", 0) == Scanned(".1.2", 4)
    ensures LexAt(".1.2", Start, 0) == Lexed(Err(InvalidNumber), Start.(pos := 2))
  {
    var e := ".1.2";
    assert ScanNumber(e, 0, 4, 1) == Scanned(e[0..4], 4);
    assert ScanNumber(e, 0, 3, 1) == Scanned(e[0..4], 4);
    assert ScanNumber(e, 0, 2, 0) == Scanned(e[0..4], 4);
    assert e[0..4] == ".1.2";
    assert ScanNumber(e, 0, 2, 1) == Failed(InvalidNumber, 2);
  }
}
