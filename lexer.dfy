/** The context-sensitive lexer of src/token.h: `nextToken` and `tokenize`.

    `Lex` is the specification: one call of `nextToken` as a function of the
    input text and the lexer registers (cursor, previous kind, paren and
    bracket depth). `ParseContext` holds those registers, which the source
    keeps in globals, and its `NextToken` and `Tokenize` methods are the
    step-by-step loops of the source, proved to compute `Lex`. */
module Lexer {
  import opened Tokens

  // Character classes (token.h:77-95).

  predicate IsSpace(c: char) { c == ' ' || c == '\t' || c == '\r' || c == '\n' }
  predicate IsUnarySign(c: char) { c == '+' || c == '-' || c == '!' }
  predicate IsOpStart(c: char) {
    c == '+' || c == '-' || c == '*' || c == '/' || c == '^' || c == '#' ||
    c == '<' || c == '>' || c == '=' || c == '!'
  }
  predicate IsOpChar(c: char) { c == '=' || c == '>' }
  predicate IsDigit(c: char) { '0' <= c <= '9' }
  predicate IsNumChar(c: char) { IsDigit(c) || c == '.' }
  predicate IsLetter(c: char) { 'a' <= c <= 'z' || 'A' <= c <= 'Z' }
  predicate IsVarChar(c: char) { IsLetter(c) || IsDigit(c) || c == '_' }
  predicate IsFunChar(c: char) { 'a' <= c <= 'z' }

  /** The continuation classes of the three run-scanning loops. */
  datatype RunClass = OpChars | VarChars | FunChars

  predicate InRun(cls: RunClass, c: char) {
    match cls
    case OpChars => IsOpChar(c)
    case VarChars => IsVarChar(c)
    case FunChars => IsFunChar(c)
  }

  /** The character under the cursor of a NUL-terminated string: past the
      text there is the terminator, and an embedded NUL ends the text too.
      Each `char` stands for one byte of the C text, below 256. */
  function At(expr: string, i: nat): char {
    if i < |expr| then expr[i] else '\0'
  }

  /** The lexer registers: pExpr, pType, pLevel and bLevel. */
  datatype LexState = LexState(pos: nat, prev: Kind, pLevel: int, bLevel: int)

  /** The registers as the driver resets them before every expression (eval.c:46-49). */
  const Start := LexState(0, End, 0, 0)

  /** What one call of the lexer yields: the token or the error, and the registers after it. */
  datatype Lexed = Lexed(result: Result<Token>, st: LexState)

  /** The outcome of one of the scanning loops: the lexeme and the cursor
      after it, or an error and the cursor where it was detected. */
  datatype Scan = Scanned(lexeme: string, next: nat) | Failed(error: ErrorCode, at: nat)

  /** The whitespace skip at the start of every token (token.h:274-276). */
  function SkipSpaces(expr: string, i: nat): (j: nat)
    ensures i <= j && !IsSpace(At(expr, j))
    ensures i <= |expr| ==> j <= |expr|
    decreases |expr| - i
  {
    if IsSpace(At(expr, i)) then SkipSpaces(expr, i + 1) else i
  }

  /** The number loop (token.h:310-319). `dots` counts the decimal points seen;
      the lexeme so far is `expr[start..i]`. */
  function ScanNumber(expr: string, start: nat, i: nat, dots: nat): (r: Scan)
    requires start < i <= |expr|
    ensures r.Scanned? ==> i <= r.next <= |expr|
    ensures r.Failed? ==> r.error == InvalidNumber && i <= r.at < |expr|
    decreases |expr| - i
  {
    var c := At(expr, i);
    if IsNumChar(c) && i - start < MaxTokenLength then
      var d := if c == '.' then dots + 1 else dots;
      if d > 1 then Failed(InvalidNumber, i)
      else ScanNumber(expr, start, i + 1, d)
    else Scanned(expr[start..i], i)
  }

  /** The single-quoted string loop (token.h:327-335): characters are copied
      verbatim up to the closing quote. */
  function ScanQuoted(expr: string, start: nat, i: nat): (r: Scan)
    requires start < i <= |expr|
    ensures r.Scanned? ==> i < r.next <= |expr|
    ensures r.Failed? ==> r.error == UnbalancedQuote && i <= r.at <= |expr|
    decreases |expr| - i
  {
    var c := At(expr, i);
    if c != '\'' && i - start < MaxTokenLength && c != '\0' then
      ScanQuoted(expr, start, i + 1)
    else if c == '\0' || i - start >= MaxTokenLength then
      Failed(UnbalancedQuote, i)
    else
      Scanned(expr[start..i + 1], i + 1)
  }

  /** The double-quoted string loop (token.h:343-354): a backslash is dropped
      and the character after it is copied whatever it is. `tok` is the
      lexeme built so far. A backslash right before the terminator is
      reported as an unbalanced quote at the terminator; the source instead
      steps over the terminator and reads past the end of the text. */
  function ScanDQuoted(expr: string, tok: string, i: nat): (r: Scan)
    requires 1 <= |tok| && i <= |expr|
    ensures r.Scanned? ==> i < r.next <= |expr|
    ensures r.Failed? ==> r.error == UnbalancedQuote && i <= r.at <= |expr|
    decreases |expr| - i
  {
    var c := At(expr, i);
    if c != '"' && |tok| < MaxTokenLength && c != '\0' then
      if c == '\\' then
        var e := At(expr, i + 1);
        if e == '\0' then Failed(UnbalancedQuote, i + 1)
        else ScanDQuoted(expr, tok + [e], i + 2)
      else ScanDQuoted(expr, tok + [c], i + 1)
    else if c == '\0' || |tok| >= MaxTokenLength then
      Failed(UnbalancedQuote, i)
    else
      Scanned(tok + [c], i + 1)
  }

  /** The operator, variable and function loops (token.h:362-365, 373-376,
      384-387): the longest run of the class, up to the length limit. */
  function ScanRun(expr: string, cls: RunClass, start: nat, i: nat): (r: Scan)
    requires start < i <= |expr|
    ensures r.Scanned? && i <= r.next <= |expr|
    decreases |expr| - i
  {
    var c := At(expr, i);
    if InRun(cls, c) && i - start < MaxTokenLength then ScanRun(expr, cls, start, i + 1)
    else Scanned(expr[start..i], i)
  }

  /** Turns a scan into the lexer's answer for a token of kind `kind`. */
  function Finish(sc: Scan, kind: Kind, s: LexState): Lexed {
    match sc
    case Scanned(lexeme, next) => Lexed(Ok(Token(lexeme, kind)), s.(pos := next))
    case Failed(e, at) => Lexed(Err(e), s.(pos := at))
  }

  /** Rejection of a token that may not follow the previous kind. */
  function Reject(s: LexState, p: nat): Lexed {
    Lexed(Err(InvalidCharacter), s.(pos := p))
  }

  /** Whether `[` may follow the previous kind. The source writes the test as
      `!pType == TOKEN_VARIABLE`, which never holds, so it accepts `[` after
      anything; the comment and the grammar ask for "only after a variable". */
  predicate LBracketAllowed(prev: Kind) { prev == Variable }

  /** One call of nextToken (token.h:267-440): skip the whitespace, then
      lex the token that starts there. */
  function Lex(expr: string, s: LexState): (r: Lexed)
    requires s.pos <= |expr|
    ensures r.st.pos <= |expr|
    ensures r.result.Ok? && r.result.value.kind != End ==> s.pos < r.st.pos
  {
    LexAt(expr, s, SkipSpaces(expr, s.pos))
  }

  /** nextToken from its first non-blank character at `p` (token.h:278-439).
      Only a unary sign sets the previous kind itself; for the other tokens
      the caller records it. */
  function LexAt(expr: string, s: LexState, p: nat): (r: Lexed)
    requires p <= |expr|
    ensures r.st.pos <= |expr|
    ensures r.result.Ok? && r.result.value.kind != End ==> p < r.st.pos
    ensures r.result.Ok? && r.result.value.kind == End ==> r.st.pos == p
  {
    var c := At(expr, p);
    if c == '\0' then
      if PTokenValid3(s.prev) then Reject(s, p)
      else if s.pLevel != 0 then Lexed(Err(UnbalancedParen), s.(pos := p))
      else if s.bLevel != 0 then Lexed(Err(UnbalancedBracket), s.(pos := p))
      else Lexed(Ok(Token("", End)), s.(pos := p))
    else if IsUnarySign(c) && PTokenValid1(s.prev) then
      Lexed(Ok(Token([c, 'u'], Unary)), s.(pos := p + 1, prev := Unary))
    else if IsNumChar(c) then
      if !PTokenValid2(s.prev) then Reject(s, p)
      else Finish(ScanNumber(expr, p, p + 1, if c == '.' then 1 else 0), Number, s)
    else if c == '\'' then
      if !PTokenValid2(s.prev) then Reject(s, p)
      else Finish(ScanQuoted(expr, p, p + 1), String, s)
    else if c == '"' then
      if !PTokenValid2(s.prev) then Reject(s, p)
      else Finish(ScanDQuoted(expr, [c], p + 1), String, s)
    else if IsOpStart(c) then
      if !PTokenValid6(s.prev) then Reject(s, p)
      else Finish(ScanRun(expr, OpChars, p, p + 1), Operator, s)
    else if c == '$' then
      if !PTokenValid2(s.prev) then Reject(s, p)
      else Finish(ScanRun(expr, VarChars, p, p + 1), Variable, s)
    else if IsLetter(c) then
      if !PTokenValid2(s.prev) then Reject(s, p)
      else Finish(ScanRun(expr, FunChars, p, p + 1), Function, s)
    else if c == ',' then
      if !PTokenValid4(s.prev) then Reject(s, p)
      else Lexed(Ok(Token([c], Comma)), s.(pos := p + 1))
    else if c == '(' then
      if !PTokenValid5(s.prev) then Reject(s, p)
      else Lexed(Ok(Token([c], LParen)), s.(pos := p + 1, pLevel := s.pLevel + 1))
    else if c == ')' then
      if !PTokenValid6(s.prev) then Reject(s, p)
      else if s.pLevel - 1 < 0 then Lexed(Err(UnbalancedParen), s.(pos := p, pLevel := s.pLevel - 1))
      else Lexed(Ok(Token([c], RParen)), s.(pos := p + 1, pLevel := s.pLevel - 1))
    else if c == '[' then
      if !LBracketAllowed(s.prev) then Reject(s, p)
      else Lexed(Ok(Token([c], LBracket)), s.(pos := p + 1, bLevel := s.bLevel + 1))
    else if c == ']' then
      if !PTokenValid6(s.prev) then Reject(s, p)
      else if s.bLevel - 1 < 0 then Lexed(Err(UnbalancedBracket), s.(pos := p, bLevel := s.bLevel - 1))
      else Lexed(Ok(Token([c], RBracket)), s.(pos := p + 1, bLevel := s.bLevel - 1))
    else Reject(s, p)
  }

  /** The outcome of tokenize: the token list up to the end (or the first
      error) and the registers after it. */
  datatype Tokenized = Tokenized(result: Result<seq<Token>>, st: LexState)

  /** tokenize (token.h:443-459) from the registers `s`: lex, record the
      kind as the previous kind, repeat until the end token. */
  function TokenizeFrom(expr: string, s: LexState): (r: Tokenized)
    requires s.pos <= |expr|
    decreases |expr| - s.pos
  {
    var lx := Lex(expr, s);
    match lx.result
    case Err(e) => Tokenized(Err(e), lx.st)
    case Ok(t) =>
      if t.kind == End then Tokenized(Ok([]), lx.st)
      else
        var rest := TokenizeFrom(expr, lx.st.(prev := t.kind));
        match rest.result
        case Err(e) => rest
        case Ok(ts) => Tokenized(Ok([t] + ts), rest.st)
  }

  /** `t` with `done` in front of its token list (errors pass through). */
  function Prepend(done: seq<Token>, t: Tokenized): Tokenized {
    match t.result
    case Ok(ts) => Tokenized(Ok(done + ts), t.st)
    case Err(_) => t
  }

  /** Prepending no tokens changes nothing. It sets up Tokenize's loop
      invariant before the first iteration, when no token has been read. */
  lemma PrependNothing(t: Tokenized)
    ensures Prepend([], t) == t
  {
    if t.result.Ok? {
      assert [] + t.result.value == t.result.value;
    }
  }

  lemma PrependTwice(a: seq<Token>, b: seq<Token>, t: Tokenized)
    ensures Prepend(a, Prepend(b, t)) == Prepend(a + b, t)
  {
    if t.result.Ok? {
      assert a + (b + t.result.value) == (a + b) + t.result.value;
    }
  }

  /** The lexer registers, global variables in the source. */
  class ParseContext {
    var pExpr: nat
    var pType: Kind
    var pLevel: int
    var bLevel: int

    function State(): LexState
      reads this
    {
      LexState(pExpr, pType, pLevel, bLevel)
    }

    constructor ()
      ensures State() == Start
    {
      pExpr, pType, pLevel, bLevel := 0, End, 0, 0;
    }

    /** The reset the driver performs before every expression (eval.c:46-49). */
    method Reset()
      modifies this
      ensures State() == Start
    {
      pExpr, pType, pLevel, bLevel := 0, End, 0, 0;
    }

    /** nextToken (token.h:267-440). */
    method NextToken(expr: string) returns (r: Result<Token>)
      requires pExpr <= |expr|
      modifies this
      ensures Lexed(r, State()) == Lex(expr, old(State()))
    {
      var c := At(expr, pExpr);
      while IsSpace(c)
        invariant pExpr <= |expr|
        invariant SkipSpaces(expr, pExpr) == SkipSpaces(expr, old(pExpr))
        invariant pType == old(pType) && pLevel == old(pLevel) && bLevel == old(bLevel)
        invariant c == At(expr, pExpr)
        decreases |expr| - pExpr
      {
        pExpr := pExpr + 1;
        c := At(expr, pExpr);
      }
      assert SkipSpaces(expr, pExpr) == pExpr;

      if c == '\0' {
        if PTokenValid3(pType) {
          return Err(InvalidCharacter);
        }
        if pLevel != 0 {
          return Err(UnbalancedParen);
        }
        if bLevel != 0 {
          return Err(UnbalancedBracket);
        }
        return Ok(Token("", End));
      }

      if IsUnarySign(c) && PTokenValid1(pType) {
        pExpr := pExpr + 1;
        pType := Unary;
        return Ok(Token([c, 'u'], Unary));
      }

      var sc: Scan;
      var kind: Kind;
      if IsNumChar(c) {
        if !PTokenValid2(pType) {
          return Err(InvalidCharacter);
        }
        sc := NumberLoop(expr);
        kind := Number;
      } else if c == '\'' {
        if !PTokenValid2(pType) {
          return Err(InvalidCharacter);
        }
        sc := QuotedLoop(expr);
        kind := String;
      } else if c == '"' {
        if !PTokenValid2(pType) {
          return Err(InvalidCharacter);
        }
        sc := DQuotedLoop(expr);
        kind := String;
      } else if IsOpStart(c) {
        if !PTokenValid6(pType) {
          return Err(InvalidCharacter);
        }
        sc := RunLoop(expr, OpChars);
        kind := Operator;
      } else if c == '$' {
        if !PTokenValid2(pType) {
          return Err(InvalidCharacter);
        }
        sc := RunLoop(expr, VarChars);
        kind := Variable;
      } else if IsLetter(c) {
        if !PTokenValid2(pType) {
          return Err(InvalidCharacter);
        }
        sc := RunLoop(expr, FunChars);
        kind := Function;
      } else if c == ',' {
        if !PTokenValid4(pType) {
          return Err(InvalidCharacter);
        }
        pExpr := pExpr + 1;
        sc, kind := Scanned([c], pExpr), Comma;
      } else if c == '(' {
        if !PTokenValid5(pType) {
          return Err(InvalidCharacter);
        }
        pLevel := pLevel + 1;
        pExpr := pExpr + 1;
        sc, kind := Scanned([c], pExpr), LParen;
      } else if c == ')' {
        if !PTokenValid6(pType) {
          return Err(InvalidCharacter);
        }
        pLevel := pLevel - 1;
        if pLevel < 0 {
          return Err(UnbalancedParen);
        }
        pExpr := pExpr + 1;
        sc, kind := Scanned([c], pExpr), RParen;
      } else if c == '[' {
        if !LBracketAllowed(pType) {
          return Err(InvalidCharacter);
        }
        bLevel := bLevel + 1;
        pExpr := pExpr + 1;
        sc, kind := Scanned([c], pExpr), LBracket;
      } else if c == ']' {
        if !PTokenValid6(pType) {
          return Err(InvalidCharacter);
        }
        bLevel := bLevel - 1;
        if bLevel < 0 {
          return Err(UnbalancedBracket);
        }
        pExpr := pExpr + 1;
        sc, kind := Scanned([c], pExpr), RBracket;
      } else {
        return Err(InvalidCharacter);
      }
      r := match sc
        case Scanned(lexeme, _) => Ok(Token(lexeme, kind))
        case Failed(e, _) => Err(e);
    }

    /** The number loop (token.h:308-319); the cursor is left where the
        lexeme ends or where the second decimal point was found. */
    method NumberLoop(expr: string) returns (sc: Scan)
      requires pExpr < |expr| && IsNumChar(expr[pExpr])
      modifies this`pExpr
      ensures sc == ScanNumber(expr, old(pExpr), old(pExpr) + 1, if expr[old(pExpr)] == '.' then 1 else 0)
      ensures pExpr == if sc.Scanned? then sc.next else sc.at
    {
      var start := pExpr;
      var dCount := if expr[start] == '.' then 1 else 0;
      pExpr := pExpr + 1;
      var c := At(expr, pExpr);
      while IsNumChar(c) && pExpr - start < MaxTokenLength
        invariant start < pExpr <= |expr|
        invariant c == At(expr, pExpr)
        invariant dCount <= 1
        invariant ScanNumber(expr, start, pExpr, dCount) == ScanNumber(expr, start, start + 1, if expr[start] == '.' then 1 else 0)
        decreases |expr| - pExpr
      {
        if c == '.' {
          dCount := dCount + 1;
        }
        if dCount > 1 {
          return Failed(InvalidNumber, pExpr);
        }
        pExpr := pExpr + 1;
        c := At(expr, pExpr);
      }
      sc := Scanned(expr[start..pExpr], pExpr);
    }

    /** The single-quoted string loop (token.h:325-335). */
    method QuotedLoop(expr: string) returns (sc: Scan)
      requires pExpr < |expr|
      modifies this`pExpr
      ensures sc == ScanQuoted(expr, old(pExpr), old(pExpr) + 1)
      ensures pExpr == if sc.Scanned? then sc.next else sc.at
    {
      var start := pExpr;
      pExpr := pExpr + 1;
      var c := At(expr, pExpr);
      while c != '\'' && pExpr - start < MaxTokenLength && c != '\0'
        invariant start < pExpr <= |expr|
        invariant c == At(expr, pExpr)
        invariant ScanQuoted(expr, start, pExpr) == ScanQuoted(expr, start, start + 1)
        decreases |expr| - pExpr
      {
        pExpr := pExpr + 1;
        c := At(expr, pExpr);
      }
      if c == '\0' || pExpr - start >= MaxTokenLength {
        return Failed(UnbalancedQuote, pExpr);
      }
      pExpr := pExpr + 1;
      sc := Scanned(expr[start..pExpr], pExpr);
    }

    /** The double-quoted string loop (token.h:341-354). */
    method DQuotedLoop(expr: string) returns (sc: Scan)
      requires pExpr < |expr| && expr[pExpr] == '"'
      modifies this`pExpr
      ensures sc == ScanDQuoted(expr, ['"'], old(pExpr) + 1)
      ensures pExpr == if sc.Scanned? then sc.next else sc.at
    {
      var token := [expr[pExpr]];
      pExpr := pExpr + 1;
      var c := At(expr, pExpr);
      while c != '"' && |token| < MaxTokenLength && c != '\0'
        invariant pExpr <= |expr| && 1 <= |token|
        invariant c == At(expr, pExpr)
        invariant ScanDQuoted(expr, token, pExpr) == ScanDQuoted(expr, ['"'], old(pExpr) + 1)
        decreases |expr| - pExpr
      {
        if c == '\\' {
          pExpr := pExpr + 1;
          c := At(expr, pExpr);
          if c == '\0' {
            return Failed(UnbalancedQuote, pExpr);
          }
        }
        token := token + [c];
        pExpr := pExpr + 1;
        c := At(expr, pExpr);
      }
      if c == '\0' || |token| >= MaxTokenLength {
        return Failed(UnbalancedQuote, pExpr);
      }
      token := token + [c];
      pExpr := pExpr + 1;
      sc := Scanned(token, pExpr);
    }

    /** The shared shape of the operator, variable and function loops: the
        first character is taken, then the longest run of the class. */
    method RunLoop(expr: string, cls: RunClass) returns (sc: Scan)
      requires pExpr < |expr|
      modifies this`pExpr
      ensures sc == ScanRun(expr, cls, old(pExpr), old(pExpr) + 1) && pExpr == sc.next
    {
      var start := pExpr;
      pExpr := pExpr + 1;
      var c := At(expr, pExpr);
      while InRun(cls, c) && pExpr - start < MaxTokenLength
        invariant start < pExpr <= |expr|
        invariant c == At(expr, pExpr)
        invariant ScanRun(expr, cls, start, pExpr) == ScanRun(expr, cls, start, start + 1)
        decreases |expr| - pExpr
      {
        pExpr := pExpr + 1;
        c := At(expr, pExpr);
      }
      sc := Scanned(expr[start..pExpr], pExpr);
    }

    /** tokenize (token.h:443-459): empties `tokens`, then appends every
        token up to the end to it, recording each kind as the previous kind.
        The source falls
        off the end of the function without a return value; here the lexer's
        error, if any, is returned. */
    method Tokenize(expr: string, tokens: TokenStack) returns (err: Option<ErrorCode>)
      requires pExpr <= |expr|
      modifies this, tokens
      ensures var t := TokenizeFrom(expr, old(State()));
        State() == t.st &&
        match t.result
        case Ok(ts) => err == None && tokens.items == ts
        case Err(e) => err == Some(e)
    {
      tokens.items := [];
      ghost var s0 := State();
      ghost var done: seq<Token> := [];
      PrependNothing(TokenizeFrom(expr, s0));
      while true
        invariant pExpr <= |expr|
        invariant tokens.items == done
        invariant TokenizeFrom(expr, s0) == Prepend(done, TokenizeFrom(expr, State()))
        decreases |expr| - pExpr
      {
        ghost var s := State();
        var r := NextToken(expr);
        if r.Err? {
          return Some(r.error);
        }
        if r.value.kind == End {
          return None;
        }
        tokens.Append(r.value);
        pType := r.value.kind;
        PrependTwice(done, [r.value], TokenizeFrom(expr, State()));
        done := done + [r.value];
      }
    }
  }
}
