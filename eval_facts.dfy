/** Properties of the evaluator specification `Eval.EvalList`: how lists
    compose, how the stack height moves, and that the machine computes the
    value of the expression tree whose postfix form it is given. */
module EvalFacts {
  import opened Tokens
  import opened Eval

  /** Running two lists one after the other is running their
      concatenation, unless the first one fails. */
  lemma {:induction false} EvalListAppend<Num>(a: seq<Token>, b: seq<Token>, stack: seq<Token>, A: Arith<Num>, plus: PlusSign)
    ensures var m := EvalList(a, stack, A, plus);
      EvalList(a + b, stack, A, plus) == if m.err.Some? then m else EvalList(b, m.stack, A, plus)
    decreases |a|
  {
    if a == [] {
      assert a + b == b;
    } else {
      assert (a + b)[0] == a[0] && (a + b)[1..] == a[1..] + b;
      var m := EvalToken(a[0], stack, A, plus);
      if m.err.None? {
        EvalListAppend(a[1..], b, m.stack, A, plus);
      }
    }
  }

  /** What one token does to the height of the result stack when it
      succeeds: an operand adds one, a binary operator takes two and leaves
      one, everything else leaves the height as it is. */
  function Effect(k: Kind): int {
    match k
    case Number | String | Variable => 1
    case Operator => -1
    case _ => 0
  }

  function Net(ts: seq<Token>): int
    decreases |ts|
  {
    if ts == [] then 0 else Effect(ts[0].kind) + Net(ts[1..])
  }

  /** A list that runs without error changes the height by the sum of its
      tokens' effects. */
  lemma {:induction false} EvalListHeight<Num>(ts: seq<Token>, stack: seq<Token>, A: Arith<Num>, plus: PlusSign)
    ensures var m := EvalList(ts, stack, A, plus);
      m.err == None ==> |m.stack| == |stack| + Net(ts)
    decreases |ts|
  {
    if ts != [] {
      var m := EvalToken(ts[0], stack, A, plus);
      if m.err.None? {
        EvalListHeight(ts[1..], m.stack, A, plus);
      }
    }
  }

  /** An expression tree: an operand, a unary sign applied to a tree, or a
      binary operator applied to a left and a right tree. */
  datatype Term = Leaf(t: Token) | Prefix(op: string, x: Term) | Infix(op: string, l: Term, r: Term)

  /** Leaves are operands and every operator is one the evaluator knows. */
  predicate WellFormed(e: Term) {
    match e
    case Leaf(t) => t.kind == Number || t.kind == String || t.kind == Variable
    case Prefix(op, x) => IsUnaryOp(op) && WellFormed(x)
    case Infix(op, l, r) => IsBinaryOp(op) && WellFormed(l) && WellFormed(r)
  }

  /** The postfix form of a tree: operands first, left before right, then
      the operator. */
  function PostfixOf(e: Term): seq<Token> {
    match e
    case Leaf(t) => [t]
    case Prefix(op, x) => PostfixOf(x) + [Token(op, Unary)]
    case Infix(op, l, r) => PostfixOf(l) + PostfixOf(r) + [Token(op, Operator)]
  }

  /** The value of a tree, computed directly on the tree: the reference the
      stack machine is held to. */
  function ValueOf<Num>(e: Term, A: Arith<Num>, plus: PlusSign): Token
    requires WellFormed(e)
  {
    match e
    case Leaf(t) => t
    case Prefix(op, x) => Token(UnaryValue(op, ValueOf(x, A, plus), A, plus), Number)
    case Infix(op, l, r) => Token(BinaryValue(op, ValueOf(l, A, plus), ValueOf(r, A, plus), A), Number)
  }

  /** The stack machine run on the postfix form of a tree pushes exactly the
      tree's value and then goes on with the rest of the list: the left
      operand ends up deeper than the right one and is the first argument
      of the operation. */
  lemma {:induction false} EvalTerm<Num>(e: Term, rest: seq<Token>, stack: seq<Token>, A: Arith<Num>, plus: PlusSign)
    requires WellFormed(e)
    ensures EvalList(PostfixOf(e) + rest, stack, A, plus) == EvalList(rest, [ValueOf(e, A, plus)] + stack, A, plus)
  {
    match e
    case Leaf(t) =>
      EvalListCons(t, rest, stack, A, plus);
    case Prefix(op, x) =>
      var u := Token(op, Unary);
      assert PostfixOf(x) + [u] + rest == PostfixOf(x) + ([u] + rest);
      EvalTerm(x, [u] + rest, stack, A, plus);
      UnaryStep(op, ValueOf(x, A, plus), rest, stack, A, plus);
    case Infix(op, l, r) =>
      var vl := ValueOf(l, A, plus);
      var tail := [Token(op, Operator)] + rest;
      assert PostfixOf(l) + PostfixOf(r) + [Token(op, Operator)] + rest == PostfixOf(l) + (PostfixOf(r) + tail);
      EvalTerm(l, PostfixOf(r) + tail, stack, A, plus);
      EvalTerm(r, tail, [vl] + stack, A, plus);
      BinaryStep(op, vl, ValueOf(r, A, plus), rest, stack, A, plus);
  }

  /** A list run token by token: its head, then the rest. */
  lemma EvalListCons<Num>(t: Token, rest: seq<Token>, stack: seq<Token>, A: Arith<Num>, plus: PlusSign)
    ensures var m := EvalToken(t, stack, A, plus);
      EvalList([t] + rest, stack, A, plus) == if m.err.Some? then m else EvalList(rest, m.stack, A, plus)
  {
    assert ([t] + rest)[0] == t && ([t] + rest)[1..] == rest;
  }

  /** A known unary sign over the value `v` on top of the stack. */
  lemma UnaryStep<Num>(op: string, v: Token, rest: seq<Token>, stack: seq<Token>, A: Arith<Num>, plus: PlusSign)
    requires IsUnaryOp(op)
    ensures EvalList([Token(op, Unary)] + rest, [v] + stack, A, plus) ==
      EvalList(rest, [Token(UnaryValue(op, v, A, plus), Number)] + stack, A, plus)
  {
    EvalListCons(Token(op, Unary), rest, [v] + stack, A, plus);
    var s := [Token(op, Unary)] + ([v] + stack);
    assert s[0].lexeme == op && s[1] == v && s[2..] == stack;
  }

  /** A known binary operator over the right operand `vr` on top of the
      left operand `vl`. */
  lemma BinaryStep<Num>(op: string, vl: Token, vr: Token, rest: seq<Token>, stack: seq<Token>, A: Arith<Num>, plus: PlusSign)
    requires IsBinaryOp(op)
    ensures EvalList([Token(op, Operator)] + rest, [vr] + ([vl] + stack), A, plus) ==
      EvalList(rest, [Token(BinaryValue(op, vl, vr, A), Number)] + stack, A, plus)
  {
    EvalListCons(Token(op, Operator), rest, [vr] + ([vl] + stack), A, plus);
    var s := [Token(op, Operator)] + ([vr] + ([vl] + stack));
    assert s[0].lexeme == op && s[1] == vr && s[2] == vl && s[3..] == stack;
  }

  /** The whole list of a tree leaves its value on top of the stack. */
  lemma EvalTermAlone<Num>(e: Term, stack: seq<Token>, A: Arith<Num>, plus: PlusSign)
    requires WellFormed(e)
    ensures EvalList(PostfixOf(e), stack, A, plus) == Machine(None, [ValueOf(e, A, plus)] + stack)
  {
    assert PostfixOf(e) + [] == PostfixOf(e);
    EvalTerm(e, [], stack, A, plus);
  }
}

/** The evaluator on concrete expressions. */
module EvalExamples {
  import opened Tokens
  import opened Lexer
  import opened Postfix
  import opened PostfixFacts
  import opened PostfixExamples
  import opened Eval
  import opened EvalFacts

  /** eval once the conversion is known to succeed with output `out`. */
  lemma EvalConverted<Num>(expr: string, st: LexState, stack: seq<Token>, A: Arith<Num>, tagging: Tagging, plus: PlusSign, out: seq<Token>)
    requires st.pos <= |expr|
    requires ConvertFrom(expr, st, [], [], tagging).err == None && ConvertFrom(expr, st, [], [], tagging).out == out
    ensures EvalExpr(expr, st, stack, A, tagging, plus) == EvalList(out, stack, A, plus)
  {
  }

  /** The tree of "2+3*4^5". */
  function PowerTerm(): Term {
    Infix("+", Leaf(Token("2", Number)),
      Infix("*", Leaf(Token("3", Number)),
        Infix("^", Leaf(Token("4", Number)), Leaf(Token("5", Number)))))
  }

  /** The converted list of "2+3*4^5" is the postfix form of its tree. */
  lemma PowerTermList<Num>(A: Arith<Num>)
    ensures EvalList(PowerPostfixList(), [], A, Copies) == Machine(None, [ValueOf(PowerTerm(), A, Copies)])
  {
    assert PostfixOf(PowerTerm()) == PowerPostfixList();
    EvalTermAlone(PowerTerm(), [], A, Copies);
  }

  function PowerPostfixList(): seq<Token> {
    [Token("2", Number), Token("3", Number), Token("4", Number), Token("5", Number),
     Token("^", Operator), Token("*", Operator), Token("+", Operator)]
  }

  /** "2+3*4^5" leaves the single number 2 + 3 * 4 ^ 5 on an empty result
      stack (eval.c:73-74), whatever the arithmetic. */
  lemma PowerEval<Num>(A: Arith<Num>)
    ensures EvalExpr("2+3*4^5", Start, [], A, OwnKind, Copies) == Machine(None, [ValueOf(PowerTerm(), A, Copies)])
  {
    PowerConvert();
    EvalConverted("2+3*4^5", Start, [], A, OwnKind, Copies, PowerPostfixList());
    PowerTermList(A);
  }

  /** The as-written output for "2+3*4^5": the operators tagged as end. */
  function PowerAsWrittenList(): seq<Token> {
    [Token("2", Number), Token("3", Number), Token("4", Number), Token("5", Number),
     Token("^", End), Token("*", End), Token("+", End)]
  }

  /** Tokens tagged as end are skipped, so only the operands are pushed. */
  lemma PowerAsWrittenRun<Num>(A: Arith<Num>, plus: PlusSign)
    ensures EvalList(PowerAsWrittenList(), [], A, plus) ==
      Machine(None, [Token("5", Number), Token("4", Number), Token("3", Number), Token("2", Number)])
  {
    var ts := PowerAsWrittenList();
    var left := [Token("5", Number), Token("4", Number), Token("3", Number), Token("2", Number)];
    assert EvalList(ts[6..], left, A, plus) == Machine(None, left);
    assert EvalList(ts[5..], left, A, plus) == Machine(None, left);
    assert EvalList(ts[4..], left, A, plus) == Machine(None, left);
    assert [ts[3]] + left[1..] == left;
    assert EvalList(ts[3..], left[1..], A, plus) == Machine(None, left);
    assert [ts[2]] + left[2..] == left[1..];
    assert EvalList(ts[2..], left[2..], A, plus) == Machine(None, left);
    assert [ts[1]] + left[3..] == left[2..];
    assert EvalList(ts[1..], left[3..], A, plus) == Machine(None, left);
    assert [ts[0]] + [] == left[3..];
  }

  /** As written, the drained operators carry the end token's kind and are
      skipped: the four operands are left on the stack, none of them
      combined. */
  lemma PowerEvalAsWritten<Num>(A: Arith<Num>, plus: PlusSign)
    ensures EvalExpr("2+3*4^5", Start, [], A, CurrentKind, plus) ==
      Machine(None, [Token("5", Number), Token("4", Number), Token("3", Number), Token("2", Number)])
  {
    PowerTokens();
    assert Doubled(Start) == Start;
    ConvertIsShuntAll("2+3*4^5", Start, [], [], CurrentKind);
    PowerPostfixAsWritten();
    EvalConverted("2+3*4^5", Start, [], A, CurrentKind, plus, PowerAsWrittenList());
    PowerAsWrittenRun(A, plus);
  }

  /** The tokens of "-2+3": the sign is a unary token. */
  function NegatedSumInfix(): seq<Token> {
    [Token("-u", Unary), Token("2", Number), Token("+", Operator), Token("3", Number)]
  }

  /** A binary operator never pops a pending sign, so "-2+3" is converted
      to "2 3 + -u" and evaluates to -(2 + 3). */
  lemma NegatedSum<Num>(A: Arith<Num>)
    ensures ShuntAll(NegatedSumInfix(), [], [], OwnKind) ==
      Outcome(None, PostfixOf(Prefix("-u", Infix("+", Leaf(Token("2", Number)), Leaf(Token("3", Number))))))
    ensures var e := Prefix("-u", Infix("+", Leaf(Token("2", Number)), Leaf(Token("3", Number))));
      EvalList(PostfixOf(e), [], A, Copies) == Machine(None, [ValueOf(e, A, Copies)])
  {
    var two, three := Token("2", Number), Token("3", Number);
    NegatedSumShunt();
    var e := Prefix("-u", Infix("+", Leaf(two), Leaf(three)));
    EvalTermAlone(e, [], A, Copies);
  }

  /** The conversion of "-2+3", step by step. */
  lemma NegatedSumShunt()
    ensures ShuntAll(NegatedSumInfix(), [], [], OwnKind) ==
      Outcome(None, [Token("2", Number), Token("3", Number), Token("+", Operator), Token("-u", Unary)])
  {
    var neg, two, plus, three := Token("-u", Unary), Token("2", Number), Token("+", Operator), Token("3", Number);
    assert NegatedSumInfix() == [neg] + ([two] + ([plus] + ([three] + [])));
    assert [neg] + [] == [neg];
    ShuntAllCons(neg, [two] + ([plus] + ([three] + [])), [], [], OwnKind, [neg], []);
    assert [] + [two] == [two];
    ShuntAllCons(two, [plus] + ([three] + []), [neg], [], OwnKind, [neg], [two]);
    assert !Outranks(neg, plus);
    ShuntAllCons(plus, [three] + [], [neg], [two], OwnKind, [plus, neg], [two]);
    ShuntAllCons(three, [], [plus, neg], [two], OwnKind, [plus, neg], [two, three]);
    TaggedOwn([plus, neg], End);
  }

  /** As written, `+u` gives exactly what `-u` gives. */
  lemma PlusNegatesAsWritten<Num>(x: Token, stack: seq<Token>, A: Arith<Num>)
    ensures EvalToken(Token("+u", Unary), [x] + stack, A, Negates) == EvalToken(Token("-u", Unary), [x] + stack, A, Negates)
  {
  }

  /** With `+u` copying, a number already in the form `sprintf` prints it
      comes back unchanged. */
  lemma PlusCopies<Num>(x: Token, stack: seq<Token>, A: Arith<Num>)
    requires x.kind == Number && A.format(A.atof(x.lexeme)) == x.lexeme
    ensures EvalToken(Token("+u", Unary), [x] + stack, A, Copies) == Machine(None, [x] + stack)
  {
    assert ([Token("+u", Unary)] + ([x] + stack))[2..] == stack;
  }
}
