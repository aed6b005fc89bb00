/** Token kinds, error codes, tokens and the token list of src/token.h. */
module Tokens {

  /** Longest lexeme the lexer builds (MAX_TOKEN_LENGTH). */
  const MaxTokenLength: nat := 512

  /** The token kinds, in the order of the C enumeration. `End` doubles as
      the "start of expression" value of the previous-kind register. */
  datatype Kind =
    | End | Unary | Number | String | Operator | Variable | Function
    | Comma | LParen | RParen | LBracket | RBracket | Error

  /** The numeric value the C enumeration gives each kind. */
  function KindCode(k: Kind): (n: nat)
    ensures n <= 12
  {
    match k
    case End => 0       case Unary => 1     case Number => 2
    case String => 3    case Operator => 4  case Variable => 5
    case Function => 6  case Comma => 7     case LParen => 8
    case RParen => 9    case LBracket => 10 case RBracket => 11
    case Error => 12
  }

  /** The error codes other than ERROR_NONE (success is the `Ok` case of Result). */
  datatype ErrorCode =
    | InvalidCharacter | InvalidNumber | InvalidString | InvalidVariable
    | InvalidFunction | UnbalancedParen | UnbalancedBracket | UnbalancedQuote
    | OutOfMemory | StackUnderflow | UnknownOperator | Syntax

  datatype Result<T> = Ok(value: T) | Err(error: ErrorCode)

  datatype Option<T> = None | Some(value: T)

  /** A token: the exact text it stands for and its kind. */
  datatype Token = Token(lexeme: string, kind: Kind)

  // The predecessor-validity predicates over the previous token kind.

  /** Unary signs may follow these kinds. */
  predicate PTokenValid1(prev: Kind) {
    prev == Operator || prev == LParen || prev == LBracket || prev == Comma || prev == End
  }

  /** Numbers, strings, variables and functions may follow these kinds. */
  predicate PTokenValid2(prev: Kind) {
    prev == Unary || prev == Operator || prev == LParen || prev == LBracket || prev == Comma || prev == End
  }

  /** The end of the expression may NOT follow these kinds. */
  predicate PTokenValid3(prev: Kind) {
    prev == Unary || prev == Operator || prev == Function
  }

  /** Commas may follow these kinds. */
  predicate PTokenValid4(prev: Kind) {
    prev == Number || prev == String || prev == Variable || prev == Function || prev == RParen || prev == RBracket
  }

  /** Left parentheses may follow these kinds. */
  predicate PTokenValid5(prev: Kind) {
    prev == Unary || prev == Operator || prev == Function || prev == LParen || prev == LBracket || prev == Comma || prev == End
  }

  /** Binary operators, right parentheses and right brackets may follow these kinds. */
  predicate PTokenValid6(prev: Kind) {
    prev == Number || prev == String || prev == Variable || prev == RParen || prev == RBracket
  }

  /** The doubly linked token list, used both as a stack (push and pop at the
      head) and as an output list (append at the tail). `items[0]` is the
      head node. */
  class TokenStack {
    var items: seq<Token>

    constructor ()
      ensures items == []
    {
      items := [];
    }

    /** The head node's token (`stack->token`, `stack->type`). */
    function Top(): Token
      reads this
      requires items != []
    {
      items[0]
    }

    /** pushToken: the new node becomes the head. */
    method Push(t: Token)
      modifies this
      ensures items == [t] + old(items)
    {
      items := [t] + items;
    }

    /** popToken: hands out the head and unlinks it; an empty stack is an
        underflow and stays as it is. */
    method Pop() returns (r: Result<Token>)
      modifies this
      ensures old(items) == [] ==> r == Err(StackUnderflow) && items == old(items)
      ensures old(items) != [] ==> r == Ok(old(items)[0]) && items == old(items)[1..]
    {
      if items == [] {
        return Err(StackUnderflow);
      }
      r := Ok(items[0]);
      items := items[1..];
    }

    /** peekToken: the head's lexeme, without changing the stack. */
    method Peek() returns (r: Result<string>)
      ensures items == [] <==> r == Err(StackUnderflow)
      ensures items != [] ==> r == Ok(items[0].lexeme)
    {
      if items == [] {
        return Err(StackUnderflow);
      }
      r := Ok(items[0].lexeme);
    }

    /** appendToken: links the new node after the last one. */
    method Append(t: Token)
      modifies this
      ensures items == old(items) + [t]
    {
      items := items + [t];
    }
  }

  /** A client of the list: a push followed by a pop hands back the pushed
      token and leaves the stack as it was. */
  method PushThenPop(s: TokenStack, t: Token) returns (r: Result<Token>)
    modifies s
    ensures r == Ok(t)
    ensures s.items == old(s.items)
  {
    s.Push(t);
    r := s.Pop();
  }
}
