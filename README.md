# zx80 expression pipeline and variable partition, in Dafny

This project models two independent parts of the zx80 sources.

**The expression pipeline** turns a text expression into a value:

- `nextToken` (src/token.h) is a context-sensitive lexer. Whether a
  character may start a token depends on the kind of the previous token.
  The lexer keeps four registers: the cursor, the previous kind, and the
  parenthesis and bracket depths.
- `infixToPostfix` (src/postfix.h) is a shunting-yard converter from
  infix to postfix.
- `eval` (src/eval.h) runs the postfix list on a result stack.

**The variable store** of src/orb.h keeps variable records in a byte
partition. Each element is a type byte, a 16-bit size (header included)
and a body. Variables are appended at the end, or written into a deleted
element of exactly their size, and the partition is compacted when
neither works. Deletion by name only retypes the element.

Each step-by-step procedure of the source is a Dafny `method` over a
class or an array. It is proved equal to a pure specification function,
and the properties are lemmas about those functions:

| Part | Specification | Procedures |
|---|---|---|
| Lexer | `Lexer.Lex`, `Lexer.TokenizeFrom` | `Lexer.ParseContext` (registers as fields) |
| Converter | `Postfix.ConvertFrom`, plus `PostfixFacts.ShuntAll` over a token list | `Postfix.InfixToPostfix` |
| Evaluator | `Eval.EvalList`, `Eval.EvalExpr` | `Eval.Eval` |
| Partition | `OrbLayout.AddVarSpec`, `OrbLayout.DeleteVarSpec` and `OrbLayout.Live` over a ghost list of elements; `OrbLayout.Compact` on raw bytes | `Orb.Partition` (a byte array and `pEnd`) |

The linked token lists are a class holding a `seq<Token>` whose first
item is the head. The evaluator's floating-point arithmetic (`atof`,
`sprintf("%f")`, `pow`, `fmod`) is an `Eval.Arith` parameter of
functions over an abstract number type. Sizes are two bytes, low byte
first. The partition size is a constructor parameter.

Where the source contradicts its own comments or evident intent, the
main model follows the intent. The behaviour as written is kept beside it
and shown under "## Findings". One quirk is kept as written because it is the converter's
documented table, not a slip. Unary signs, functions and openers all have
precedence 0 and count as left-associative (postfix.h:22-35, 69), so a
binary operator never pops a pending sign. `-2+3` therefore becomes
`2 3 + -u`, which is -(2+3); `EvalExamples.NegatedSum` and
`PostfixFacts.PendingPrefixes` state it. Where the comments of src/orb.c and the
code of src/orb.h disagree on variable names, the code is followed:

- `_` is rejected;
- a name has no length limit.

`OrbFacts.ValidNameChars` and `OrbFacts.NameExamples` state this.

## Model

| member | source | states |
|---|---|---|
| Tokens.TokenStack.constructor | src/token.h:108-113 | A new list is empty. |
| Tokens.TokenStack.Push | src/token.h:116-141 | pushToken: the token becomes the head and the rest of the list is unchanged. |
| Tokens.TokenStack.Pop | src/token.h:144-160 | popToken: an empty list gives the stack-underflow error and stays empty; otherwise the head is returned and unlinked, and the rest is unchanged. |
| Tokens.TokenStack.Peek | src/token.h:163-172 | peekToken: underflow exactly when the list is empty, otherwise the head's lexeme; it modifies nothing. |
| Tokens.TokenStack.Append | src/token.h:175-207 | appendToken: the token becomes the last item, and every earlier item stays, in order. |
| Tokens.PushThenPop | src/token.h:116-160 | A push followed by a pop returns the pushed token and leaves the list exactly as it was. |
| Tokens.PTokenValid1 | src/token.h:223-225 | Computes whether a unary sign may follow the previous kind: exactly after an operator, `(`, `[`, a comma or at the start. |
| Tokens.PTokenValid2 | src/token.h:233-235 | Computes whether a number, string, variable or function may follow: exactly after a unary sign, an operator, `(`, `[`, a comma or at the start. |
| Tokens.PTokenValid3 | src/token.h:239-241 | Computes whether the text may NOT end here: exactly after a unary sign, an operator or a function. |
| Tokens.PTokenValid4 | src/token.h:246-248 | Computes whether a comma may follow: exactly after a number, string, variable, function, `)` or `]`. |
| Tokens.PTokenValid5 | src/token.h:253-255 | Computes whether `(` may follow: exactly after a unary sign, an operator, a function, `(`, `[`, a comma or at the start. |
| Tokens.PTokenValid6 | src/token.h:262-264 | Computes whether an operator, `)` or `]` may follow: exactly after a number, string, variable, `)` or `]`. |
| Lexer.SkipSpaces | src/token.h:274-276 | The whitespace skip stops at the first non-blank character (or the terminator) at or after the cursor, never past the text. |
| Lexer.ScanNumber | src/token.h:310-319 | The number loop ends inside the text; it fails only with the invalid-number error, at a position inside the text. |
| Lexer.ScanQuoted | src/token.h:327-335 | The single-quote loop ends past the opening quote, inside the text; it fails only with the unbalanced-quote error. |
| Lexer.ScanDQuoted | src/token.h:343-354 | The double-quote loop ends past the opening quote, inside the text; it fails only with the unbalanced-quote error. |
| Lexer.ScanRun | src/token.h:356-388 | The operator, variable and function loops always succeed and end inside the text. |
| Lexer.Lex | src/token.h:267-440 | One nextToken call keeps the cursor inside the text; every token other than the end moves it forward. |
| Lexer.LexAt | src/token.h:278-439 | From the first non-blank character: the end token leaves the cursor where it is; every other token moves it forward. |
| Lexer.TokenizeFrom | src/token.h:443-459 | Specification of tokenize: lex from the registers, record each accepted token's kind as the previous kind, and stop with the tokens so far at the end token, or with the first lexer error. |
| Lexer.ParseContext.constructor | src/token.h:98-105 | The registers start at cursor 0, previous kind end, both depths 0. |
| Lexer.ParseContext.Reset | src/eval.c:46-49 | The driver's reset puts the registers back to their start values. |
| Lexer.ParseContext.NextToken | src/token.h:267-440 | The procedure returns exactly the token or error of the specification `Lex` and leaves the registers as `Lex` does. |
| Lexer.ParseContext.NumberLoop | src/token.h:310-319 | The number loop computes `ScanNumber`, counting a leading point, and leaves the cursor where the scan stops. |
| Lexer.ParseContext.QuotedLoop | src/token.h:327-335 | The single-quote loop computes `ScanQuoted` and leaves the cursor where the scan stops. |
| Lexer.ParseContext.DQuotedLoop | src/token.h:343-354 | The double-quote loop computes `ScanDQuoted` (escapes dropped) and leaves the cursor where the scan stops. |
| Lexer.ParseContext.RunLoop | src/token.h:362-387 | The operator, variable and function loops compute `ScanRun`. |
| Lexer.ParseContext.Tokenize | src/token.h:443-459 | tokenize empties the list, then leaves in it exactly the tokens of `TokenizeFrom`, or returns the lexer's error; the registers end as `TokenizeFrom` leaves them. |
| LexerFacts.SkipSpacesReachesEnd | src/token.h:274-278 | In a NUL-free text, the skip reaches the terminator exactly when only whitespace is left. |
| LexerFacts.LexEnd | src/token.h:278-290 | The end token is returned iff only whitespace is left, no operand is pending and both depths are 0. Otherwise, in priority order: invalid character, unbalanced parenthesis, unbalanced bracket. |
| LexerFacts.LexFollowsGrammar | src/token.h:220-264 | A token's kind is the one its first character starts; it is accepted only after a previous kind allowed by the pTokenValid1-6 table, and otherwise it is an invalid character at that character. |
| LexerFacts.ScanNumberScanned | src/token.h:310-319 | A number the loop accepts holds only digits and points, has at most one point, and is at most 512 characters long. |
| LexerFacts.ScanNumberLexeme | src/token.h:310-319 | A number's lexeme is exactly the text the cursor moved over. |
| LexerFacts.ScanNumberFailed | src/token.h:310-319 | The number loop fails at a second decimal point. |
| LexerFacts.ScanRunShape | src/token.h:356-388 | A run lexeme is the text moved over; it stops at the first character outside its class or at the 512-character limit. |
| LexerFacts.ScanQuotedShape | src/token.h:321-336 | A single-quoted string is the text moved over, between two quotes, at most 512 characters long. |
| LexerFacts.ScanDQuotedShape | src/token.h:337-355 | A double-quoted string starts and ends with `"` and is at most 512 characters long. |
| LexerFacts.NumberShaped | src/token.h:304-320 | An accepted number token has the number shape. |
| LexerFacts.QuotedShaped | src/token.h:321-336 | An accepted single-quoted token has the string shape. |
| LexerFacts.DQuotedShaped | src/token.h:337-355 | An accepted double-quoted token has the string shape. |
| LexerFacts.RunShaped | src/token.h:356-388 | Operator, variable and function tokens have their shapes. |
| LexerFacts.LexemeShape | src/token.h:292-433 | Every accepted token has the shape of its kind: a sign is `<c>u` and moves the cursor by one; a number has digits and at most one point; a string is between matching quotes; an operator is one operator character then the longest run of `=`/`>`; punctuation is its one character. |
| LexerFacts.InvalidNumberWitness | src/token.h:304-320 | The invalid-number error is reported at a second decimal point of a run of number characters. |
| LexerFacts.LexDepths | src/token.h:396-433 | Each accepted token moves the depths by its own step and never below zero; an excess `)` or `]` is rejected without moving the cursor past it. |
| LexerFacts.LexDoubledDepths | src/token.h:278-433 | On doubled depths (the converter counts twice) the lexer returns the same tokens and errors and moves the cursor alike, so counting twice is equivalent to counting once. |
| LexerFacts.TokenizeStep | src/token.h:443-459 | One tokenize step: the first token may follow the previous kind; the cursor advances and the depths move by the token's step. |
| LexerFacts.TokenizeChained | src/token.h:443-459 | An accepted token list is a sentence of the grammar table and does not end in a token that still needs an operand. |
| LexerFacts.TokenizeNested | src/token.h:443-459 | In an accepted list, no prefix closes more parentheses or brackets than it opened, and the whole list closes all of them. |
| LexerFacts.TokenizeNoEnd | src/token.h:443-459 | An accepted list holds no end token and no error token. |
| LexerFacts.LBracketAfterNumber | src/token.h:415-422 | As written the `[` test never rejects; the model rejects `1[` and accepts `$a[`. |
| LexerFacts.LeadingDot | src/token.h:308-316 | As written `.1.2` is one number; the model rejects it at the second point. |
| Postfix.Precedence | src/postfix.h:11-25 | getPrecedence: `^` 5; `*`, `/` 4; `+`, `-` 3; `>`, `>=`, `<`, `<=`, `==`, `!=` 2; `=` 1; every other lexeme 0. |
| Postfix.IsLeftAssociative | src/postfix.h:28-36 | isLeftAssociative: false exactly for `^` and `-u`. |
| Postfix.Shunt | src/postfix.h:55-164 | Specification of one main-loop step. An operand is appended; a function, sign or `(` is pushed. An operator pops what outranks it, then is pushed. `)` pops to the nearest `(`, drops it and emits a function right under it. `[` is pushed and appended. `]` pops to the nearest `[`, appends itself and drops the `[`. A comma pops to the nearest `(` or `[` and keeps it. A missing opener is a syntax error. |
| Postfix.ConvertFrom | src/postfix.h:39-187 | Specification of infixToPostfix: lex and shunt token by token, returning a lexer error as it is. At the end token, a non-zero depth is a syntax error; otherwise the remaining operators are appended, top first. |
| Postfix.PopOutrankingLoop | src/postfix.h:69-76 | The operator loop computes `PopOutranking`; popped tokens keep their own kind. |
| Postfix.PopUntilLoop | src/postfix.h:92-99 | The `)`, `]` and `,` loops (also postfix.h:130-137 and 153-160) compute `PopUntil`. |
| Postfix.ShuntToken | src/postfix.h:55-164 | One main-loop iteration computes the shunting step `Shunt` on both stacks. |
| Postfix.Drain | src/postfix.h:177-184 | The final drain empties the operator stack onto the end of the output, top first. |
| Postfix.Advance | src/postfix.h:53-165 | After a token: the shunting step, then the converter's own depth counts and the record of the token's kind, unless the step failed. |
| Postfix.InfixToPostfix | src/postfix.h:39-187 | infixToPostfix returns the error, the output and the registers of the specification `ConvertFrom`. |
| PostfixFacts.PositivePrecedence | src/postfix.h:11-36 | Exactly the twelve listed binary operators have positive precedence; of those only `^` is right-associative. |
| PostfixFacts.PendingPrefixes | src/postfix.h:67-76 | Signs, functions and openers rank 0. A binary operator never pops them; a precedence-0 operator such as `#` pops all of them except `-u`. |
| PostfixFacts.PopOutrankingPrefix | src/postfix.h:69-76 | The operator loop pops exactly the longest prefix of the stack that outranks the incoming operator, emitting it top first. |
| PostfixFacts.PopUntilPrefix | src/postfix.h:92-99 | The closing loops pop exactly the longest prefix holding neither stop kind; the new top, if any, is a stop kind. |
| PostfixFacts.ConvertStep | src/postfix.h:53-165 | On the doubled registers the converter keeps, each lexer step returns what tokenize's lexer returns, and the registers stay the doubled registers of tokenize. |
| PostfixFacts.ConvertIsShuntAll | src/postfix.h:39-187 | When the lexer accepts the whole text, the converter equals the shunting-yard fold over the token list; the depth checks after the loop never fire. |
| PostfixFacts.ConvertLexError | src/postfix.h:53-169 | A lexer error is returned unchanged, unless an earlier token already failed with a syntax error. |
| PostfixFacts.ShuntOwnKind | src/postfix.h:53-164 | Invariant of one step: the stack holds only operators, signs, functions and openers; the output gains the incoming operand, if any, and nothing else that is an operand. |
| PostfixFacts.DrainOwnKind | src/postfix.h:177-184 | The drain emits no operand and no comma, `)` or end token. |
| PostfixFacts.ShuntAllEmittable | src/postfix.h:53-184 | Over a whole list, no comma, `)` or end token is emitted. |
| PostfixFacts.ShuntAllOperands | src/postfix.h:55-59 | Over a whole list, operands leave in the order they came in. |
| PostfixExamples.PowerTokens | src/eval.c:20 | The lexer splits `2+3*4^5` into seven tokens, alternating operands and operators. |
| PostfixExamples.PowerShunt | src/postfix.h:67-81 | The shunting step on `2+3*4^5` emits the operands in order, leaving `^` above `*` above `+`. |
| PostfixExamples.PowerPostfix | src/eval.c:73-74 | With popped tokens keeping their kind, `2+3*4^5` becomes `2 3 4 5 ^ * +`. |
| PostfixExamples.PowerPostfixAsWritten | src/postfix.h:177-184 | As written, the drained operators are tagged with the end token's kind. |
| PostfixExamples.PowerConvert | src/postfix.h:39-187 | The converter on the text `2+3*4^5` outputs `2 3 4 5 ^ * +`. |
| Eval.UnaryOn | src/eval.h:7-51 | Specification of evalUnary: pop the operator and one operand (underflow if either is missing). A lexeme other than `-u`/`+u` is an unknown operator. Otherwise one number is pushed. |
| Eval.BinaryOn | src/eval.h:54-149 | Specification of evalOperator: pop the operator, the right operand and the left operand (underflow if any is missing). A lexeme outside `+ - * / ^ %` is an unknown operator. Otherwise one number is pushed. |
| Eval.EvalList | src/eval.h:169-201 | Specification of eval's loop: the postfix tokens in list order, stopping at the first error. |
| Eval.EvalExpr | src/eval.h:152-202 | Specification of eval: a conversion error is returned with the stack untouched; otherwise the converted list is run. |
| Eval.EvalToken | src/eval.h:169-199 | For an operand: pushed unchanged. For a unary: underflow iff the stack is empty; unknown operator iff the lexeme is not `-u`/`+u`; on success the height is unchanged and the top becomes a number. For a binary: underflow iff fewer than two operands; on success two operands become one number. Every other kind leaves the stack alone. |
| Eval.EvalUnary | src/eval.h:7-51 | evalUnary pops the operator and one operand, then pushes a number; it computes `UnaryOn`, with `+u` copying. |
| Eval.EvalOperator | src/eval.h:54-149 | evalOperator pops the operator, then the right operand, then the left one, then pushes a number; it computes `BinaryOn`. |
| Eval.EvalStep | src/eval.h:170-199 | The body of eval's loop computes `EvalToken`. |
| Eval.Eval | src/eval.h:152-202 | eval returns a conversion error before pushing anything, otherwise runs the postfix list in order; it computes `EvalExpr` and leaves the registers as the converter does. |
| EvalFacts.EvalListAppend | src/eval.h:169-201 | Running two lists in a row is running their concatenation, stopping at the first error. |
| EvalFacts.EvalListHeight | src/eval.h:169-201 | A list that runs without error changes the height by its net effect: +1 per operand, -1 per binary operator. |
| EvalFacts.UnaryStep | src/eval.h:7-51 | A known sign over the top value replaces it by the sign's value. |
| EvalFacts.BinaryStep | src/eval.h:54-149 | A known binary operator combines the second value (left) with the top value (right). |
| EvalFacts.EvalTerm | src/eval.h:169-201 | The postfix form of any well-formed expression tree pushes exactly the tree's value, computed directly on the tree. |
| EvalFacts.EvalTermAlone | src/eval.h:169-201 | The postfix form of a tree alone leaves its value on top of the stack. |
| EvalExamples.EvalConverted | src/eval.h:164-169 | When the conversion succeeds, eval is the stack machine run on the converted list. |
| EvalExamples.PowerTermList | src/eval.c:73-74 | The list `2 3 4 5 ^ * +` evaluates to the value of the tree 2 + (3 * (4 ^ 5)). |
| EvalExamples.PowerEval | src/eval.c:73-74 | eval of `2+3*4^5` leaves exactly one number, 2 + 3 * 4 ^ 5. |
| EvalExamples.PowerAsWrittenRun | src/eval.h:169-200 | Tokens tagged as end are skipped, so only the operands are pushed. |
| EvalExamples.PowerEvalAsWritten | src/postfix.h:181 | As written, eval of `2+3*4^5` leaves the four operands uncombined. |
| EvalExamples.NegatedSum | src/postfix.h:67-81 | `-2+3` converts to `2 3 + -u` and evaluates to -(2 + 3). |
| EvalExamples.PlusNegatesAsWritten | src/eval.h:37-42 | As written, `+u` gives exactly what `-u` gives. |
| EvalExamples.PlusCopies | src/eval.h:36-42 | With `+u` copying, a number already in `%f` form is left as it is. |
| OrbLayout.U16LoHi | src/orb.h:73-76 | A 16-bit size stored as two bytes reads back as itself. |
| OrbLayout.ZString | src/orb.c:11-16 | A z-string is a length byte followed by that many bytes. |
| OrbLayout.GetZString | src/orb.h:44-53 | get_zstring's bytes: the `z[at]` bytes after the length byte at `at`. |
| OrbLayout.ValidVarName | src/orb.h:79-92 | What is_valid_var_name accepts: a non-empty name whose first byte is a C-locale letter and whose other bytes are letters or digits. |
| OrbLayout.VarRecord | src/orb.h:137-157 | The record load_var writes: the type byte, then the name z-string, then the value z-string. |
| OrbLayout.Encode | src/orb.h:217-226 | The bytes add_element writes: the type, the size with its 3-byte header included (low byte first), then the body; its length is that size. |
| OrbLayout.Live | src/orb.h:229-252 | What compact_partition leaves of the elements: those not typed 0xFF, in their order. |
| OrbLayout.VarSize | src/orb.h:95-99 | get_var_size: name length + value length + 3. |
| OrbLayout.VarTypeOf | src/orb.h:102-104 | get_var_type: the record's first byte. |
| OrbLayout.VarName | src/orb.h:107-109 | get_var_name: the bytes of the name z-string at offset 1. |
| OrbLayout.VarZStr | src/orb.h:132-134 | get_var_zstr: the offset of the value z-string, 2 + name length. |
| OrbLayout.FindSlot | src/orb.h:272-291 | add_var's scan finds the first deleted element of exactly the needed size, or none exists. |
| OrbLayout.FindNamed | src/orb.h:312-329 | delete_var's scan finds the first variable element with that name, or none exists. |
| OrbLayout.DeleteVarSpec | src/orb.h:310-333 | Specification of delete_var on elements: the first variable with that name becomes a deleted element with the same body; with no such variable nothing changes. |
| OrbLayout.AddVarSpec | src/orb.h:255-307 | Specification of add_var on elements: append if the element and a free header fit; else take the first deleted element of exactly its size; else compact, then append if it fits now; else 5 with the compacted elements. |
| OrbLayout.AddVarRetry | src/orb.h:293-306 | When neither the free area nor a slot takes the variable but compaction makes room, the retry appends it to the compacted elements. |
| OrbLayout.Compact | src/orb.h:229-252 | compact_partition as written, on bytes. A deleted element is overwritten by everything after it up to the end, and the end drops by its size; any other element is stepped over. The free header is not rewritten. The array length is kept. |
| OrbLayout.CompactTiles | src/orb.h:229-252 | Compaction on bytes removes every deleted element and keeps the others' bytes in order. `pEnd` drops by the deleted bytes, and bytes from the old end on are untouched. |
| Orb.MemMove | src/orb.h:243 | The downward memmove copies the source range to the destination and leaves the rest as it was. |
| Orb.MemCopy | src/orb.h:48 | memcpy writes the bytes at the offset and nothing else. |
| Orb.GetZStringTo | src/orb.h:44-53 | get_zstring copies the z-string's bytes and a terminating zero into the C buffer. |
| Orb.SetZString | src/orb.h:56-68 | set_zstring writes the length byte, then the first `size` bytes; it always returns 0. |
| Orb.IsValidVarName | src/orb.h:79-92 | is_valid_var_name is true iff the first byte is a letter and all others are letters or digits. |
| Orb.LoadVar | src/orb.h:137-157 | An invalid name gives 3 and the buffer is unchanged. Otherwise the record type, name z-string, value z-string is written over the start of the buffer, with 0 returned. |
| Orb.Partition.constructor | src/orb.h:193-201 | alloc_partition: a fresh array of the given size. |
| Orb.Partition.ElementSize | src/orb.h:73-76 | get_element_size: the 16-bit size stored low byte first at `p + 1`; add_var's append test and retry compare the record against the one read at `pEnd`. |
| Orb.Partition.InitEmptyArea | src/orb.h:204-208 | init_empty_area writes a type-0 header with the given size and returns its address. |
| Orb.Partition.InitPartition | src/orb.h:211-214 | After init_partition the partition holds no elements, `pEnd` is its start, and a free area covers all of it. |
| Orb.Partition.AddElement | src/orb.h:217-226 | add_element writes the type, the size body+3 and the body, and returns the address just past the element. |
| Orb.Partition.CompactFrom | src/orb.h:229-252 | compact_partition from an element boundary removes the deleted elements after it and lowers `pEnd` by their size. |
| Orb.Partition.SkipHead | src/orb.h:249-251 | A kept element is stepped over unchanged. |
| Orb.Partition.DropHead | src/orb.h:240-247 | A deleted element is overwritten by everything after it, and `pEnd` drops by its size. |
| Orb.Partition.CompactPartition | src/orb.h:229-252 | Compaction leaves exactly the live elements, in order. `pEnd` drops by the deleted bytes, and the free area's header is rewritten at the new end. |
| Orb.Partition.ReadElement | src/orb.h:276-279 | Reading the element at an element boundary gives its type and size; the next boundary is size bytes on. |
| Orb.Partition.ReadAt | src/orb.h:276-279 | The type and size bytes at an element read back as that element's. |
| Orb.Partition.FindVar | src/orb.h:312-329 | The scan stops at the first variable with that name, or at `pEnd` when none exists. |
| Orb.Partition.DeleteVar | src/orb.h:310-333 | delete_var returns true iff a variable with that name exists. The elements become `DeleteVarSpec`, and `pEnd` and all sizes are unchanged. |
| Orb.Partition.MarkDeleted | src/orb.h:320-321 | The found element's type byte becomes 0xFF; nothing else changes. |
| Orb.Partition.FindSlotFor | src/orb.h:272-291 | The scan stops at the first deleted element of exactly the needed size, or at `pEnd`. |
| Orb.Partition.AppendVar | src/orb.h:263-270 | The variable element is appended at `pEnd` and the free header is rewritten after it. |
| Orb.Partition.ReuseSlot | src/orb.h:282-287 | The variable is written over the deleted slot of its size; no other element changes and `pEnd` stays. |
| Orb.Partition.WriteAt | src/orb.h:284 | An element written over one of the same size replaces exactly its bytes. |
| Orb.Partition.AddVar | src/orb.h:255-307 | add_var's outcome and new elements are `AddVarSpec`: append, else reuse the first exact slot, else compact and retry, else 5. |
| Orb.Partition.CompactAndRetry | src/orb.h:293-306 | The compaction and retry of add_var, as `AddVarSpec` has them. |
| OrbFacts.ZStringRoundTrip | src/orb.h:44-68 | A z-string written with set_zstring reads back with get_zstring as the same bytes, wherever it lies. |
| OrbFacts.VarRecordReadBack | src/orb.h:95-157 | After load_var, get_var_type, get_var_name and get_var_zstr read back the type, name and value written. get_var_size is name + value + 3, the record's length. |
| OrbFacts.ValidNameChars | src/orb.h:79-92 | An accepted name has no zero byte, no leading digit and no `_`. |
| OrbFacts.NameExamples | src/orb.h:79-92 | The empty name, `1a` and `a_b` are rejected; a nine-letter name is accepted. |
| OrbFacts.LiveIdempotent | src/orb.h:229-252 | Compacting twice removes nothing more. |
| OrbFacts.LiveSize | src/orb.h:229-252 | Live bytes plus deleted bytes make up all the elements' bytes. |
| OrbFacts.ReplaceSameSize | src/orb.h:282-287 | Reusing a slot of the same size keeps the elements' total length. |
| OrbFacts.AddVarFits | src/orb.h:263-270 | With the corrected test, the elements after add_var still leave room for the free header. |
| OrbFacts.AddVarOutcome | src/orb.h:255-307 | add_var returns 0 or 5. It returns 5 iff no exact slot exists and the compacted elements leave too little room; then the elements are the compacted ones. On 0, the live elements gain exactly the variable. |
| OrbFacts.DeleteVarOutcome | src/orb.h:310-333 | delete_var keeps the total length. With no match nothing changes; with a match the live elements lose exactly that one. |
| OrbFacts.AddThenFind | src/orb.h:255-333 | A variable added under a new name is what delete_var's scan then finds. |
| OrbFacts.AddThenDelete | src/orb.h:255-333 | Adding a variable under a new name and deleting it by that name restores the live elements. |
| OrbFacts.StaleHeader | src/orb.h:240-247 | As written, after compacting a 6-byte deleted element, `pEnd` is the start and its header still reads type 0xFF, size 6. A 9-byte element (a 6-byte record) is refused although 9 bytes fit. |
| OrbFacts.StaleHeaderCorrected | src/orb.h:293-306 | With the header rewritten, add_var on the same partition stores the 9-byte element, whose body is a well-formed 6-byte record. |
| OrbFacts.AppendOverflow | src/orb.h:263-270 | The append test as written admits exactly the elements that leave fewer than 3 bytes for the free header, e.g. 9 bytes at end 119 of 128. |

## Left out

- Memory allocation: `malloc`/`free`, the out-of-memory branches, `freeStack` and `exit(1)` in alloc_partition. Lists are sequences and never fail to grow.
- Console output: printing, the error message and token text tables, `print_var`, `print_element` and `list_elements`.
- Floating point: `atof`, `sprintf("%f")`, `pow` and `fmod` are the fields of `Eval.Arith`. When an operand is not a number, the uninitialised result buffer is the field `unset`; its contents cannot be known.
- Byte views: `get_var_bool`, `get_var_char`, `get_var_int`, `get_var_float` and the float/int loaders reinterpret bytes in host formats.
- The patch area that sets the partition size: the size is a constructor parameter. Sizes are two bytes, low byte first; host endianness and unaligned access are not modelled.
- Signed `char`: byte values are 0-255 throughout. The `size > 255` test in set_zstring (orb.h:58) cannot fire, so `Orb.SetZString` always returns 0, and `Orb.LoadVar` never returns 2.
- The variable buffer's own size: `Orb.LoadVar` requires a buffer large enough for the record. The source writes past a smaller one.
- get_var_name's write into the shared `cBuf`: `OrbLayout.VarName` is its value. The copy itself is `Orb.GetZStringTo`.
- Error 4 in add_var (orb.h:293-296): compaction never fails, so it is not modelled.
- Splitting a larger deleted element on reuse and merging deleted neighbours, promised at orb.c:66-70: the code does neither.
- Compaction on bytes that are not a tiling of elements (a zero size, an element running past the end): `OrbLayout.Compact` stops there. The source would loop forever or write out of range.
- A lexeme of exactly 512 characters: the source writes its terminator at token[512] (token.h:438), one past the 512-byte buffer (token.h:446, postfix.h:43). The model accepts the lexeme.
- Characters and bytes: the lexer reads a Dafny `string`, and the source reads C bytes. The model is exact when each `char` stands for one byte below 256, so that the 512 limit and the error cursor count the same units.
- A backslash as the last character of a double-quoted string: the source reads past the terminator. `Lexer.ScanDQuoted` reports an unbalanced quote at the terminator.
- postfix.h:53 passes nextToken its arguments in the wrong order, and postfix.h:70 and similar lines call popToken with two arguments. The code does not compile as shown, so the model uses the evident intent: lexeme and kind, and the popped token.
- tokenize and eval end without a return value after their loops: the model returns the lexer's error (tokenize) or no error (eval).
- Lexer.ParseContext.Tokenize: on a lexer error, the ensures does not state the tokens already appended before it.
- delete_var's scan and write are split into `Orb.Partition.FindVar` and `Orb.Partition.MarkDeleted`. add_var's scan, reuse and append are `FindSlotFor`, `ReuseSlot` and `AppendVar`.

## Findings

| source | as written | input that shows it | evidently intended | confidence | as-written member | corrected member |
|---|---|---|---|---|---|---|
| src/postfix.h:181 | Popped operators are appended with the kind of the token being processed (also lines 73, 96, 111, 134, 157); at the final drain that is the end kind, which eval skips | `2+3*4^5` leaves `5 4 3 2` on the result stack | Popped tokens keep their own kind: `2 3 4 5 ^ * +`, one number | high, not executed | EvalExamples.PowerEvalAsWritten | EvalExamples.PowerEval |
| src/eval.h:41 | `+u` negates its operand like `-u` | `+u` on any number gives what `-u` gives | `+u` copies its operand, as the comment at line 40 says | high, not executed | EvalExamples.PlusNegatesAsWritten | EvalExamples.PlusCopies |
| src/token.h:416 | `!pType == TOKEN_VARIABLE` compares 0 or 1 with 5, so it is never true | `1[` is accepted | `[` only after a variable | high, not executed | LexerFacts.LBracketAfterNumber | Lexer.ParseContext.NextToken |
| src/token.h:308-316 | The first character is copied before the loop and never counted as a decimal point | `.1.2` is one number | A second point is an invalid number wherever the first one is | medium, not executed | LexerFacts.LeadingDot | Lexer.ParseContext.NumberLoop |
| src/orb.h:240-247 | compact_partition moves bytes down but leaves the free-area header at the new `pEnd` as the stale bytes that were there | 12-byte partition holding one 6-byte deleted element: add_var of a 9-byte element (a 6-byte record) returns 5 | The free header is rewritten after compaction, and the variable is stored | high, not executed | OrbFacts.StaleHeader | OrbFacts.StaleHeaderCorrected |
| src/orb.h:263-270 | The append test compares the element with the whole free area, its own 3-byte header included | Partition 128, `pEnd` 119, a 9-byte element: the new free header lands at offset 128, past the partition | Append only when the element plus a 3-byte free header fit | high, not executed | OrbFacts.AppendOverflow | OrbFacts.AddVarFits |
