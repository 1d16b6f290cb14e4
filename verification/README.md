# A verified model of the yunlang calculator

The calculator turns a line of source text into an integer in three stages:

- **Tokenizer.** A character-by-character DFA in `lexer.go` (`tokenize` and `initToken`) produces `Token{Text, Type}` values. A `TokenReader` cursor hands them out.
- **Parser.** A recursive-descent parser in `calculator.go` (`prog`, `intDeclare`, `additive`, `multiplicative`, `primary`) builds a tree of `SimpleASTNode`s.
- **Evaluator.** `evaluate` walks the tree and reduces it to an integer.

This project restates the three stages as pure Dafny functions and proves what they do.

## Modules

| file | module | models |
|---|---|---|
| `wrappers.dfy` | `Wrappers` | `Option` and `Result` |
| `tokens.dfy` | `Tokens` | `TokenType` and `Token`; `isAlpha`, `isDigit` and `isBlank`; what a well-formed token looks like |
| `lexer.dfy` | `Lexer` | the DFA, described below |
| `lexer_facts.dfy` | `LexerFacts` | what the tokenizer produces |
| `printed_text.dfy` | `PrintedText` | printed expression trees as script text, scanning back to their tokens |
| `token_reader.dfy` | `TokenReader` | the cursor, as an immutable `Reader(tokens, position)` |
| `ast.dfy` | `Ast` | `ASTNodeType`, `NewASTNode` and `AddChild`; Go's `nil` node is the constructor `Nil` |
| `parser.dfy` | `Parser` | the five grammar rules, as functions from a `Reader` to `Result<Parsed, ParseError>` |
| `parser_facts.dfy` | `ParserFacts` | the parser's round trips, rule by rule and as a whole |
| `evaluator.dfy` | `Evaluator` | `evaluate`, Go's truncating `/` (`TruncDiv`) and `strconv.Atoi` |
| `eval_facts.dfy` | `EvalFacts` | `evaluate` checked against a postfix stack machine as a reference |
| `calculator.dfy` | `Calculator` | `parse` and `execute`, joined into one function from text to value |
| `scenarios.dfy` | `Scenarios` | the scripts of `calculator_test.go` and the edge cases, worked through |

The DFA in `lexer.dfy` works like this:

- `Step` handles one character. It gives the next scanner state (DFA state, pending lexeme, token kind) and the tokens the character completes: at most one, whose text is the lexeme pending before it.
- `InitToken` is `initToken`: it completes the pending lexeme and starts a new one from the character.
- `Run` folds `Step` over the input.
- `Lex` is `Run` followed by the final flush.
- `Tokenize` is the source's loop, proved to compute `Lex`.

The parser functions keep to their lexicographic termination measure: tokens left, then rule rank.

## Model

| member | source | states |
|---|---|---|
| Lexer.InitToken | lexer.go:230-297 | `initToken`; its contract is stated by `LexerFacts.InitTokenShape` |
| LexerFacts.InitTokenShape | lexer.go:230-297 | `initToken` completes exactly the pending lexeme, if there is one, and starts a new lexeme holding the character when the character can begin a token (a letter, a digit, or one of `> < + - * / = ; ( )`), an empty one otherwise |
| Lexer.Step | lexer.go:125-219 | one pass of the loop completes at most one token, and that token's text is the lexeme pending before the character |
| LexerFacts.StepPendingShape | lexer.go:125-219 | after one pass of the loop the pending lexeme is empty, the character alone, or the old lexeme extended by the character |
| Lexer.Flush | lexer.go:222-224 | after the loop a non-empty pending lexeme is completed as one token of the kind gathered so far, and an empty one yields nothing |
| Lexer.Lex | lexer.go:121-227 | `tokenize` on a fresh lexer; what it yields is stated by `LexerFacts.LexTokensOk` and `LexerFacts.LexText` |
| Lexer.Tokenize | lexer.go:121-227 | the loop over the characters followed by the flush of the pending lexeme yields exactly the tokens of the reference fold `Lex` |
| LexerFacts.LexTokensOk | lexer.go:230-297 | every emitted token has non-empty text; an identifier starts with a letter, a literal is all digits, every operator's text is its symbol; `LE`, `PlusPlus`, `MinusMinus`, `DOUBLE`, `STRING`, `BOOL`, `NIL` and `INIT` are never emitted |
| LexerFacts.LexText | lexer.go:121-227 | the token texts, joined, are a subsequence of the input (characters dropped, order kept); there are at most as many tokens as characters; with no skipped characters the texts rebuild the input exactly |
| LexerFacts.ScanLossless | lexer.go:125-219 | over letters, digits and the operator/punctuation set, the completed token texts followed by the pending lexeme are the input scanned so far |
| LexerFacts.LexDigits | lexer.go:248-251 | a non-empty run of digits is one `IntLiteral` token with that text |
| LexerFacts.LexNumberThen | lexer.go:211-219 | a literal ends at the first non-digit, which starts the next token |
| LexerFacts.LexIntKeyword | lexer.go:155-158 | `int` followed by a space, tab or newline is the keyword `INT`, and the blank itself yields nothing |
| LexerFacts.LexIntAtEnd | lexer.go:222-224 | `int` at the end of the input is flushed as an `Identifier`, not the keyword |
| LexerFacts.LexIntThenOther | lexer.go:129-162 | `int` followed by any non-blank character (a letter, a digit, `;`, `+`, …) leaves the scanner in the identifier state holding `int` and that character, with nothing completed; the letters and digits after it extend that identifier, which is completed at the next other character or the end, so `int+1` is the single identifier `int+1` |
| LexerFacts.IntKeywordNeedsBlank | lexer.go:155-162 | an `INT` token is only ever emitted for `int` immediately followed by a blank: when the `k`-th token is `INT`, the input holds `int` and a blank at some position, and scanning the input up to and including that blank completes exactly the tokens up to and including the `k`-th |
| LexerFacts.LexCompound | lexer.go:163-210 | `> = + - * /` followed by `=` is one two-character token of the compound kind |
| LexerFacts.LexSingleOperator | lexer.go:163-210 | `> = + - * /` followed by anything but `=` is the one-character token, and the next character is scanned afresh |
| LexerFacts.LexOperatorAtEnd | lexer.go:222-224 | an operator at the end of the input is flushed as its one-character kind |
| LexerFacts.LexLessThan | lexer.go:256-259 | `<` is never upgraded: it is always an `LT` token by itself, so `<=` is `LT` then `Assign` |
| LexerFacts.LexPunctuation | lexer.go:280-291 | `(`, `)` and `;` are one-character tokens that end at once |
| LexerFacts.ScanWord | lexer.go:129-162 | a word (a letter, then letters and digits) scanned from the start is held pending as one identifier with nothing completed; the DFA is in `Int1`, `Int2` or `Int3` while the word spells a prefix of `int`, and in `Id` otherwise |
| LexerFacts.LexWord | lexer.go:129-162 | a word other than `int` is one identifier token, completed at the first character that is neither a letter nor a digit |
| LexerFacts.LexToken | lexer.go:121-297 | a numeral, a word other than `int`, a one-character operator, `(`, `)` or `;` reads back as itself when what follows cannot run on into it (a digit after a numeral, a letter or digit after a word, `=` after an operator), and scanning goes on afresh after it |
| LexerFacts.LexConcat | lexer.go:121-297 | such tokens, none of which runs on into the next, joined into one text without blanks, scan back to exactly those tokens |
| PrintedText.LexShow | lexer.go:121-297 | the printed tokens of any expression tree whose names are words other than `int`, joined into one text, scan back to exactly those tokens |
| PrintedText.LexBracketed | lexer.go:121-297 | the same for the printing that puts every operand that is an operation in parentheses |
| LexerFacts.LexSplitsAtSeparator | lexer.go:292-294 | a character outside the lexical set (whitespace included) ends the pending token and yields nothing, unless it follows `int`: tokens of `a c b` are those of `a` then those of `b` |
| Tokens.IsAlpha | lexer.go:357-359 | `isAlpha`: ASCII letters only, so a non-ASCII letter starts no token; `Tokens.CharClasses` states it |
| Tokens.IsDigit | lexer.go:361-363 | `isDigit`: the ASCII digits `0`-`9` only, never a letter; `Tokens.CharClasses` states it |
| Tokens.IsBlank | lexer.go:365-367 | `isBlank`: space, tab and newline, not `\r`; `Tokens.CharClasses` states that a blank never starts a token |
| Tokens.CharClasses | lexer.go:357-367 | letters and digits are ASCII and disjoint; a blank is neither a letter, a digit nor an operator, so it starts no token; a carriage return is neither a blank nor a lexical character |
| TokenReader.NewTokenReader | lexer.go:318-320 | a fresh cursor is at position 0 |
| TokenReader.Read | lexer.go:323-330 | before the end it returns the token at the position and moves exactly one step; at the end it returns nothing and does not move; the position stays in `[0, len]` |
| TokenReader.Peek | lexer.go:333-338 | returns what the next `Read` would return |
| TokenReader.UnRead | lexer.go:341-345 | steps back only when the position is positive, keeping it in `[0, len]` |
| TokenReader.SetPosition | lexer.go:353-355 | moves the cursor to the given position, read back by `GetPosition` |
| TokenReader.ReadThenUnRead | lexer.go:323-345 | a successful `Read` followed by `UnRead` restores the cursor |
| TokenReader.SaveAndRestore | lexer.go:348-355 | saving the position and setting it back later restores the cursor |
| Ast.NewNode | calculator.go:79-81 | `NewASTNode`: a node of the given kind and text with no children; `Ast.AddChild` and `Ast.Binary` state what is built from it |
| Ast.AddChild | calculator.go:75-77 | appends the child, which may be `Nil`, after the existing children, keeping them and the node's kind and text |
| Ast.Binary | calculator.go:75-81 | a node built by `NewASTNode` and two `AddChild` calls has exactly those two children, in order |
| Parser.Prog | calculator.go:151-162 | `prog` succeeds exactly when `additive` does and passes its error through; on success the result is a `Program` node named `Calculator` whose only child is the additive result, even when that result is nil |
| Parser.Additive | calculator.go:217-243 | the parser never moves backwards, and moves forwards whenever it builds a node |
| Parser.Multiplicative | calculator.go:251-277 | `multiplicative` never moves backwards, and moves forwards whenever it builds a node |
| Parser.Primary | calculator.go:281-313 | `primary` never moves backwards, and moves forwards whenever it builds a node |
| Parser.ExpectSemicolon | calculator.go:198-205 | succeeds exactly when `;` comes next, consuming it; otherwise the missing-semicolon error |
| Parser.DeclRest | calculator.go:179-205 | a successful parse after the name keeps the declaration's kind and name. When `=` follows the name, the only child is exactly the non-nil tree that `additive` returns after the `=`, and `;` comes right after that expression; otherwise there are no children and `;` comes right after the name. Parsing ends just after the `;` |
| Parser.IntDeclare | calculator.go:170-208 | without a leading `int` it returns nil, no error and consumes nothing; `int` without a name is the missing-name error |
| ParserFacts.IntDeclareShape | calculator.go:170-208 | a successful declaration that starts with `int` is `int`, then an identifier whose text names the node, then either `=` with the tree `additive` reads there as the only child and `;` right after that expression, or `;` right after the name; it ends just after the `;` |
| ParserFacts.IntDeclareRest | calculator.go:173-181 | after `int` and an identifier, the declaration is named by the identifier's text and parsing goes on after the name |
| ParserFacts.DeclRestErrors | calculator.go:182-205 | an error inside the initialiser is passed on; `=` without an expression and a missing `;` are errors of their own |
| ParserFacts.ShowDeclaration | calculator.go:170-208 | round trip: the printed tokens of `int name (= expr)? ;` followed by anything parse back to the declaration node with the expression tree as its only child, stopping after the `;` |
| ParserFacts.AdditiveShape | calculator.go:217-243 | `additive` returns nil or a tree of binary nodes with exactly two children over leaves; over well-formed tokens every operator node's text is its operator symbol and every leaf holds a literal or a name |
| ParserFacts.MultiplicativeShape | calculator.go:251-277 | the same for `multiplicative` |
| ParserFacts.PrimaryShape | calculator.go:281-313 | the same for `primary` |
| ParserFacts.AdditiveChain | calculator.go:217-243 | with no `(` ahead, `additive` builds a right-nested chain of sums over products, so no additive node lies below a multiplicative one |
| ParserFacts.MultiplicativeChain | calculator.go:251-277 | with no `(` ahead, `multiplicative` builds a right-nested chain of products over leaves |
| ParserFacts.PrimaryLeaf | calculator.go:285-291 | a literal or identifier token becomes a leaf with that text, consuming one token |
| ParserFacts.PrimaryParen | calculator.go:292-301 | `(` expr `)` yields the inner tree itself, consuming the closing parenthesis |
| ParserFacts.PrimaryErrors | calculator.go:292-309 | any other leading token is the unexpected-token error; an error inside the parentheses is passed on; when the inner `additive` returns nil (as it does when `(` is the last token) `primary` returns nil without error; a missing `)` after a non-nil inner tree is an error. So `( )` fails with the unexpected-token error of the inner `primary` |
| ParserFacts.AtEnd | calculator.go:281-313 | at the end of the tokens all three expression rules return nil and no error |
| ParserFacts.AdditiveOperand | calculator.go:223-242 | with no `+`/`-` after its operand, `additive` returns the operand itself, unwrapped |
| ParserFacts.MultiplicativeOperand | calculator.go:257-276 | with no `*`/`/` after its operand, `multiplicative` returns the operand itself, unwrapped |
| ParserFacts.AdditiveBinary | calculator.go:225-235 | an operand, `+` or `-`, and a further additive make a node whose text is the operator token's text and whose two children are the operands |
| ParserFacts.MultiplicativeBinary | calculator.go:259-269 | the same for `*` and `/` |
| ParserFacts.AdditiveMissing | calculator.go:226-238 | after `+` or `-`, an error in the right side is passed on and an empty right side is the additive error |
| ParserFacts.MultiplicativeMissing | calculator.go:260-272 | after `*` or `/`, an error in the right side is passed on and an empty right side is the multiplicative error |
| ParserFacts.ShowAdditive | calculator.go:217-313 | round trip: `additive` reads any expression tree back from its printed tokens, whatever precedes them and whatever follows that cannot continue the expression, and stops just after them |
| ParserFacts.ParseShowProgram | calculator.go:151-162 | `prog` reads any printed expression tree back as the only child of the `Program` node |
| ParserFacts.ParseBracketedProgram | calculator.go:281-313 | the same for the printing that puts every operand that is an operation in parentheses |
| ParserFacts.ProgLeavesRest | calculator.go:151-162 | `prog` does not check for leftover tokens: after a complete expression, tokens that cannot continue it are ignored |
| ParserFacts.TrailingOperator | calculator.go:226-238 | a printed expression followed by a final operator fails: with `+`/`-` with the additive error, with `*`/`/` with the multiplicative error |
| ParserFacts.ProgTrailingOperator | calculator.go:151-162 | `prog` passes on that error |
| Evaluator.TruncDiv | calculator.go:137-141 | Go's integer `/`: the remainder is smaller than the divisor and has the sign of the dividend (truncation toward zero) |
| Evaluator.AtoiItoa | calculator.go:142-143 | `strconv.Atoi` reads back the decimal rendering of any number, with or without a sign |
| Evaluator.Atoi | calculator.go:142-143 | text that is not a numeral reads as 0, because the error is discarded; an unsigned digit string is never negative |
| Evaluator.Evaluate | calculator.go:113-148 | a nil node is an error; literals read their decimal value; identifiers, declarations and the other unhandled kinds are 0 |
| EvalFacts.EvaluateExpr | calculator.go:122-141 | an expression tree always evaluates, except for a division by zero; without `/` it always evaluates |
| Evaluator.EvalChildren | calculator.go:118-121 | the children are evaluated in order: with none the result is the value so far; on success every child evaluated and the last one's value is the result; on failure some child failed with that error |
| EvalFacts.EvalChildrenLast | calculator.go:118-121 | a program evaluates all its children in order and the last one's value wins, or 0 with no children; otherwise the first failing child's error is the result |
| EvalFacts.ProgramValue | calculator.go:118-121 | a program with one child has that child's value |
| EvalFacts.EvaluateBinary | calculator.go:122-141 | `+` adds and any other additive text subtracts; `*` multiplies and any other multiplicative text divides with truncation, failing on a zero divisor |
| EvalFacts.ExecAppend | calculator.go:113-148 | the reference stack machine runs two pieces of code in turn and stops at the first error |
| EvalFacts.CompileCorrect | calculator.go:113-148 | the tree walker agrees with the stack machine on the postfix code: the code pushes exactly the tree's value onto any stack, or fails with the same error |
| EvalFacts.ValueByMachine | calculator.go:113-148 | a tree evaluates exactly when its code runs on the empty stack, and that run leaves exactly its value |
| Calculator.Parse | calculator.go:107-111 | `parse` succeeds exactly when `additive` on the script's tokens succeeds, and passes its error through; on success it gives the `Program` node named `Calculator` whose only child is the additive result |
| Calculator.Calculate | calculator.go:95-104 | `execute`: a syntax error from `parse` is the script's result; otherwise the result is the evaluation of the parsed tree, with its failures reported as run-time errors; what this means for whole scripts is stated by `Calculator.CalculatePrinted` |
| Calculator.CalculatePrinted | calculator.go:95-111 | round trip on text: the printed text of any expression tree whose names are words other than `int` calculates to that tree's value, or fails with its evaluation error; likewise its fully parenthesised text |
| Calculator.RunShown | calculator.go:95-111 | the printed tokens of any expression tree run to that tree's value |
| Calculator.RunBracketed | calculator.go:95-111 | the same with every operand that is an operation in parentheses |
| Calculator.CalculateShown | calculator.go:95-111 | a script that scans to a printed tree calculates that tree's value, which is also the stack machine's result |
| Calculator.CalculateLeavesRest | calculator.go:151-162 | tokens after a complete expression that cannot continue it are ignored in the script's value |
| Calculator.CalculateTrailingOperator | calculator.go:226-238 | a script ending in an operator fails with the syntax error of the operator's rule |
| Scenarios.CalculatePrecedence | calculator_test.go:64-68 | `2+3*5` calculates to 17 |
| Scenarios.CalculateProducts | calculator_test.go:78-82 | `1*2+3*5` calculates to 17 |
| Scenarios.CalculateNesting | calculator_test.go:85-89 | `2*(3+(2*2))` calculates to 14 |
| Scenarios.CalculateTrailingPlus | calculator_test.go:92-96 | `1*2+3*2+` fails with the additive missing-right-side error |
| Scenarios.CalculateRightNested | calculator.go:226-235 | `10-5-2` calculates to 7, because chains nest to the right |
| Scenarios.RunTruncation | calculator.go:137-141 | the tokens of `(0-7)/2` run to -3, not -4 |
| Scenarios.CalculateLeftover | calculator.go:151-162 | `2 3` calculates to 2, ignoring the leftover literal |
| Scenarios.CalculateEmpty | calculator.go:84-104 | the empty script makes `prog` append a nil child; `execute` hands that tree to `DumpAST`, which dereferences the nil child, so the script fails with the nil-node run-time error |
| Scenarios.CalculateByZero | calculator.go:137-141 | `7/0` parses and then fails on the division |
| Scenarios.CalculateName | calculator.go:113-148 | `a+1` calculates to 1: a name evaluates to 0 |
| Scenarios.LexDeclaration | calculator_test.go:9-12 | `int a;` scans to `INT`, `Identifier a`, `SemiColon` |
| Scenarios.DeclareName | calculator_test.go:9-16 | `intDeclare` reads the tokens of the script `int a;` as a declaration named `a` with no children, stopping after the `;` |
| Scenarios.CalculateDeclaration | calculator.go:151-162 | `prog` does not accept `int a;`: `primary` rejects the leading `int` |
| Scenarios.DeclareInitialised | calculator_test.go:30-36 | `intDeclare` reads the tokens of the script `int c = 2+3;` as a declaration named `c` whose only child is the sum 2 + 3, stopping after the `;` |
| Scenarios.CalculateIntGlued | lexer.go:155-162 | `int+1` scans to the single identifier `int+1`, so the script calculates to 0 |

### Behaviour of the code that its names suggest otherwise

- **The `int` keyword.** `tokenize` recognises it only when `int` is followed by a space, tab or newline (lexer.go:155-158). Any other character after `int`, even `;`, `(` or `+`, sends the DFA to the identifier state with the character appended (lexer.go:159-162), so `int;` is the single identifier `int;`. The flush (lexer.go:222-224) completes a trailing `int` with the kind gathered so far, `Identifier`.
- **`<` is never upgraded to `<=`.** `initToken` enters `DfaState_LT` on `<` (lexer.go:256-259), but the switch in `tokenize` (lexer.go:126-219) has no case for that state, so its default branch (lexer.go:217-218) completes `<` and hands the next character to `initToken`. `DfaState_LE` (lexer.go:22) is never entered and `TokenType_LE` (lexer.go:52) is never emitted.
- **The evaluator can fail.** `DumpAST` dereferences every node (calculator.go:84-89) and `execute` calls it before `evaluate` (calculator.go:100-101), so a nil node panics. `evaluate` indexes the first two children of an operator node (calculator.go:123-124, 133-134) and divides by the right operand (calculator.go:140). Go panics in all three cases; the model reports them as `EvalError` values.

## Left out

- **Printing:** `dump`, `DumpAST`, the evaluation trace lines, and the printing inside `execute`. `Calculate` returns the value that `execute` prints.
- **The `String()` display maps** for token types and node types. They are only used to print.
- **The `parent` field and `GetParent`.** `NewASTNode` and `AddChild` never set it.
- **`GetChildren`, `GetType` and `GetText`.** These are the datatype's fields here.
- **Go's 64-bit overflow and the range clamping of `strconv.Atoi`.** Integers are unbounded, so results differ from the source once a value leaves the 64-bit range.
- **Reusing one `SimpleLexer` for several scripts.** In the source its token list keeps growing across calls. Every scan here starts from a fresh lexer, as every caller in the repository does.
- **Unicode decoding of the script.** The input is a `seq<char>`. Non-ASCII characters are treated like any other unknown character: skipped, except directly after `int`, where any non-blank character joins the identifier (see the `int` keyword bullet).
- TokenReader.SetPosition: requires a position within `[0, len]`. The source does not check the bounds, and the parser never calls it.
- TokenReader.GetPosition: has no contract of its own. It returns the position field, and `SaveAndRestore` states what it is for.
- Lexer.Tokenize: returns the token list rather than a cursor over it; `NewTokenReader` makes that cursor.
