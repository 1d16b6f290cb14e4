/**
 * Worked scripts for the calculator: what scanning, parsing and evaluating
 * particular inputs give, including right-nested chains, truncating division
 * and the error paths.
 */
module Scenarios {
  import opened Wrappers
  import opened Tokens
  import opened Lexer
  import opened LexerFacts
  import opened TokenReader
  import opened Ast
  import opened Parser
  import opened ParserFacts
  import opened Evaluator
  import opened EvalFacts
  import opened Calculator

  function Num(digits: string): Node {
    Node(NodeKind.IntLiteral, digits, [])
  }

  function Plus(l: Node, r: Node): Node { Node(NodeKind.Additive, "+", [l, r]) }
  function Minus(l: Node, r: Node): Node { Node(NodeKind.Additive, "-", [l, r]) }
  function Times(l: Node, r: Node): Node { Node(NodeKind.Multiplicative, "*", [l, r]) }
  function Over(l: Node, r: Node): Node { Node(NodeKind.Multiplicative, "/", [l, r]) }

  /** A one-digit literal is a leaf whose value is the digit. */
  lemma DigitNum(c: char)
    requires IsDigit(c)
    ensures IsLeaf(Num([c])) && Evaluate(Num([c])) == Success(DigitValue(c))
  {
    assert [c][..0] == [] && [c][0] == c;
    assert AllDigits([c]);
    assert DecimalValue([c]) == DigitValue(c);
  }

  // "2+3*5": the product binds tighter, 2 + 15.

  /** Three numbers joined by two single operators scan to five tokens. */
  lemma LexChain(s: string, a: string, op1: char, b: string, op2: char, c: string)
    requires s == a + [op1] + b + [op2] + c
    requires |a| > 0 && AllDigits(a) && |b| > 0 && AllDigits(b) && |c| > 0 && AllDigits(c)
    requires Compoundable(op1) && op1 != '=' && Compoundable(op2) && op2 != '='
    ensures Lex(s) == [Token(a, TokenType.IntLiteral), Token([op1], SingleKind(op1)),
      Token(b, TokenType.IntLiteral), Token([op2], SingleKind(op2)), Token(c, TokenType.IntLiteral)]
  {
    LexDigits(c);
    LexNumberOperator(b, op2, c);
    LexNumberOperator(a, op1, b + [op2] + c);
    assert a + [op1] + b + [op2] + c == a + [op1] + (b + [op2] + c);
  }

  /** A digit, an operator and what follows, as characters. */
  lemma LexDigitOperator(a: char, op: char, rest: string)
    requires IsDigit(a) && Compoundable(op) && op != '=' && |rest| > 0 && rest[0] != '='
    ensures Lex([a, op] + rest) == [Token([a], TokenType.IntLiteral), Token([op], SingleKind(op))] + Lex(rest)
  {
    LexNumberOperator([a], op, rest);
    assert [a] + [op] + rest == [a, op] + rest;
  }

  /** A digit plus a one-digit product. */
  lemma LexSumProduct(b: char, c: char, d: char)
    requires IsDigit(b) && IsDigit(c) && IsDigit(d)
    ensures Lex([b, '+', c, '*', d]) == [Token([b], TokenType.IntLiteral), Token("+", TokenType.Plus),
      Token([c], TokenType.IntLiteral), Token("*", TokenType.Star), Token([d], TokenType.IntLiteral)]
  {
    LexDigits([d]);
    LexDigitOperator(c, '*', [d]);
    assert [c, '*'] + [d] == [c, '*', d];
    LexDigitOperator(b, '+', [c, '*', d]);
    assert [b, '+'] + [c, '*', d] == [b, '+', c, '*', d];
  }

  lemma LexPrecedence()
    ensures Lex("2+3*5") == [Token("2", TokenType.IntLiteral), Token("+", TokenType.Plus),
      Token("3", TokenType.IntLiteral), Token("*", TokenType.Star), Token("5", TokenType.IntLiteral)]
  {
    LexSumProduct('2', '3', '5');
  }

  lemma ShowPrecedence()
    ensures var n := Plus(Num("2"), Times(Num("3"), Num("5")));
      IsExpr(n) && Show(n, Top) == [Token("2", TokenType.IntLiteral), Token("+", TokenType.Plus),
        Token("3", TokenType.IntLiteral), Token("*", TokenType.Star), Token("5", TokenType.IntLiteral)]
  {
    var p := Times(Num("3"), Num("5"));
    assert IsLeaf(Num("3")) && IsLeaf(Num("5")) && IsLeaf(Num("2"));
    assert IsExpr(p);
    assert Show(Num("2"), LeftOfAdditive) == [Token("2", TokenType.IntLiteral)];
    assert Show(p, Top) == [Token("3", TokenType.IntLiteral), Token("*", TokenType.Star), Token("5", TokenType.IntLiteral)];
  }

  lemma ValuePrecedence()
    ensures Evaluate(Plus(Num("2"), Times(Num("3"), Num("5")))) == Success(17)
  {
    DigitNum('2'); DigitNum('3'); DigitNum('5');
    EvaluateBinary(NodeKind.Multiplicative, "*", Num("3"), Num("5"));
    EvaluateBinary(NodeKind.Additive, "+", Num("2"), Times(Num("3"), Num("5")));
  }

  lemma CalculatePrecedence()
    ensures Calculate("2+3*5") == Success(17)
  {
    LexPrecedence();
    ShowPrecedence();
    ValuePrecedence();
    CalculateShown("2+3*5", Plus(Num("2"), Times(Num("3"), Num("5"))));
  }

  // "10-5-2": the grammar nests chains to the right, so this is 10 - (5 - 2).

  lemma LexRightNested()
    ensures Lex("10-5-2") == [Token("10", TokenType.IntLiteral), Token("-", TokenType.Minus),
      Token("5", TokenType.IntLiteral), Token("-", TokenType.Minus), Token("2", TokenType.IntLiteral)]
  {
    assert "10" + ['-'] + "5" + ['-'] + "2" == "10-5-2";
    LexChain("10-5-2", "10", '-', "5", '-', "2");
  }

  lemma ShowRightNested()
    ensures var n := Minus(Num("10"), Minus(Num("5"), Num("2")));
      IsExpr(n) && Show(n, Top) == [Token("10", TokenType.IntLiteral), Token("-", TokenType.Minus),
        Token("5", TokenType.IntLiteral), Token("-", TokenType.Minus), Token("2", TokenType.IntLiteral)]
  {
    var d := Minus(Num("5"), Num("2"));
    assert IsLeaf(Num("10")) && IsLeaf(Num("5")) && IsLeaf(Num("2"));
    assert IsExpr(d);
    assert Show(Num("10"), LeftOfAdditive) == [Token("10", TokenType.IntLiteral)];
    assert Show(d, Top) == [Token("5", TokenType.IntLiteral), Token("-", TokenType.Minus), Token("2", TokenType.IntLiteral)];
  }

  lemma ValueRightNested()
    ensures Evaluate(Minus(Num("10"), Minus(Num("5"), Num("2")))) == Success(7)
  {
    DigitNum('5'); DigitNum('2'); DigitNum('1'); DigitNum('0');
    assert AllDigits("10") && "10"[..1] == "1" && "10"[1] == '0';
    assert Evaluate(Num("10")) == Success(10);
    EvaluateBinary(NodeKind.Additive, "-", Num("5"), Num("2"));
    EvaluateBinary(NodeKind.Additive, "-", Num("10"), Minus(Num("5"), Num("2")));
  }

  lemma CalculateRightNested()
    ensures Calculate("10-5-2") == Success(7)
  {
    LexRightNested();
    ShowRightNested();
    ValueRightNested();
    CalculateShown("10-5-2", Minus(Num("10"), Minus(Num("5"), Num("2"))));
  }

  // The tokens of "(0-7)/2": Go's division truncates toward zero, giving -3 rather than -4.

  lemma ShowTruncation()
    ensures var n := Over(Minus(Num("0"), Num("7")), Num("2"));
      IsExpr(n) && Show(n, Top) == [Token("(", TokenType.LeftParen), Token("0", TokenType.IntLiteral),
        Token("-", TokenType.Minus), Token("7", TokenType.IntLiteral), Token(")", TokenType.RightParen),
        Token("/", TokenType.Slash), Token("2", TokenType.IntLiteral)]
  {
    var d := Minus(Num("0"), Num("7"));
    assert IsLeaf(Num("0")) && IsLeaf(Num("7")) && IsLeaf(Num("2"));
    assert IsExpr(d);
    assert Show(d, Top) == [Token("0", TokenType.IntLiteral), Token("-", TokenType.Minus), Token("7", TokenType.IntLiteral)];
    assert Show(Num("2"), RightOfMultiplicative) == [Token("2", TokenType.IntLiteral)];
  }

  lemma ValueTruncation()
    ensures Evaluate(Over(Minus(Num("0"), Num("7")), Num("2"))) == Success(-3)
  {
    DigitNum('0'); DigitNum('7'); DigitNum('2');
    EvaluateBinary(NodeKind.Additive, "-", Num("0"), Num("7"));
    EvaluateBinary(NodeKind.Multiplicative, "/", Minus(Num("0"), Num("7")), Num("2"));
    assert TruncDiv(-7, 2) == -3;
  }

  lemma RunTruncation()
    ensures RunTokens([Token("(", TokenType.LeftParen), Token("0", TokenType.IntLiteral),
      Token("-", TokenType.Minus), Token("7", TokenType.IntLiteral), Token(")", TokenType.RightParen),
      Token("/", TokenType.Slash), Token("2", TokenType.IntLiteral)]) == Success(-3)
  {
    ShowTruncation();
    ValueTruncation();
    RunShown(Over(Minus(Num("0"), Num("7")), Num("2")));
  }


  // The tokens of "2*(3+(2*2))", every operand that is an operation in parentheses.

  lemma BracketedInnerSum()
    ensures var sum := Plus(Num("3"), Times(Num("2"), Num("2")));
      IsExpr(sum) && Operand(sum) == [Token("(", TokenType.LeftParen), Token("3", TokenType.IntLiteral),
        Token("+", TokenType.Plus), Token("(", TokenType.LeftParen), Token("2", TokenType.IntLiteral),
        Token("*", TokenType.Star), Token("2", TokenType.IntLiteral), Token(")", TokenType.RightParen),
        Token(")", TokenType.RightParen)]
  {
    var inner := Times(Num("2"), Num("2"));
    var sum := Plus(Num("3"), inner);
    assert IsLeaf(Num("2")) && IsLeaf(Num("3"));
    assert IsExpr(inner) && IsExpr(sum);
    assert Bracketed(inner) == [Token("2", TokenType.IntLiteral), Token("*", TokenType.Star), Token("2", TokenType.IntLiteral)];
    assert Bracketed(sum) == [Token("3", TokenType.IntLiteral), Token("+", TokenType.Plus)] + Operand(inner);
  }

  lemma BracketedNesting()
    ensures var n := Times(Num("2"), Plus(Num("3"), Times(Num("2"), Num("2"))));
      IsExpr(n) && Bracketed(n) == [Token("2", TokenType.IntLiteral), Token("*", TokenType.Star),
        Token("(", TokenType.LeftParen), Token("3", TokenType.IntLiteral), Token("+", TokenType.Plus),
        Token("(", TokenType.LeftParen), Token("2", TokenType.IntLiteral), Token("*", TokenType.Star),
        Token("2", TokenType.IntLiteral), Token(")", TokenType.RightParen), Token(")", TokenType.RightParen)]
  {
    var sum := Plus(Num("3"), Times(Num("2"), Num("2")));
    BracketedInnerSum();
    assert IsLeaf(Num("2"));
    BracketedTimes(Num("2"), sum);
    assert Operand(Num("2")) == [Token("2", TokenType.IntLiteral)];
  }

  lemma BracketedTimes(l: Node, m: Node)
    requires IsExpr(l) && IsExpr(m)
    ensures Bracketed(Times(l, m)) == Operand(l) + [Token("*", TokenType.Star)] + Operand(m)
  {
  }

  lemma ValueNesting()
    ensures Evaluate(Times(Num("2"), Plus(Num("3"), Times(Num("2"), Num("2"))))) == Success(14)
  {
    DigitNum('2'); DigitNum('3');
    EvaluateBinary(NodeKind.Multiplicative, "*", Num("2"), Num("2"));
    EvaluateBinary(NodeKind.Additive, "+", Num("3"), Times(Num("2"), Num("2")));
    EvaluateBinary(NodeKind.Multiplicative, "*", Num("2"), Plus(Num("3"), Times(Num("2"), Num("2"))));
  }

  /** Two closing parentheses are two tokens. */
  lemma LexClosing()
    ensures Lex("))") == [Token(")", TokenType.RightParen), Token(")", TokenType.RightParen)]
  {
    LexPunctuationPair(')', ')');
  }

  lemma LexPunctuationPair(c: char, d: char)
    requires c in "();" && d in "();"
    ensures Lex([c, d]) == [Token([c], PunctuationKind(c)), Token([d], PunctuationKind(d))]
  {
    LexPunctuation(d, []);
    LexPunctuation(c, [d]);
    assert [d] + [] == [d] && [c] + [d] == [c, d];
  }

  /** A digit and two closing parentheses. */
  lemma LexDigitClosing(d: char)
    requires IsDigit(d)
    ensures Lex([d, ')', ')']) == [Token([d], TokenType.IntLiteral), Token(")", TokenType.RightParen),
      Token(")", TokenType.RightParen)]
  {
    LexClosing();
    LexNumberThen([d], ')', ")");
    assert [d] + [')'] + ")" == [d, ')', ')'];
  }

  /** An opening parenthesis, a one-digit product and two closing parentheses. */
  lemma LexInnerChars(c: char, d: char)
    requires IsDigit(c) && IsDigit(d)
    ensures Lex(['(', c, '*', d, ')', ')']) == [Token("(", TokenType.LeftParen), Token([c], TokenType.IntLiteral),
      Token("*", TokenType.Star), Token([d], TokenType.IntLiteral), Token(")", TokenType.RightParen),
      Token(")", TokenType.RightParen)]
  {
    LexDigitClosing(d);
    LexDigitOperator(c, '*', [d, ')', ')']);
    assert [c, '*'] + [d, ')', ')'] == [c, '*', d, ')', ')'];
    LexPunctuation('(', [c, '*', d, ')', ')']);
    assert ['('] + [c, '*', d, ')', ')'] == ['(', c, '*', d, ')', ')'];
  }

  /** The same opened by a parenthesis, a digit and a `+`. */
  lemma LexSumChars(b: char, c: char, d: char)
    requires IsDigit(b) && IsDigit(c) && IsDigit(d)
    ensures Lex(['(', b, '+', '(', c, '*', d, ')', ')']) == [Token("(", TokenType.LeftParen),
      Token([b], TokenType.IntLiteral), Token("+", TokenType.Plus), Token("(", TokenType.LeftParen),
      Token([c], TokenType.IntLiteral), Token("*", TokenType.Star), Token([d], TokenType.IntLiteral),
      Token(")", TokenType.RightParen), Token(")", TokenType.RightParen)]
  {
    var inner := ['(', c, '*', d, ')', ')'];
    LexInnerChars(c, d);
    LexDigitOperator(b, '+', inner);
    LexPunctuation('(', [b, '+'] + inner);
    assert ['('] + ([b, '+'] + inner) == ['(', b, '+', '(', c, '*', d, ')', ')'];
  }

  /** A product of a number and a bracketed sum holding a bracketed product, one digit per number. */
  lemma LexNestedChars(a: char, b: char, c: char, d: char)
    requires IsDigit(a) && IsDigit(b) && IsDigit(c) && IsDigit(d)
    ensures Lex([a, '*', '(', b, '+', '(', c, '*', d, ')', ')']) == [Token([a], TokenType.IntLiteral),
      Token("*", TokenType.Star), Token("(", TokenType.LeftParen), Token([b], TokenType.IntLiteral),
      Token("+", TokenType.Plus), Token("(", TokenType.LeftParen), Token([c], TokenType.IntLiteral),
      Token("*", TokenType.Star), Token([d], TokenType.IntLiteral), Token(")", TokenType.RightParen),
      Token(")", TokenType.RightParen)]
  {
    var sum := ['(', b, '+', '(', c, '*', d, ')', ')'];
    LexSumChars(b, c, d);
    LexDigitOperator(a, '*', sum);
    assert [a, '*'] + sum == [a, '*', '(', b, '+', '(', c, '*', d, ')', ')'];
  }

  lemma LexNesting()
    ensures Lex("2*(3+(2*2))") == [Token("2", TokenType.IntLiteral), Token("*", TokenType.Star),
      Token("(", TokenType.LeftParen), Token("3", TokenType.IntLiteral), Token("+", TokenType.Plus),
      Token("(", TokenType.LeftParen), Token("2", TokenType.IntLiteral), Token("*", TokenType.Star),
      Token("2", TokenType.IntLiteral), Token(")", TokenType.RightParen), Token(")", TokenType.RightParen)]
  {
    LexNestedChars('2', '3', '2', '2');
  }

  lemma CalculateNesting()
    ensures Calculate("2*(3+(2*2))") == Success(14)
  {
    LexNesting();
    BracketedNesting();
    ValueNesting();
    CalculateShown("2*(3+(2*2))", Times(Num("2"), Plus(Num("3"), Times(Num("2"), Num("2")))));
  }

  // "1*2+3*5": two products summed, 2 + 15.

  lemma ShowProducts()
    ensures var n := Plus(Times(Num("1"), Num("2")), Times(Num("3"), Num("5")));
      IsExpr(n) && Show(n, Top) == [Token("1", TokenType.IntLiteral), Token("*", TokenType.Star),
        Token("2", TokenType.IntLiteral), Token("+", TokenType.Plus), Token("3", TokenType.IntLiteral),
        Token("*", TokenType.Star), Token("5", TokenType.IntLiteral)]
  {
    var l, r := Times(Num("1"), Num("2")), Times(Num("3"), Num("5"));
    assert IsLeaf(Num("1")) && IsLeaf(Num("2")) && IsLeaf(Num("3")) && IsLeaf(Num("5"));
    assert IsExpr(l) && IsExpr(r);
    assert Show(l, LeftOfAdditive) == [Token("1", TokenType.IntLiteral), Token("*", TokenType.Star), Token("2", TokenType.IntLiteral)];
    assert Show(r, Top) == [Token("3", TokenType.IntLiteral), Token("*", TokenType.Star), Token("5", TokenType.IntLiteral)];
  }

  lemma ValueProducts()
    ensures Evaluate(Plus(Times(Num("1"), Num("2")), Times(Num("3"), Num("5")))) == Success(17)
  {
    DigitNum('1'); DigitNum('2'); DigitNum('3'); DigitNum('5');
    EvaluateBinary(NodeKind.Multiplicative, "*", Num("1"), Num("2"));
    EvaluateBinary(NodeKind.Multiplicative, "*", Num("3"), Num("5"));
    EvaluateBinary(NodeKind.Additive, "+", Times(Num("1"), Num("2")), Times(Num("3"), Num("5")));
  }

  /** Two one-digit products summed, as characters. */
  lemma LexProductChars(a: char, b: char, c: char, d: char)
    requires IsDigit(a) && IsDigit(b) && IsDigit(c) && IsDigit(d)
    ensures Lex([a, '*', b, '+', c, '*', d]) == [Token([a], TokenType.IntLiteral), Token("*", TokenType.Star),
      Token([b], TokenType.IntLiteral), Token("+", TokenType.Plus), Token([c], TokenType.IntLiteral),
      Token("*", TokenType.Star), Token([d], TokenType.IntLiteral)]
  {
    LexSumProduct(b, c, d);
    LexDigitOperator(a, '*', [b, '+', c, '*', d]);
    assert [a, '*'] + [b, '+', c, '*', d] == [a, '*', b, '+', c, '*', d];
  }

  lemma LexProducts()
    ensures Lex("1*2+3*5") == [Token("1", TokenType.IntLiteral), Token("*", TokenType.Star),
      Token("2", TokenType.IntLiteral), Token("+", TokenType.Plus), Token("3", TokenType.IntLiteral),
      Token("*", TokenType.Star), Token("5", TokenType.IntLiteral)]
  {
    LexProductChars('1', '2', '3', '5');
  }

  lemma CalculateProducts()
    ensures Calculate("1*2+3*5") == Success(17)
  {
    LexProducts();
    ShowProducts();
    ValueProducts();
    CalculateShown("1*2+3*5", Plus(Times(Num("1"), Num("2")), Times(Num("3"), Num("5"))));
  }

  // "1*2+3*2+": the last '+' has no right operand.

  lemma ShowTrailingPlus()
    ensures var n := Plus(Times(Num("1"), Num("2")), Times(Num("3"), Num("2")));
      IsExpr(n) && Show(n, Top) + [Token("+", TokenType.Plus)] == [Token("1", TokenType.IntLiteral),
        Token("*", TokenType.Star), Token("2", TokenType.IntLiteral), Token("+", TokenType.Plus),
        Token("3", TokenType.IntLiteral), Token("*", TokenType.Star), Token("2", TokenType.IntLiteral),
        Token("+", TokenType.Plus)]
  {
    var l, r := Times(Num("1"), Num("2")), Times(Num("3"), Num("2"));
    assert IsLeaf(Num("1")) && IsLeaf(Num("2")) && IsLeaf(Num("3"));
    assert IsExpr(l) && IsExpr(r);
    assert Show(l, LeftOfAdditive) == [Token("1", TokenType.IntLiteral), Token("*", TokenType.Star), Token("2", TokenType.IntLiteral)];
    assert Show(r, Top) == [Token("3", TokenType.IntLiteral), Token("*", TokenType.Star), Token("2", TokenType.IntLiteral)];
  }

  /** The same with a `+` and nothing after it. */
  lemma LexTrailingChars(a: char, b: char, c: char, d: char)
    requires IsDigit(a) && IsDigit(b) && IsDigit(c) && IsDigit(d)
    ensures Lex([a, '*', b, '+', c, '*', d, '+']) == [Token([a], TokenType.IntLiteral), Token("*", TokenType.Star),
      Token([b], TokenType.IntLiteral), Token("+", TokenType.Plus), Token([c], TokenType.IntLiteral),
      Token("*", TokenType.Star), Token([d], TokenType.IntLiteral), Token("+", TokenType.Plus)]
  {
    LexDigitOperatorAtEnd(d, '+');
    LexDigitOperator(c, '*', [d, '+']);
    assert [c, '*'] + [d, '+'] == [c, '*', d, '+'];
    LexDigitOperator(b, '+', [c, '*', d, '+']);
    assert [b, '+'] + [c, '*', d, '+'] == [b, '+', c, '*', d, '+'];
    LexDigitOperator(a, '*', [b, '+', c, '*', d, '+']);
    assert [a, '*'] + [b, '+', c, '*', d, '+'] == [a, '*', b, '+', c, '*', d, '+'];
  }

  /** A digit and an operator that ends the input. */
  lemma LexDigitOperatorAtEnd(d: char, op: char)
    requires IsDigit(d) && Compoundable(op)
    ensures Lex([d, op]) == [Token([d], TokenType.IntLiteral), Token([op], SingleKind(op))]
  {
    LexOperatorAtEnd(op);
    LexNumberThen([d], op, []);
    assert [d] + [op] + [] == [d, op];
  }

  lemma LexTrailingPlus()
    ensures Lex("1*2+3*2+") == [Token("1", TokenType.IntLiteral), Token("*", TokenType.Star),
      Token("2", TokenType.IntLiteral), Token("+", TokenType.Plus), Token("3", TokenType.IntLiteral),
      Token("*", TokenType.Star), Token("2", TokenType.IntLiteral), Token("+", TokenType.Plus)]
  {
    LexTrailingChars('1', '2', '3', '2');
  }

  lemma CalculateTrailingPlus()
    ensures Calculate("1*2+3*2+") == Failure(Syntax(AdditiveMissingRight))
  {
    LexTrailingPlus();
    ShowTrailingPlus();
    CalculateTrailingOperator("1*2+3*2+", Plus(Times(Num("1"), Num("2")), Times(Num("3"), Num("2"))),
      Token("+", TokenType.Plus));
  }

  // "2 3": the program is the first expression; the rest is never read.

  lemma LexLeftover()
    ensures Lex("2 3") == [Token("2", TokenType.IntLiteral)] + [Token("3", TokenType.IntLiteral)]
  {
    assert "2 3" == "2" + [' '] + "3";
    LexSplitsAtSeparator("2", ' ', "3");
    LexDigits("2");
    LexDigits("3");
  }

  lemma CalculateLeftover()
    ensures Calculate("2 3") == Success(2)
  {
    LexLeftover();
    assert IsLeaf(Num("2"));
    assert Show(Num("2"), Top) == [Token("2", TokenType.IntLiteral)];
    DigitNum('2');
    CalculateLeavesRest("2 3", Num("2"), [Token("3", TokenType.IntLiteral)]);
  }

  // "": the program's only child is nil; dumping or evaluating it fails.

  lemma CalculateEmpty()
    ensures Calculate("") == Failure(Runtime(NilNode))
  {
    assert Lex("") == [];
    AtEnd(NewTokenReader([]));
  }

  // "7/0": parses, then fails on the division.

  lemma LexByZero()
    ensures Lex("7/0") == [Token("7", TokenType.IntLiteral), Token("/", TokenType.Slash), Token("0", TokenType.IntLiteral)]
  {
  }

  lemma ShowByZero()
    ensures var n := Over(Num("7"), Num("0"));
      IsExpr(n) && Show(n, Top) == [Token("7", TokenType.IntLiteral), Token("/", TokenType.Slash), Token("0", TokenType.IntLiteral)]
  {
    assert IsLeaf(Num("7")) && IsLeaf(Num("0"));
  }

  lemma CalculateByZero()
    ensures Calculate("7/0") == Failure(Runtime(DivisionByZero))
  {
    LexByZero();
    ShowByZero();
    DigitNum('7'); DigitNum('0');
    EvaluateBinary(NodeKind.Multiplicative, "/", Num("7"), Num("0"));
    CalculateShown("7/0", Over(Num("7"), Num("0")));
  }

  // "a+1": a name has no value of its own and counts as 0.

  lemma LexName()
    ensures Lex("a+1") == [Token("a", TokenType.Identifier), Token("+", TokenType.Plus), Token("1", TokenType.IntLiteral)]
  {
  }

  lemma ShowName()
    ensures var n := Plus(Node(NodeKind.Identifier, "a", []), Num("1"));
      IsExpr(n) && Show(n, Top) == [Token("a", TokenType.Identifier), Token("+", TokenType.Plus), Token("1", TokenType.IntLiteral)]
  {
    assert IsLeaf(Node(NodeKind.Identifier, "a", [])) && IsLeaf(Num("1"));
  }

  lemma CalculateName()
    ensures Calculate("a+1") == Success(1)
  {
    var a := Node(NodeKind.Identifier, "a", []);
    LexName();
    ShowName();
    DigitNum('1');
    EvaluateBinary(NodeKind.Additive, "+", a, Num("1"));
    CalculateShown("a+1", Plus(a, Num("1")));
  }

  // "int a;" is a declaration for `intDeclare`, but `prog` does not accept it.

  lemma LexDeclaredName()
    ensures Lex("a;") == [Token("a", TokenType.Identifier), Token(";", TokenType.SemiColon)]
  {
  }

  lemma LexDeclaration()
    ensures Lex("int a;") == [Token("int", TokenType.INT), Token("a", TokenType.Identifier), Token(";", TokenType.SemiColon)]
  {
    LexIntKeyword(' ', "a;");
    assert "int" + [' '] + "a;" == "int a;";
    LexDeclaredName();
  }

  lemma DeclareNameTokens()
    ensures var ts := [Token("int", TokenType.INT), Token("a", TokenType.Identifier), Token(";", TokenType.SemiColon)];
      IntDeclare(NewTokenReader(ts)) == Success(Parsed(Node(NodeKind.IntDeclaration, "a", []), Reader(ts, 3)))
  {
  }

  /** `intDeclare` on the tokens of the script: a declaration of `a` with no children. */
  lemma DeclareName()
    ensures IntDeclare(NewTokenReader(Lex("int a;"))) ==
      Success(Parsed(Node(NodeKind.IntDeclaration, "a", []), Reader(Lex("int a;"), 3)))
  {
    LexDeclaration();
    DeclareNameTokens();
  }

  lemma CalculateDeclaration()
    ensures Calculate("int a;") == Failure(Syntax(UnexpectedToken))
  {
    LexDeclaration();
    PrimaryErrors(NewTokenReader(Lex("int a;")));
  }

  // "int c = 2+3;": the initialiser becomes the declaration's only child.

  lemma ShowInitialiserSum()
    ensures var n := Plus(Num("2"), Num("3"));
      IsExpr(n) && DeclarationTokens("c", Some(n)) == [Token("int", TokenType.INT), Token("c", TokenType.Identifier),
        Token("=", TokenType.Assign), Token("2", TokenType.IntLiteral), Token("+", TokenType.Plus),
        Token("3", TokenType.IntLiteral), Token(";", TokenType.SemiColon)]
  {
    assert IsLeaf(Num("2")) && IsLeaf(Num("3"));
    assert Show(Plus(Num("2"), Num("3")), Top) ==
      [Token("2", TokenType.IntLiteral), Token("+", TokenType.Plus), Token("3", TokenType.IntLiteral)];
  }

  /** A digit and the closing `;`. */
  lemma LexDigitSemi(b: char)
    requires IsDigit(b)
    ensures Lex([b, ';']) == [Token([b], TokenType.IntLiteral), Token(";", TokenType.SemiColon)]
  {
    LexPunctuation(';', []);
    LexNumberThen([b], ';', []);
    assert [';'] + [] == [';'] && [b] + [';'] + [] == [b, ';'];
  }

  /** A blank is skipped. */
  lemma LexBlankFirst(rest: string)
    ensures Lex([' '] + rest) == Lex(rest)
  {
    LexSplitsAtSeparator([], ' ', rest);
    assert [] + [' '] + rest == [' '] + rest;
  }

  /** A one-digit sum and the closing `;`. */
  lemma LexSumSemi(a: char, b: char)
    requires IsDigit(a) && IsDigit(b)
    ensures Lex([a, '+', b, ';']) == [Token([a], TokenType.IntLiteral), Token("+", TokenType.Plus),
      Token([b], TokenType.IntLiteral), Token(";", TokenType.SemiColon)]
  {
    LexDigitSemi(b);
    LexDigitOperator(a, '+', [b, ';']);
    assert [a, '+'] + [b, ';'] == [a, '+', b, ';'];
  }

  /** `= a+b;` with blanks around the `=`, one digit per number. */
  lemma LexInitialiserChars(a: char, b: char)
    requires IsDigit(a) && IsDigit(b)
    ensures Lex([' ', '=', ' ', a, '+', b, ';']) == [Token("=", TokenType.Assign), Token([a], TokenType.IntLiteral),
      Token("+", TokenType.Plus), Token([b], TokenType.IntLiteral), Token(";", TokenType.SemiColon)]
  {
    LexAssignSum(a, b);
    LexBlankFirst(['=', ' ', a, '+', b, ';']);
    assert [' '] + ['=', ' ', a, '+', b, ';'] == [' ', '=', ' ', a, '+', b, ';'];
  }

  /** `= a+b;` with a blank after the `=`. */
  lemma LexAssignSum(a: char, b: char)
    requires IsDigit(a) && IsDigit(b)
    ensures Lex(['=', ' ', a, '+', b, ';']) == [Token("=", TokenType.Assign), Token([a], TokenType.IntLiteral),
      Token("+", TokenType.Plus), Token([b], TokenType.IntLiteral), Token(";", TokenType.SemiColon)]
  {
    var sum := [a, '+', b, ';'];
    LexSumSemi(a, b);
    LexBlankFirst(sum);
    LexSingleOperator('=', ' ', sum);
    assert ['=', ' '] + sum == ['=', ' ', a, '+', b, ';'];
  }

  /** `int x = a+b;` with a one-letter name and one digit per number. */
  lemma LexDeclarationChars(x: char, a: char, b: char)
    requires IsAlpha(x) && IsDigit(a) && IsDigit(b)
    ensures Lex(['i', 'n', 't', ' ', x, ' ', '=', ' ', a, '+', b, ';']) == [Token("int", TokenType.INT),
      Token([x], TokenType.Identifier), Token("=", TokenType.Assign), Token([a], TokenType.IntLiteral),
      Token("+", TokenType.Plus), Token([b], TokenType.IntLiteral), Token(";", TokenType.SemiColon)]
  {
    var init := [' ', '=', ' ', a, '+', b, ';'];
    LexInitialiserChars(a, b);
    assert IsWord([x]);
    LexWord([x], init);
    LexIntKeyword(' ', [x] + init);
    assert "int" + [' '] + ([x] + init) == ['i', 'n', 't', ' ', x, ' ', '=', ' ', a, '+', b, ';'];
  }

  lemma LexInitialised()
    ensures Lex("int c = 2+3;") == [Token("int", TokenType.INT), Token("c", TokenType.Identifier),
      Token("=", TokenType.Assign), Token("2", TokenType.IntLiteral), Token("+", TokenType.Plus),
      Token("3", TokenType.IntLiteral), Token(";", TokenType.SemiColon)]
  {
    LexDeclarationChars('c', '2', '3');
  }

  /** `intDeclare` on the tokens of the script: a declaration of `c` whose only child is the sum. */
  lemma DeclareInitialised()
    ensures IntDeclare(NewTokenReader(Lex("int c = 2+3;"))) ==
      Success(Parsed(Node(NodeKind.IntDeclaration, "c", [Plus(Num("2"), Num("3"))]), Reader(Lex("int c = 2+3;"), 7)))
  {
    var n := Plus(Num("2"), Num("3"));
    LexInitialised();
    ShowInitialiserSum();
    ShowDeclaration("c", Some(n), []);
    Whole(DeclarationTokens("c", Some(n)));
  }


  // "int+1": `int` followed by anything but a blank runs on into one identifier.

  /** `int`, a character that is not blank, and a letter or digit make one identifier. */
  lemma LexIntGluedChars(c: char, d: char)
    requires !IsBlank(c) && IsWordChar(d)
    ensures Lex(['i', 'n', 't', c, d]) == [Token(['i', 'n', 't', c, d], TokenType.Identifier)]
  {
    LexIntThenOther(c, [d], []);
    assert "int" + [c] + [d] == ['i', 'n', 't', c, d];
    assert "int" + [c] + [d] + [] == ['i', 'n', 't', c, d];
    assert Lex([]) == [];
  }

  lemma LexIntGlued()
    ensures Lex("int+1") == [Token("int+1", TokenType.Identifier)]
  {
    LexIntGluedChars('+', '1');
  }

  lemma CalculateIntGlued()
    ensures Calculate("int+1") == Success(0)
  {
    var n := Node(NodeKind.Identifier, "int+1", []);
    LexIntGlued();
    assert IsLeaf(n) && Show(n, Top) == [Token("int+1", TokenType.Identifier)];
    CalculateShown("int+1", n);
  }
}
