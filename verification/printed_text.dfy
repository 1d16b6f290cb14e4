/**
 * Expression trees as script text: the tokens a tree is printed as, joined
 * into one string, scan back to exactly those tokens when every name is a
 * word other than `int`. This is what lets the whole pipeline be stated on
 * text rather than on tokens.
 */
module PrintedText {
  import opened Tokens
  import opened Lexer
  import opened LexerFacts
  import opened Ast
  import opened Parser
  import opened ParserFacts

  /**
   * Names spelled as the scanner reads them back: words other than `int`,
   * which the scanner would run on into whatever character follows it.
   */
  predicate WordNames(n: Node) {
    match n
    case Nil => true
    case Node(kind, text, children) =>
      && (kind == NodeKind.Identifier ==> IsWord(text) && text != "int")
      && (forall i :: 0 <= i < |children| ==> WordNames(children[i]))
  }

  /** An expression tree whose printed text scans back to its printed tokens. */
  predicate Scannable(n: Node) {
    IsExpr(n) && Canonical(n) && WordNames(n)
  }

  /** Printed tokens start with an operand or '(' and end with an operand or ')'. */
  predicate Framed(ts: seq<Token>) {
    && |ts| > 0
    && ts[0].kind in {TokenType.IntLiteral, TokenType.Identifier, TokenType.LeftParen}
    && ts[|ts| - 1].kind in {TokenType.IntLiteral, TokenType.Identifier, TokenType.RightParen}
  }

  /** The operands of a scannable operator node are scannable. */
  lemma ScannableChildren(n: Node)
    requires Scannable(n) && IsBinary(n)
    ensures Scannable(n.children[0]) && Scannable(n.children[1])
  {
  }

  /** A leaf of a scannable tree is printed as one token that reads back as itself. */
  lemma LeafSeparable(n: Node)
    requires Scannable(n) && IsLeaf(n)
    ensures Separable([LeafToken(n)]) && Framed([LeafToken(n)])
  {
    var t := LeafToken(n);
    assert Atomic(t);
  }

  /** An operator node's token reads back as itself. */
  lemma OperatorAtomic(n: Node)
    requires Scannable(n) && IsBinary(n)
    ensures Atomic(OperatorToken(n))
    ensures OperatorToken(n).kind in {TokenType.Plus, TokenType.Minus, TokenType.Star, TokenType.Slash}
  {
    var t := OperatorToken(n);
    assert t.text == [t.text[0]];
  }

  /** Two printed operands around an operator. */
  lemma Join(ls: seq<Token>, op: Token, ms: seq<Token>)
    requires Separable(ls) && Framed(ls) && Separable(ms) && Framed(ms)
    requires Atomic(op) && op.kind in {TokenType.Plus, TokenType.Minus, TokenType.Star, TokenType.Slash}
    ensures Separable(ls + [op] + ms) && Framed(ls + [op] + ms)
  {
    assert Separable([op]);
    assert ms[0].text[0] != '=';
    SeparableAppend(ls, [op]);
    SeparableAppend(ls + [op], ms);
  }

  /** A printed tree in parentheses. */
  lemma Wrap(ts: seq<Token>)
    requires Separable(ts) && Framed(ts)
    ensures var w := [Token("(", TokenType.LeftParen)] + ts + [Token(")", TokenType.RightParen)];
      Separable(w) && Framed(w)
  {
    var lp, rp := [Token("(", TokenType.LeftParen)], [Token(")", TokenType.RightParen)];
    assert Atomic(lp[0]) && Atomic(rp[0]);
    assert Separable(lp) && Separable(rp);
    SeparableAppend(lp, ts);
    SeparableAppend(lp + ts, rp);
  }

  /** Every printing of a scannable tree is separable, and starts and ends with an operand or a parenthesis. */
  lemma {:induction false} ShowSeparable(n: Node, at: Place)
    requires Scannable(n)
    ensures Separable(Show(n, at)) && Framed(Show(n, at))
    decreases n, if NeedsParens(n, at) then 1 else 0
  {
    if NeedsParens(n, at) {
      ShowSeparable(n, Top);
      Wrap(Show(n, Top));
    } else if IsLeaf(n) {
      LeafSeparable(n);
    } else {
      var left := if n.kind == NodeKind.Additive then LeftOfAdditive else LeftOfMultiplicative;
      var right := if n.kind == NodeKind.Additive then Top else RightOfMultiplicative;
      ScannableChildren(n);
      ShowSeparable(n.children[0], left);
      ShowSeparable(n.children[1], right);
      OperatorAtomic(n);
      assert Show(n, at) == Show(n.children[0], left) + [OperatorToken(n)] + Show(n.children[1], right);
      Join(Show(n.children[0], left), OperatorToken(n), Show(n.children[1], right));
    }
  }

  /** The same for the fully parenthesised printing, operand by operand. */
  lemma {:induction false} OperandSeparable(n: Node)
    requires Scannable(n)
    ensures Separable(Operand(n)) && Framed(Operand(n))
    decreases n, 1
  {
    if IsLeaf(n) {
      LeafSeparable(n);
    } else {
      BracketedSeparable(n);
      Wrap(Bracketed(n));
    }
  }

  lemma {:induction false} BracketedSeparable(n: Node)
    requires Scannable(n)
    ensures Separable(Bracketed(n)) && Framed(Bracketed(n))
    decreases n, 0
  {
    if IsLeaf(n) {
      LeafSeparable(n);
    } else {
      ScannableChildren(n);
      OperandSeparable(n.children[0]);
      OperandSeparable(n.children[1]);
      OperatorAtomic(n);
      Join(Operand(n.children[0]), OperatorToken(n), Operand(n.children[1]));
    }
  }

  /** The text of a printed tree scans back to its printed tokens. */
  lemma LexShow(n: Node)
    requires Scannable(n)
    ensures Lex(Concat(Show(n, Top))) == Show(n, Top)
  {
    ShowSeparable(n, Top);
    LexConcat(Show(n, Top));
  }

  /** The same for the fully parenthesised printing. */
  lemma LexBracketed(n: Node)
    requires Scannable(n)
    ensures Lex(Concat(Bracketed(n))) == Bracketed(n)
  {
    BracketedSeparable(n);
    LexConcat(Bracketed(n));
  }
}
