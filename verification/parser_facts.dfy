/**
 * Properties of the parser of calculator.go: it reads back, tree for tree,
 * the tokens a printer writes for any expression tree; and what the
 * individual rules do at their boundaries.
 */
module ParserFacts {
  import opened Wrappers
  import opened Tokens
  import opened TokenReader
  import opened Ast
  import opened Parser

  // ---------------------------------------------------------------------------
  // What the rules build
  // ---------------------------------------------------------------------------

  /** How the tokens the expression rules consume are spelled. */
  lemma NextTokenText(r: Reader)
    requires Valid(r) && AllTokensOk(r.tokens) && r.position < |r.tokens|
    ensures var t := r.tokens[r.position];
      && (t.kind == TokenType.Plus ==> t.text == "+")
      && (t.kind == TokenType.Minus ==> t.text == "-")
      && (t.kind == TokenType.Star ==> t.text == "*")
      && (t.kind == TokenType.Slash ==> t.text == "/")
      && (t.kind == TokenType.IntLiteral ==> |t.text| > 0 && AllDigits(t.text))
      && (t.kind == TokenType.Identifier ==> |t.text| > 0 && IsAlpha(t.text[0]))
  {
    assert TokenOk(r.tokens[r.position]);
  }

  /**
   * `additive` builds nothing or an expression tree, spelled canonically
   * over well-formed tokens.
   */
  lemma {:induction false} AdditiveShape(r: Reader)
    requires Valid(r)
    ensures ShapeOk(r, Parser.Additive(r))
    decreases |r.tokens| - r.position, 2
  {
    MultiplicativeShape(r);
    var first := Parser.Multiplicative(r);
    if first.Success? && first.value.node != Nil {
      var r1 := first.value.rest;
      if NextIs(r1, TokenType.Plus) || NextIs(r1, TokenType.Minus) {
        var r2 := Read(r1).1;
        AdditiveShape(r2);
        var second := Parser.Additive(r2);
        if second.Success? && second.value.node != Nil {
          var op := r1.tokens[r1.position];
          BinaryShapeOk(r, NodeKind.Additive, op, first.value.node, second.value.node, second.value.rest);
          assert Parser.Additive(r) ==
            Success(Parsed(Binary(NodeKind.Additive, op.text, first.value.node, second.value.node), second.value.rest));
        }
      }
    }
  }

  /** The same for `multiplicative`. */
  lemma {:induction false} MultiplicativeShape(r: Reader)
    requires Valid(r)
    ensures ShapeOk(r, Parser.Multiplicative(r))
    decreases |r.tokens| - r.position, 1
  {
    PrimaryShape(r);
    var first := Parser.Primary(r);
    if first.Success? && first.value.node != Nil {
      var r1 := first.value.rest;
      if NextIs(r1, TokenType.Star) || NextIs(r1, TokenType.Slash) {
        var r2 := Read(r1).1;
        MultiplicativeShape(r2);
        var second := Parser.Multiplicative(r2);
        if second.Success? && second.value.node != Nil {
          var op := r1.tokens[r1.position];
          BinaryShapeOk(r, NodeKind.Multiplicative, op, first.value.node, second.value.node, second.value.rest);
          assert Parser.Multiplicative(r) ==
            Success(Parsed(Binary(NodeKind.Multiplicative, op.text, first.value.node, second.value.node), second.value.rest));
        }
      }
    }
  }

  /** A binary node over two shapely operands, joined by an operator token of its rule, is shapely. */
  lemma BinaryShapeOk(r: Reader, kind: NodeKind, op: Token, left: Node, right: Node, rest: Reader)
    requires (kind == NodeKind.Additive && op.kind in {TokenType.Plus, TokenType.Minus})
      || (kind == NodeKind.Multiplicative && op.kind in {TokenType.Star, TokenType.Slash})
    requires ShapeOk(r, Success(Parsed(left, rest))) && ShapeOk(r, Success(Parsed(right, rest)))
    requires left != Nil && right != Nil
    requires AllTokensOk(r.tokens) ==> TokenOk(op)
    ensures ShapeOk(r, Success(Parsed(Binary(kind, op.text, left, right), rest)))
  {
  }

  /** The same for `primary`. */
  lemma {:induction false} PrimaryShape(r: Reader)
    requires Valid(r)
    ensures ShapeOk(r, Parser.Primary(r))
    decreases |r.tokens| - r.position, 0
  {
    if NextIs(r, TokenType.LeftParen) {
      AdditiveShape(Read(r).1);
    } else if r.position < |r.tokens| && AllTokensOk(r.tokens) {
      NextTokenText(r);
    }
  }

  /** With no '(' ahead, `additive` builds a right-nested chain of sums of products. */
  lemma {:induction false} AdditiveChain(r: Reader)
    requires Valid(r) && ParenFree(r)
    ensures var res := Parser.Additive(r);
      res.Success? && res.value.node != Nil ==> IsSum(res.value.node)
    decreases |r.tokens| - r.position
  {
    MultiplicativeChain(r);
    var first := Parser.Multiplicative(r);
    if first.Success? && first.value.node != Nil {
      var r1 := first.value.rest;
      if NextIs(r1, TokenType.Plus) || NextIs(r1, TokenType.Minus) {
        var r2 := Read(r1).1;
        AdditiveChain(r2);
        var second := Parser.Additive(r2);
        if second.Success? && second.value.node != Nil {
          AdditiveBinary(r, first.value.node, r1, second.value.node, second.value.rest);
          ChainNode(NodeKind.Additive, Peek(r1).value.text, first.value.node, second.value.node);
        }
      }
    }
  }

  /** One more link of a right-nested chain. */
  lemma ChainNode(kind: NodeKind, text: string, l: Node, m: Node)
    requires kind == NodeKind.Additive || kind == NodeKind.Multiplicative
    requires kind == NodeKind.Additive ==> IsProduct(l) && IsSum(m)
    requires kind == NodeKind.Multiplicative ==> IsLeaf(l) && IsProduct(m)
    ensures kind == NodeKind.Additive ==> IsSum(Node(kind, text, [l, m]))
    ensures kind == NodeKind.Multiplicative ==> IsProduct(Node(kind, text, [l, m]))
  {
  }

  /** With no '(' ahead, `primary` builds a leaf. */
  lemma PrimaryChain(r: Reader)
    requires Valid(r) && ParenFree(r)
    ensures var res := Parser.Primary(r);
      res.Success? && res.value.node != Nil ==> IsLeaf(res.value.node)
  {
    assert !NextIs(r, TokenType.LeftParen);
  }

  /** With no '(' ahead, `multiplicative` builds a right-nested chain of products of leaves. */
  lemma {:induction false} MultiplicativeChain(r: Reader)
    requires Valid(r) && ParenFree(r)
    ensures var res := Parser.Multiplicative(r);
      res.Success? && res.value.node != Nil ==> IsProduct(res.value.node)
    decreases |r.tokens| - r.position
  {
    var first := Parser.Primary(r);
    PrimaryChain(r);
    if first.Success? && first.value.node != Nil {
      var r1 := first.value.rest;
      if NextIs(r1, TokenType.Star) || NextIs(r1, TokenType.Slash) {
        var r2 := Read(r1).1;
        MultiplicativeChain(r2);
        var second := Parser.Multiplicative(r2);
        if second.Success? && second.value.node != Nil {
          MultiplicativeBinary(r, first.value.node, r1, second.value.node, second.value.rest);
          ChainNode(NodeKind.Multiplicative, Peek(r1).value.text, first.value.node, second.value.node);
        }
      }
    }
  }

  // ---------------------------------------------------------------------------
  // One step of each rule
  // ---------------------------------------------------------------------------

  /** Kinds that make `additive` or `multiplicative` go on. */
  predicate IsAddOperator(k: TokenType) {
    k == TokenType.Plus || k == TokenType.Minus
  }

  predicate IsMulOperator(k: TokenType) {
    k == TokenType.Star || k == TokenType.Slash
  }

  predicate IsOperator(k: TokenType) {
    IsAddOperator(k) || IsMulOperator(k)
  }

  lemma PrimaryLeaf(r: Reader)
    requires Valid(r) && (NextIs(r, TokenType.IntLiteral) || NextIs(r, TokenType.Identifier))
    ensures var t := Peek(r).value;
      var k := if t.kind == TokenType.IntLiteral then NodeKind.IntLiteral else NodeKind.Identifier;
      Parser.Primary(r) == Success(Parsed(Node(k, t.text, []), Read(r).1))
  {
  }

  lemma PrimaryParen(r: Reader, m: Node, r2: Reader)
    requires Valid(r) && NextIs(r, TokenType.LeftParen)
    requires Parser.Additive(Read(r).1) == Success(Parsed(m, r2))
    requires m != Nil && Valid(r2) && NextIs(r2, TokenType.RightParen)
    ensures Parser.Primary(r) == Success(Parsed(m, Read(r2).1))
  {
  }

  lemma MultiplicativeOperand(r: Reader, m: Node, r1: Reader)
    requires Valid(r) && Parser.Primary(r) == Success(Parsed(m, r1)) && m != Nil
    requires Valid(r1) && !NextIs(r1, TokenType.Star) && !NextIs(r1, TokenType.Slash)
    ensures Parser.Multiplicative(r) == Success(Parsed(m, r1))
  {
  }

  lemma MultiplicativeBinary(r: Reader, l: Node, r1: Reader, m: Node, r2: Reader)
    requires Valid(r) && Parser.Primary(r) == Success(Parsed(l, r1)) && l != Nil
    requires Valid(r1) && (NextIs(r1, TokenType.Star) || NextIs(r1, TokenType.Slash))
    requires Parser.Multiplicative(Read(r1).1) == Success(Parsed(m, r2)) && m != Nil
    ensures Parser.Multiplicative(r) ==
      Success(Parsed(Node(NodeKind.Multiplicative, Peek(r1).value.text, [l, m]), r2))
  {
    var b := Binary(NodeKind.Multiplicative, Peek(r1).value.text, l, m);
  }

  lemma AdditiveOperand(r: Reader, m: Node, r1: Reader)
    requires Valid(r) && Parser.Multiplicative(r) == Success(Parsed(m, r1)) && m != Nil
    requires Valid(r1) && !NextIs(r1, TokenType.Plus) && !NextIs(r1, TokenType.Minus)
    ensures Parser.Additive(r) == Success(Parsed(m, r1))
  {
  }

  lemma AdditiveBinary(r: Reader, l: Node, r1: Reader, m: Node, r2: Reader)
    requires Valid(r) && Parser.Multiplicative(r) == Success(Parsed(l, r1)) && l != Nil
    requires Valid(r1) && (NextIs(r1, TokenType.Plus) || NextIs(r1, TokenType.Minus))
    requires Parser.Additive(Read(r1).1) == Success(Parsed(m, r2)) && m != Nil
    ensures Parser.Additive(r) ==
      Success(Parsed(Node(NodeKind.Additive, Peek(r1).value.text, [l, m]), r2))
  {
    var b := Binary(NodeKind.Additive, Peek(r1).value.text, l, m);
  }

  /** At the end of the tokens every expression rule returns nothing, and no error. */
  lemma AtEnd(r: Reader)
    requires Valid(r) && r.position == |r.tokens|
    ensures Parser.Primary(r) == Success(Parsed(Nil, r))
    ensures Parser.Multiplicative(r) == Success(Parsed(Nil, r))
    ensures Parser.Additive(r) == Success(Parsed(Nil, r))
  {
  }

  /** A token that starts no operand is an error; so is '(' expression without ')'. */
  lemma PrimaryErrors(r: Reader)
    requires Valid(r)
    ensures Peek(r).Some? && !(Peek(r).value.kind in {TokenType.IntLiteral, TokenType.Identifier, TokenType.LeftParen}) ==>
      Parser.Primary(r) == Failure(UnexpectedToken)
    ensures NextIs(r, TokenType.LeftParen) ==>
      var inner := Parser.Additive(Read(r).1);
      && (inner.Failure? ==> Parser.Primary(r) == Failure(inner.error))
      && (inner.Success? && inner.value.node == Nil ==> Parser.Primary(r) == Success(Parsed(Nil, inner.value.rest)))
      && (inner.Success? && inner.value.node != Nil && !NextIs(inner.value.rest, TokenType.RightParen) ==>
            Parser.Primary(r) == Failure(MissingRightParen))
  {
  }

  /** An operator after an operand whose right side is empty or fails. */
  lemma MultiplicativeMissing(r: Reader, l: Node, r1: Reader)
    requires Valid(r) && Parser.Primary(r) == Success(Parsed(l, r1)) && l != Nil
    requires Valid(r1) && (NextIs(r1, TokenType.Star) || NextIs(r1, TokenType.Slash))
    ensures var right := Parser.Multiplicative(Read(r1).1);
      && (right.Failure? ==> Parser.Multiplicative(r) == Failure(right.error))
      && (right.Success? && right.value.node == Nil ==> Parser.Multiplicative(r) == Failure(MultiplicativeMissingRight))
  {
  }

  lemma AdditiveMissing(r: Reader, l: Node, r1: Reader)
    requires Valid(r) && Parser.Multiplicative(r) == Success(Parsed(l, r1)) && l != Nil
    requires Valid(r1) && (NextIs(r1, TokenType.Plus) || NextIs(r1, TokenType.Minus))
    ensures var right := Parser.Additive(Read(r1).1);
      && (right.Failure? ==> Parser.Additive(r) == Failure(right.error))
      && (right.Success? && right.value.node == Nil ==> Parser.Additive(r) == Failure(AdditiveMissingRight))
  {
  }

  // ---------------------------------------------------------------------------
  // Printing a tree as tokens
  // ---------------------------------------------------------------------------

  /** Where a subtree is printed: which rule will read it back. */
  datatype Place = Top | LeftOfAdditive | LeftOfMultiplicative | RightOfMultiplicative

  /**
   * Parentheses are needed exactly where the grammar would otherwise group
   * differently: a sum as a left operand or below a product, a product as the
   * left operand of a product (chains nest to the right).
   */
  predicate NeedsParens(n: Node, at: Place) {
    n.Node? &&
    match at
    case Top => false
    case LeftOfAdditive => n.kind == NodeKind.Additive
    case LeftOfMultiplicative => n.kind in {NodeKind.Additive, NodeKind.Multiplicative}
    case RightOfMultiplicative => n.kind == NodeKind.Additive
  }

  /** The token an operator node is printed as. */
  function OperatorToken(n: Node): Token
    requires IsBinary(n)
  {
    var k :=
      if n.kind == NodeKind.Additive then (if n.text == "+" then TokenType.Plus else TokenType.Minus)
      else (if n.text == "*" then TokenType.Star else TokenType.Slash);
    Token(n.text, k)
  }

  /** The token a leaf is printed as. */
  function LeafToken(n: Node): Token
    requires IsLeaf(n)
  {
    Token(n.text, if n.kind == NodeKind.IntLiteral then TokenType.IntLiteral else TokenType.Identifier)
  }

  /** Infix tokens for an expression tree, with the fewest parentheses the grammar needs. */
  function Show(n: Node, at: Place): seq<Token>
    requires IsExpr(n)
    decreases n, if NeedsParens(n, at) then 1 else 0
  {
    if NeedsParens(n, at) then [Token("(", TokenType.LeftParen)] + Show(n, Top) + [Token(")", TokenType.RightParen)]
    else if IsLeaf(n) then [LeafToken(n)]
    else if n.kind == NodeKind.Additive then
      Show(n.children[0], LeftOfAdditive) + [OperatorToken(n)] + Show(n.children[1], Top)
    else
      Show(n.children[0], LeftOfMultiplicative) + [OperatorToken(n)] + Show(n.children[1], RightOfMultiplicative)
  }

  /** `multiplicative` assembles an operator node from its two operands. */
  lemma ProductStep(n: Node, r: Reader, r1: Reader, after: Reader)
    requires IsExpr(n) && IsBinary(n) && n.kind == NodeKind.Multiplicative && Valid(r) && Valid(r1)
    requires Parser.Primary(r) == Success(Parsed(n.children[0], r1))
    requires r1.position < |r1.tokens| && r1.tokens[r1.position] == OperatorToken(n)
    requires Parser.Multiplicative(Read(r1).1) == Success(Parsed(n.children[1], after))
    ensures Parser.Multiplicative(r) == Success(Parsed(n, after))
  {
    var l, m := n.children[0], n.children[1];
    assert l != Nil && m != Nil;
    assert NextIs(r1, TokenType.Star) || NextIs(r1, TokenType.Slash);
    assert Peek(r1).value.text == n.text;
    assert n == Node(NodeKind.Multiplicative, n.text, [l, m]);
    MultiplicativeBinary(r, l, r1, m, after);
  }

  /** `additive` assembles an operator node from its two operands. */
  lemma SumStep(n: Node, r: Reader, r1: Reader, after: Reader)
    requires IsExpr(n) && IsBinary(n) && n.kind == NodeKind.Additive && Valid(r) && Valid(r1)
    requires Parser.Multiplicative(r) == Success(Parsed(n.children[0], r1))
    requires r1.position < |r1.tokens| && r1.tokens[r1.position] == OperatorToken(n)
    requires Parser.Additive(Read(r1).1) == Success(Parsed(n.children[1], after))
    ensures Parser.Additive(r) == Success(Parsed(n, after))
  {
    var l, m := n.children[0], n.children[1];
    assert l != Nil && m != Nil;
    assert NextIs(r1, TokenType.Plus) || NextIs(r1, TokenType.Minus);
    assert Peek(r1).value.text == n.text;
    assert n == Node(NodeKind.Additive, n.text, [l, m]);
    AdditiveBinary(r, l, r1, m, after);
  }

  /** The tokens after a printed tree do not make the rule for `at` read on. */
  predicate Stops(at: Place, post: seq<Token>) {
    |post| == 0 ||
    match at
    case Top => !IsOperator(post[0].kind)
    case LeftOfMultiplicative => true
    case _ => !IsMulOperator(post[0].kind)
  }

  /** A cursor at the start of `ts`, with `pre` before it and `post` after it. */
  function At(pre: seq<Token>, ts: seq<Token>, post: seq<Token>): (r: Reader)
    ensures Valid(r)
  {
    Reader(pre + ts + post, |pre|)
  }

  /** The cursor just past `ts`. */
  function Past(pre: seq<Token>, ts: seq<Token>, post: seq<Token>): (r: Reader)
    ensures Valid(r)
  {
    Reader(pre + ts + post, |pre| + |ts|)
  }

  /** The cursor a program starts from. */
  lemma Whole(ts: seq<Token>)
    ensures At([], ts, []) == NewTokenReader(ts)
  {
    assert [] + ts + [] == ts;
  }

  /** The cursor a program starts from, with tokens after the part of interest. */
  lemma Prefix(ts: seq<Token>, post: seq<Token>)
    ensures At([], ts, post) == NewTokenReader(ts + post)
  {
    assert [] + ts + post == ts + post;
  }

  /** A leaf read by `primary`. */
  lemma ParseLeaf(n: Node, pre: seq<Token>, post: seq<Token>)
    requires IsLeaf(n)
    ensures Parser.Primary(At(pre, [LeafToken(n)], post)) ==
      Success(Parsed(n, Past(pre, [LeafToken(n)], post)))
  {
    var r := At(pre, [LeafToken(n)], post);
    assert r.tokens[|pre|] == LeafToken(n);
    assert NextIs(r, TokenType.IntLiteral) || NextIs(r, TokenType.Identifier);
    PrimaryLeaf(r);
  }

  /**
   * Ranks for the `decreases` clauses of the round-trip lemmas below, which
   * call each other on the same tree: a rule reads a tree that needs
   * parentheses through `primary`, `primary` reads the parenthesised tree
   * through `additive`, and so on until an operator node is split into its
   * (smaller) operands. The rank orders these calls per kind of tree.
   */
  function Rank(n: Node, ifSum: nat, ifLeaf: nat, ifProduct: nat): nat {
    if IsLeaf(n) then ifLeaf else if n.Node? && n.kind == NodeKind.Additive then ifSum else ifProduct
  }

  /** Where the operands and the operator of a printed operator node sit. */
  lemma BinaryLayout(n: Node, at: Place, left: Place, right: Place, pre: seq<Token>, post: seq<Token>)
    requires IsExpr(n) && IsBinary(n) && !NeedsParens(n, at)
    requires left == (if n.kind == NodeKind.Additive then LeftOfAdditive else LeftOfMultiplicative)
    requires right == (if n.kind == NodeKind.Additive then Top else RightOfMultiplicative)
    ensures var op, ls, ms := OperatorToken(n), Show(n.children[0], left), Show(n.children[1], right);
      var r1 := Past(pre, ls, [op] + ms + post);
      && At(pre, Show(n, at), post) == At(pre, ls, [op] + ms + post)
      && r1.tokens[r1.position] == op
      && Read(r1).1 == At(pre + ls + [op], ms, post)
      && Past(pre, Show(n, at), post) == Past(pre + ls + [op], ms, post)
  {
    var op, ls, ms := OperatorToken(n), Show(n.children[0], left), Show(n.children[1], right);
    assert Show(n, at) == ls + [op] + ms;
    assert pre + Show(n, at) + post == pre + ls + ([op] + ms + post) == (pre + ls + [op]) + ms + post;
  }

  /** What `primary` reads back: a leaf, or any operator tree in parentheses. */
  lemma {:induction false} ShowPrimary(n: Node, pre: seq<Token>, post: seq<Token>)
    requires IsExpr(n)
    ensures Parser.Primary(At(pre, Show(n, LeftOfMultiplicative), post)) ==
      Success(Parsed(n, Past(pre, Show(n, LeftOfMultiplicative), post)))
    decreases n, Rank(n, 4, 2, 6)
  {
    if IsLeaf(n) {
      ParseLeaf(n, pre, post);
    } else {
      ShowParens(n, pre, post);
    }
  }

  lemma {:induction false} ShowParens(n: Node, pre: seq<Token>, post: seq<Token>)
    requires IsExpr(n) && IsBinary(n)
    ensures Parser.Primary(At(pre, Show(n, LeftOfMultiplicative), post)) ==
      Success(Parsed(n, Past(pre, Show(n, LeftOfMultiplicative), post)))
    decreases n, Rank(n, 3, 0, 5)
  {
    var open, close := Token("(", TokenType.LeftParen), Token(")", TokenType.RightParen);
    var s, ps := Show(n, Top), Show(n, LeftOfMultiplicative);
    var r := At(pre, ps, post);
    var r2 := Past(pre + [open], s, [close] + post);
    assert ps == [open] + s + [close];
    assert r.tokens == (pre + [open]) + s + ([close] + post);
    assert r.tokens[|pre|] == open && r2.tokens[r2.position] == close;
    assert Read(r).1 == At(pre + [open], s, [close] + post);
    assert Read(r2).1 == Past(pre, ps, post);
    ShowAdditive(n, pre + [open], [close] + post);
    PrimaryParen(r, n, r2);
  }

  /** What `multiplicative` reads back: a tree printed as an operand of `+`, `-` or right of `*`, `/`. */
  lemma {:induction false} ShowMultiplicative(n: Node, pre: seq<Token>, post: seq<Token>)
    requires IsExpr(n) && Stops(RightOfMultiplicative, post)
    ensures Parser.Multiplicative(At(pre, Show(n, RightOfMultiplicative), post)) ==
      Success(Parsed(n, Past(pre, Show(n, RightOfMultiplicative), post)))
    decreases n, Rank(n, 6, 4, 2)
  {
    if IsLeaf(n) || n.kind == NodeKind.Additive {
      ShowMultiplicativeOperand(n, pre, post);
    } else {
      ShowProduct(n, pre, post);
    }
  }

  lemma {:induction false} ShowMultiplicativeOperand(n: Node, pre: seq<Token>, post: seq<Token>)
    requires IsExpr(n) && (IsLeaf(n) || n.kind == NodeKind.Additive) && Stops(RightOfMultiplicative, post)
    ensures Parser.Multiplicative(At(pre, Show(n, RightOfMultiplicative), post)) ==
      Success(Parsed(n, Past(pre, Show(n, RightOfMultiplicative), post)))
    decreases n, Rank(n, 5, 3, 0)
  {
    var s := Show(n, RightOfMultiplicative);
    var after := Past(pre, s, post);
    assert Show(n, LeftOfMultiplicative) == s;
    assert |post| > 0 ==> after.tokens[after.position] == post[0];
    assert !NextIs(after, TokenType.Star) && !NextIs(after, TokenType.Slash);
    ShowPrimary(n, pre, post);
    MultiplicativeOperand(At(pre, s, post), n, after);
  }

  lemma {:induction false} ShowProduct(n: Node, pre: seq<Token>, post: seq<Token>)
    requires IsExpr(n) && IsBinary(n) && n.kind == NodeKind.Multiplicative
    requires Stops(RightOfMultiplicative, post)
    ensures Parser.Multiplicative(At(pre, Show(n, RightOfMultiplicative), post)) ==
      Success(Parsed(n, Past(pre, Show(n, RightOfMultiplicative), post)))
    decreases n, 1
  {
    var l, m, op := n.children[0], n.children[1], OperatorToken(n);
    var s, ls, ms := Show(n, RightOfMultiplicative), Show(l, LeftOfMultiplicative), Show(m, RightOfMultiplicative);
    var r, r1, after := At(pre, s, post), Past(pre, ls, [op] + ms + post), Past(pre, s, post);
    BinaryLayout(n, RightOfMultiplicative, LeftOfMultiplicative, RightOfMultiplicative, pre, post);
    ShowPrimary(l, pre, [op] + ms + post);
    ShowMultiplicative(m, pre + ls + [op], post);
    ProductStep(n, r, r1, after);
  }

  /**
   * Round trip: whatever expression tree is printed, `additive` reads it back
   * as exactly that tree and stops right after it, when no operator follows.
   */
  lemma {:induction false} ShowAdditive(n: Node, pre: seq<Token>, post: seq<Token>)
    requires IsExpr(n) && Stops(Top, post)
    ensures Parser.Additive(At(pre, Show(n, Top), post)) == Success(Parsed(n, Past(pre, Show(n, Top), post)))
    decreases n, Rank(n, 2, 6, 4)
  {
    if n.kind != NodeKind.Additive {
      ShowAdditiveOperand(n, pre, post);
    } else {
      ShowSum(n, pre, post);
    }
  }

  lemma {:induction false} ShowAdditiveOperand(n: Node, pre: seq<Token>, post: seq<Token>)
    requires IsExpr(n) && n.kind != NodeKind.Additive && Stops(Top, post)
    ensures Parser.Additive(At(pre, Show(n, Top), post)) == Success(Parsed(n, Past(pre, Show(n, Top), post)))
    decreases n, Rank(n, 0, 5, 3)
  {
    var s := Show(n, Top);
    var after := Past(pre, s, post);
    assert Show(n, RightOfMultiplicative) == s;
    assert |post| > 0 ==> after.tokens[after.position] == post[0];
    assert !NextIs(after, TokenType.Plus) && !NextIs(after, TokenType.Minus);
    ShowMultiplicative(n, pre, post);
    AdditiveOperand(At(pre, s, post), n, after);
  }

  lemma {:induction false} ShowSum(n: Node, pre: seq<Token>, post: seq<Token>)
    requires IsExpr(n) && IsBinary(n) && n.kind == NodeKind.Additive && Stops(Top, post)
    ensures Parser.Additive(At(pre, Show(n, Top), post)) == Success(Parsed(n, Past(pre, Show(n, Top), post)))
    decreases n, 1
  {
    var l, m, op := n.children[0], n.children[1], OperatorToken(n);
    var s, ls, ms := Show(n, Top), Show(l, LeftOfAdditive), Show(m, Top);
    var r, r1, after := At(pre, s, post), Past(pre, ls, [op] + ms + post), Past(pre, s, post);
    BinaryLayout(n, Top, LeftOfAdditive, Top, pre, post);
    assert ls == Show(l, RightOfMultiplicative);
    ShowMultiplicative(l, pre, [op] + ms + post);
    ShowAdditive(m, pre + ls + [op], post);
    SumStep(n, r, r1, after);
  }

  /**
   * `prog` stops where the expression ends: tokens after it that do not
   * continue it are left unread, and no error is raised for them.
   */
  lemma ProgLeavesRest(n: Node, post: seq<Token>)
    requires IsExpr(n) && Stops(Top, post)
    ensures Prog(NewTokenReader(Show(n, Top) + post)) == Success(Node(NodeKind.Program, "Calculator", [n]))
  {
    Prefix(Show(n, Top), post);
    ShowAdditive(n, [], post);
  }

  /**
   * `prog` reads any printed expression tree back as the one child of the
   * `Program` node.
   */
  lemma ParseShowProgram(n: Node)
    requires IsExpr(n)
    ensures Prog(NewTokenReader(Show(n, Top))) == Success(Node(NodeKind.Program, "Calculator", [n]))
  {
    Whole(Show(n, Top));
    ShowAdditive(n, [], []);
  }

  // ---------------------------------------------------------------------------
  // A trailing operator
  // ---------------------------------------------------------------------------

  /** Reading the operator at the end leaves the cursor at the end. */
  lemma LastOperator(pre: seq<Token>, s: seq<Token>, op: Token)
    ensures var r1 := Past(pre, s, [op]);
      && r1.tokens[r1.position] == op
      && Read(r1).1.position == |Read(r1).1.tokens|
  {
  }

  /**
   * `multiplicative` fails on any printed tree followed by a last `*` or `/`:
   * the operator's right operand is missing.
   */
  lemma {:induction false} TrailingMulOperator(n: Node, pre: seq<Token>, op: Token)
    requires IsExpr(n) && IsMulOperator(op.kind)
    ensures Parser.Multiplicative(At(pre, Show(n, RightOfMultiplicative), [op])) == Failure(MultiplicativeMissingRight)
  {
    if IsLeaf(n) || n.kind == NodeKind.Additive {
      TrailingAfterPrimary(n, pre, op);
    } else {
      var l, m, o := n.children[0], n.children[1], OperatorToken(n);
      var ls, ms := Show(l, LeftOfMultiplicative), Show(m, RightOfMultiplicative);
      var r1 := Past(pre, ls, [o] + ms + [op]);
      BinaryLayout(n, RightOfMultiplicative, LeftOfMultiplicative, RightOfMultiplicative, pre, [op]);
      ShowPrimary(l, pre, [o] + ms + [op]);
      TrailingMulOperator(m, pre + ls + [o], op);
      MultiplicativeMissing(At(pre, ls, [o] + ms + [op]), l, r1);
    }
  }

  /** The base case: the operand before the last `*` or `/` is read by `primary`. */
  lemma TrailingAfterPrimary(n: Node, pre: seq<Token>, op: Token)
    requires IsExpr(n) && IsMulOperator(op.kind) && (IsLeaf(n) || n.kind == NodeKind.Additive)
    ensures Parser.Multiplicative(At(pre, Show(n, RightOfMultiplicative), [op])) == Failure(MultiplicativeMissingRight)
  {
    var s := Show(n, RightOfMultiplicative);
    var r1 := Past(pre, s, [op]);
    assert Show(n, LeftOfMultiplicative) == s;
    ShowPrimary(n, pre, [op]);
    LastOperator(pre, s, op);
    AtEnd(Read(r1).1);
    MultiplicativeMissing(At(pre, s, [op]), n, r1);
  }

  /**
   * `additive` fails on any printed tree followed by a last operator: with
   * `+` or `-` its own right operand is missing, with `*` or `/` that of the
   * last product.
   */
  lemma {:induction false} TrailingOperator(n: Node, pre: seq<Token>, op: Token)
    requires IsExpr(n) && IsOperator(op.kind)
    ensures Parser.Additive(At(pre, Show(n, Top), [op])) ==
      Failure(if IsAddOperator(op.kind) then AdditiveMissingRight else MultiplicativeMissingRight)
    decreases n, 1
  {
    if n.kind != NodeKind.Additive {
      TrailingAfterProduct(n, pre, op);
    } else {
      var l, m, o := n.children[0], n.children[1], OperatorToken(n);
      var ls, ms := Show(l, LeftOfAdditive), Show(m, Top);
      var r1 := Past(pre, ls, [o] + ms + [op]);
      BinaryLayout(n, Top, LeftOfAdditive, Top, pre, [op]);
      assert ls == Show(l, RightOfMultiplicative);
      ShowMultiplicative(l, pre, [o] + ms + [op]);
      TrailingOperator(m, pre + ls + [o], op);
      AdditiveMissing(At(pre, ls, [o] + ms + [op]), l, r1);
    }
  }

  lemma {:induction false} TrailingAfterProduct(n: Node, pre: seq<Token>, op: Token)
    requires IsExpr(n) && n.kind != NodeKind.Additive && IsOperator(op.kind)
    ensures Parser.Additive(At(pre, Show(n, Top), [op])) ==
      Failure(if IsAddOperator(op.kind) then AdditiveMissingRight else MultiplicativeMissingRight)
    decreases n, 0
  {
    var s := Show(n, Top);
    assert Show(n, RightOfMultiplicative) == s;
    if IsAddOperator(op.kind) {
      var r1 := Past(pre, s, [op]);
      ShowMultiplicative(n, pre, [op]);
      LastOperator(pre, s, op);
      AtEnd(Read(r1).1);
      AdditiveMissing(At(pre, s, [op]), n, r1);
    } else {
      TrailingMulOperator(n, pre, op);
    }
  }

  /** `prog` reports the missing operand of a last operator, whatever precedes it. */
  lemma ProgTrailingOperator(n: Node, op: Token)
    requires IsExpr(n) && IsOperator(op.kind)
    ensures Prog(NewTokenReader(Show(n, Top) + [op])) ==
      Failure(if IsAddOperator(op.kind) then AdditiveMissingRight else MultiplicativeMissingRight)
  {
    Prefix(Show(n, Top), [op]);
    TrailingOperator(n, [], op);
  }

  // ---------------------------------------------------------------------------
  // Fully parenthesised printing
  // ---------------------------------------------------------------------------

  /** An operand printed for any rule: a leaf, or an operator tree in parentheses. */
  function Operand(n: Node): seq<Token>
    requires IsExpr(n)
    decreases n, 1
  {
    if IsLeaf(n) then [LeafToken(n)]
    else [Token("(", TokenType.LeftParen)] + Bracketed(n) + [Token(")", TokenType.RightParen)]
  }

  /** Infix tokens with every operand that is itself an operator tree in parentheses. */
  function Bracketed(n: Node): seq<Token>
    requires IsExpr(n)
    decreases n, 0
  {
    if IsLeaf(n) then [LeafToken(n)]
    else Operand(n.children[0]) + [OperatorToken(n)] + Operand(n.children[1])
  }

  /** Where the operands and the operator of a bracketed operator node sit. */
  lemma BracketedLayout(n: Node, pre: seq<Token>, post: seq<Token>)
    requires IsExpr(n) && IsBinary(n)
    ensures var op, ls, ms := OperatorToken(n), Operand(n.children[0]), Operand(n.children[1]);
      var r1 := Past(pre, ls, [op] + ms + post);
      && At(pre, Bracketed(n), post) == At(pre, ls, [op] + ms + post)
      && r1.tokens[r1.position] == op
      && Read(r1).1 == At(pre + ls + [op], ms, post)
      && Past(pre, Bracketed(n), post) == Past(pre + ls + [op], ms, post)
  {
    var op, ls, ms := OperatorToken(n), Operand(n.children[0]), Operand(n.children[1]);
    assert Bracketed(n) == ls + [op] + ms;
    OperatorLayout(pre, ls, op, ms, post);
  }

  /** The cursors around the operator of `ls op ms`. */
  lemma OperatorLayout(pre: seq<Token>, ls: seq<Token>, op: Token, ms: seq<Token>, post: seq<Token>)
    ensures var r1 := Past(pre, ls, [op] + ms + post);
      && At(pre, ls + [op] + ms, post) == At(pre, ls, [op] + ms + post)
      && r1.tokens[r1.position] == op
      && Read(r1).1 == At(pre + ls + [op], ms, post)
      && Past(pre, ls + [op] + ms, post) == Past(pre + ls + [op], ms, post)
  {
    assert pre + (ls + [op] + ms) + post == pre + ls + ([op] + ms + post) == (pre + ls + [op]) + ms + post;
  }

  /** `primary` reads an operand back. */
  lemma {:induction false} OperandPrimary(n: Node, pre: seq<Token>, post: seq<Token>)
    requires IsExpr(n)
    ensures Parser.Primary(At(pre, Operand(n), post)) == Success(Parsed(n, Past(pre, Operand(n), post)))
    decreases n, 3
  {
    if IsLeaf(n) {
      ParseLeaf(n, pre, post);
    } else {
      var open, close := Token("(", TokenType.LeftParen), Token(")", TokenType.RightParen);
      var s, ps := Bracketed(n), Operand(n);
      var r := At(pre, ps, post);
      var r2 := Past(pre + [open], s, [close] + post);
      assert ps == [open] + s + [close];
      assert r.tokens == (pre + [open]) + s + ([close] + post);
      assert r.tokens[|pre|] == open && r2.tokens[r2.position] == close;
      assert Read(r).1 == At(pre + [open], s, [close] + post);
      assert Read(r2).1 == Past(pre, ps, post);
      BracketedAdditive(n, pre + [open], [close] + post);
      PrimaryParen(r, n, r2);
    }
  }

  /** `multiplicative` reads an operand back when no `*` or `/` follows. */
  lemma {:induction false} OperandMultiplicative(n: Node, pre: seq<Token>, post: seq<Token>)
    requires IsExpr(n) && Stops(RightOfMultiplicative, post)
    ensures Parser.Multiplicative(At(pre, Operand(n), post)) == Success(Parsed(n, Past(pre, Operand(n), post)))
    decreases n, 4
  {
    var after := Past(pre, Operand(n), post);
    assert |post| > 0 ==> after.tokens[after.position] == post[0];
    OperandPrimary(n, pre, post);
    MultiplicativeOperand(At(pre, Operand(n), post), n, after);
  }

  /** `additive` reads an operand back when no operator follows. */
  lemma {:induction false} OperandAdditive(n: Node, pre: seq<Token>, post: seq<Token>)
    requires IsExpr(n) && Stops(Top, post)
    ensures Parser.Additive(At(pre, Operand(n), post)) == Success(Parsed(n, Past(pre, Operand(n), post)))
    decreases n, 5
  {
    var after := Past(pre, Operand(n), post);
    assert |post| > 0 ==> after.tokens[after.position] == post[0];
    OperandMultiplicative(n, pre, post);
    AdditiveOperand(At(pre, Operand(n), post), n, after);
  }

  /**
   * Round trip with redundant parentheses: `additive` also reads a fully
   * parenthesised tree back as exactly that tree.
   */
  lemma {:induction false} BracketedAdditive(n: Node, pre: seq<Token>, post: seq<Token>)
    requires IsExpr(n) && Stops(Top, post)
    ensures Parser.Additive(At(pre, Bracketed(n), post)) == Success(Parsed(n, Past(pre, Bracketed(n), post)))
    decreases n, if IsLeaf(n) then 6 else 2
  {
    if IsLeaf(n) {
      OperandAdditive(n, pre, post);
    } else if n.kind == NodeKind.Additive {
      BracketedSum(n, pre, post);
    } else {
      BracketedProduct(n, pre, post);
    }
  }

  lemma {:induction false} BracketedSum(n: Node, pre: seq<Token>, post: seq<Token>)
    requires IsExpr(n) && IsBinary(n) && n.kind == NodeKind.Additive && Stops(Top, post)
    ensures Parser.Additive(At(pre, Bracketed(n), post)) == Success(Parsed(n, Past(pre, Bracketed(n), post)))
    decreases n, 1
  {
    var l, m, op := n.children[0], n.children[1], OperatorToken(n);
    var s, ls, ms := Bracketed(n), Operand(l), Operand(m);
    var r, r1, after := At(pre, s, post), Past(pre, ls, [op] + ms + post), Past(pre, s, post);
    BracketedLayout(n, pre, post);
    OperandMultiplicative(l, pre, [op] + ms + post);
    OperandAdditive(m, pre + ls + [op], post);
    SumStep(n, r, r1, after);
  }

  lemma {:induction false} BracketedProduct(n: Node, pre: seq<Token>, post: seq<Token>)
    requires IsExpr(n) && IsBinary(n) && n.kind == NodeKind.Multiplicative && Stops(Top, post)
    ensures Parser.Additive(At(pre, Bracketed(n), post)) == Success(Parsed(n, Past(pre, Bracketed(n), post)))
    decreases n, 1
  {
    var l, m, op := n.children[0], n.children[1], OperatorToken(n);
    var s, ls, ms := Bracketed(n), Operand(l), Operand(m);
    var r, r1, after := At(pre, s, post), Past(pre, ls, [op] + ms + post), Past(pre, s, post);
    BracketedLayout(n, pre, post);
    OperandPrimary(l, pre, [op] + ms + post);
    OperandMultiplicative(m, pre + ls + [op], post);
    ProductStep(n, r, r1, after);
    assert |post| > 0 ==> after.tokens[after.position] == post[0];
    AdditiveOperand(r, n, after);
  }

  /** `prog` reads a fully parenthesised tree back as the one child of the program. */
  lemma ParseBracketedProgram(n: Node)
    requires IsExpr(n)
    ensures Prog(NewTokenReader(Bracketed(n))) == Success(Node(NodeKind.Program, "Calculator", [n]))
  {
    Whole(Bracketed(n));
    BracketedAdditive(n, [], []);
  }

  // Declarations.

  /**
   * A successful `intDeclare` that found `int` read a whole declaration:
   * `int`, the name, then either '=', the tree `additive` reads, which became
   * the only child, and ';' right after it, or ';' right after the name.
   */
  lemma IntDeclareShape(r: Reader)
    requires Valid(r) && NextIs(r, TokenType.INT) && IntDeclare(r).Success?
    ensures Declaration(r, IntDeclare(r).value)
  {
    var r1 := Read(r).1;
    var (name, r2) := Read(r1);
    var decl := NewNode(NodeKind.IntDeclaration, name.value.text);
    var p := DeclRest(decl, r2).value;
    assert IntDeclare(r) == DeclRest(decl, r2);
    assert r2 == Reader(r.tokens, r.position + 2);
    assert decl == NewNode(NodeKind.IntDeclaration, r.tokens[r.position + 1].text);
  }

  /** After `int` and a name, `intDeclare` goes on with the rest of the declaration. */
  lemma IntDeclareRest(r: Reader)
    requires Valid(r) && NextIs(r, TokenType.INT) && NextIs(Read(r).1, TokenType.Identifier)
    ensures var r1 := Read(r).1;
      IntDeclare(r) == DeclRest(NewNode(NodeKind.IntDeclaration, Peek(r1).value.text), Read(r1).1)
  {
  }

  /**
   * How the rest of a declaration fails: an error inside the initialiser is
   * passed on, '=' without an expression and a missing ';' are errors of
   * their own.
   */
  lemma DeclRestErrors(decl: Node, r: Reader)
    requires Valid(r) && decl.Node? && decl.children == []
    ensures var init := Parser.Additive(Read(r).1);
      && (NextIs(r, TokenType.Assign) && init.Failure? ==> DeclRest(decl, r) == Failure(init.error))
      && (NextIs(r, TokenType.Assign) && init.Success? && init.value.node == Nil ==>
            DeclRest(decl, r) == Failure(DeclMissingInit))
      && ((NextIs(r, TokenType.Assign) && init.Success? && init.value.node != Nil
           && !NextIs(init.value.rest, TokenType.SemiColon)) ==> DeclRest(decl, r) == Failure(DeclMissingSemicolon))
      && (!NextIs(r, TokenType.Assign) && !NextIs(r, TokenType.SemiColon) ==>
            DeclRest(decl, r) == Failure(DeclMissingSemicolon))
  {
  }

  /** The tokens of a declaration of `name`, with an optional initialiser. */
  function DeclarationTokens(name: string, init: Option<Node>): seq<Token>
    requires init.Some? ==> IsExpr(init.value)
  {
    [Token("int", TokenType.INT), Token(name, TokenType.Identifier)]
    + (if init.Some? then [Token("=", TokenType.Assign)] + Show(init.value, Top) else [])
    + [Token(";", TokenType.SemiColon)]
  }

  /**
   * Round trip for declarations: `intDeclare` reads a printed declaration back
   * as a node named by the identifier, with the initialiser's tree as its only
   * child, and stops after the ';' whatever follows.
   */
  lemma ShowDeclaration(name: string, init: Option<Node>, post: seq<Token>)
    requires init.Some? ==> IsExpr(init.value)
    ensures var ts := DeclarationTokens(name, init);
      IntDeclare(At([], ts, post)) ==
        Success(Parsed(Node(NodeKind.IntDeclaration, name, if init.Some? then [init.value] else []), Past([], ts, post)))
  {
    var ts := DeclarationTokens(name, init);
    assert [] + ts + post == ts + post;
    DeclarationHead(name, init, post);
    if init.Some? {
      ShowInitialiser(name, init.value, post);
    } else {
      ShowBareDeclaration(name, post);
    }
  }

  /** Without an initialiser, the ';' right after the name ends the declaration. */
  lemma ShowBareDeclaration(name: string, post: seq<Token>)
    ensures var ts := DeclarationTokens(name, None);
      DeclRest(NewNode(NodeKind.IntDeclaration, name), Reader(ts + post, 2)) ==
        Success(Parsed(Node(NodeKind.IntDeclaration, name, []), Reader(ts + post, |ts|)))
  {
    var ts := DeclarationTokens(name, None);
    assert |ts| == 3 && (ts + post)[2] == Token(";", TokenType.SemiColon);
  }

  /** `int name` is read, leaving the rest of the declaration to `DeclRest`. */
  lemma DeclarationHead(name: string, init: Option<Node>, post: seq<Token>)
    requires init.Some? ==> IsExpr(init.value)
    ensures var ts := DeclarationTokens(name, init);
      IntDeclare(Reader(ts + post, 0)) == DeclRest(NewNode(NodeKind.IntDeclaration, name), Reader(ts + post, 2))
  {
    var ts := DeclarationTokens(name, init);
    assert (ts + post)[0] == Token("int", TokenType.INT) && (ts + post)[1] == Token(name, TokenType.Identifier);
    DeclarationStart(name, ts + post);
  }

  /** `int` and a name at the front of the tokens leave the rest to `DeclRest`. */
  lemma DeclarationStart(name: string, ts: seq<Token>)
    requires 2 <= |ts| && ts[0] == Token("int", TokenType.INT) && ts[1] == Token(name, TokenType.Identifier)
    ensures IntDeclare(Reader(ts, 0)) == DeclRest(NewNode(NodeKind.IntDeclaration, name), Reader(ts, 2))
  {
  }

  /** The initialiser and the ';' after the name, read by the rest of `intDeclare`. */
  lemma ShowInitialiser(name: string, n: Node, post: seq<Token>)
    requires IsExpr(n)
    ensures var ts := DeclarationTokens(name, Some(n));
      DeclRest(NewNode(NodeKind.IntDeclaration, name), Reader(ts + post, 2)) ==
        Success(Parsed(Node(NodeKind.IntDeclaration, name, [n]), Reader(ts + post, |ts|)))
  {
    var ts := DeclarationTokens(name, Some(n));
    var after := Reader(ts + post, |ts| - 1);
    InitialiserParsed(name, n, post);
    var decl := NewNode(NodeKind.IntDeclaration, name);
    var full := Node(NodeKind.IntDeclaration, name, [n]);
    assert [] + [n] == [n];
    assert AddChild(decl, n) == full;
    assert DeclRest(decl, Reader(ts + post, 2)) == ExpectSemicolon(full, after);
  }

  /** After `int name =`, `additive` reads the printed initialiser up to the ';'. */
  lemma InitialiserParsed(name: string, n: Node, post: seq<Token>)
    requires IsExpr(n)
    ensures var ts := DeclarationTokens(name, Some(n));
      var r2, after := Reader(ts + post, 2), Reader(ts + post, |ts| - 1);
      && NextIs(r2, TokenType.Assign)
      && Parser.Additive(Read(r2).1) == Success(Parsed(n, after))
      && NextIs(after, TokenType.SemiColon)
  {
    var pre := [Token("int", TokenType.INT), Token(name, TokenType.Identifier), Token("=", TokenType.Assign)];
    var semi := [Token(";", TokenType.SemiColon)];
    var s := Show(n, Top);
    DeclarationLayout(name, n, post);
    ShowAdditive(n, pre, semi + post);
  }

  /** Where the initialiser of a printed declaration sits. */
  lemma DeclarationLayout(name: string, n: Node, post: seq<Token>)
    requires IsExpr(n)
    ensures var pre := [Token("int", TokenType.INT), Token(name, TokenType.Identifier), Token("=", TokenType.Assign)];
      DeclarationTokens(name, Some(n)) + post == pre + Show(n, Top) + ([Token(";", TokenType.SemiColon)] + post)
  {
    var head := [Token("int", TokenType.INT), Token(name, TokenType.Identifier)];
    var eq := [Token("=", TokenType.Assign)];
    var semi := [Token(";", TokenType.SemiColon)];
    var s := Show(n, Top);
    assert DeclarationTokens(name, Some(n)) == head + (eq + s) + semi;
    assert head + (eq + s) == head + eq + s;
    assert head + eq == [Token("int", TokenType.INT), Token(name, TokenType.Identifier), Token("=", TokenType.Assign)];
    assert head + eq + s + semi + post == head + eq + s + (semi + post);
  }
}
