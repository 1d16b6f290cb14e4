/**
 * The recursive-descent parser of calculator.go (`prog`, `intDeclare`,
 * `additive`, `multiplicative`, `primary`). Each rule takes the cursor and
 * returns the node it built (possibly `Nil`) with the advanced cursor, or the
 * syntax error that stopped it. Rules only ever `Peek` and `Read`.
 */
module Parser {
  import opened Wrappers
  import opened Tokens
  import opened TokenReader
  import opened Ast

  /** The syntax errors, one per `fmt.Errorf` of the source. */
  datatype ParseError =
    | AdditiveMissingRight        // additive: operator without a right operand
    | MultiplicativeMissingRight  // multiplicative: operator without a right operand
    | MissingRightParen           // primary: '(' expression not closed
    | UnexpectedToken             // primary: a token that starts no operand
    | DeclMissingName             // intDeclare: no identifier after `int`
    | DeclMissingInit             // intDeclare: '=' without an expression
    | DeclMissingSemicolon        // intDeclare: no ';' at the end

  /** What a rule returns on success: its node and the cursor after it. */
  datatype Parsed = Parsed(node: Node, rest: Reader)

  /** `r2` is `r` moved forward, never back, and still valid. */
  predicate Advanced(r: Reader, r2: Reader) {
    r2.tokens == r.tokens && r.position <= r2.position <= |r.tokens|
  }

  /** The next token exists and has kind `k`. */
  predicate NextIs(r: Reader, k: TokenType)
    requires 0 <= r.position
  {
    Peek(r).Some? && Peek(r).value.kind == k
  }

  /** Leaf and operator texts are spelled the way the scanner spells them. */
  predicate Canonical(n: Node) {
    match n
    case Nil => true
    case Node(kind, text, children) =>
      && (kind == NodeKind.Additive ==> text in {"+", "-"})
      && (kind == NodeKind.Multiplicative ==> text in {"*", "/"})
      && (kind == NodeKind.IntLiteral ==> |text| > 0 && AllDigits(text))
      && (kind == NodeKind.Identifier ==> |text| > 0 && IsAlpha(text[0]))
      && (forall i :: 0 <= i < |children| ==> Canonical(children[i]))
  }

  /** No '(' from the cursor on. */
  predicate ParenFree(r: Reader) {
    forall i :: 0 <= r.position <= i < |r.tokens| ==> r.tokens[i].kind != TokenType.LeftParen
  }

  /** A right-nested chain of `*`/`/` over leaves: no additive node below. */
  predicate IsProduct(n: Node) {
    IsLeaf(n)
    || (IsBinary(n) && n.kind == NodeKind.Multiplicative
        && IsLeaf(n.children[0]) && IsProduct(n.children[1]))
  }

  /** A right-nested chain of `+`/`-` over products. */
  predicate IsSum(n: Node) {
    IsProduct(n)
    || (IsBinary(n) && n.kind == NodeKind.Additive
        && IsProduct(n.children[0]) && IsSum(n.children[1]))
  }

  /**
   * What every expression rule guarantees on success, and what makes the
   * mutual recursion terminate: the cursor only moves forward, and it moves
   * whenever a node was built.
   */
  predicate Progress(r: Reader, res: Result<Parsed, ParseError>)
    requires Valid(r)
  {
    res.Success? ==>
      && Advanced(r, res.value.rest)
      && (res.value.node != Nil ==> res.value.rest.position > r.position)
  }

  /**
   * The shape of what an expression rule built: nothing or an expression
   * tree, spelled canonically when the tokens are well formed.
   */
  predicate ShapeOk(r: Reader, res: Result<Parsed, ParseError>) {
    res.Success? ==>
      && (res.value.node == Nil || IsExpr(res.value.node))
      && (AllTokensOk(r.tokens) ==> Canonical(res.value.node))
  }

  /**
   * `additive := multiplicative (('+' | '-') additive)?`, associating to the
   * right; the operand alone when no operator follows.
   */
  function Additive(r: Reader): (res: Result<Parsed, ParseError>)
    requires Valid(r)
    ensures Progress(r, res)
    decreases |r.tokens| - r.position, 2
  {
    var first :- Multiplicative(r);
    var child1, r1 := first.node, first.rest;
    if child1 != Nil && (NextIs(r1, TokenType.Plus) || NextIs(r1, TokenType.Minus)) then
      var (op, r2) := Read(r1);
      var second :- Additive(r2);
      if second.node != Nil then
        var node := Binary(NodeKind.Additive, op.value.text, child1, second.node);
        Success(Parsed(node, second.rest))
      else
        Failure(AdditiveMissingRight)
    else
      Success(Parsed(child1, r1))
  }

  /**
   * `multiplicative := primary (('*' | '/') multiplicative)?`, associating to
   * the right; the operand alone when no operator follows.
   */
  function Multiplicative(r: Reader): (res: Result<Parsed, ParseError>)
    requires Valid(r)
    ensures Progress(r, res)
    decreases |r.tokens| - r.position, 1
  {
    var first :- Primary(r);
    var child1, r1 := first.node, first.rest;
    if child1 != Nil && (NextIs(r1, TokenType.Star) || NextIs(r1, TokenType.Slash)) then
      var (op, r2) := Read(r1);
      var second :- Multiplicative(r2);
      if second.node != Nil then
        var node := Binary(NodeKind.Multiplicative, op.value.text, child1, second.node);
        Success(Parsed(node, second.rest))
      else
        Failure(MultiplicativeMissingRight)
    else
      Success(Parsed(child1, r1))
  }

  /**
   * `primary := IntLiteral | Identifier | '(' additive ')'`; nothing, and no
   * error, at the end of the tokens or when `(` is the last token.
   */
  function Primary(r: Reader): (res: Result<Parsed, ParseError>)
    requires Valid(r)
    ensures Progress(r, res)
    decreases |r.tokens| - r.position, 0
  {
    var next := Peek(r);
    if next.None? then
      Success(Parsed(Nil, r))
    else
      var (tok, r1) := Read(r);
      match next.value.kind
      case IntLiteral => Success(Parsed(NewNode(NodeKind.IntLiteral, tok.value.text), r1))
      case Identifier => Success(Parsed(NewNode(NodeKind.Identifier, tok.value.text), r1))
      case LeftParen =>
        var inner :- Additive(r1);
        if inner.node == Nil then
          Success(Parsed(Nil, inner.rest))
        else if NextIs(inner.rest, TokenType.RightParen) then
          Success(Parsed(inner.node, Read(inner.rest).1))
        else
          Failure(MissingRightParen)
      case _ => Failure(UnexpectedToken)
  }

  /** `prog`: the additive expression as the one child of a `Program` node. */
  function Prog(r: Reader): (res: Result<Node, ParseError>)
    requires Valid(r)
    ensures res.Success? <==> Additive(r).Success?
    ensures res.Failure? ==> res.error == Additive(r).error
    ensures res.Success? ==>
      && res.value.Node? && res.value.kind == NodeKind.Program && res.value.text == "Calculator"
      && res.value.children == [Additive(r).value.node]
  {
    var body :- Additive(r);
    Success(AddChild(NewNode(NodeKind.Program, "Calculator"), body.node))
  }

  /** The closing ';' of a declaration. */
  function ExpectSemicolon(decl: Node, r: Reader): (res: Result<Parsed, ParseError>)
    requires Valid(r)
    ensures res.Success? <==> NextIs(r, TokenType.SemiColon)
    ensures res.Failure? ==> res.error == DeclMissingSemicolon
    ensures res.Success? ==> res.value == Parsed(decl, r.(position := r.position + 1))
  {
    if NextIs(r, TokenType.SemiColon) then Success(Parsed(decl, Read(r).1))
    else Failure(DeclMissingSemicolon)
  }

  /**
   * What the part of a declaration after its name reads from `r`: with '=',
   * the tree `additive` reads next becomes the only child and the ';' comes
   * right after it; without '=', no child and the ';' comes right away.
   */
  predicate DeclTail(r: Reader, decl: Node, p: Parsed)
    requires Valid(r)
  {
    var n := p.node;
    && Advanced(r, p.rest)
    && n.Node? && decl.Node? && n.kind == decl.kind && n.text == decl.text
    && if NextIs(r, TokenType.Assign) then
         var init := Additive(Read(r).1);
         && init.Success? && init.value.node != Nil
         && n.children == [init.value.node]
         && NextIs(init.value.rest, TokenType.SemiColon)
         && p.rest.position == init.value.rest.position + 1
       else
         && n.children == []
         && NextIs(r, TokenType.SemiColon)
         && p.rest.position == r.position + 1
  }

  /**
   * The part of `intDeclare` after the identifier: an optional `'=' additive`
   * initialiser, which becomes the declaration's only child, then ';'.
   */
  function DeclRest(decl: Node, r: Reader): (res: Result<Parsed, ParseError>)
    requires Valid(r) && decl.Node? && decl.children == []
    ensures res.Success? ==> DeclTail(r, decl, res.value)
  {
    if NextIs(r, TokenType.Assign) then
      var init :- Additive(Read(r).1);
      if init.node == Nil then Failure(DeclMissingInit)
      else
        var withInit := AddChild(decl, init.node);
        assert withInit.children == [init.node];
        ExpectSemicolon(withInit, init.rest)
    else
      ExpectSemicolon(decl, r)
  }

  /**
   * What a successful `intDeclare` read from `r`: `int`, then a name, then the
   * rest of a declaration of that name.
   */
  predicate Declaration(r: Reader, p: Parsed)
    requires Valid(r)
  {
    && r.position + 2 <= |r.tokens|
    && r.tokens[r.position].kind == TokenType.INT
    && r.tokens[r.position + 1].kind == TokenType.Identifier
    && DeclTail(Reader(r.tokens, r.position + 2),
                NewNode(NodeKind.IntDeclaration, r.tokens[r.position + 1].text), p)
  }

  /**
   * `intDeclare := 'int' Identifier ('=' additive)? ';'`. Without a leading
   * `int` it returns nothing and consumes nothing; otherwise it returns an
   * `IntDeclaration` named by the identifier, with the initialiser as its only
   * child when there is one, or fails.
   */
  function IntDeclare(r: Reader): (res: Result<Parsed, ParseError>)
    requires Valid(r)
    ensures !NextIs(r, TokenType.INT) ==> res == Success(Parsed(Nil, r))
    ensures res.Success? ==> Advanced(r, res.value.rest)
    ensures NextIs(r, TokenType.INT) && !NextIs(Read(r).1, TokenType.Identifier) ==>
      res == Failure(DeclMissingName)
  {
    if !NextIs(r, TokenType.INT) then
      Success(Parsed(Nil, r))
    else
      var r1 := Read(r).1;
      if !NextIs(r1, TokenType.Identifier) then
        Failure(DeclMissingName)
      else
        var (name, r2) := Read(r1);
        DeclRest(NewNode(NodeKind.IntDeclaration, name.value.text), r2)
  }
}
