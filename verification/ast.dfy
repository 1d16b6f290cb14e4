/** The syntax tree of calculator.go (`ASTNodeType`, `SimpleASTNode`). */
module Ast {

  datatype NodeKind =
    | Program | IntDeclaration | Expression | Assignment
    | Primary | Multiplicative | Additive
    | Identifier | IntLiteral

  /**
   * A tree node, or `Nil` for the nil interface value the parser returns when
   * there is nothing to parse. The unused `parent` back-reference is not kept.
   */
  datatype Node = Nil | Node(kind: NodeKind, text: string, children: seq<Node>)

  /** `NewASTNode`: a node without children. */
  function NewNode(kind: NodeKind, text: string): Node {
    Node(kind, text, [])
  }

  /** `AddChild`: append a child, which may be `Nil`. */
  function AddChild(n: Node, child: Node): (r: Node)
    requires n.Node?
    ensures r.Node? && r.kind == n.kind && r.text == n.text
    ensures |r.children| == |n.children| + 1 && r.children[|n.children|] == child
    ensures r.children[..|n.children|] == n.children
  {
    n.(children := n.children + [child])
  }

  /** A fresh node given two children with `AddChild`, as the binary rules build it. */
  function Binary(kind: NodeKind, text: string, left: Node, right: Node): (n: Node)
    ensures n == Node(kind, text, [left, right])
  {
    assert [] + [left] + [right] == [left, right];
    AddChild(AddChild(NewNode(kind, text), left), right)
  }

  predicate IsLeaf(n: Node) {
    n.Node? && n.kind in {NodeKind.IntLiteral, NodeKind.Identifier} && n.children == []
  }

  predicate IsBinary(n: Node) {
    n.Node? && n.kind in {NodeKind.Additive, NodeKind.Multiplicative} && |n.children| == 2
  }

  /**
   * The trees the expression rules build: literal and identifier leaves, and
   * additive and multiplicative nodes with exactly two such trees as children.
   */
  predicate IsExpr(n: Node) {
    IsLeaf(n) || (IsBinary(n) && IsExpr(n.children[0]) && IsExpr(n.children[1]))
  }
}
