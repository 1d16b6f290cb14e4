/**
 * Facts about `Evaluate`: which trees it reduces without error, what a
 * program's value is, and agreement with an independent reference, a stack
 * machine running the tree compiled to postfix code.
 */
module EvalFacts {
  import opened Wrappers
  import opened Ast
  import opened Evaluator

  /** No '/' operator anywhere in the tree. */
  predicate DivisionFree(n: Node) {
    match n
    case Nil => true
    case Node(kind, text, children) =>
      && !(kind == NodeKind.Multiplicative && text != "*")
      && (forall i :: 0 <= i < |children| ==> DivisionFree(children[i]))
  }

  /**
   * An expression tree always evaluates, except for a division by zero;
   * without division it always evaluates.
   */
  lemma {:induction false} EvaluateExpr(n: Node)
    requires IsExpr(n)
    ensures Evaluate(n).Success? || Evaluate(n) == Failure(DivisionByZero)
    ensures DivisionFree(n) ==> Evaluate(n).Success?
  {
    if IsBinary(n) {
      EvaluateExpr(n.children[0]);
      EvaluateExpr(n.children[1]);
      assert DivisionFree(n) ==> DivisionFree(n.children[0]) && DivisionFree(n.children[1]);
    }
  }

  /** The first `k` children evaluate without error. */
  predicate EvaluatesBefore(cs: seq<Node>, k: nat)
    requires k <= |cs|
  {
    forall i :: 0 <= i < k ==> Evaluate(cs[i]).Success?
  }

  /**
   * A program's children are all evaluated, in order, and the last value
   * wins; the initial value survives only when there are no children.
   * Otherwise the first failing child's error is the result.
   */
  lemma {:induction false} EvalChildrenLast(cs: seq<Node>, last: int)
    ensures EvaluatesBefore(cs, |cs|) ==>
      EvalChildren(cs, last) == Success(if cs == [] then last else Evaluate(cs[|cs| - 1]).value)
    ensures forall k :: 0 <= k < |cs| && EvaluatesBefore(cs, k) && Evaluate(cs[k]).Failure? ==>
      EvalChildren(cs, last) == Failure(Evaluate(cs[k]).error)
    decreases |cs|
  {
    if cs != [] {
      var v := Evaluate(cs[0]);
      if v.Success? {
        EvalChildrenLast(cs[1..], v.value);
        forall k | 0 < k <= |cs| && EvaluatesBefore(cs, k)
          ensures EvaluatesBefore(cs[1..], k - 1)
        {
          forall i | 0 <= i < k - 1 ensures Evaluate(cs[1..][i]).Success? {
            assert cs[1..][i] == cs[i + 1];
          }
        }
        forall k | 0 < k < |cs| ensures cs[1..][k - 1] == cs[k] {
        }
      }
    }
  }

  /** The program `prog` builds, with one child, has that child's value. */
  lemma ProgramValue(text: string, n: Node)
    ensures Evaluate(Node(NodeKind.Program, text, [n])) == Evaluate(n)
  {
    var v := Evaluate(n);
    if v.Success? {
      assert EvalChildren([n][1..], v.value) == Success(v.value);
    }
  }

  // A reference semantics: postfix code for a stack machine.

  datatype Instr =
    | Push(value: int)               // a literal's value, or 0 for a name
    | Add | Subtract | Multiply | Divide

  /**
   * Postfix code of an expression tree: the operands' code, then the
   * operator. Names push 0, as they carry no value in the calculator.
   */
  function Compile(n: Node): seq<Instr>
    requires IsExpr(n)
  {
    if IsLeaf(n) then
      [Push(if n.kind == NodeKind.IntLiteral then Atoi(n.text) else 0)]
    else
      Compile(n.children[0]) + Compile(n.children[1]) + [OperatorOf(n)]
  }

  /** The instruction for a binary node's operator text. */
  function OperatorOf(n: Node): Instr
    requires IsBinary(n)
  {
    if n.kind == NodeKind.Additive then (if n.text == "+" then Add else Subtract)
    else (if n.text == "*" then Multiply else Divide)
  }

  /**
   * Run code on a stack whose top is its last element. Operators pop the
   * right operand, then the left, and push the result; an operator finding
   * fewer than two operands is a malformed program.
   */
  function Exec(code: seq<Instr>, stack: seq<int>): Result<seq<int>, EvalError>
    decreases |code|
  {
    if code == [] then Success(stack)
    else
      var ins := code[0];
      if ins.Push? then Exec(code[1..], stack + [ins.value])
      else if |stack| < 2 then Failure(MissingOperand)
      else
        var a, b, below := stack[|stack| - 2], stack[|stack| - 1], stack[..|stack| - 2];
        match ins
        case Add => Exec(code[1..], below + [a + b])
        case Subtract => Exec(code[1..], below + [a - b])
        case Multiply => Exec(code[1..], below + [a * b])
        case Divide =>
          if b == 0 then Failure(DivisionByZero)
          else Exec(code[1..], below + [TruncDiv(a, b)])
  }

  /** Running two pieces of code in turn, stopping at the first error. */
  lemma {:induction false} ExecAppend(c1: seq<Instr>, c2: seq<Instr>, stack: seq<int>)
    ensures Exec(c1, stack).Success? ==> Exec(c1 + c2, stack) == Exec(c2, Exec(c1, stack).value)
    ensures Exec(c1, stack).Failure? ==> Exec(c1 + c2, stack) == Exec(c1, stack)
    decreases |c1|
  {
    if c1 != [] {
      assert (c1 + c2)[0] == c1[0];
      assert (c1 + c2)[1..] == c1[1..] + c2;
      var ins := c1[0];
      if ins.Push? {
        ExecAppend(c1[1..], c2, stack + [ins.value]);
      } else if |stack| >= 2 {
        var a, b, below := stack[|stack| - 2], stack[|stack| - 1], stack[..|stack| - 2];
        match ins
        case Add => ExecAppend(c1[1..], c2, below + [a + b]);
        case Subtract => ExecAppend(c1[1..], c2, below + [a - b]);
        case Multiply => ExecAppend(c1[1..], c2, below + [a * b]);
        case Divide =>
          if b != 0 {
            ExecAppend(c1[1..], c2, below + [TruncDiv(a, b)]);
          }
      }
    } else {
      assert c1 + c2 == c2;
    }
  }

  /** One operator instruction applied to its two operands on top of the stack. */
  lemma ExecOperator(n: Node, stack: seq<int>, x: int, y: int)
    requires IsBinary(n)
    ensures Exec([OperatorOf(n)], stack + [x, y]) ==
      if n.kind == NodeKind.Additive then Success(stack + [if n.text == "+" then x + y else x - y])
      else if n.text == "*" then Success(stack + [x * y])
      else if y == 0 then Failure(DivisionByZero)
      else Success(stack + [TruncDiv(x, y)])
  {
    var s2 := stack + [x, y];
    assert s2[|s2| - 2] == x && s2[|s2| - 1] == y && s2[..|s2| - 2] == stack;
  }

  /** A binary node whose operands evaluate combines their values by its operator text. */
  lemma EvaluateBinary(kind: NodeKind, text: string, l: Node, r: Node)
    requires kind == NodeKind.Additive || kind == NodeKind.Multiplicative
    ensures Evaluate(l).Success? && Evaluate(r).Success? ==>
      var x, y := Evaluate(l).value, Evaluate(r).value;
      Evaluate(Node(kind, text, [l, r])) ==
        if kind == NodeKind.Additive then Success(if text == "+" then x + y else x - y)
        else if text == "*" then Success(x * y)
        else if y == 0 then Failure(DivisionByZero)
        else Success(TruncDiv(x, y))
  {
  }

  /** A leaf's code pushes its value. */
  lemma CompileLeaf(n: Node, stack: seq<int>)
    requires IsLeaf(n)
    ensures Evaluate(n).Success? && Exec(Compile(n), stack) == Success(stack + [Evaluate(n).value])
  {
    var c := Compile(n);
    assert c[1..] == [];
  }

  /** The machine's result on a stack, as the tree walker's result on a tree predicts it. */
  predicate Agrees(value: Result<int, EvalError>, run: Result<seq<int>, EvalError>, stack: seq<int>) {
    match value
    case Success(v) => run == Success(stack + [v])
    case Failure(e) => run == Failure(e)
  }

  /** A binary node's code agrees with the tree walker when its operands' code does. */
  lemma CompileBinary(kind: NodeKind, text: string, l: Node, r: Node, stack: seq<int>)
    requires kind == NodeKind.Additive || kind == NodeKind.Multiplicative
    requires IsExpr(l) && IsExpr(r)
    requires Agrees(Evaluate(l), Exec(Compile(l), stack), stack)
    requires Evaluate(l).Success? ==>
      var s1 := stack + [Evaluate(l).value];
      Agrees(Evaluate(r), Exec(Compile(r), s1), s1)
    ensures Agrees(Evaluate(Node(kind, text, [l, r])), Exec(Compile(Node(kind, text, [l, r])), stack), stack)
  {
    var n := Node(kind, text, [l, r]);
    CompileNode(n);
    ExecAppend(Compile(l), Compile(r) + [OperatorOf(n)], stack);
    if Evaluate(l).Success? {
      var s1 := stack + [Evaluate(l).value];
      ExecAppend(Compile(r), [OperatorOf(n)], s1);
      if Evaluate(r).Success? {
        CompileBothOperands(kind, text, l, r, stack);
      }
    }
  }

  /** A binary node's code: the left operand's, then the right's, then the operator. */
  lemma CompileNode(n: Node)
    requires IsBinary(n) && IsExpr(n)
    ensures Compile(n) == Compile(n.children[0]) + (Compile(n.children[1]) + [OperatorOf(n)])
  {
  }

  /** With both operands evaluated, the operator instruction finishes what the tree walker computes. */
  lemma CompileBothOperands(kind: NodeKind, text: string, l: Node, r: Node, stack: seq<int>)
    requires kind == NodeKind.Additive || kind == NodeKind.Multiplicative
    ensures Evaluate(l).Success? && Evaluate(r).Success? ==>
      var x, y := Evaluate(l).value, Evaluate(r).value;
      Agrees(Evaluate(Node(kind, text, [l, r])), Exec([OperatorOf(Node(kind, text, [l, r]))], stack + [x] + [y]), stack)
  {
    if Evaluate(l).Success? && Evaluate(r).Success? {
      var x, y := Evaluate(l).value, Evaluate(r).value;
      var n := Node(kind, text, [l, r]);
      assert stack + [x] + [y] == stack + [x, y];
      ExecOperator(n, stack, x, y);
      EvaluateBinary(kind, text, l, r);
    }
  }

  /**
   * The tree walker and the stack machine agree: the compiled code pushes
   * exactly the tree's value onto any stack, or fails with the same error.
   */
  lemma {:induction false} CompileCorrect(n: Node, stack: seq<int>)
    requires IsExpr(n)
    ensures Evaluate(n).Success? ==> Exec(Compile(n), stack) == Success(stack + [Evaluate(n).value])
    ensures Evaluate(n).Failure? ==> Exec(Compile(n), stack) == Failure(Evaluate(n).error)
  {
    if IsLeaf(n) {
      CompileLeaf(n, stack);
    } else {
      var l, r := n.children[0], n.children[1];
      CompileCorrect(l, stack);
      if Evaluate(l).Success? {
        CompileCorrect(r, stack + [Evaluate(l).value]);
      }
      assert n == Node(n.kind, n.text, [l, r]);
      CompileBinary(n.kind, n.text, l, r, stack);
    }
  }

  /** The value of an expression tree, read off the stack machine. */
  lemma ValueByMachine(n: Node)
    requires IsExpr(n)
    ensures Evaluate(n).Success? <==> Exec(Compile(n), []).Success?
    ensures Evaluate(n).Success? ==> Exec(Compile(n), []) == Success([Evaluate(n).value])
  {
    CompileCorrect(n, []);
    if Evaluate(n).Success? {
      assert [] + [Evaluate(n).value] == [Evaluate(n).value];
    }
  }
}
