/**
 * The tree-walking evaluator of calculator.go (`evaluate`). What Go leaves to
 * a run-time panic (a nil node, a binary node without two children, division
 * by zero) is an explicit `EvalError` here; the printed trace is not modelled.
 */
module Evaluator {
  import opened Wrappers
  import opened Tokens
  import opened Ast

  datatype EvalError =
    | NilNode          // a nil child, as `prog` appends for an empty input
    | MissingOperand   // an additive or multiplicative node with fewer than two children
    | DivisionByZero   // '/' with a zero right operand

  function Abs(x: int): nat {
    if x < 0 then -x else x
  }

  /**
   * Go's `/` on `int`: the quotient truncated toward zero, so the remainder
   * is smaller than the divisor and has the sign of the dividend.
   */
  function TruncDiv(a: int, b: int): (q: int)
    requires b != 0
    ensures Abs(a - q * b) < Abs(b)
    ensures a - q * b == 0 || (a - q * b < 0 <==> a < 0)
  {
    var m := Abs(a) / Abs(b);
    TruncDivRemainder(a, b);
    if (a < 0) == (b < 0) then m else -m
  }

  lemma TruncDivRemainder(a: int, b: int)
    requires b != 0
    ensures var m, r := Abs(a) / Abs(b), Abs(a) % Abs(b);
      var q := if (a < 0) == (b < 0) then m else -m;
      a - q * b == (if a < 0 then -r else r) && 0 <= r < Abs(b)
  {
    var A, B := Abs(a), Abs(b);
    var m, r := A / B, A % B;
    assert A == m * B + r;
    if b > 0 {
      assert B == b;
      if a >= 0 {
        assert a - m * b == r;
      } else {
        assert a - (-m) * b == -A + m * B;
      }
    } else {
      assert B == -b;
      assert m * b == -(m * B);
      if a >= 0 {
        assert a - (-m) * b == A - m * B;
      } else {
        assert a - m * b == -A + m * B;
      }
    }
  }

  function DigitValue(c: char): nat
    requires IsDigit(c)
  {
    c as int - '0' as int
  }

  /** The value of a string of decimal digits, most significant first. */
  function DecimalValue(s: string): nat
    requires AllDigits(s)
  {
    if |s| == 0 then 0 else DecimalValue(s[..|s|-1]) * 10 + DigitValue(s[|s|-1])
  }

  /** An optional sign followed by at least one decimal digit: what `strconv.Atoi` accepts. */
  predicate IsNumeral(s: string) {
    if |s| > 0 && (s[0] == '+' || s[0] == '-') then |s| > 1 && AllDigits(s[1..])
    else |s| > 0 && AllDigits(s)
  }

  /**
   * `strconv.Atoi` with its error discarded, as `evaluate` uses it: the value
   * of a numeral, and 0 for anything else.
   */
  function Atoi(s: string): (v: int)
    ensures !IsNumeral(s) ==> v == 0
    ensures |s| > 0 && AllDigits(s) ==> v >= 0
  {
    if !IsNumeral(s) then 0
    else if s[0] == '-' then -(DecimalValue(s[1..]) as int)
    else if s[0] == '+' then DecimalValue(s[1..])
    else DecimalValue(s)
  }

  /** Decimal rendering of a natural number, the inverse that fixes what `Atoi` reads. */
  function Itoa(n: nat): (s: string)
    ensures |s| > 0 && AllDigits(s)
  {
    var d := ['0' + (n % 10) as char];
    if n < 10 then d else Itoa(n / 10) + d
  }

  lemma {:induction false} DecimalValueItoa(n: nat)
    ensures DecimalValue(Itoa(n)) == n
  {
    var s := Itoa(n);
    if n >= 10 {
      DecimalValueItoa(n / 10);
      assert s[..|s|-1] == Itoa(n / 10);
    }
  }

  /** `Atoi` reads back what `Itoa` writes, with or without a sign. */
  lemma AtoiItoa(n: nat)
    ensures Atoi(Itoa(n)) == n
    ensures Atoi("+" + Itoa(n)) == n
    ensures Atoi("-" + Itoa(n)) == -(n as int)
  {
    DecimalValueItoa(n);
    assert ("+" + Itoa(n))[1..] == Itoa(n);
    assert ("-" + Itoa(n))[1..] == Itoa(n);
  }

  /** Kinds `evaluate` has no case for: they evaluate to 0. */
  predicate Unevaluated(k: NodeKind) {
    k in {NodeKind.IntDeclaration, NodeKind.Expression, NodeKind.Assignment, NodeKind.Primary, NodeKind.Identifier}
  }

  /**
   * `evaluate`: post-order reduction of a tree to an integer. A program's
   * value is that of its last child (0 without children); additive and
   * multiplicative nodes combine their first two children by their operator
   * text; literals are read with `Atoi`; every other kind is 0.
   */
  function Evaluate(n: Node): (res: Result<int, EvalError>)
    ensures n.Nil? ==> res == Failure(NilNode)
    ensures n.Node? && Unevaluated(n.kind) ==> res == Success(0)
    ensures n.Node? && n.kind == NodeKind.IntLiteral && |n.text| > 0 && AllDigits(n.text) ==>
      res == Success(DecimalValue(n.text))
  {
    match n
    case Nil => Failure(NilNode)
    case Node(kind, text, children) =>
      match kind
      case Program => EvalChildren(children, 0)
      case Additive =>
        if |children| < 2 then Failure(MissingOperand)
        else
          var v1 :- Evaluate(children[0]);
          var v2 :- Evaluate(children[1]);
          Success(if text == "+" then v1 + v2 else v1 - v2)
      case Multiplicative =>
        if |children| < 2 then Failure(MissingOperand)
        else
          var v1 :- Evaluate(children[0]);
          var v2 :- Evaluate(children[1]);
          if text == "*" then Success(v1 * v2)
          else if v2 == 0 then Failure(DivisionByZero)
          else Success(TruncDiv(v1, v2))
      case IntLiteral => Success(Atoi(text))
      case _ => Success(0)
  }

  /**
   * The loop over a program's children: each is evaluated in turn, the last
   * value kept. It succeeds only when every child evaluates, with the last
   * child's value, and any error it reports is one of the children's.
   */
  function EvalChildren(cs: seq<Node>, last: int): (res: Result<int, EvalError>)
    ensures cs == [] ==> res == Success(last)
    ensures res.Success? ==> forall i :: 0 <= i < |cs| ==> Evaluate(cs[i]).Success?
    ensures res.Success? && cs != [] ==> res.value == Evaluate(cs[|cs| - 1]).value
    ensures res.Failure? ==> exists i :: 0 <= i < |cs| && Evaluate(cs[i]) == Failure(res.error)
  {
    if |cs| == 0 then Success(last)
    else
      var v :- Evaluate(cs[0]);
      assert forall i :: 0 <= i < |cs| - 1 ==> cs[1..][i] == cs[i + 1];
      EvalChildren(cs[1..], v)
  }
}
