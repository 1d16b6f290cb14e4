/**
 * The whole pipeline of calculator.go (`parse`, then `evaluate`, as
 * `execute` chains them): scan the script, parse it as a program, evaluate
 * the tree. The value the source prints is returned here.
 */
module Calculator {
  import opened Wrappers
  import opened Tokens
  import opened Lexer
  import opened TokenReader
  import opened Ast
  import opened Parser
  import opened ParserFacts
  import opened Evaluator
  import opened EvalFacts
  import opened PrintedText

  datatype CalcError = Syntax(syntax: ParseError) | Runtime(runtime: EvalError)

  /**
   * `parse`: a fresh lexer's tokens, read by `prog`. It fails exactly when
   * the additive expression at the front of the tokens does, and otherwise
   * gives a `Calculator` program whose only child is that expression.
   */
  function Parse(code: string): (res: Result<Node, ParseError>)
    ensures var body := Parser.Additive(NewTokenReader(Lex(code)));
      && (res.Success? <==> body.Success?)
      && (res.Failure? ==> res.error == body.error)
      && (res.Success? ==> res.value == Node(NodeKind.Program, "Calculator", [body.value.node]))
  {
    Prog(NewTokenReader(Lex(code)))
  }

  /** A program's value, from its tokens on. */
  function RunTokens(tokens: seq<Token>): Result<int, CalcError> {
    match Prog(NewTokenReader(tokens))
    case Failure(e) => Failure(Syntax(e))
    case Success(tree) => Outcome(Evaluate(tree))
  }

  /**
   * `execute`, returning the value it prints, or the error it returns or
   * panics with: a syntax error from `parse`, or else the outcome of
   * evaluating the parsed program.
   */
  function Calculate(code: string): (res: Result<int, CalcError>)
    ensures Parse(code).Failure? ==> res == Failure(Syntax(Parse(code).error))
    ensures Parse(code).Success? ==> res == Outcome(Evaluate(Parse(code).value))
  {
    RunTokens(Lex(code))
  }

  /** What a value or an evaluation error becomes in the pipeline's result. */
  function Outcome(v: Result<int, EvalError>): Result<int, CalcError> {
    match v
    case Success(x) => Success(x)
    case Failure(e) => Failure(Runtime(e))
  }

  /**
   * Any expression tree, printed as tokens, runs to the tree's own value:
   * parsing recovers the tree and a program's value is its one child's.
   */
  lemma RunShown(n: Node)
    requires IsExpr(n)
    ensures RunTokens(Show(n, Top)) == Outcome(Evaluate(n))
  {
    ParseShowProgram(n);
    ProgramValue("Calculator", n);
  }

  /** The same with redundant parentheses around every operand. */
  lemma RunBracketed(n: Node)
    requires IsExpr(n)
    ensures RunTokens(Bracketed(n)) == Outcome(Evaluate(n))
  {
    ParseBracketedProgram(n);
    ProgramValue("Calculator", n);
  }

  /**
   * A script that scans to a printed tree calculates that tree's value,
   * which is also what the stack machine computes from its postfix code.
   */
  lemma CalculateShown(code: string, n: Node)
    requires IsExpr(n) && (Lex(code) == Show(n, Top) || Lex(code) == Bracketed(n))
    ensures Calculate(code) == Outcome(Evaluate(n))
    ensures Calculate(code).Success? <==> Exec(Compile(n), []).Success?
    ensures Calculate(code).Success? ==> Exec(Compile(n), []) == Success([Calculate(code).value])
  {
    if Lex(code) == Show(n, Top) {
      RunShown(n);
    } else {
      RunBracketed(n);
    }
    ValueByMachine(n);
  }

  /**
   * Tokens after a complete expression that cannot continue it are ignored:
   * the script's value is the expression's.
   */
  lemma CalculateLeavesRest(code: string, n: Node, post: seq<Token>)
    requires IsExpr(n) && Stops(Top, post) && Lex(code) == Show(n, Top) + post
    ensures Calculate(code) == Outcome(Evaluate(n))
  {
    ProgLeavesRest(n, post);
    ProgramValue("Calculator", n);
  }

  /** An operator with nothing after it fails the program. */
  lemma RunTrailingOperator(n: Node, op: Token)
    requires IsExpr(n) && IsOperator(op.kind)
    ensures RunTokens(Show(n, Top) + [op]) ==
      Failure(Syntax(if IsAddOperator(op.kind) then AdditiveMissingRight else MultiplicativeMissingRight))
  {
    ProgTrailingOperator(n, op);
  }

  /** An operator with nothing after it fails the whole script. */
  lemma CalculateTrailingOperator(code: string, n: Node, op: Token)
    requires IsExpr(n) && IsOperator(op.kind) && Lex(code) == Show(n, Top) + [op]
    ensures Calculate(code) ==
      Failure(Syntax(if IsAddOperator(op.kind) then AdditiveMissingRight else MultiplicativeMissingRight))
  {
    RunTrailingOperator(n, op);
  }

  /**
   * The whole pipeline on text: the printed text of an expression tree whose
   * names are words other than `int` calculates that tree's value, or fails
   * with its evaluation error, printed with the fewest parentheses or with
   * every operand that is an operation in parentheses.
   */
  lemma CalculatePrinted(n: Node)
    requires Scannable(n)
    ensures Calculate(Concat(Show(n, Top))) == Outcome(Evaluate(n))
    ensures Calculate(Concat(Bracketed(n))) == Outcome(Evaluate(n))
  {
    LexShow(n);
    RunShown(n);
    LexBracketed(n);
    RunBracketed(n);
  }
}
