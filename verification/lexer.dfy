/**
 * The character-by-character scanner of lexer.go (`SimpleLexer.tokenize` and
 * `initToken`): a deterministic finite automaton whose state is the DFA state,
 * the pending lexeme and the kind assigned to it so far. Each step may complete
 * a token; the token list is the concatenation of what the steps complete.
 */
module Lexer {
  import opened Wrappers
  import opened Tokens

  datatype DfaState =
    | Initial | Id | Int1 | Int2 | Int3
    | IntLiteral | SemiColon | LeftParen | RightParen | Assignment
    | GT | GE | LT | LE
    | Plus | Minus | Star | Slash
    | EQ | PlusEQ | MinusEQ | StarEQ | SlashEQ

  /** `tokenText` and `token.Type` of the Go lexer, with the DFA state. */
  datatype Scanner = Scanner(state: DfaState, pending: string, kind: TokenType)

  /** A fresh lexer before the first character. */
  const Start := Scanner(DfaState.Initial, [], TokenType.INIT)

  /** The scanner after a move, and the tokens the move completed. */
  datatype Move = Move(next: Scanner, out: seq<Token>)

  /** The token the pending lexeme becomes when it is completed, if there is one. */
  function Pending(s: Scanner): seq<Token> {
    if |s.pending| > 0 then [Token(s.pending, s.kind)] else []
  }

  /** The state and kind a character opens when dispatched from the initial state. */
  function Begin(c: char): Option<(DfaState, TokenType)> {
    if IsAlpha(c) then Some((if c == 'i' then DfaState.Int1 else DfaState.Id, TokenType.Identifier))
    else if IsDigit(c) then Some((DfaState.IntLiteral, TokenType.IntLiteral))
    else if c == '>' then Some((DfaState.GT, TokenType.GT))
    else if c == '<' then Some((DfaState.LT, TokenType.LT))
    else if c == '+' then Some((DfaState.Plus, TokenType.Plus))
    else if c == '-' then Some((DfaState.Minus, TokenType.Minus))
    else if c == '*' then Some((DfaState.Star, TokenType.Star))
    else if c == '/' then Some((DfaState.Slash, TokenType.Slash))
    else if c == '=' then Some((DfaState.Assignment, TokenType.Assign))
    else if c == ';' then Some((DfaState.SemiColon, TokenType.SemiColon))
    else if c == '(' then Some((DfaState.LeftParen, TokenType.LeftParen))
    else if c == ')' then Some((DfaState.RightParen, TokenType.RightParen))
    else None
  }

  /**
   * `initToken`: complete the pending lexeme (if any), then open a new one
   * with `c`, or skip `c` when it starts no token.
   */
  function InitToken(s: Scanner, c: char): (m: Move)
  {
    var kind := if |s.pending| > 0 then TokenType.INIT else s.kind;
    match Begin(c)
    case Some((st, k)) => Move(Scanner(st, [c], k), Pending(s))
    case None => Move(Scanner(DfaState.Initial, [], kind), Pending(s))
  }

  /** Append `c` to the pending lexeme and move to `st` with kind `k`. */
  function Extend(s: Scanner, st: DfaState, k: TokenType, c: char): Move {
    Move(Scanner(st, s.pending + [c], k), [])
  }

  /**
   * One iteration of the `tokenize` loop. It completes at most one token, the
   * pending lexeme; the character then extends the lexeme, starts a new one
   * or is dropped.
   */
  function Step(s: Scanner, c: char): (m: Move)
    ensures |m.out| <= 1
    ensures |m.out| == 1 ==> |s.pending| > 0 && m.out[0].text == s.pending
  {
    match s.state
    case Initial => InitToken(s, c)
    case Id =>
      if IsAlpha(c) || IsDigit(c) then Extend(s, DfaState.Id, s.kind, c) else InitToken(s, c)
    case Int1 =>
      if c == 'n' then Extend(s, DfaState.Int2, s.kind, c)
      else if IsDigit(c) || IsAlpha(c) then Extend(s, DfaState.Id, s.kind, c)
      else InitToken(s, c)
    case Int2 =>
      if c == 't' then Extend(s, DfaState.Int3, s.kind, c)
      else if IsDigit(c) || IsAlpha(c) then Extend(s, DfaState.Id, s.kind, c)
      else InitToken(s, c)
    case Int3 =>
      if IsBlank(c) then InitToken(s.(kind := TokenType.INT), c)
      else Extend(s, DfaState.Id, s.kind, c)
    case GT =>
      if c == '=' then Extend(s, DfaState.GE, TokenType.GE, c) else InitToken(s, c)
    case Assignment =>
      if c == '=' then Extend(s, DfaState.EQ, TokenType.EQ, c) else InitToken(s, c)
    case Plus =>
      if c == '=' then Extend(s, DfaState.PlusEQ, TokenType.PlusEQ, c) else InitToken(s, c)
    case Minus =>
      if c == '=' then Extend(s, DfaState.MinusEQ, TokenType.MinusEQ, c) else InitToken(s, c)
    case Star =>
      if c == '=' then Extend(s, DfaState.StarEQ, TokenType.StarEQ, c) else InitToken(s, c)
    case Slash =>
      if c == '=' then Extend(s, DfaState.SlashEQ, TokenType.SlashEQ, c) else InitToken(s, c)
    case IntLiteral =>
      if IsDigit(c) then Extend(s, DfaState.IntLiteral, s.kind, c) else InitToken(s, c)
    case _ => InitToken(s, c)
  }

  /**
   * The scanning loop from scanner `s` over `input`: each character completes
   * at most one token, counting the pending lexeme as one still to come.
   */
  function Run(s: Scanner, input: string): (m: Move)
    decreases |input|
  {
    if |input| == 0 then Move(s, [])
    else
      var m := Step(s, input[0]);
      var rest := Run(m.next, input[1..]);
      Move(rest.next, m.out + rest.out)
  }

  /** After the loop: a pending lexeme is completed as if a blank followed it. */
  function Flush(s: Scanner): (ts: seq<Token>)
    ensures ts == Pending(s)
  {
    if |s.pending| > 0 then InitToken(s, ' ').out else []
  }

  /** Scanning `input` from `s` to the end, flush included. */
  function LexFrom(s: Scanner, input: string): (ts: seq<Token>)
  {
    var m := Run(s, input);
    m.out + Flush(m.next)
  }

  /** `tokenize` on a fresh lexer: never more tokens than characters. */
  function Lex(input: string): (ts: seq<Token>)
  {
    LexFrom(Start, input)
  }

  /**
   * `tokenize` as the source writes it: one loop over the characters, then the
   * flush of a pending lexeme. It computes the fold `Lex`.
   */
  method Tokenize(script: string) returns (tokens: seq<Token>)
    ensures tokens == Lex(script)
  {
    var s := Start;
    var out: seq<Token> := [];
    var i := 0;
    while i < |script|
      invariant 0 <= i <= |script|
      invariant Run(Start, script) == Move(Run(s, script[i..]).next, out + Run(s, script[i..]).out)
    {
      var m := Step(s, script[i]);
      assert script[i..][0] == script[i] && script[i..][1..] == script[i+1..];
      s := m.next;
      out := out + m.out;
      i := i + 1;
    }
    assert script[i..] == [];
    tokens := out + Flush(s);
  }

  /** The DFA state says exactly what the pending lexeme and its kind are. */
  predicate ScannerOk(s: Scanner) {
    match s.state
    case Initial => s.pending == [] && s.kind == TokenType.INIT
    case Id => s.kind == TokenType.Identifier && |s.pending| > 0 && IsAlpha(s.pending[0])
    case Int1 => s.kind == TokenType.Identifier && s.pending == "i"
    case Int2 => s.kind == TokenType.Identifier && s.pending == "in"
    case Int3 => s.kind == TokenType.Identifier && s.pending == "int"
    case IntLiteral => s.kind == TokenType.IntLiteral && |s.pending| > 0 && AllDigits(s.pending)
    case SemiColon => s.kind == TokenType.SemiColon && s.pending == ";"
    case LeftParen => s.kind == TokenType.LeftParen && s.pending == "("
    case RightParen => s.kind == TokenType.RightParen && s.pending == ")"
    case Assignment => s.kind == TokenType.Assign && s.pending == "="
    case GT => s.kind == TokenType.GT && s.pending == ">"
    case GE => s.kind == TokenType.GE && s.pending == ">="
    case LT => s.kind == TokenType.LT && s.pending == "<"
    case LE => false
    case Plus => s.kind == TokenType.Plus && s.pending == "+"
    case Minus => s.kind == TokenType.Minus && s.pending == "-"
    case Star => s.kind == TokenType.Star && s.pending == "*"
    case Slash => s.kind == TokenType.Slash && s.pending == "/"
    case EQ => s.kind == TokenType.EQ && s.pending == "=="
    case PlusEQ => s.kind == TokenType.PlusEQ && s.pending == "+="
    case MinusEQ => s.kind == TokenType.MinusEQ && s.pending == "-="
    case StarEQ => s.kind == TokenType.StarEQ && s.pending == "*="
    case SlashEQ => s.kind == TokenType.SlashEQ && s.pending == "/="
  }
}
