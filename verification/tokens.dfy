/** Token kinds, tokens and the character classes the scanner dispatches on (lexer.go). */
module Tokens {

  /** Every kind the source declares, including the ones the scanner never produces. */
  datatype TokenType =
    | INIT | INT | DOUBLE | STRING | BOOL | NIL
    | GT | GE | LT | LE | EQ | Assign
    | Plus | PlusPlus | PlusEQ | Minus | MinusMinus | MinusEQ
    | Star | StarEQ | Slash | SlashEQ
    | LeftParen | RightParen | SemiColon
    | Identifier | IntLiteral

  /** One lexeme and its kind. */
  datatype Token = Token(text: string, kind: TokenType)

  predicate IsAlpha(c: char) {
    ('a' <= c <= 'z') || ('A' <= c <= 'Z')
  }

  predicate IsDigit(c: char) {
    '0' <= c <= '9'
  }

  predicate IsBlank(c: char) {
    c == ' ' || c == '\t' || c == '\n'
  }

  predicate AllDigits(s: string) {
    forall i :: 0 <= i < |s| ==> IsDigit(s[i])
  }

  /** A character that starts a token when the scanner is in its initial state. */
  predicate IsLexical(c: char) {
    IsAlpha(c) || IsDigit(c) || c in ['>', '<', '+', '-', '*', '/', '=', ';', '(', ')']
  }

  /**
   * The three classes are ASCII only and do not overlap: a letter or digit
   * outside ASCII starts no token, a blank never starts one, and a carriage
   * return is not a blank.
   */
  lemma CharClasses(c: char)
    ensures IsAlpha(c) || IsDigit(c) ==> c as int < 128
    ensures !(IsAlpha(c) && IsDigit(c))
    ensures IsBlank(c) ==> !IsLexical(c)
    ensures c == '\r' ==> !IsBlank(c) && !IsLexical(c)
  {
  }

  /** The single-character operators that an immediately following '=' upgrades. */
  predicate Compoundable(c: char) {
    c in ['>', '=', '+', '-', '*', '/']
  }

  /** The kind a compoundable operator starts as, and the kind '=' upgrades it to. */
  function SingleKind(c: char): TokenType
    requires Compoundable(c)
  {
    match c
    case '>' => GT
    case '=' => Assign
    case '+' => Plus
    case '-' => Minus
    case '*' => Star
    case _ => Slash
  }

  function CompoundKind(c: char): TokenType
    requires Compoundable(c)
  {
    match c
    case '>' => GE
    case '=' => EQ
    case '+' => PlusEQ
    case '-' => MinusEQ
    case '*' => StarEQ
    case _ => SlashEQ
  }

  /** Kinds that the scanner declares but never emits. */
  predicate NeverEmitted(k: TokenType) {
    k in {INIT, DOUBLE, STRING, BOOL, NIL, LE, PlusPlus, MinusMinus}
  }

  /**
   * What a token produced by the scanner looks like: non-empty text that
   * agrees with its kind.
   */
  predicate TokenOk(t: Token) {
    && |t.text| > 0
    && match t.kind
       case INT => t.text == "int"
       case Identifier => IsAlpha(t.text[0])
       case IntLiteral => AllDigits(t.text)
       case GT => t.text == ">"
       case GE => t.text == ">="
       case LT => t.text == "<"
       case EQ => t.text == "=="
       case Assign => t.text == "="
       case Plus => t.text == "+"
       case PlusEQ => t.text == "+="
       case Minus => t.text == "-"
       case MinusEQ => t.text == "-="
       case Star => t.text == "*"
       case StarEQ => t.text == "*="
       case Slash => t.text == "/"
       case SlashEQ => t.text == "/="
       case LeftParen => t.text == "("
       case RightParen => t.text == ")"
       case SemiColon => t.text == ";"
       case _ => false
  }

  predicate AllTokensOk(ts: seq<Token>) {
    forall i :: 0 <= i < |ts| ==> TokenOk(ts[i])
  }

  /** The token texts laid end to end. */
  function Concat(ts: seq<Token>): string {
    if |ts| == 0 then [] else ts[0].text + Concat(ts[1..])
  }

  lemma ConcatAppend(a: seq<Token>, b: seq<Token>)
    ensures Concat(a + b) == Concat(a) + Concat(b)
  {
    if |a| > 0 {
      assert (a + b)[1..] == a[1..] + b;
      ConcatAppend(a[1..], b);
    } else {
      assert a + b == b;
    }
  }

  /** `a` is `b` with some elements dropped and the order kept. */
  predicate IsSubsequence<T(==)>(a: seq<T>, b: seq<T>)
    decreases |b|
  {
    if |a| == 0 then true
    else if |b| == 0 then false
    else
      || (a[|a|-1] == b[|b|-1] && IsSubsequence(a[..|a|-1], b[..|b|-1]))
      || IsSubsequence(a, b[..|b|-1])
  }
}
