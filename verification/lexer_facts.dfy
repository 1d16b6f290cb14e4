/** Properties of the scanner of lexer.go, proved about the model in module Lexer. */
module LexerFacts {
  import opened Wrappers
  import opened Tokens
  import opened Lexer

  // ---------------------------------------------------------------------------
  // Sequences and subsequences
  // ---------------------------------------------------------------------------

  lemma SubsequenceSnocBoth<T>(a: seq<T>, b: seq<T>, x: T)
    requires IsSubsequence(a, b)
    ensures IsSubsequence(a + [x], b + [x])
  {
    assert (a + [x])[..|a|] == a;
    assert (b + [x])[..|b|] == b;
  }

  lemma SubsequenceSnocRight<T>(a: seq<T>, b: seq<T>, x: T)
    requires IsSubsequence(a, b)
    ensures IsSubsequence(a, b + [x])
  {
    assert (b + [x])[..|b|] == b;
  }

  lemma {:induction false} SubsequenceLength<T>(a: seq<T>, b: seq<T>)
    requires IsSubsequence(a, b)
    ensures |a| <= |b|
    decreases |b|
  {
    if |a| > 0 {
      if a[|a|-1] == b[|b|-1] && IsSubsequence(a[..|a|-1], b[..|b|-1]) {
        SubsequenceLength(a[..|a|-1], b[..|b|-1]);
      } else {
        SubsequenceLength(a, b[..|b|-1]);
      }
    }
  }

  /** Tokens with non-empty texts are no more numerous than the characters of their texts. */
  lemma {:induction false} CountBelowConcat(ts: seq<Token>)
    requires forall i :: 0 <= i < |ts| ==> |ts[i].text| > 0
    ensures |ts| <= |Concat(ts)|
  {
    if |ts| > 0 {
      CountBelowConcat(ts[1..]);
    }
  }

  // ---------------------------------------------------------------------------
  // Composition of scanning runs
  // ---------------------------------------------------------------------------

  /** Scanning `x + y` is scanning `x`, then `y` from where `x` left the scanner. */
  lemma {:induction false} RunAppend(s: Scanner, x: string, y: string)
    ensures Run(s, x + y) == Move(Run(Run(s, x).next, y).next, Run(s, x).out + Run(Run(s, x).next, y).out)
    decreases |x|
  {
    if |x| == 0 {
      assert x + y == y;
    } else {
      var c, x' := x[0], x[1..];
      var first := Step(s, c);
      assert x == [c] + x' && x + y == [c] + (x' + y);
      RunCons(s, c, x' + y);
      RunCons(s, c, x');
      RunAppend(first.next, x', y);
      var r1 := Run(first.next, x');
      Compose(first.out, r1, Run(r1.next, y), Run(first.next, x' + y), Run(s, x));
    }
  }

  /** The bookkeeping step of `RunAppend`: prefixing one step's tokens to a composed run. */
  lemma Compose(o: seq<Token>, r1: Move, r2: Move, rxy: Move, rx: Move)
    requires rxy == Move(r2.next, r1.out + r2.out)
    requires rx == Move(r1.next, o + r1.out)
    ensures Move(rxy.next, o + rxy.out) == Move(r2.next, rx.out + r2.out)
  {
    assert o + (r1.out + r2.out) == (o + r1.out) + r2.out;
  }

  /** `initToken` completes exactly the pending lexeme and opens a new one only with a character that starts a token. */
  lemma InitTokenShape(s: Scanner, c: char)
    ensures InitToken(s, c).out == Pending(s)
    ensures InitToken(s, c).next.pending == (if IsLexical(c) then [c] else [])
  {
  }

  /** One more character at the end of the input is one more step at the end of the run. */
  lemma RunSnoc(s: Scanner, x: string, c: char)
    ensures Run(s, x + [c]) == Move(Step(Run(s, x).next, c).next, Run(s, x).out + Step(Run(s, x).next, c).out)
  {
    RunAppend(s, x, [c]);
    var m := Run(s, x);
    assert Run(m.next, [c]) == Move(Step(m.next, c).next, Step(m.next, c).out + []);
  }

  // ---------------------------------------------------------------------------
  // Well-formed tokens
  // ---------------------------------------------------------------------------

  /** A pending lexeme the DFA state vouches for is a well-formed token. */
  lemma PendingOk(s: Scanner)
    requires ScannerOk(s) || (s.state == DfaState.Int3 && s.kind == TokenType.INT && s.pending == "int")
    ensures AllTokensOk(Pending(s))
  {
    if |s.pending| > 0 {
      var t := Token(s.pending, s.kind);
      assert Pending(s) == [t];
    }
  }

  lemma BeginOk(c: char)
    ensures Begin(c).Some? ==> ScannerOk(Scanner(Begin(c).value.0, [c], Begin(c).value.1))
  {
    if IsAlpha(c) {
      BeginWordOk(c);
    } else if IsDigit(c) {
      BeginNumberOk(c);
    } else if Begin(c).Some? {
      BeginSymbolOk(c);
    }
  }

  lemma BeginSymbolOk(c: char)
    requires !IsAlpha(c) && !IsDigit(c) && Begin(c).Some?
    ensures ScannerOk(Scanner(Begin(c).value.0, [c], Begin(c).value.1))
  {
    if c == '>' { assert [c] == ">"; }
    else if c == '<' { assert [c] == "<"; }
    else if c == '+' { assert [c] == "+"; }
    else if c == '-' { assert [c] == "-"; }
    else if c == '*' { assert [c] == "*"; }
    else if c == '/' { assert [c] == "/"; }
    else if c == '=' { assert [c] == "="; }
    else if c == ';' { assert [c] == ";"; }
    else if c == '(' { assert [c] == "("; }
    else { assert [c] == ")"; }
  }

  lemma BeginWordOk(c: char)
    requires IsAlpha(c)
    ensures ScannerOk(Scanner(Begin(c).value.0, [c], Begin(c).value.1))
  {
    assert [c][0] == c;
  }

  lemma BeginNumberOk(c: char)
    requires IsDigit(c)
    ensures ScannerOk(Scanner(Begin(c).value.0, [c], Begin(c).value.1))
  {
    assert AllDigits([c]);
  }


  lemma InitTokenKeepsOk(s: Scanner, c: char)
    requires ScannerOk(s) || (s.state == DfaState.Int3 && s.kind == TokenType.INT && s.pending == "int")
    ensures ScannerOk(InitToken(s, c).next)
    ensures AllTokensOk(InitToken(s, c).out)
  {
    PendingOk(s);
    BeginOk(c);
  }

  /** Appending a letter or digit to an identifier keeps it an identifier. */
  lemma ExtendIdOk(s: Scanner, c: char)
    requires s.kind == TokenType.Identifier && |s.pending| > 0 && IsAlpha(s.pending[0])
    ensures ScannerOk(Extend(s, DfaState.Id, s.kind, c).next)
  {
  }

  /** A step from a state the scanner vouches for leads to one, completing only well-formed tokens. */
  lemma StepKeepsOk(s: Scanner, c: char)
    requires ScannerOk(s)
    ensures ScannerOk(Step(s, c).next)
    ensures AllTokensOk(Step(s, c).out)
  {
    if IsWordState(s.state) {
      WordStepKeepsOk(s, c);
    } else {
      SymbolStepKeepsOk(s, c);
    }
  }

  /** The states of identifiers, the `int` keyword and literals. */
  predicate IsWordState(st: DfaState) {
    st == DfaState.Initial || st == DfaState.Id || st == DfaState.Int1 || st == DfaState.Int2
    || st == DfaState.Int3 || st == DfaState.IntLiteral
  }

  lemma WordStepKeepsOk(s: Scanner, c: char)
    requires ScannerOk(s) && IsWordState(s.state)
    ensures ScannerOk(Step(s, c).next)
    ensures AllTokensOk(Step(s, c).out)
  {
    var m := Step(s, c);
    match s.state {
      case Initial =>
        InitTokenKeepsOk(s, c);
      case Id =>
        if IsAlpha(c) || IsDigit(c) { ExtendIdOk(s, c); } else { InitTokenKeepsOk(s, c); }
      case Int1 =>
        if c == 'n' {
          assert m.next == Scanner(DfaState.Int2, "in", TokenType.Identifier);
        } else if IsDigit(c) || IsAlpha(c) {
          ExtendIdOk(s, c);
        } else {
          InitTokenKeepsOk(s, c);
        }
      case Int2 =>
        if c == 't' {
          assert m.next == Scanner(DfaState.Int3, "int", TokenType.Identifier);
        } else if IsDigit(c) || IsAlpha(c) {
          ExtendIdOk(s, c);
        } else {
          InitTokenKeepsOk(s, c);
        }
      case Int3 =>
        if IsBlank(c) {
          InitTokenKeepsOk(s.(kind := TokenType.INT), c);
        } else {
          ExtendIdOk(s, c);
        }
      case IntLiteral =>
        if IsDigit(c) {
          assert m.next.pending == s.pending + [c];
        } else {
          InitTokenKeepsOk(s, c);
        }
    }
  }

  lemma SymbolStepKeepsOk(s: Scanner, c: char)
    requires ScannerOk(s) && !IsWordState(s.state)
    ensures ScannerOk(Step(s, c).next)
    ensures AllTokensOk(Step(s, c).out)
  {
    var m := Step(s, c);
    if c == '=' && s.state in {DfaState.GT, DfaState.Assignment, DfaState.Plus, DfaState.Minus, DfaState.Star, DfaState.Slash} {
      match s.state {
        case GT => assert m.next == Scanner(DfaState.GE, ">=", TokenType.GE);
        case Assignment => assert m.next == Scanner(DfaState.EQ, "==", TokenType.EQ);
        case Plus => assert m.next == Scanner(DfaState.PlusEQ, "+=", TokenType.PlusEQ);
        case Minus => assert m.next == Scanner(DfaState.MinusEQ, "-=", TokenType.MinusEQ);
        case Star => assert m.next == Scanner(DfaState.StarEQ, "*=", TokenType.StarEQ);
        case Slash => assert m.next == Scanner(DfaState.SlashEQ, "/=", TokenType.SlashEQ);
      }
    } else {
      assert m == InitToken(s, c);
      InitTokenKeepsOk(s, c);
    }
  }

  lemma {:induction false} RunKeepsOk(s: Scanner, input: string)
    requires ScannerOk(s)
    ensures ScannerOk(Run(s, input).next)
    ensures AllTokensOk(Run(s, input).out)
    decreases |input|
  {
    if |input| > 0 {
      var m := Step(s, input[0]);
      StepKeepsOk(s, input[0]);
      RunKeepsOk(m.next, input[1..]);
    }
  }

  lemma FlushOk(s: Scanner)
    requires ScannerOk(s)
    ensures Flush(s) == Pending(s)
    ensures AllTokensOk(Flush(s))
  {
    assert Flush(s) == InitToken(s, ' ').out || Flush(s) == [];
    PendingOk(s);
  }


  /**
   * Every token the scanner emits has non-empty text that agrees with its kind:
   * `int` is the only INT text, identifiers start with a letter, literals are
   * all digits, each operator kind has its one spelling, and the kinds the
   * scanner never reaches (LE, PlusPlus, MinusMinus, DOUBLE, ...) do not occur.
   */
  lemma LexTokensOk(input: string)
    ensures AllTokensOk(Lex(input))
    ensures forall i :: 0 <= i < |Lex(input)| ==> !NeverEmitted(Lex(input)[i].kind)
  {
    RunKeepsOk(Start, input);
    FlushOk(Run(Start, input).next);
  }

  // ---------------------------------------------------------------------------
  // What happens to the characters
  // ---------------------------------------------------------------------------

  /** The characters that open a token are exactly the lexical ones. */
  lemma BeginLexical(c: char)
    ensures Begin(c).Some? <==> IsLexical(c)
  {
  }

  lemma ConcatPending(s: Scanner)
    ensures Concat(Pending(s)) == s.pending
  {
    if |s.pending| > 0 {
      assert Concat(Pending(s)) == s.pending + Concat([]);
    }
  }

  /**
   * A step either appends the character to the text seen so far (completed
   * tokens followed by the pending lexeme) or drops it; lexical characters are
   * never dropped.
   */
  lemma InitTokenText(s: Scanner, c: char)
    ensures var m := InitToken(s, c);
      Concat(m.out) + m.next.pending == s.pending + (if IsLexical(c) then [c] else [])
  {
    BeginLexical(c);
    ConcatPending(s);
  }

  lemma StepText(s: Scanner, c: char)
    ensures var m := Step(s, c);
      || Concat(m.out) + m.next.pending == s.pending + [c]
      || Concat(m.out) + m.next.pending == s.pending
    ensures var m := Step(s, c);
      IsLexical(c) ==> Concat(m.out) + m.next.pending == s.pending + [c]
  {
    var m := Step(s, c);
    InitTokenText(s, c);
    if m != InitToken(s, c) {
      assert Concat([]) == [];
      if s.state == DfaState.Int3 && IsBlank(c) {
        InitTokenText(s.(kind := TokenType.INT), c);
      } else {
        assert m.out == [] && m.next.pending == s.pending + [c];
      }
    }
  }

  predicate AllLexical(s: string) {
    forall i :: 0 <= i < |s| ==> IsLexical(s[i])
  }

  /** The completed token texts followed by the pending lexeme. */
  function Seen(m: Move): string {
    Concat(m.out) + m.next.pending
  }

  lemma {:induction false} SnocText(q: string, c: char)
    ensures Seen(Run(Start, q + [c])) == Seen(Run(Start, q)) + [c] || Seen(Run(Start, q + [c])) == Seen(Run(Start, q))
    ensures IsLexical(c) ==> Seen(Run(Start, q + [c])) == Seen(Run(Start, q)) + [c]
  {
    var mq := Run(Start, q);
    var st := Step(mq.next, c);
    RunSnoc(Start, q, c);
    StepText(mq.next, c);
    SeenSnoc(mq, st, Run(Start, q + [c]), c);
  }

  /** `SnocText` over abstract moves, away from the unfolding of `Run`. */
  lemma SeenSnoc(mq: Move, st: Move, m: Move, c: char)
    requires m == Move(st.next, mq.out + st.out)
    requires var t := Concat(st.out) + st.next.pending;
      t == mq.next.pending + [c] || t == mq.next.pending
    requires IsLexical(c) ==> Concat(st.out) + st.next.pending == mq.next.pending + [c]
    ensures Seen(m) == Seen(mq) + [c] || Seen(m) == Seen(mq)
    ensures IsLexical(c) ==> Seen(m) == Seen(mq) + [c]
  {
    SeenAfter(mq, st);
  }

  /** The text seen after one more step: what was completed before, then what the step leaves. */
  lemma SeenAfter(m: Move, st: Move)
    ensures Seen(Move(st.next, m.out + st.out)) == Concat(m.out) + (Concat(st.out) + st.next.pending)
  {
    ConcatAppend(m.out, st.out);
  }


  /** The text scanned so far is the input with some characters dropped. */
  lemma {:induction false} ScanSubsequence(p: string)
    ensures IsSubsequence(Seen(Run(Start, p)), p)
    decreases |p|
  {
    if |p| > 0 {
      var q, c := p[..|p|-1], p[|p|-1];
      assert p == q + [c];
      ScanSubsequence(q);
      SnocText(q, c);
      if Seen(Run(Start, p)) == Seen(Run(Start, q)) + [c] {
        SubsequenceSnocBoth(Seen(Run(Start, q)), q, c);
      } else {
        SubsequenceSnocRight(Seen(Run(Start, q)), q, c);
      }
    } else {
      assert Concat([]) == [];
    }
  }

  /** Only lexical characters scanned: none of them was dropped. */
  lemma {:induction false} ScanLossless(p: string)
    requires AllLexical(p)
    ensures Seen(Run(Start, p)) == p
    decreases |p|
  {
    if |p| > 0 {
      var q, c := p[..|p|-1], p[|p|-1];
      assert p == q + [c];
      assert AllLexical(q) by {
        forall i | 0 <= i < |q| ensures IsLexical(q[i]) {
          assert q[i] == p[i];
        }
      }
      ScanLossless(q);
      SnocText(q, c);
    } else {
      assert Concat([]) == [];
    }
  }

  /**
   * The token texts, laid end to end, are the input with some characters
   * dropped and the order kept, so there are never more tokens than input
   * characters; an input made only of lexical characters (letters, digits and
   * `> < + - * / = ; ( )`) is reproduced exactly.
   */
  lemma LexText(input: string)
    ensures IsSubsequence(Concat(Lex(input)), input)
    ensures |Lex(input)| <= |input|
    ensures AllLexical(input) ==> Concat(Lex(input)) == input
  {
    var m := Run(Start, input);
    ScanSubsequence(input);
    if AllLexical(input) {
      ScanLossless(input);
    }
    RunKeepsOk(Start, input);
    FlushOk(m.next);
    ConcatPending(m.next);
    ConcatAppend(m.out, Flush(m.next));
    assert Concat(Lex(input)) == Concat(m.out) + m.next.pending;
    LexTokensOk(input);
    CountBelowConcat(Lex(input));
    SubsequenceLength(Concat(Lex(input)), input);
  }

  // ---------------------------------------------------------------------------
  // Integer literals
  // ---------------------------------------------------------------------------

  lemma {:induction false} ScanDigits(ds: string)
    requires |ds| > 0 && AllDigits(ds)
    ensures Run(Start, ds) == Move(Scanner(DfaState.IntLiteral, ds, TokenType.IntLiteral), [])
    decreases |ds|
  {
    if |ds| == 1 {
      assert ds[1..] == [];
    } else {
      var q, d := ds[..|ds|-1], ds[|ds|-1];
      assert ds == q + [d];
      ScanDigits(q);
      RunSnoc(Start, q, d);
    }
  }

  /** A non-empty run of digits is one integer literal spelled like the input. */
  lemma LexDigits(ds: string)
    requires |ds| > 0 && AllDigits(ds)
    ensures Lex(ds) == [Token(ds, TokenType.IntLiteral)]
  {
    ScanDigits(ds);
  }

  // ---------------------------------------------------------------------------
  // Operators, keywords and separators
  // ---------------------------------------------------------------------------

  lemma LexFromCons(s: Scanner, c: char, rest: string)
    ensures LexFrom(s, [c] + rest) == Step(s, c).out + LexFrom(Step(s, c).next, rest)
  {
    assert ([c] + rest)[0] == c;
    assert ([c] + rest)[1..] == rest;
  }

  lemma LexFromAppend(s: Scanner, x: string, y: string)
    ensures LexFrom(s, x + y) == Run(s, x).out + LexFrom(Run(s, x).next, y)
  {
    var m1 := Run(s, x);
    var m2 := Run(m1.next, y);
    RunAppend(s, x, y);
    Finished(Run(s, x + y), m1.out, m2);
  }

  /** The tokens of a run and its flush, when the run is a prefix's tokens followed by a second run. */
  lemma Finished(m: Move, pre: seq<Token>, m2: Move)
    requires m == Move(m2.next, pre + m2.out)
    ensures m.out + Flush(m.next) == pre + (m2.out + Flush(m2.next))
  {
  }


  /** States from which every character completes the pending lexeme. */
  predicate Closed(st: DfaState) {
    st in {DfaState.SemiColon, DfaState.LeftParen, DfaState.RightParen, DfaState.GE, DfaState.LT,
           DfaState.LE, DfaState.EQ, DfaState.PlusEQ, DfaState.MinusEQ, DfaState.StarEQ, DfaState.SlashEQ}
  }

  /** From a closed state the pending lexeme is a finished token, whatever follows. */
  lemma LexFromClosed(s: Scanner, rest: string)
    requires Closed(s.state) && |s.pending| > 0
    ensures LexFrom(s, rest) == [Token(s.pending, s.kind)] + Lex(rest)
  {
    if |rest| > 0 {
      var c := rest[0];
      assert rest == [c] + rest[1..];
      ClosedStep(s, c);
      LexFromCons(s, c, rest[1..]);
      LexFromCons(Start, c, rest[1..]);
    }
  }

  /** From a closed state any character completes the lexeme and acts as from the start. */
  lemma ClosedStep(s: Scanner, c: char)
    requires Closed(s.state) && |s.pending| > 0
    ensures Step(s, c) == Move(Step(Start, c).next, [Token(s.pending, s.kind)])
  {
    assert Step(s, c) == InitToken(s, c);
  }

  /** `<` is never upgraded: whatever follows, it is a token of its own. */
  lemma LexLessThan(rest: string)
    ensures Lex("<" + rest) == [Token("<", TokenType.LT)] + Lex(rest)
  {
    assert Step(Start, '<') == Move(Scanner(DfaState.LT, "<", TokenType.LT), []);
    LexFromCons(Start, '<', rest);
    LexFromClosed(Scanner(DfaState.LT, "<", TokenType.LT), rest);
  }

  /** The state a compoundable operator opens, and the state `=` moves it to. */
  function OperatorState(op: char): DfaState
    requires Compoundable(op)
  {
    match op
    case '>' => DfaState.GT
    case '=' => DfaState.Assignment
    case '+' => DfaState.Plus
    case '-' => DfaState.Minus
    case '*' => DfaState.Star
    case _ => DfaState.Slash
  }

  function CompoundState(op: char): DfaState
    requires Compoundable(op)
  {
    match op
    case '>' => DfaState.GE
    case '=' => DfaState.EQ
    case '+' => DfaState.PlusEQ
    case '-' => DfaState.MinusEQ
    case '*' => DfaState.StarEQ
    case _ => DfaState.SlashEQ
  }

  /** The scanner just after a compoundable operator. */
  function AfterOperator(op: char): Scanner
    requires Compoundable(op)
  {
    Scanner(OperatorState(op), [op], SingleKind(op))
  }

  /** The transitions of the DFA on a compoundable operator and what follows it. */
  lemma OperatorSteps(op: char, c: char)
    requires Compoundable(op)
    ensures Step(Start, op) == Move(AfterOperator(op), [])
    ensures c == '=' ==>
      Step(AfterOperator(op), c) == Move(Scanner(CompoundState(op), [op, '='], CompoundKind(op)), [])
    ensures c != '=' ==>
      Step(AfterOperator(op), c) == Move(Step(Start, c).next, [Token([op], SingleKind(op))])
    ensures Closed(CompoundState(op))
  {
    OperatorStarts(op);
    if c == '=' {
      OperatorUpgrades(op);
    } else {
      OperatorEnds(op, c);
    }
  }

  lemma OperatorStarts(op: char)
    requires Compoundable(op)
    ensures Step(Start, op) == Move(AfterOperator(op), [])
    ensures Closed(CompoundState(op))
  {
    assert [] + [op] == [op];
  }

  lemma OperatorUpgrades(op: char)
    requires Compoundable(op)
    ensures Step(AfterOperator(op), '=') == Move(Scanner(CompoundState(op), [op, '='], CompoundKind(op)), [])
  {
    assert [op] + ['='] == [op, '='];
  }

  lemma OperatorEnds(op: char, c: char)
    requires Compoundable(op) && c != '='
    ensures Step(AfterOperator(op), c) == Move(Step(Start, c).next, [Token([op], SingleKind(op))])
  {
    assert Step(AfterOperator(op), c) == InitToken(AfterOperator(op), c);
  }


  /** One of `> = + - * /` immediately followed by `=` is one two-character token. */
  lemma LexCompound(op: char, rest: string)
    requires Compoundable(op)
    ensures Lex([op, '='] + rest) == [Token([op, '='], CompoundKind(op))] + Lex(rest)
  {
    assert [op, '='] + rest == [op] + (['='] + rest);
    OperatorSteps(op, '=');
    LexFromCons(Start, op, ['='] + rest);
    LexFromCons(AfterOperator(op), '=', rest);
    LexFromClosed(Scanner(CompoundState(op), [op, '='], CompoundKind(op)), rest);
  }

  /** Followed by anything but `=`, such an operator is a one-character token. */
  lemma LexSingleOperator(op: char, c: char, rest: string)
    requires Compoundable(op) && c != '='
    ensures Lex([op, c] + rest) == [Token([op], SingleKind(op))] + Lex([c] + rest)
  {
    assert [op, c] + rest == [op] + ([c] + rest);
    OperatorSteps(op, c);
    LexFromCons(Start, op, [c] + rest);
    LexFromCons(AfterOperator(op), c, rest);
    LexFromCons(Start, c, rest);
    StartEmitsNothing(c);
  }

  /** A fresh scanner has no pending lexeme, so its first step completes no token. */
  lemma StartEmitsNothing(c: char)
    ensures Step(Start, c).out == []
  {
  }

  /** The first three steps over `int`. */
  lemma ScanInt()
    ensures Step(Start, 'i') == Move(Scanner(DfaState.Int1, "i", TokenType.Identifier), [])
    ensures Step(Scanner(DfaState.Int1, "i", TokenType.Identifier), 'n')
            == Move(Scanner(DfaState.Int2, "in", TokenType.Identifier), [])
    ensures Step(Scanner(DfaState.Int2, "in", TokenType.Identifier), 't')
            == Move(Scanner(DfaState.Int3, "int", TokenType.Identifier), [])
  {
    assert "i" + "n" == "in";
    assert "in" + "t" == "int";
  }

  /** An operator at the very end of the input is completed by the flush. */
  lemma LexOperatorAtEnd(op: char)
    requires Compoundable(op)
    ensures Lex([op]) == [Token([op], SingleKind(op))]
  {
    OperatorSteps(op, ' ');
    LexFromCons(Start, op, []);
    assert [op] + [] == [op];
  }

  /** The kind of the one-character tokens '(', ')' and ';'. */
  function PunctuationKind(c: char): TokenType
    requires c in "();"
  {
    if c == '(' then TokenType.LeftParen else if c == ')' then TokenType.RightParen else TokenType.SemiColon
  }

  /** '(', ')' and ';' are tokens of their own, whatever follows them. */
  lemma LexPunctuation(c: char, rest: string)
    requires c in "();"
    ensures Lex([c] + rest) == [Token([c], PunctuationKind(c))] + Lex(rest)
  {
    LexFromCons(Start, c, rest);
    var s := Step(Start, c).next;
    assert s == Scanner(s.state, [c], PunctuationKind(c)) && Closed(s.state);
    LexFromClosed(s, rest);
  }

  /** A number ends at the first character that is not a digit, which starts afresh. */
  lemma LexNumberThen(ds: string, c: char, rest: string)
    requires |ds| > 0 && AllDigits(ds) && !IsDigit(c)
    ensures Lex(ds + [c] + rest) == [Token(ds, TokenType.IntLiteral)] + Lex([c] + rest)
  {
    ScanNumberThen(ds, c);
    LexFromAppend(Start, ds + [c], rest);
    LexFromCons(Start, c, rest);
  }

  /** The character after a number completes it and is dispatched as from the start. */
  lemma ScanNumberThen(ds: string, c: char)
    requires |ds| > 0 && AllDigits(ds) && !IsDigit(c)
    ensures Run(Start, ds + [c]) == Move(Step(Start, c).next, [Token(ds, TokenType.IntLiteral)])
    ensures Step(Start, c).out == []
  {
    ScanDigits(ds);
    RunSnoc(Start, ds, c);
    NumberEnds(ds, c);
    StartEmitsNothing(c);
  }

  /** A character other than a digit completes a number and acts as from the start. */
  lemma NumberEnds(ds: string, c: char)
    requires |ds| > 0 && !IsDigit(c)
    ensures Step(Scanner(DfaState.IntLiteral, ds, TokenType.IntLiteral), c) ==
      Move(Step(Start, c).next, [Token(ds, TokenType.IntLiteral)])
  {
    var s := Scanner(DfaState.IntLiteral, ds, TokenType.IntLiteral);
    assert Step(s, c) == InitToken(s, c);
  }


  /**
   * A number, an operator and what follows: the operator is a token of its
   * own unless an '=' follows it.
   */
  lemma LexNumberOperator(ds: string, op: char, rest: string)
    requires |ds| > 0 && AllDigits(ds) && Compoundable(op) && op != '='
    requires |rest| > 0 && rest[0] != '='
    ensures Lex(ds + [op] + rest) ==
      [Token(ds, TokenType.IntLiteral), Token([op], SingleKind(op))] + Lex(rest)
  {
    LexNumberThen(ds, op, rest);
    assert [op] + rest == [op, rest[0]] + rest[1..];
    LexSingleOperator(op, rest[0], rest[1..]);
    assert [rest[0]] + rest[1..] == rest;
  }

  /** `int` followed by a blank is the keyword, and scanning restarts afresh. */
  lemma LexIntKeyword(b: char, rest: string)
    requires IsBlank(b)
    ensures Lex("int" + [b] + rest) == [Token("int", TokenType.INT)] + Lex(rest)
  {
    ScanIntKeyword(b);
    LexFromAppend(Start, "int" + [b], rest);
  }

  /** `int` and a blank complete an `INT` token and leave the scanner as it started. */
  lemma ScanIntKeyword(b: char)
    requires IsBlank(b)
    ensures Run(Start, "int" + [b]) == Move(Start, [Token("int", TokenType.INT)])
  {
    var s1 := Scanner(DfaState.Int1, "i", TokenType.Identifier);
    var s2 := Scanner(DfaState.Int2, "in", TokenType.Identifier);
    var s3 := Scanner(DfaState.Int3, "int", TokenType.Identifier);
    ScanInt();
    assert Step(s3, b) == Move(Start, [Token("int", TokenType.INT)]);
    RunCons(s3, b, []);
    assert [b] + [] == [b];
    RunCons(s2, 't', [b]);
    RunCons(s1, 'n', ['t', b]);
    RunCons(Start, 'i', ['n', 't', b]);
    assert "int" + [b] == ['i'] + ['n', 't', b];
  }

  /** The loop's first iteration. */
  lemma RunCons(s: Scanner, c: char, rest: string)
    ensures Run(s, [c] + rest) ==
      Move(Run(Step(s, c).next, rest).next, Step(s, c).out + Run(Step(s, c).next, rest).out)
  {
    assert ([c] + rest)[0] == c && ([c] + rest)[1..] == rest;
  }


  /** `int` at the end of the input stays an identifier. */
  lemma LexIntAtEnd()
    ensures Lex("int") == [Token("int", TokenType.Identifier)]
  {
    assert "int" == ['i'] + (['n'] + (['t'] + []));
    ScanInt();
    LexFromCons(Start, 'i', ['n'] + (['t'] + []));
    LexFromCons(Scanner(DfaState.Int1, "i", TokenType.Identifier), 'n', ['t'] + []);
    LexFromCons(Scanner(DfaState.Int2, "in", TokenType.Identifier), 't', []);
    assert LexFrom(Scanner(DfaState.Int3, "int", TokenType.Identifier), []) == [Token("int", TokenType.Identifier)];
  }

  /**
   * `int` followed by any character other than a blank, `;` and `(` included,
   * leaves the scanner in the middle of an identifier that has taken that
   * character in; letters and digits after it extend the same identifier,
   * which ends at the next character that is neither.
   */
  lemma LexIntThenOther(c: char, w: string, rest: string)
    requires !IsBlank(c) && WordChars(w) && (rest == [] || !IsWordChar(rest[0]))
    ensures Run(Start, "int" + [c]) == Move(Scanner(DfaState.Id, "int" + [c], TokenType.Identifier), [])
    ensures Lex("int" + [c] + w + rest) == [Token("int" + [c] + w, TokenType.Identifier)] + Lex(rest)
  {
    var s1 := Scanner(DfaState.Int1, "i", TokenType.Identifier);
    var s2 := Scanner(DfaState.Int2, "in", TokenType.Identifier);
    var s3 := Scanner(DfaState.Int3, "int", TokenType.Identifier);
    var s4 := Scanner(DfaState.Id, "int" + [c], TokenType.Identifier);
    ScanInt();
    assert Step(s3, c) == Move(s4, []);
    RunCons(s3, c, []);
    assert [c] + [] == [c];
    RunCons(s2, 't', [c]);
    RunCons(s1, 'n', ['t', c]);
    RunCons(Start, 'i', ['n', 't', c]);
    assert "int" + [c] == ['i'] + ['n', 't', c];
    ScanIdWord(s4, w);
    RunAppend(Start, "int" + [c], w);
    LexFromAppend(Start, "int" + [c] + w, rest);
    WordEnds(Scanner(DfaState.Id, "int" + [c] + w, TokenType.Identifier), rest);
  }

  // ---------------------------------------------------------------------------
  // Identifiers
  // ---------------------------------------------------------------------------

  predicate IsWordChar(c: char) {
    IsAlpha(c) || IsDigit(c)
  }

  predicate WordChars(w: string) {
    forall i :: 0 <= i < |w| ==> IsWordChar(w[i])
  }

  /** An identifier's spelling: a letter, then letters and digits. */
  predicate IsWord(w: string) {
    |w| > 0 && IsAlpha(w[0]) && WordChars(w)
  }

  /** The DFA state after a word scanned from the start: the `int` states track a prefix of `int`. */
  function WordState(w: string): DfaState {
    if w == "i" then DfaState.Int1
    else if w == "in" then DfaState.Int2
    else if w == "int" then DfaState.Int3
    else DfaState.Id
  }

  /** Inside an identifier, letters and digits are appended to it. */
  lemma {:induction false} ScanIdWord(s: Scanner, w: string)
    requires s.state == DfaState.Id && WordChars(w)
    ensures Run(s, w) == Move(Scanner(DfaState.Id, s.pending + w, s.kind), [])
    decreases |w|
  {
    if |w| > 0 {
      var c, w' := w[0], w[1..];
      var s' := Scanner(DfaState.Id, s.pending + [c], s.kind);
      assert w == [c] + w';
      IdExtends(s, c);
      RunCons(s, c, w');
      ScanIdWord(s', w');
      assert s.pending + [c] + w' == s.pending + w;
    } else {
      assert s.pending + w == s.pending;
    }
  }

  /** A letter or digit extends an identifier in progress. */
  lemma IdExtends(s: Scanner, c: char)
    requires s.state == DfaState.Id && IsWordChar(c)
    ensures Step(s, c) == Move(Scanner(DfaState.Id, s.pending + [c], s.kind), [])
  {
  }

  /** A word scanned from the start is pending as an identifier, in its `WordState`. */
  lemma {:induction false} ScanWord(w: string)
    requires IsWord(w)
    ensures Run(Start, w) == Move(Scanner(WordState(w), w, TokenType.Identifier), [])
    decreases |w|
  {
    var q, c := w[..|w| - 1], w[|w| - 1];
    assert w == q + [c];
    if |q| == 0 {
      assert w == [c];
      RunCons(Start, c, []);
      assert WordState(w) == (if c == 'i' then DfaState.Int1 else DfaState.Id);
    } else {
      assert IsWord(q) && IsWordChar(c);
      ScanWord(q);
      RunSnoc(Start, q, c);
      WordStep(q, c);
    }
  }

  /** One more letter or digit after a word. */
  lemma WordStep(q: string, c: char)
    requires IsWord(q) && IsWordChar(c)
    ensures Step(Scanner(WordState(q), q, TokenType.Identifier), c) ==
      Move(Scanner(WordState(q + [c]), q + [c], TokenType.Identifier), [])
  {
    var w := q + [c];
    assert w[..|q|] == q && w[|q|] == c;
    if w == "in" {
      assert q == "i" && c == 'n';
    } else if w == "int" {
      assert q == "in" && c == 't';
    } else {
      assert w != "i";
      if q == "i" {
        assert c != 'n';
      } else if q == "in" {
        assert c != 't';
      }
    }
  }

  /** An identifier in progress ends at the first character that is neither a letter nor a digit. */
  lemma WordEnds(s: Scanner, rest: string)
    requires s.state in {DfaState.Id, DfaState.Int1, DfaState.Int2} && |s.pending| > 0
    requires rest == [] || !IsWordChar(rest[0])
    ensures LexFrom(s, rest) == [Token(s.pending, s.kind)] + Lex(rest)
  {
    if rest != [] {
      var c := rest[0];
      assert rest == [c] + rest[1..];
      WordStepEnds(s, c);
      StartEmitsNothing(c);
      LexFromCons(s, c, rest[1..]);
      LexFromCons(Start, c, rest[1..]);
    }
  }

  /** A character that is neither a letter nor a digit completes an identifier in progress. */
  lemma WordStepEnds(s: Scanner, c: char)
    requires s.state in {DfaState.Id, DfaState.Int1, DfaState.Int2} && |s.pending| > 0 && !IsWordChar(c)
    ensures Step(s, c) == Move(Step(Start, c).next, [Token(s.pending, s.kind)])
  {
    assert Step(s, c) == InitToken(s, c);
  }

  /**
   * A word other than `int` is one identifier, ended by the first character
   * that is neither a letter nor a digit.
   */
  lemma LexWord(w: string, rest: string)
    requires IsWord(w) && w != "int" && (rest == [] || !IsWordChar(rest[0]))
    ensures Lex(w + rest) == [Token(w, TokenType.Identifier)] + Lex(rest)
  {
    ScanWord(w);
    LexFromAppend(Start, w, rest);
    WordEnds(Scanner(WordState(w), w, TokenType.Identifier), rest);
  }

  /**
   * Outside the state right after `int`, a non-lexical character ends the
   * pending token and is itself dropped.
   */
  lemma StepSeparator(s: Scanner, c: char)
    requires ScannerOk(s) && s.state != DfaState.Int3 && !IsLexical(c)
    ensures Step(s, c) == Move(Start, Pending(s))
  {
    BeginLexical(c);
  }

  /**
   * A non-lexical character (a blank, say) splits the input: the tokens of
   * the whole are the tokens of each side, unless the left side ends in a
   * pending `int`.
   */
  lemma LexSplitsAtSeparator(a: string, c: char, b: string)
    requires !IsLexical(c) && Run(Start, a).next.state != DfaState.Int3
    ensures Lex(a + [c] + b) == Lex(a) + Lex(b)
  {
    var m := Run(Start, a);
    assert a + [c] + b == a + ([c] + b);
    LexFromAppend(Start, a, [c] + b);
    RunKeepsOk(Start, a);
    SeparatorTail(m.next, c, b);
    FlushOk(m.next);
    Regroup(m.out, Pending(m.next), Lex(b));
  }

  /** A separator closes the pending lexeme and restarts the scanner. */
  lemma SeparatorTail(s: Scanner, c: char, b: string)
    requires ScannerOk(s) && s.state != DfaState.Int3 && !IsLexical(c)
    ensures LexFrom(s, [c] + b) == Pending(s) + Lex(b)
  {
    StepSeparator(s, c);
    LexFromCons(s, c, b);
  }

  lemma Regroup(x: seq<Token>, y: seq<Token>, z: seq<Token>)
    ensures x + (y + z) == (x + y) + z
  {
  }

  // ---------------------------------------------------------------------------
  // Where the INT keyword comes from
  // ---------------------------------------------------------------------------

  /** After a step the pending lexeme is empty, the character alone, or the old lexeme extended by it. */
  lemma StepPendingShape(s: Scanner, c: char)
    ensures var n := Step(s, c).next.pending; n == [] || n == [c] || n == s.pending + [c]
  {
  }

  /** The pending lexeme is always the latest stretch of the input. */
  lemma {:induction false} ScanPendingSuffix(p: string)
    ensures |Run(Start, p).next.pending| <= |p|
    ensures p[|p| - |Run(Start, p).next.pending|..] == Run(Start, p).next.pending
    decreases |p|
  {
    if |p| > 0 {
      var q, c := p[..|p|-1], p[|p|-1];
      assert p == q + [c];
      ScanPendingSuffix(q);
      RunSnoc(Start, q, c);
      var before := Run(Start, q).next;
      StepPendingShape(before, c);
      SuffixExtends(q, c, p, before.pending, Step(before, c).next.pending);
    }
  }

  /** A suffix of `q` that is emptied, restarted with `c` or extended by `c` is a suffix of `q + [c]`. */
  lemma SuffixExtends(q: string, c: char, p: string, pq: string, n: string)
    requires p == q + [c] && |pq| <= |q| && q[|q| - |pq|..] == pq
    requires n == [] || n == [c] || n == pq + [c]
    ensures |n| <= |p| && p[|p| - |n|..] == n
  {
    if n == pq + [c] {
      assert p[|p| - |n|..] == q[|q| - |pq|..] + [c];
    }
  }

  /** The input holds `int` at `i`, followed by a blank. */
  predicate IntThenBlankAt(p: string, i: int) {
    0 <= i && i + 4 <= |p| && p[i..i+3] == "int" && IsBlank(p[i+3])
  }

  /** Only the step over the blank after `int` completes an INT token. */
  lemma StepIntShape(s: Scanner, c: char)
    requires ScannerOk(s)
    ensures || (s.state == DfaState.Int3 && IsBlank(c))
            || (forall i :: 0 <= i < |Step(s, c).out| ==> Step(s, c).out[i].kind != TokenType.INT)
  {
  }

  /**
   * Where the `k`-th token of a run comes from when it is INT: an `int` and a
   * blank at some `i`, and the run up to that blank emits exactly the tokens
   * up to and including the `k`-th.
   */
  lemma {:induction false} ScanIntWitness(p: string, k: int)
    requires 0 <= k < |Run(Start, p).out| && Run(Start, p).out[k].kind == TokenType.INT
    ensures exists i :: IntThenBlankAt(p, i) && Run(Start, p[..i + 4]).out == Run(Start, p).out[..k + 1]
    decreases |p|
  {
    var q, c := p[..|p|-1], p[|p|-1];
    assert p == q + [c];
    RunSnoc(Start, q, c);
    var mq := Run(Start, q);
    var st := Step(mq.next, c);
    if k < |mq.out| {
      ScanIntWitness(q, k);
      var i :| IntThenBlankAt(q, i) && Run(Start, q[..i + 4]).out == mq.out[..k + 1];
      OutPrefix(Run(Start, p), mq, st, k);
      WitnessCarries(p, q, c, i, k, mq.out, Run(Start, p).out);
    } else {
      ScanIntLast(p, k);
      assert p[..|p| - 4 + 4] == p;
    }
  }

  /** An INT token emitted by the last step of a run: the input ends in `int` and a blank, and the token is the last. */
  lemma ScanIntLast(p: string, k: int)
    requires |p| > 0 && |Run(Start, p[..|p| - 1]).out| <= k < |Run(Start, p).out|
    requires Run(Start, p).out[k].kind == TokenType.INT
    ensures 4 <= |p| && IntThenBlankAt(p, |p| - 4) && Run(Start, p).out[..k + 1] == Run(Start, p).out
  {
    var q, c := p[..|p| - 1], p[|p| - 1];
    assert p == q + [c];
    var mq := Run(Start, q);
    RunSnoc(Start, q, c);
    RunStepIntShape(q, c);
    ScanPendingSuffix(q);
    IntFromLastStep(p, q, c, k, mq, Step(mq.next, c), Run(Start, p));
  }

  /** After any run from the start, only a blank after a pending `int` makes the next step complete an INT token. */
  lemma RunStepIntShape(q: string, c: char)
    ensures var s := Run(Start, q).next;
      || (s.state == DfaState.Int3 && IsBlank(c) && s.pending == "int")
      || (forall i :: 0 <= i < |Step(s, c).out| ==> Step(s, c).out[i].kind != TokenType.INT)
  {
    RunKeepsOk(Start, q);
    StepIntShape(Run(Start, q).next, c);
  }

  /** The bookkeeping of `ScanIntLast`, over the moves themselves. */
  lemma IntFromLastStep(p: string, q: string, c: char, k: int, mq: Move, st: Move, m: Move)
    requires p == q + [c] && m.out == mq.out + st.out && |mq.out| <= k < |m.out| && m.out[k].kind == TokenType.INT
    requires |st.out| <= 1
    requires || (mq.next.state == DfaState.Int3 && IsBlank(c) && mq.next.pending == "int")
             || (forall i :: 0 <= i < |st.out| ==> st.out[i].kind != TokenType.INT)
    requires |mq.next.pending| <= |q| && q[|q| - |mq.next.pending|..] == mq.next.pending
    ensures 3 <= |q| && IntThenBlankAt(p, |q| - 3) && m.out[..k + 1] == m.out
  {
    OutAfter(m, mq, st, k);
    IntBeforeBlank(q, c, p);
  }

  /** A witness found in a prefix of the input is a witness in the whole input. */
  lemma WitnessCarries(p: string, q: string, c: char, i: int, k: int, early: seq<Token>, all: seq<Token>)
    requires p == q + [c] && IntThenBlankAt(q, i) && 0 <= k < |early| && k < |all|
    requires Run(Start, q[..i + 4]).out == early[..k + 1] && all[..k + 1] == early[..k + 1]
    ensures IntThenBlankAt(p, i) && Run(Start, p[..i + 4]).out == all[..k + 1]
  {
    assert p[i..i+3] == q[i..i+3] && p[i+3] == q[i+3];
    assert p[..i + 4] == q[..i + 4];
  }

  /** A token before the last step's output is one of the earlier output's. */
  lemma OutPrefix(m: Move, mq: Move, st: Move, k: int)
    requires m.out == mq.out + st.out && 0 <= k < |mq.out|
    ensures m.out[..k + 1] == mq.out[..k + 1]
  {
  }

  /** A token past the earlier output of a run was emitted by its last step. */
  lemma OutAfter(m: Move, mq: Move, st: Move, k: int)
    requires m.out == mq.out + st.out && |mq.out| <= k < |m.out|
    ensures k - |mq.out| < |st.out| && st.out[k - |mq.out|] == m.out[k]
  {
  }

  lemma IntBeforeBlank(q: string, c: char, p: string)
    requires p == q + [c] && IsBlank(c) && 3 <= |q| && q[|q| - 3..] == "int"
    ensures IntThenBlankAt(p, |q| - 3)
  {
    var i := |q| - 3;
    assert p[i..i+3] == q[i..];
  }

  /**
   * An INT token is only ever emitted for `int` immediately followed by a
   * blank: the `k`-th token, when it is INT, is exactly what the scanner has
   * emitted by the time it has read such an `int` and its blank.
   */
  lemma IntKeywordNeedsBlank(input: string, k: int)
    requires 0 <= k < |Lex(input)| && Lex(input)[k].kind == TokenType.INT
    ensures exists i :: IntThenBlankAt(input, i) && Run(Start, input[..i + 4]).out == Lex(input)[..k + 1]
  {
    IntNotFlushed(input, k);
    ScanIntWitness(input, k);
  }

  /** The flush never completes an INT token, so an INT token comes from the loop. */
  lemma IntNotFlushed(input: string, k: int)
    requires 0 <= k < |Lex(input)| && Lex(input)[k].kind == TokenType.INT
    ensures k < |Run(Start, input).out| && Run(Start, input).out[k].kind == TokenType.INT
    ensures Lex(input)[..k + 1] == Run(Start, input).out[..k + 1]
  {
    var m := Run(Start, input);
    RunKeepsOk(Start, input);
    FlushOk(m.next);
    if k < |m.out| {
      assert Lex(input)[..k + 1] == m.out[..k + 1];
    } else {
      assert false;
    }
  }

  // ---------------------------------------------------------------------------
  // Joined token texts, scanned back
  // ---------------------------------------------------------------------------

  /**
   * A token the scanner reads back as itself when what follows does not run
   * on into it: a numeral, a word other than `int`, a single operator or a
   * punctuation mark.
   */
  predicate Atomic(t: Token) {
    || (t.kind == TokenType.IntLiteral && |t.text| > 0 && AllDigits(t.text))
    || (t.kind == TokenType.Identifier && IsWord(t.text) && t.text != "int")
    || (|t.text| == 1 && Compoundable(t.text[0]) && t.kind == SingleKind(t.text[0]))
    || (|t.text| == 1 && t.text[0] in "();" && t.kind == PunctuationKind(t.text[0]))
  }

  /** The text `rest` after token `t` does not run on into it. */
  predicate EndsBefore(t: Token, rest: string) {
    rest == [] ||
    match t.kind
    case IntLiteral => !IsDigit(rest[0])
    case Identifier => !IsWordChar(rest[0])
    case LeftParen => true
    case RightParen => true
    case SemiColon => true
    case _ => rest[0] != '='
  }

  /** Tokens each read back as itself, none running on into the next. */
  predicate Separable(ts: seq<Token>) {
    && (forall i :: 0 <= i < |ts| ==> Atomic(ts[i]))
    && (forall i :: 0 <= i < |ts| - 1 ==> EndsBefore(ts[i], ts[i + 1].text))
  }

  /** One token's text, followed by text that does not run on into it. */
  lemma LexToken(t: Token, rest: string)
    requires Atomic(t) && EndsBefore(t, rest)
    ensures Lex(t.text + rest) == [t] + Lex(rest)
  {
    if t.kind == TokenType.IntLiteral && |t.text| > 0 && AllDigits(t.text) {
      if rest == [] {
        assert t.text + rest == t.text;
        LexDigits(t.text);
      } else {
        assert t.text + rest == t.text + [rest[0]] + rest[1..];
        LexNumberThen(t.text, rest[0], rest[1..]);
        assert [rest[0]] + rest[1..] == rest;
      }
    } else if t.kind == TokenType.Identifier && IsWord(t.text) && t.text != "int" {
      LexWord(t.text, rest);
    } else if |t.text| == 1 && Compoundable(t.text[0]) && t.kind == SingleKind(t.text[0]) {
      var op := t.text[0];
      assert t.text == [op];
      if rest == [] {
        assert t.text + rest == [op];
        LexOperatorAtEnd(op);
      } else {
        assert t.text + rest == [op, rest[0]] + rest[1..];
        LexSingleOperator(op, rest[0], rest[1..]);
        assert [rest[0]] + rest[1..] == rest;
      }
    } else {
      assert t.text == [t.text[0]];
      LexPunctuation(t.text[0], rest);
    }
  }

  /** The scanner reads separable tokens back from their joined texts. */
  lemma {:induction false} LexConcat(ts: seq<Token>)
    requires Separable(ts)
    ensures Lex(Concat(ts)) == ts
    decreases |ts|
  {
    if |ts| == 0 {
      assert Concat(ts) == [] && Lex([]) == [];
    } else {
      var rest := ts[1..];
      SeparableTail(ts);
      LexConcat(rest);
      EndsBeforeConcat(ts[0], rest);
      LexToken(ts[0], Concat(rest));
      assert Concat(ts) == ts[0].text + Concat(rest);
      assert ts == [ts[0]] + rest;
    }
  }

  lemma SeparableTail(ts: seq<Token>)
    requires Separable(ts) && |ts| > 0
    ensures Separable(ts[1..]) && Atomic(ts[0])
    ensures |ts| > 1 ==> EndsBefore(ts[0], ts[1].text)
  {
    var rest := ts[1..];
    forall i | 0 <= i < |rest| - 1 ensures EndsBefore(rest[i], rest[i + 1].text) {
      assert rest[i] == ts[i + 1] && rest[i + 1] == ts[i + 2];
    }
  }

  /** Whether a token ends before a joined text depends only on the first token of that text. */
  lemma EndsBeforeConcat(t: Token, rest: seq<Token>)
    requires Separable(rest) && (|rest| > 0 ==> EndsBefore(t, rest[0].text))
    ensures EndsBefore(t, Concat(rest))
  {
    if |rest| > 0 {
      assert Atomic(rest[0]) && |rest[0].text| > 0;
      assert Concat(rest) == rest[0].text + Concat(rest[1..]);
      assert Concat(rest)[0] == rest[0].text[0];
    }
  }

  /** Separable tokens stay separable when joined where the first part's last token ends. */
  lemma SeparableAppend(a: seq<Token>, b: seq<Token>)
    requires Separable(a) && Separable(b)
    requires |a| > 0 && |b| > 0 ==> EndsBefore(a[|a| - 1], b[0].text)
    ensures Separable(a + b)
  {
    var ab := a + b;
    forall i | 0 <= i < |ab| - 1 ensures EndsBefore(ab[i], ab[i + 1].text) {
      if i < |a| - 1 {
        assert ab[i] == a[i] && ab[i + 1] == a[i + 1];
      } else if i == |a| - 1 {
        assert ab[i] == a[|a| - 1] && ab[i + 1] == b[0];
      } else {
        assert ab[i] == b[i - |a|] && ab[i + 1] == b[i - |a| + 1];
      }
    }
  }
}
