/**
 * The token cursor of lexer.go (`TokenReader`): the token sequence of one
 * scanning run plus one read position.
 */
module TokenReader {
  import opened Wrappers
  import opened Tokens

  datatype Reader = Reader(tokens: seq<Token>, position: int)

  /** The position stays within `[0, len]`. */
  predicate Valid(r: Reader) {
    0 <= r.position <= |r.tokens|
  }

  /** `NewTokenReader`: a cursor at the first token. */
  function NewTokenReader(tokens: seq<Token>): (r: Reader)
    ensures Valid(r) && r.tokens == tokens
    ensures r.position == 0
  {
    Reader(tokens, 0)
  }

  /**
   * `Read`: the token at the position, which then moves one step on; at the
   * end, nothing, and the position stays.
   */
  function Read(r: Reader): (res: (Option<Token>, Reader))
    requires 0 <= r.position
    ensures res.1.tokens == r.tokens
    ensures res.0.Some? <==> r.position < |r.tokens|
    ensures res.0.Some? ==> res.0.value == r.tokens[r.position] && res.1.position == r.position + 1
    ensures res.0.None? ==> res.1 == r
    ensures Valid(r) ==> Valid(res.1)
  {
    if r.position < |r.tokens| then
      (Some(r.tokens[r.position]), r.(position := r.position + 1))
    else
      (None, r)
  }

  /** `Peek`: what the next `Read` would return, without moving. */
  function Peek(r: Reader): (t: Option<Token>)
    requires 0 <= r.position
    ensures t == Read(r).0
  {
    if r.position < |r.tokens| then Some(r.tokens[r.position]) else None
  }

  /** `UnRead`: one step back, unless already at the start. */
  function UnRead(r: Reader): (r': Reader)
    ensures r'.tokens == r.tokens
    ensures r.position > 0 ==> r'.position == r.position - 1
    ensures r.position <= 0 ==> r' == r
    ensures Valid(r) ==> Valid(r')
  {
    if r.position > 0 then r.(position := r.position - 1) else r
  }

  function GetPosition(r: Reader): int {
    r.position
  }

  /** `setPosition`, which the source does not bounds-check, restricted to valid positions. */
  function SetPosition(r: Reader, position: int): (r': Reader)
    requires 0 <= position <= |r.tokens|
    ensures Valid(r') && r'.tokens == r.tokens
    ensures GetPosition(r') == position
  {
    r.(position := position)
  }

  /** A successful `Read` followed by `UnRead` restores the cursor. */
  lemma ReadThenUnRead(r: Reader)
    requires 0 <= r.position < |r.tokens|
    ensures UnRead(Read(r).1) == r
  {
  }

  /** Saving the position and setting it back later restores the cursor. */
  lemma SaveAndRestore(r: Reader, later: Reader)
    requires Valid(r) && later.tokens == r.tokens
    ensures SetPosition(later, GetPosition(r)) == r
  {
  }
}
