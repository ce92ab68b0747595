/**
 The records of the mcc lexer: token kinds, tokens, line groups, the scanning
 cursor and the ways scanning can fail.
 */
module Tokens {

  /** Success/Failure result used wherever the lexer can raise. */
  datatype Result<+T, +E> = Success(value: T) | Failure(error: E)

  // Token kinds. Single-character punctuators use their character code
  // (always below 256); the named kinds start at 256.
  const UNDEFINED: int := 256
  const EOF: int := 257
  const IDENTIFIER: int := 258
  const NUMBER: int := 259

  /** A lexeme as the half-open range [begin, end) of the source text. */
  datatype Token = Token(kind: int, begin: nat, end: nat)

  /** Consecutive tokens that begin on one source line. */
  datatype Line = Line(lineNumber: nat, lineOffset: nat, tokens: seq<Token>)

  /** The lexer's scanning state: the cursor, the line counter and the
      offset at which the current line starts. */
  datatype Cursor = Cursor(index: nat, lines: nat, lineOffset: nat)

  /** Why scanning stopped. IndexOutOfRange is the character read past the
      end of the text; InvalidToken is a character no token starts with. */
  datatype LexError = IndexOutOfRange(at: nat) | InvalidToken(at: nat)

  /** What one scanning step produced, together with the state it leaves. */
  datatype Step<+T> = Step(outcome: Result<T, LexError>, after: Cursor)
}
