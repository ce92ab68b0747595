/**
 The lexer object of mcc: the source text and the three fields its scanning
 updates in place.
 */
module Mcc {
  import opened Tokens
  import opened Predicates
  import opened Scanner
  import opened Grouping

  class Lexer {
    /** The decoded source text; reading it from a file is not modelled. */
    const text: string
    var index: nat
    var lines: nat
    var lineOffset: nat

    /** The scanning state as a value. */
    function State(): Cursor
      reads this
    {
      Cursor(index, lines, lineOffset)
    }

    constructor (text: string)
      ensures this.text == text
      ensures State() == Cursor(0, 1, 0)
    {
      this.text := text;
      index := 0;
      lineOffset := 0;
      lines := 1;
    }

    /** Skips whitespace and comments, then returns the next token, the
        end-of-file token, or the failure that tokenise raises. The result and
        the new state are those Scan gives for the old state. */
    method Tokenise() returns (r: Result<Token, LexError>)
      modifies this
      ensures Step(r, State()) == Scan(text, old(State()))
    {
      var skipped := SkipBlank();
      if skipped.Failure? {
        r := Failure(skipped.error);
        return;
      }
      r := ReadToken();
    }

    /** The skip loop at the head of tokenise: whitespace, counting each
        newline, line comments and block comments. */
    method SkipBlank() returns (r: Result<(), LexError>)
      modifies this
      ensures Step(r, State()) == Skip(text, old(State()))
    {
      ghost var c0 := State();
      var run := true;
      while run && InRange(text, index)
        invariant run ==> Skip(text, State()) == Skip(text, c0)
        invariant !run ==> index < |text| && Skip(text, c0) == Step(Success(()), State())
        decreases if index <= |text| then |text| - index else 0, run
      {
        ghost var here := State();
        ghost var m := SkipOnce(text, here);
        if White(text, index).value {
          if text[index] == '\n' {
            lines := lines + 1;
            lineOffset := index + 1;
          }
          index := index + 1;
          assert m == Moved(State());
        } else {
          var lc := LineComment(text, index);
          if lc.Failure? {
            assert m == Raised(lc.error);
            r := Failure(lc.error);
            return;
          }
          if lc.value {
            SkipLineComment();
            assert m == Moved(State());
          } else if BlockCommentBegin(text, index).value {
            SkipBlockComment();
            assert m == Moved(State());
          } else {
            assert m == Stopped;
            run := false;
          }
        }
      }
      r := Success(());
    }

    /** The line comment loop: up to the next newline, which stays for the
        whitespace branch to count, or up to the last character of the text. */
    method SkipLineComment()
      requires index < |text|
      modifies this
      ensures State() == old(State()).(index := LineCommentStop(text, old(index)))
    {
      ghost var start, lines0, offset0 := index, lines, lineOffset;
      while InRange(text, index + 1) && text[index] != '\n'
        invariant start <= index < |text|
        invariant LineCommentStop(text, index) == LineCommentStop(text, start)
        invariant lines == lines0 && lineOffset == offset0
        decreases |text| - index
      {
        index := index + 1;
      }
    }

    /** The block comment loop: past the opener, up to the first closing
        star-slash or the last index of the text, counting newlines, then two
        more positions whether or not the comment was closed. */
    method SkipBlockComment()
      requires index + 2 <= |text|
      modifies this
      ensures var stop := BlockCommentStop(text, old(index) + 2);
        State() == Cursor(stop + 2,
                          old(lines) + NewlinesIn(text, old(index) + 2, stop),
                          LineStart(text, old(index) + 2, stop, old(lineOffset)))
    {
      index := index + 2;
      ghost var from, lines0, offset0 := index, lines, lineOffset;
      while InRange(text, index + 1) && !BlockCommentEnd(text, index).value
        invariant from <= index <= |text|
        invariant BlockCommentStop(text, index) == BlockCommentStop(text, from)
        invariant lines == lines0 + NewlinesIn(text, from, index)
        invariant lineOffset == LineStart(text, from, index, offset0)
        decreases |text| - index
      {
        if text[index] == '\n' {
          lines := lines + 1;
          lineOffset := index + 1;
        }
        index := index + 1;
      }
      index := index + 2;
    }

    /** The seven `has` checks of tokenise, in the source's order: the kind
        of the punctuator at the cursor, or UNDEFINED when there is none. */
    method Punctuator() returns (kind: int)
      requires index < |text|
      ensures kind == if IsPunctuator(text[index]) then text[index] as int else UNDEFINED
    {
      forall ch: char ensures Has(text, index, [ch]) <==> text[index] == ch {
        HasSingle(text, index, ch);
      }
      kind := UNDEFINED;
      if Has(text, index, "+") {
        kind := '+' as int;
      } else if Has(text, index, ";") {
        kind := ';' as int;
      } else if Has(text, index, "@") {
        kind := '@' as int;
      } else if Has(text, index, "(") {
        kind := '(' as int;
      } else if Has(text, index, ")") {
        kind := ')' as int;
      } else if Has(text, index, "{") {
        kind := '{' as int;
      } else if Has(text, index, "}") {
        kind := '}' as int;
      }
    }

    /** The part of tokenise after the skip loop: end of file, a punctuator,
        a digit run, an identifier run, or the invalid-token failure. */
    method ReadToken() returns (r: Result<Token, LexError>)
      modifies this
      ensures Step(r, State()) == TokenAt(text, old(State()))
    {
      if !InRange(text, index) {
        r := Success(Token(EOF, index, index));
        return;
      }

      var begin := index;
      ghost var lines0, offset0 := lines, lineOffset;
      var kind := Punctuator();
      if kind == UNDEFINED {
        while InRange(text, index) && Digit(text, index).value
          invariant begin <= index <= |text|
          invariant RunEnd(text, index, IsDigitChar) == RunEnd(text, begin, IsDigitChar)
          invariant lines == lines0 && lineOffset == offset0
          decreases |text| - index
        {
          index := index + 1;
        }
        if begin != index {
          r := Success(Token(NUMBER, begin, index));
          return;
        }

        while InRange(text, index) && Identifier(text, index).value
          invariant begin <= index <= |text|
          invariant RunEnd(text, index, IsIdentChar) == RunEnd(text, begin, IsIdentChar)
          invariant lines == lines0 && lineOffset == offset0
          decreases |text| - index
        {
          index := index + 1;
        }
        if begin != index {
          r := Success(Token(IDENTIFIER, begin, index));
          return;
        }

        r := Failure(InvalidToken(index));
        return;
      }

      index := index + 1;
      r := Success(Token(kind, begin, index));
    }

    /** Calls tokenise until the end-of-file token and groups the tokens into
        Line records. The records are those Group builds from the stream
        TokenStream gives for the old state, and the new state is where that
        stream ends; when a call fails, lex fails with that call's error. */
    method Lex() returns (r: Result<seq<Line>, LexError>)
      modifies this
      ensures var st := TokenStream(text, old(State()));
        State() == st.after
        && (r.Success? <==> st.outcome.Success?)
        && (r.Success? ==> r.value == Group(st.placed, old(lines), old(lineOffset)))
        && (r.Failure? ==> st.outcome == Failure(r.error))
    {
      ghost var c0 := State();
      var l := lines;
      var lo := lineOffset;
      var tokens: seq<Token> := [];
      ghost var prev := State();
      var t := Tokenise();
      if t.Failure? {
        return Failure(t.error);
      }
      var token := t.value;
      var groups: seq<Line> := [];

      while token.kind != EOF
        invariant Scan(text, prev) == Step(Success(token), State())
        invariant TokenStream(text, prev).outcome == TokenStream(text, c0).outcome
        invariant TokenStream(text, prev).after == TokenStream(text, c0).after
        invariant GroupFrom(groups, l, lo, tokens, TokenStream(text, prev).placed)
                  == Group(TokenStream(text, c0).placed, c0.lines, c0.lineOffset)
        decreases |TokenStream(text, prev).placed|
      {
        ghost var rest := TokenStream(text, State()).placed;
        assert TokenStream(text, prev).placed == [Placed(token, lines, lineOffset)] + rest;
        assert ([Placed(token, lines, lineOffset)] + rest)[1..] == rest;
        ghost var whole := GroupFrom(groups, l, lo, tokens, TokenStream(text, prev).placed);
        if lines != l && |tokens| >= 1 {
          groups := groups + [Line(l, lo, tokens)];
          tokens := [];
          l := lines;
          lo := lineOffset;
        }
        tokens := tokens + [token];
        assert [] + [token] == [token];
        assert GroupFrom(groups, l, lo, tokens, rest) == whole;
        prev := State();
        t := Tokenise();
        if t.Failure? {
          return Failure(t.error);
        }
        token := t.value;
      }

      if |tokens| >= 1 {
        groups := groups + [Line(l, lo, tokens)];
      }
      r := Success(groups);
    }
  }

  /** What lex returns on a fresh lexer, when it succeeds: Line records that
      hold every token in order and none else, none of them empty, numbered
      with strictly rising line numbers, the first numbered 1 with line start
      0; the tokens lie in order inside the text, and each carries one plus
      the number of newlines before it with the line start after the last of
      them; lex stops at or past the end of the text. */
  lemma FreshLex(text: string)
    ensures var c := Cursor(0, 1, 0); var st := TokenStream(text, c); var g := Group(st.placed, 1, 0);
      Flatten(g) == TokensOf(st.placed)
      && NonEmptyLines(g) && RisingLines(g)
      && (g != [] ==> g[0].lineNumber == 1 && g[0].lineOffset == 0)
      && (g == [] <==> st.placed == [])
      && Ordered(text, c, st.placed)
      && LinesAccounted(text, c, st.placed)
      && (st.outcome.Success? ==> |text| <= st.after.index)
  {
    var c := Cursor(0, 1, 0);
    var p := TokenStream(text, c).placed;
    StreamOrdered(text, c);
    StreamEnds(text, c);
    StreamLineAccounting(text, c);
    assert forall k :: 0 <= k < |p| ==> 1 <= p[k].line;
    GroupProperties(p, 1, 0);
  }
}
