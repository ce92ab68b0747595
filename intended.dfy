/**
 Three places where the lexer as written departs from what it evidently means
 to do, each shown on the as-written model, next to a corrected definition
 with the intended property proved about it:
 - lex numbers the first Line record with the line counter held before the
   first token is scanned, so a first token below line 1 is misplaced;
 - the comment predicates read one character past the end of the text, so
   tokenising fails whenever the skip loop reaches the last character of the
   text and that character is not whitespace;
 - an unterminated block comment carries the cursor past the end of the text,
   so the end-of-file token lies outside it.
 */
module Intended {
  import opened Tokens
  import opened Predicates
  import opened Scanner
  import opened Grouping

  // ---------------------------------------------------------------------------
  // The first Line record

  /** The tokens of a record, each with the record's line number and line start. */
  function Spread(r: Line): (s: seq<Placed>)
    ensures |s| == |r.tokens|
    ensures forall k :: 0 <= k < |s| ==> s[k] == Placed(r.tokens[k], r.lineNumber, r.lineOffset)
  {
    seq(|r.tokens|, k requires 0 <= k < |r.tokens| => Placed(r.tokens[k], r.lineNumber, r.lineOffset))
  }

  /** The stream a list of records describes: every token with the line
      number and line start of its record. */
  function Ungroup(g: seq<Line>): seq<Placed> {
    if g == [] then [] else Spread(g[0]) + Ungroup(g[1..])
  }

  lemma {:induction false} UngroupAppend(g: seq<Line>, r: Line)
    ensures Ungroup(g + [r]) == Ungroup(g) + Spread(r)
    decreases |g|
  {
    if g == [] {
      assert [] + [r] == [r];
      assert Ungroup([r]) == Spread(r) + Ungroup([]);
    } else {
      assert (g + [r])[1..] == g[1..] + [r];
      UngroupAppend(g[1..], r);
    }
  }

  /** While lex gathers tokens for a record, that record already exists at
      position |done| of the result, with its line number and line start, and
      its tokens begin with those gathered so far. */
  lemma {:induction false} GroupFromHead(done: seq<Line>, l: nat, lo: nat, cur: seq<Token>, rest: seq<Placed>)
    requires |cur| >= 1
    ensures var g := GroupFrom(done, l, lo, cur, rest);
      |done| < |g| && g[|done|].lineNumber == l && g[|done|].lineOffset == lo
      && |cur| <= |g[|done|].tokens| && g[|done|].tokens[..|cur|] == cur
    decreases |rest|
  {
    if rest != [] {
      var p := rest[0];
      if p.line != l {
        var done' := done + [Line(l, lo, cur)];
        GroupFromPrefix(done', p.line, p.lineOffset, [p.token], rest[1..]);
        var g := GroupFrom(done', p.line, p.lineOffset, [p.token], rest[1..]);
        assert g[|done|] == g[..|done'|][|done|];
      } else {
        GroupFromHead(done, l, lo, cur + [p.token], rest[1..]);
        var g := GroupFrom(done, l, lo, cur + [p.token], rest[1..]);
        assert g[|done|].tokens[..|cur|] == g[|done|].tokens[..|cur| + 1][..|cur|];
      }
    }
  }

  /** As written: when the first token does not lie on the line lex started
      from, the records lex builds put that token on the starting line with
      the starting line start, so they no longer describe the stream. */
  lemma FirstRecordMisplaced(p: seq<Placed>, l: nat, lo: nat)
    requires p != [] && p[0].line != l
    ensures var g := Group(p, l, lo);
      g != [] && g[0].lineNumber == l && g[0].lineOffset == lo
      && |g[0].tokens| >= 1 && g[0].tokens[0] == p[0].token
      && Ungroup(g) != p
  {
    assert [] + [p[0].token] == [p[0].token];
    assert Group(p, l, lo) == GroupFrom([], l, lo, [p[0].token], p[1..]);
    GroupFromHead([], l, lo, [p[0].token], p[1..]);
    var g := Group(p, l, lo);
    assert g[0].tokens[0] == g[0].tokens[..1][0];
    assert Ungroup(g)[0] == Spread(g[0])[0];
  }

  /** As written, on a fresh lexer: when a newline comes before the first
      token, that token lies on line 1 + (newlines before it), yet the first
      record is numbered 1 with line start 0. */
  lemma FreshLexMisplacesFirstToken(text: string)
    requires TokenStream(text, Cursor(0, 1, 0)).placed != []
    requires NewlinesIn(text, 0, TokenStream(text, Cursor(0, 1, 0)).placed[0].token.begin) > 0
    ensures var p := TokenStream(text, Cursor(0, 1, 0)).placed; var g := Group(p, 1, 0);
      p[0].line > 1 && g != [] && g[0].lineNumber == 1 && g[0].lineOffset == 0
      && |g[0].tokens| >= 1 && g[0].tokens[0] == p[0].token && Ungroup(g) != p
  {
    var p := TokenStream(text, Cursor(0, 1, 0)).placed;
    StreamLineAccounting(text, Cursor(0, 1, 0));
    assert LinesAccounted(text, Cursor(0, 1, 0), p);
    FirstRecordMisplaced(p, 1, 0);
  }

  /** Corrected grouping: a record takes the line number and line start of
      its own first token. As with lex's grouping, the finished records
      stay and at most one record is added per token. */
  function GroupByLineFrom(done: seq<Line>, l: nat, lo: nat, cur: seq<Token>, rest: seq<Placed>): (g: seq<Line>)
    ensures |done| <= |g| <= |done| + (if |cur| >= 1 then 1 else 0) + |rest|
    decreases |rest|
  {
    if rest == [] then
      if |cur| >= 1 then done + [Line(l, lo, cur)] else done
    else
      var p := rest[0];
      if |cur| == 0 then GroupByLineFrom(done, p.line, p.lineOffset, [p.token], rest[1..])
      else if p.line != l then GroupByLineFrom(done + [Line(l, lo, cur)], p.line, p.lineOffset, [p.token], rest[1..])
      else GroupByLineFrom(done, l, lo, cur + [p.token], rest[1..])
  }

  /** The corrected records of a whole stream; no more records than tokens. */
  function GroupByLine(p: seq<Placed>): (g: seq<Line>)
    ensures |g| <= |p|
  {
    GroupByLineFrom([], 0, 0, [], p)
  }

  /** Tokens scanned on the same line carry the same line start. */
  predicate SameLineSameStart(p: seq<Placed>) {
    forall k :: 0 < k < |p| && p[k - 1].line == p[k].line ==> p[k - 1].lineOffset == p[k].lineOffset
  }

  lemma SpreadSnoc(l: nat, lo: nat, cur: seq<Token>, t: Token)
    ensures Spread(Line(l, lo, cur + [t])) == Spread(Line(l, lo, cur)) + [Placed(t, l, lo)]
  {
  }

  lemma {:induction false} GroupByLineFromUngroup(done: seq<Line>, l: nat, lo: nat, cur: seq<Token>, rest: seq<Placed>)
    requires SameLineSameStart(rest)
    requires |cur| >= 1 && rest != [] && rest[0].line == l ==> rest[0].lineOffset == lo
    ensures Ungroup(GroupByLineFrom(done, l, lo, cur, rest)) == Ungroup(done) + Spread(Line(l, lo, cur)) + rest
    decreases |rest|
  {
    if rest == [] {
      if |cur| >= 1 {
        UngroupAppend(done, Line(l, lo, cur));
      }
    } else {
      var p := rest[0];
      assert rest == [p] + rest[1..];
      assert SameLineSameStart(rest[1..]) by {
        forall k | 0 < k < |rest[1..]| && rest[1..][k - 1].line == rest[1..][k].line
          ensures rest[1..][k - 1].lineOffset == rest[1..][k].lineOffset
        {
          assert rest[1..][k - 1] == rest[k] && rest[1..][k] == rest[k + 1];
        }
      }
      assert rest[1..] != [] && rest[1..][0].line == p.line ==> rest[1..][0].lineOffset == p.lineOffset by {
        if rest[1..] != [] {
          assert rest[1..][0] == rest[1];
        }
      }
      assert Spread(Line(p.line, p.lineOffset, [p.token])) == [p];
      if |cur| == 0 {
        GroupByLineFromUngroup(done, p.line, p.lineOffset, [p.token], rest[1..]);
      } else if p.line != l {
        GroupByLineFromUngroup(done + [Line(l, lo, cur)], p.line, p.lineOffset, [p.token], rest[1..]);
        UngroupAppend(done, Line(l, lo, cur));
      } else {
        GroupByLineFromUngroup(done, l, lo, cur + [p.token], rest[1..]);
        SpreadSnoc(l, lo, cur, p.token);
      }
    }
  }

  /** The corrected records describe the stream exactly: every token keeps
      the line number and line start it was scanned with. */
  lemma GroupByLineRoundTrip(p: seq<Placed>)
    requires SameLineSameStart(p)
    ensures Ungroup(GroupByLine(p)) == p
  {
    GroupByLineFromUngroup([], 0, 0, [], p);
    assert Spread(Line(0, 0, [])) == [];
  }

  /** The corrected grouping also keeps the finished records in front. */
  lemma {:induction false} GroupByLineFromPrefix(done: seq<Line>, l: nat, lo: nat, cur: seq<Token>, rest: seq<Placed>)
    ensures var g := GroupByLineFrom(done, l, lo, cur, rest);
      |done| <= |g| && g[..|done|] == done
    decreases |rest|
  {
    if rest != [] {
      var p := rest[0];
      if |cur| == 0 {
        GroupByLineFromPrefix(done, p.line, p.lineOffset, [p.token], rest[1..]);
      } else if p.line != l {
        GroupByLineFromPrefix(done + [Line(l, lo, cur)], p.line, p.lineOffset, [p.token], rest[1..]);
        var g := GroupByLineFrom(done, l, lo, cur, rest);
        assert g[..|done|] == g[..|done| + 1][..|done|];
      } else {
        GroupByLineFromPrefix(done, l, lo, cur + [p.token], rest[1..]);
      }
    }
  }

  /** Every corrected record holds at least one token. */
  lemma {:induction false} GroupByLineFromNonEmpty(done: seq<Line>, l: nat, lo: nat, cur: seq<Token>, rest: seq<Placed>)
    requires NonEmptyLines(done)
    ensures NonEmptyLines(GroupByLineFrom(done, l, lo, cur, rest))
    decreases |rest|
  {
    if rest == [] {
      if |cur| >= 1 {
        AppendAt(done, Line(l, lo, cur));
      }
    } else {
      var p := rest[0];
      if |cur| == 0 {
        GroupByLineFromNonEmpty(done, p.line, p.lineOffset, [p.token], rest[1..]);
      } else if p.line != l {
        AppendAt(done, Line(l, lo, cur));
        GroupByLineFromNonEmpty(done + [Line(l, lo, cur)], p.line, p.lineOffset, [p.token], rest[1..]);
      } else {
        GroupByLineFromNonEmpty(done, l, lo, cur + [p.token], rest[1..]);
      }
    }
  }

  /** Corrected record line numbers rise strictly, provided the stream's line
      counter never falls below the current one or falls back. */
  lemma {:induction false} GroupByLineFromIncreasing(done: seq<Line>, l: nat, lo: nat, cur: seq<Token>, rest: seq<Placed>)
    requires RisingLines(done)
    requires done != [] ==> done[|done| - 1].lineNumber < l
    requires forall k :: 0 <= k < |rest| ==> l <= rest[k].line
    requires forall k :: 0 < k < |rest| ==> rest[k - 1].line <= rest[k].line
    ensures RisingLines(GroupByLineFrom(done, l, lo, cur, rest))
    decreases |rest|
  {
    if rest == [] {
      if |cur| >= 1 {
        AppendAt(done, Line(l, lo, cur));
      }
    } else {
      var p := rest[0];
      forall k | 0 <= k < |rest| - 1 ensures p.line <= rest[1..][k].line {
        RisingFrom(rest, 0, k + 1);
      }
      if |cur| == 0 {
        GroupByLineFromIncreasing(done, p.line, p.lineOffset, [p.token], rest[1..]);
      } else if p.line != l {
        AppendAt(done, Line(l, lo, cur));
        GroupByLineFromIncreasing(done + [Line(l, lo, cur)], p.line, p.lineOffset, [p.token], rest[1..]);
      } else {
        GroupByLineFromIncreasing(done, l, lo, cur + [p.token], rest[1..]);
      }
    }
  }

  /** For a stream whose line counters never fall, no corrected record is
      empty and their line numbers rise strictly, as lex promises. */
  lemma GroupByLineProperties(p: seq<Placed>)
    requires forall k :: 0 < k < |p| ==> p[k - 1].line <= p[k].line
    ensures NonEmptyLines(GroupByLine(p)) && RisingLines(GroupByLine(p))
  {
    GroupByLineFromNonEmpty([], 0, 0, [], p);
    GroupByLineFromIncreasing([], 0, 0, [], p);
  }

  /** The stream of a fresh lexer meets that requirement. */
  lemma FreshStreamSameLineSameStart(text: string)
    ensures SameLineSameStart(TokenStream(text, Cursor(0, 1, 0)).placed)
  {
    var c := Cursor(0, 1, 0);
    var p := TokenStream(text, c).placed;
    StreamLineAccounting(text, c);
    StreamOrdered(text, c);
    assert LinesAccounted(text, c, p) && Ordered(text, c, p);
    forall k | 0 < k < |p| && p[k - 1].line == p[k].line
      ensures p[k - 1].lineOffset == p[k].lineOffset
    {
      var a := p[k - 1].token.begin;
      var b := p[k].token.begin;
      NewlinesSplit(text, 0, a, b);
      NewlinesNone(text, a, b);
      LineStartSplit(text, 0, a, b, 0);
      LineStartLast(text, a, b, LineStart(text, 0, a, 0));
    }
  }

  /** On a fresh lexer, the corrected records give back the stream exactly,
      every record holds a token, and their line numbers rise strictly. */
  lemma FreshGroupByLine(text: string)
    ensures var p := TokenStream(text, Cursor(0, 1, 0)).placed; var g := GroupByLine(p);
      Ungroup(g) == p && NonEmptyLines(g) && RisingLines(g)
  {
    var c := Cursor(0, 1, 0);
    var p := TokenStream(text, c).placed;
    FreshStreamSameLineSameStart(text);
    GroupByLineRoundTrip(p);
    StreamOrdered(text, c);
    assert Ordered(text, c, p);
    GroupByLineProperties(p);
  }

  // ---------------------------------------------------------------------------
  // The skip loop near the end of the text

  /** As written: when the skip loop stands on the last character of the
      text and that character is not whitespace, tokenising fails; here the
      one-letter text "a" reads past its end. */
  lemma LastCharacterFails()
    ensures Scan("a", Cursor(0, 1, 0)).outcome == Failure(IndexOutOfRange(1))
  {
  }

  /** As written: the unterminated comment "/" "*" leaves the cursor at 4 and
      the end-of-file token at offsets 4..4 of a text of length 2. */
  lemma UnclosedCommentOvershoots()
    ensures Scan("/*", Cursor(0, 1, 0)) == Step(Success(Token(EOF, 4, 4)), Cursor(4, 1, 0))
  {
  }

  /** Corrected line comment: up to the next newline or the end of the text. */
  function LineCommentEnd(text: string, j: nat): (r: nat)
    requires j <= |text|
    ensures j <= r <= |text|
    ensures r == |text| || text[r] == '\n'
    decreases |text| - j
  {
    if j == |text| || text[j] == '\n' then j else LineCommentEnd(text, j + 1)
  }

  lemma {:induction false} LineCommentEndSpec(text: string, j: nat)
    requires j <= |text|
    ensures forall k :: j <= k < LineCommentEnd(text, j) ==> text[k] != '\n'
    decreases |text| - j
  {
    if !(j == |text| || text[j] == '\n') {
      LineCommentEndSpec(text, j + 1);
    }
  }

  /** Corrected block comment: just past the first closing star-slash, or the
      end of the text when the comment is not closed. */
  function BlockCommentEndAt(text: string, j: nat): (r: nat)
    requires j <= |text|
    ensures j <= r <= |text|
    decreases |text| - j
  {
    if j + 1 >= |text| then |text|
    else if text[j] == '*' && text[j + 1] == '/' then j + 2
    else BlockCommentEndAt(text, j + 1)
  }

  /** One iteration of the corrected skip loop; the comment openers are
      checked with the bounds-checked Has. */
  function SkipOnceChecked(text: string, c: Cursor): (m: Move)
    requires c.index < |text|
    ensures m.Moved? ==> c.index < m.next.index <= |text|
    ensures !m.Raised?
  {
    var i := c.index;
    if IsWhiteChar(text[i]) then
      Moved(Cursor(i + 1,
                   if text[i] == '\n' then c.lines + 1 else c.lines,
                   if text[i] == '\n' then i + 1 else c.lineOffset))
    else if Has(text, i, "//") then
      Moved(c.(index := LineCommentEnd(text, i + 2)))
    else if Has(text, i, "/*") then
      var e := BlockCommentEndAt(text, i + 2);
      Moved(Cursor(e, c.lines + NewlinesIn(text, i, e), LineStart(text, i, e, c.lineOffset)))
    else Stopped
  }

  /** The corrected skip loop. */
  function SkipChecked(text: string, c: Cursor): (d: Cursor)
    requires c.index <= |text|
    ensures c.index <= d.index <= |text|
    decreases |text| - c.index
  {
    if c.index == |text| then c
    else
      match SkipOnceChecked(text, c)
      case Moved(n) => SkipChecked(text, n)
      case Stopped => c
  }

  lemma SkipOnceCheckedAccounting(text: string, c: Cursor)
    requires c.index < |text| && SkipOnceChecked(text, c).Moved?
    ensures var n := SkipOnceChecked(text, c).next;
      n.lines == c.lines + NewlinesIn(text, c.index, n.index)
      && n.lineOffset == LineStart(text, c.index, n.index, c.lineOffset)
  {
    var i := c.index;
    var n := SkipOnceChecked(text, c).next;
    if !IsWhiteChar(text[i]) && Has(text, i, "//") {
      assert text[i..i + 2] == "//";
      assert text[i] == text[i..i + 2][0] && text[i + 1] == text[i..i + 2][1];
      LineCommentNoNewline(text, i, c.lineOffset);
    }
  }

  /** A corrected `//` comment, opener included, holds no newline. */
  lemma LineCommentNoNewline(text: string, i: nat, start: nat)
    requires i + 2 <= |text| && text[i] == '/' && text[i + 1] == '/'
    ensures var e := LineCommentEnd(text, i + 2);
      NewlinesIn(text, i, e) == 0 && LineStart(text, i, e, start) == start
  {
    LineCommentEndSpec(text, i + 2);
    NoNewlines(text, i, LineCommentEnd(text, i + 2), start);
  }

  /** The corrected skip loop never fails. It stops at the end of the text or
      at a character that is not whitespace and begins no comment, and it
      counts every newline it passes. */
  lemma {:induction false} SkipCheckedSpec(text: string, c: Cursor)
    requires c.index <= |text|
    ensures var d := SkipChecked(text, c);
      (d.index == |text|
       || (!IsWhiteChar(text[d.index]) && !Has(text, d.index, "//") && !Has(text, d.index, "/*")))
      && d.lines == c.lines + NewlinesIn(text, c.index, d.index)
      && d.lineOffset == LineStart(text, c.index, d.index, c.lineOffset)
    decreases |text| - c.index
  {
    if c.index < |text| && SkipOnceChecked(text, c).Moved? {
      var n := SkipOnceChecked(text, c).next;
      SkipOnceCheckedAccounting(text, c);
      SkipCheckedSpec(text, n);
      var d := SkipChecked(text, n);
      NewlinesSplit(text, c.index, n.index, d.index);
      LineStartSplit(text, c.index, n.index, d.index, c.lineOffset);
    }
  }

  /** Corrected tokenise: the corrected skip loop, then the token at the
      cursor it leaves. The cursor never moves back nor past the end of the
      text, and a token other than end of file ends at the new cursor. */
  function ScanChecked(text: string, c: Cursor): (s: Step<Token>)
    requires c.index <= |text|
    ensures c.index <= s.after.index <= |text|
    ensures s.outcome.Success? && s.outcome.value.kind != EOF ==> s.outcome.value.end == s.after.index
  {
    TokenAt(text, SkipChecked(text, c))
  }

  /** The corrected tokenise stays inside the text: its end-of-file token
      sits exactly at the end, and its only failure is a character no token
      starts with. */
  lemma ScanCheckedSpec(text: string, c: Cursor)
    requires c.index <= |text|
    ensures var s := ScanChecked(text, c);
      s.after.index <= |text|
      && (s.outcome.Success? && s.outcome.value.kind == EOF ==>
            s.outcome.value == Token(EOF, |text|, |text|) && s.after.index == |text|)
      && (s.outcome.Failure? ==>
            s.after.index < |text| && s.outcome.error == InvalidToken(s.after.index)
            && !IsPunctuator(text[s.after.index]) && !IsIdentChar(text[s.after.index]))
  {
    var d := SkipChecked(text, c);
    if d.index < |text| {
      CharClassesDisjoint(text[d.index]);
    }
  }
}
