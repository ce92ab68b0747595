/**
 What one call of the lexer's tokenise does, as functions of the source text
 and the cursor: the skip loop over whitespace and comments, the token that
 follows it, and the stream of tokens that repeated calls produce.
 */
module Scanner {
  import opened Tokens
  import opened Predicates

  // ---------------------------------------------------------------------------
  // Line bookkeeping

  /** The number of newline characters in text[from..to]. */
  function NewlinesIn(text: string, from: nat, to: nat): (n: nat)
    requires from <= to <= |text|
    ensures n <= to - from
  {
    if from == to then 0
    else NewlinesIn(text, from, to - 1) + (if text[to - 1] == '\n' then 1 else 0)
  }

  /** The offset just after the last newline in text[from..to], or `start`
      when that range holds no newline. */
  function LineStart(text: string, from: nat, to: nat, start: nat): (o: nat)
    requires from <= to <= |text|
    ensures o == start || from < o <= to
  {
    if from == to then start
    else if text[to - 1] == '\n' then to
    else LineStart(text, from, to - 1, start)
  }

  lemma {:induction false} NewlinesSplit(text: string, a: nat, b: nat, c: nat)
    requires a <= b <= c <= |text|
    ensures NewlinesIn(text, a, c) == NewlinesIn(text, a, b) + NewlinesIn(text, b, c)
    decreases c - b
  {
    if b < c {
      NewlinesSplit(text, a, b, c - 1);
    }
  }

  lemma {:induction false} LineStartSplit(text: string, a: nat, b: nat, c: nat, start: nat)
    requires a <= b <= c <= |text|
    ensures LineStart(text, a, c, start) == LineStart(text, b, c, LineStart(text, a, b, start))
    decreases c - b
  {
    if b < c && text[c - 1] != '\n' {
      LineStartSplit(text, a, b, c - 1, start);
    }
  }

  /** The count is zero exactly when the range holds no newline. */
  lemma {:induction false} NewlinesNone(text: string, from: nat, upto: nat)
    requires from <= upto <= |text|
    ensures NewlinesIn(text, from, upto) == 0 <==> (forall k :: from <= k < upto ==> text[k] != '\n')
    decreases upto
  {
    if (from < upto) {
      NewlinesNone(text, from, upto - 1);
    }
  }

  /** The line start is `start` when the range holds no newline, and
      otherwise the position just after the range's last newline. */
  lemma {:induction false} LineStartLast(text: string, from: nat, upto: nat, start: nat)
    requires from <= upto <= |text|
    ensures var o := LineStart(text, from, upto, start);
      (o == start && forall k :: from <= k < upto ==> text[k] != '\n')
      || (from < o <= upto && text[o - 1] == '\n' && forall k :: o <= k < upto ==> text[k] != '\n')
    decreases upto
  {
    if (from < upto && text[upto - 1] != '\n') {
      LineStartLast(text, from, upto - 1, start);
    }
  }

  /** A range without newlines changes neither the line count nor the line start. */
  lemma NoNewlines(text: string, from: nat, to: nat, start: nat)
    requires from <= to <= |text|
    requires forall k :: from <= k < to ==> text[k] != '\n'
    ensures NewlinesIn(text, from, to) == 0 && LineStart(text, from, to, start) == start
  {
    NewlinesNone(text, from, to);
    LineStartLast(text, from, to, start);
  }

  // ---------------------------------------------------------------------------
  // The inner loops of the skip loop and of the token runs

  /** Where the `//` loop stops: the first newline at or after j, or the last
      character of the text. */
  function LineCommentStop(text: string, j: nat): (r: nat)
    requires j < |text|
    ensures j <= r < |text|
    ensures r + 1 == |text| || text[r] == '\n'
    decreases |text| - j
  {
    if j + 1 >= |text| || text[j] == '\n' then j else LineCommentStop(text, j + 1)
  }

  /** The `//` loop steps over no newline. */
  lemma {:induction false} LineCommentStopSpec(text: string, j: nat)
    requires j < |text|
    ensures forall k :: j <= k < LineCommentStop(text, j) ==> text[k] != '\n'
    decreases |text| - j
  {
    if !(j + 1 >= |text| || text[j] == '\n') {
      LineCommentStopSpec(text, j + 1);
    }
  }

  /** A position inside a block comment that the loop steps over: another
      character follows it and the two do not close the comment. */
  predicate OpenAt(text: string, k: nat) {
    k + 1 < |text| && !(text[k] == '*' && text[k + 1] == '/')
  }

  /** Where the block comment loop stops: the first closing star-slash at or
      after j, or the last index of the text when there is none. */
  function BlockCommentStop(text: string, j: nat): (r: nat)
    requires j <= |text|
    ensures j <= r <= |text|
    ensures r < |text| || r == j
    ensures r + 1 >= |text| || (text[r] == '*' && text[r + 1] == '/')
    decreases |text| - j
  {
    if j + 1 >= |text| || (text[j] == '*' && text[j + 1] == '/') then j
    else BlockCommentStop(text, j + 1)
  }

  /** The block comment loop stops at the first closing star-slash. */
  lemma {:induction false} BlockCommentStopSpec(text: string, j: nat)
    requires j <= |text|
    ensures forall k :: j <= k < BlockCommentStop(text, j) ==> OpenAt(text, k)
    decreases |text| - j
  {
    if OpenAt(text, j) {
      BlockCommentStopSpec(text, j + 1);
    }
  }

  /** The end of the maximal run of characters of one class starting at j. */
  function RunEnd(text: string, j: nat, inClass: char -> bool): (r: nat)
    requires j <= |text|
    ensures j <= r <= |text|
    ensures r == |text| || !inClass(text[r])
    decreases |text| - j
  {
    if j < |text| && inClass(text[j]) then RunEnd(text, j + 1, inClass) else j
  }

  /** The run holds only characters of the class. */
  lemma {:induction false} RunEndSpec(text: string, j: nat, inClass: char -> bool)
    requires j <= |text|
    ensures forall k :: j <= k < RunEnd(text, j, inClass) ==> inClass(text[k])
    decreases |text| - j
  {
    if j < |text| && inClass(text[j]) {
      RunEndSpec(text, j + 1, inClass);
    }
  }

  // ---------------------------------------------------------------------------
  // The skip loop

  /** What one iteration of the skip loop does. */
  datatype Move = Moved(next: Cursor) | Stopped | Raised(error: LexError)

  /** One iteration of the skip loop at a cursor inside the text. A character
      that is not whitespace is checked for a line comment and then for a
      block comment opener; both tests read the next character, which at the
      last index of the text is a read past the end. */
  function SkipOnce(text: string, c: Cursor): (m: Move)
    requires c.index < |text|
    ensures m.Moved? ==> c.index < m.next.index && c.lines <= m.next.lines
  {
    var i := c.index;
    if IsWhiteChar(text[i]) then
      Moved(Cursor(i + 1,
                   if text[i] == '\n' then c.lines + 1 else c.lines,
                   if text[i] == '\n' then i + 1 else c.lineOffset))
    else if i + 1 >= |text| then Raised(IndexOutOfRange(i + 1))
    else if text[i] == '/' && text[i + 1] == '/' then
      Moved(c.(index := LineCommentStop(text, i)))
    else if text[i] == '/' && text[i + 1] == '*' then
      var stop := BlockCommentStop(text, i + 2);
      Moved(Cursor(stop + 2,
                   c.lines + NewlinesIn(text, i + 2, stop),
                   LineStart(text, i + 2, stop, c.lineOffset)))
    else Stopped
  }

  /** The skip loop of tokenise, from cursor c. */
  function Skip(text: string, c: Cursor): (s: Step<()>)
    ensures c.index <= s.after.index && c.lines <= s.after.lines
    ensures c.index >= |text| ==> s == Step(Success(()), c)
    decreases if c.index <= |text| then |text| - c.index else 0
  {
    if c.index >= |text| then Step(Success(()), c)
    else
      match SkipOnce(text, c)
      case Moved(n) => Skip(text, n)
      case Stopped => Step(Success(()), c)
      case Raised(e) => Step(Failure(e), c)
  }

  /** The loop stops exactly at a character that is not whitespace, starts no
      comment and is not the last character; it raises exactly at a last
      character that is not whitespace. */
  lemma SkipOnceStops(text: string, c: Cursor)
    requires c.index < |text|
    ensures var i := c.index;
      SkipOnce(text, c).Stopped? <==>
        White(text, i) == Success(false) && LineComment(text, i) == Success(false)
        && BlockCommentBegin(text, i) == Success(false)
    ensures var i := c.index;
      SkipOnce(text, c).Raised? <==>
        White(text, i) == Success(false) && LineComment(text, i).Failure?
    ensures SkipOnce(text, c).Raised? ==>
      c.index + 1 == |text| && SkipOnce(text, c).error == IndexOutOfRange(|text|)
      && LineComment(text, c.index) == Failure(IndexOutOfRange(|text|))
  {
  }

  /** When the skip loop ends normally, the cursor is past the end of the text
      or at a character that is not whitespace and starts no comment (and is
      not the last character). It fails only at the last character of the
      text, when that character is not whitespace, reading one past the end. */
  lemma {:induction false} SkipStopsAtToken(text: string, c: Cursor)
    ensures var s := Skip(text, c); var i := s.after.index;
      s.outcome.Success? ==>
        i >= |text| ||
        (White(text, i) == Success(false) && LineComment(text, i) == Success(false)
         && BlockCommentBegin(text, i) == Success(false))
    ensures var s := Skip(text, c); var i := s.after.index;
      s.outcome.Failure? ==>
        i + 1 == |text| && White(text, i) == Success(false)
        && s.outcome.error == IndexOutOfRange(|text|) && LineComment(text, i) == Failure(s.outcome.error)
    decreases if c.index <= |text| then |text| - c.index else 0
  {
    if c.index < |text| {
      SkipOnceStops(text, c);
      if SkipOnce(text, c).Moved? {
        SkipStopsAtToken(text, SkipOnce(text, c).next);
      }
    }
  }

  /** The last position the skip loop examined for a newline: the cursor it
      stops at, or, after an unterminated block comment has carried the
      cursor past the end, the last index of the text. */
  function Seen(text: string, s: Cursor): int {
    if s.index <= |text| then s.index else |text| - 1
  }

  /** Line accounting of one iteration: the newlines it steps over raise the
      line counter one each and the line start follows the last of them. A
      comment opener and the closing star-slash hold no newline, and a line
      comment stops in front of its newline. The cursor leaves the text only
      through an unterminated block comment, by one or two positions. */
  lemma SkipOnceLineAccounting(text: string, c: Cursor)
    requires c.index < |text| && SkipOnce(text, c).Moved?
    ensures var n := SkipOnce(text, c).next;
      c.index < Seen(text, n) <= |text|
      && n.lines == c.lines + NewlinesIn(text, c.index, Seen(text, n))
      && n.lineOffset == LineStart(text, c.index, Seen(text, n), c.lineOffset)
      && n.index <= |text| + 2
  {
    var i := c.index;
    var n := SkipOnce(text, c).next;
    if IsWhiteChar(text[i]) {
    } else if text[i] == '/' && text[i + 1] == '/' {
      LineCommentStopSpec(text, i);
      NoNewlines(text, i, n.index, c.lineOffset);
    } else {
      var stop := BlockCommentStop(text, i + 2);
      NoNewlines(text, i, i + 2, c.lineOffset);
      NewlinesSplit(text, i, i + 2, stop);
      LineStartSplit(text, i, i + 2, stop, c.lineOffset);
      if stop + 2 <= |text| {
        NoNewlines(text, stop, stop + 2, n.lineOffset);
        NewlinesSplit(text, i, stop, stop + 2);
        LineStartSplit(text, i, stop, stop + 2, c.lineOffset);
      } else if stop == |text| {
        NoNewlines(text, i, |text| - 1, c.lineOffset);
      }
    }
  }

  /** Line accounting of the skip loop: the line counter rises by the number
      of newlines skipped, and the line start is just after the last of them.
      Only the last character after an unterminated block comment is never
      examined. */
  lemma {:induction false} SkipLineAccounting(text: string, c: Cursor)
    requires c.index <= |text|
    ensures var s := Skip(text, c).after;
      c.index <= Seen(text, s) <= |text|
      && s.lines == c.lines + NewlinesIn(text, c.index, Seen(text, s))
      && s.lineOffset == LineStart(text, c.index, Seen(text, s), c.lineOffset)
    decreases |text| - c.index
  {
    if c.index < |text| && SkipOnce(text, c).Moved? {
      var n := SkipOnce(text, c).next;
      SkipOnceLineAccounting(text, c);
      if n.index <= |text| {
        SkipLineAccounting(text, n);
        var w := Seen(text, Skip(text, n).after);
        NewlinesSplit(text, c.index, n.index, w);
        LineStartSplit(text, c.index, n.index, w, c.lineOffset);
      }
    }
  }

  /** The skip loop only carries the cursor past the end of the text through
      an unterminated block comment, and then by one or two positions. */
  lemma {:induction false} SkipOvershoot(text: string, c: Cursor)
    requires c.index <= |text|
    ensures var s := Skip(text, c);
      s.after.index > |text| ==> s.outcome.Success? && |text| + 1 <= s.after.index <= |text| + 2
    decreases |text| - c.index
  {
    if c.index < |text| && SkipOnce(text, c).Moved? {
      var n := SkipOnce(text, c).next;
      SkipOnceLineAccounting(text, c);
      if n.index <= |text| {
        SkipOvershoot(text, n);
      }
    }
  }

  // ---------------------------------------------------------------------------
  // One call of tokenise

  /** One call of tokenise from cursor c: the skip loop, then the token at
      the cursor it leaves. */
  function Scan(text: string, c: Cursor): (s: Step<Token>)
    ensures c.index <= s.after.index && c.lines <= s.after.lines
    ensures s.outcome.Success? && s.outcome.value.kind != EOF ==>
      c.index <= s.outcome.value.begin < s.outcome.value.end == s.after.index <= |text|
  {
    var k := Skip(text, c);
    if k.outcome.Failure? then Step(Failure(k.outcome.error), k.after)
    else TokenAt(text, k.after)
  }

  /** The token at cursor d once skipping is done: the end-of-file token past
      the end of the text, a punctuator, a digit run, an identifier run, or an
      invalid character. */
  function TokenAt(text: string, d: Cursor): (s: Step<Token>)
    ensures d.index <= s.after.index && d.lines == s.after.lines && d.lineOffset == s.after.lineOffset
    ensures s.outcome.Success? && s.outcome.value.kind != EOF ==>
      d.index == s.outcome.value.begin < s.outcome.value.end == s.after.index <= |text|
  {
    var i := d.index;
    if i >= |text| then Step(Success(Token(EOF, i, i)), d)
    else if IsPunctuator(text[i]) then Step(Success(Token(text[i] as int, i, i + 1)), d.(index := i + 1))
    else if IsDigitChar(text[i]) then
      var e := RunEnd(text, i, IsDigitChar);
      Step(Success(Token(NUMBER, i, e)), d.(index := e))
    else if IsIdentChar(text[i]) then
      var e := RunEnd(text, i, IsIdentChar);
      Step(Success(Token(IDENTIFIER, i, e)), d.(index := e))
    else Step(Failure(InvalidToken(i)), d)
  }

  /** What a call of tokenise returns once the skip loop has ended normally
      at index i: the end-of-file token past the end of the text; otherwise a
      token beginning at i, kinded by the character there, spanning exactly
      the maximal run of its class, with the cursor left at its end; or an
      invalid-token failure at i. */
  lemma ScanToken(text: string, c: Cursor)
    requires Skip(text, c).outcome.Success?
    ensures var k := Skip(text, c).after; var i := k.index; var s := Scan(text, c);
      i >= |text| ==> s == Step(Success(Token(EOF, i, i)), k)
    ensures var k := Skip(text, c).after; var i := k.index; var s := Scan(text, c);
      i < |text| ==>
        (s.outcome.Success? <==> IsPunctuator(text[i]) || IsIdentChar(text[i]))
        && (s.outcome.Failure? ==> s.outcome.error == InvalidToken(i) && s.after == k)
    ensures var k := Skip(text, c).after; var i := k.index; var s := Scan(text, c);
      i < |text| && s.outcome.Success? ==>
        var t := s.outcome.value;
        t.begin == i < t.end == s.after.index <= |text|
        && s.after.lines == k.lines && s.after.lineOffset == k.lineOffset
        && t.kind != EOF && t.kind != UNDEFINED
        && NewlinesIn(text, t.begin, t.end) == 0
        && (t.kind < UNDEFINED <==> IsPunctuator(text[i]))
        && (t.kind < UNDEFINED ==> t.kind == text[i] as int && t.end == i + 1)
        && (t.kind == NUMBER <==> IsDigitChar(text[i]))
        && (t.kind == NUMBER ==>
              (forall j :: i <= j < t.end ==> IsDigitChar(text[j]))
              && (t.end == |text| || !IsDigitChar(text[t.end])))
        && (t.kind == IDENTIFIER <==> IsIdentChar(text[i]) && !IsDigitChar(text[i]))
        && (t.kind == IDENTIFIER ==>
              (forall j :: i <= j < t.end ==> IsIdentChar(text[j]))
              && (t.end == |text| || !IsIdentChar(text[t.end])))
  {
    var k := Skip(text, c).after;
    var i := k.index;
    if i < |text| {
      CharClassesDisjoint(text[i]);
      RunEndSpec(text, i, IsDigitChar);
      RunEndSpec(text, i, IsIdentChar);
      var s := Scan(text, c);
      if s.outcome.Success? {
        var t := s.outcome.value;
        forall j | t.begin <= j < t.end ensures text[j] != '\n' {
          CharClassesDisjoint(text[j]);
        }
        NewlinesNone(text, t.begin, t.end);
      }
    }
  }

  /** tokenise fails exactly in two ways: reading past the end of the text
      when the skip loop stands on a last character that is not whitespace,
      or meeting a character no token starts with. */
  lemma ScanFailure(text: string, c: Cursor)
    ensures var k := Skip(text, c); var s := Scan(text, c);
      s.outcome == Failure(IndexOutOfRange(|text|)) <==> k.outcome.Failure?
    ensures var k := Skip(text, c); var s := Scan(text, c); var i := k.after.index;
      s.outcome.Failure? ==>
        s.after == k.after && i < |text| && !IsWhiteChar(text[i])
        && ((s.outcome.error == IndexOutOfRange(|text|) && i + 1 == |text|)
            || (s.outcome.error == InvalidToken(i) && i + 1 < |text|
                && !IsPunctuator(text[i]) && !IsIdentChar(text[i])
                && !Has(text, i, "//") && !Has(text, i, "/*")))
  {
    SkipStopsAtToken(text, c);
    var i := Skip(text, c).after.index;
    if i < |text| {
      CharClassesDisjoint(text[i]);
    }
  }

  // ---------------------------------------------------------------------------
  // Repeated calls of tokenise

  /** A token together with the line counter and line start the lexer holds
      right after producing it. */
  datatype Placed = Placed(token: Token, line: nat, lineOffset: nat)

  /** The tokens before the end-of-file token, the last call's outcome (the
      end-of-file token or the failure) and the cursor it leaves. */
  datatype Stream = Stream(placed: seq<Placed>, outcome: Result<Token, LexError>, after: Cursor)

  /** Calling tokenise from cursor c until it returns the end-of-file token
      or fails: a stream that ends normally ends with the end-of-file token. */
  function TokenStream(text: string, c: Cursor): (st: Stream)
    ensures st.outcome.Success? ==> st.outcome.value.kind == EOF
    decreases if c.index <= |text| then |text| - c.index else 0
  {
    var s := Scan(text, c);
    if s.outcome.Success? && s.outcome.value.kind != EOF then
      var rest := TokenStream(text, s.after);
      Stream([Placed(s.outcome.value, s.after.lines, s.after.lineOffset)] + rest.placed,
             rest.outcome, rest.after)
    else Stream([], s.outcome, s.after)
  }

  /** A call of tokenise that returns the end-of-file token leaves the
      cursor at or past the end of the text, and the token is empty and sits
      at the cursor. */
  lemma ScanEof(text: string, c: Cursor)
    ensures var s := Scan(text, c);
      s.outcome.Success? && s.outcome.value.kind == EOF ==>
        |text| <= s.after.index && s.outcome.value == Token(EOF, s.after.index, s.after.index)
  {
    var k := Skip(text, c);
    if k.outcome.Success? && k.after.index < |text| {
      CharClassesDisjoint(text[k.after.index]);
    }
  }

  /** The tokens of a stream that starts at cursor c lie inside the text in
      order and never overlap, are never end-of-file tokens, and carry a line
      counter that never falls below c's or from one token to the next. */
  predicate Ordered(text: string, c: Cursor, p: seq<Placed>) {
    (forall k :: 0 <= k < |p| ==>
       c.index <= p[k].token.begin < p[k].token.end <= |text| && p[k].token.kind != EOF
       && c.lines <= p[k].line)
    && (forall k :: 0 < k < |p| ==>
          p[k - 1].token.end <= p[k].token.begin && p[k - 1].line <= p[k].line)
  }

  /** The stream's tokens are ordered. */
  lemma {:induction false} StreamOrdered(text: string, c: Cursor)
    ensures Ordered(text, c, TokenStream(text, c).placed)
    decreases if c.index <= |text| then |text| - c.index else 0
  {
    var s := Scan(text, c);
    if s.outcome.Success? && s.outcome.value.kind != EOF {
      StreamOrdered(text, s.after);
      var t := s.outcome.value;
      var rest := TokenStream(text, s.after).placed;
      var p := TokenStream(text, c).placed;
      assert p == [Placed(t, s.after.lines, s.after.lineOffset)] + rest;
      forall k | 0 < k < |p|
        ensures p[k] == rest[k - 1]
      {
      }
      assert Ordered(text, s.after, rest);
    }
  }

  /** The stream's tokens lie before the cursor it leaves, and it ends with
      exactly one end-of-file token at or past the end of the text, or with
      a failure. */
  lemma {:induction false} StreamEnds(text: string, c: Cursor)
    ensures var st := TokenStream(text, c); var p := st.placed;
      c.index <= st.after.index && c.lines <= st.after.lines
      && (p != [] ==> p[|p| - 1].token.end <= st.after.index && p[|p| - 1].line <= st.after.lines)
      && (st.outcome.Success? ==>
            |text| <= st.after.index && st.outcome.value == Token(EOF, st.after.index, st.after.index))
    decreases if c.index <= |text| then |text| - c.index else 0
  {
    var s := Scan(text, c);
    if s.outcome.Success? && s.outcome.value.kind != EOF {
      StreamEnds(text, s.after);
      var rest := TokenStream(text, s.after).placed;
      var p := TokenStream(text, c).placed;
      assert p == [Placed(s.outcome.value, s.after.lines, s.after.lineOffset)] + rest;
      assert rest != [] ==> p[|p| - 1] == rest[|rest| - 1];
    } else {
      ScanEof(text, c);
    }
  }

  /** A token that tokenise returns begins where the skip loop stopped and
      holds no newline. */
  lemma ScanNoNewline(text: string, c: Cursor)
    ensures var s := Scan(text, c);
      s.outcome.Success? && s.outcome.value.kind != EOF ==>
        Skip(text, c).outcome.Success?
        && s.outcome.value.begin == Skip(text, c).after.index
        && s.after.lines == Skip(text, c).after.lines
        && s.after.lineOffset == Skip(text, c).after.lineOffset
        && NewlinesIn(text, s.outcome.value.begin, s.outcome.value.end) == 0
  {
    var s := Scan(text, c);
    if s.outcome.Success? && s.outcome.value.kind != EOF {
      var t := s.outcome.value;
      var i := t.begin;
      RunEndSpec(text, i, IsDigitChar);
      RunEndSpec(text, i, IsIdentChar);
      forall j | t.begin <= j < t.end ensures text[j] != '\n' {
        CharClassesDisjoint(text[j]);
      }
      NewlinesNone(text, t.begin, t.end);
    }
  }

  /** Every token carries the line counter of cursor c plus the number of
      newlines between c and the token's first character, and the line start
      just after the last of those newlines. */
  predicate LinesAccounted(text: string, c: Cursor, p: seq<Placed>) {
    forall k :: 0 <= k < |p| ==>
      c.index <= p[k].token.begin <= |text|
      && p[k].line == c.lines + NewlinesIn(text, c.index, p[k].token.begin)
      && p[k].lineOffset == LineStart(text, c.index, p[k].token.begin, c.lineOffset)
  }

  /** Composing the accounting of one token t, whose call of tokenise left
      cursor d, with that of a later token q counted from d. */
  lemma AccountAcross(text: string, c: Cursor, t: Token, d: Cursor, q: Placed)
    requires c.index <= t.begin <= t.end == d.index <= q.token.begin <= |text|
    requires NewlinesIn(text, t.begin, t.end) == 0
    requires d.lines == c.lines + NewlinesIn(text, c.index, t.begin)
    requires d.lineOffset == LineStart(text, c.index, t.begin, c.lineOffset)
    requires q.line == d.lines + NewlinesIn(text, d.index, q.token.begin)
    requires q.lineOffset == LineStart(text, d.index, q.token.begin, d.lineOffset)
    ensures q.line == c.lines + NewlinesIn(text, c.index, q.token.begin)
    ensures q.lineOffset == LineStart(text, c.index, q.token.begin, c.lineOffset)
  {
    var b := q.token.begin;
    NewlinesSplit(text, c.index, t.begin, t.end);
    NewlinesSplit(text, c.index, t.end, b);
    NewlinesNone(text, t.begin, t.end);
    NoNewlines(text, t.begin, t.end, d.lineOffset);
    LineStartSplit(text, c.index, t.begin, t.end, c.lineOffset);
    LineStartSplit(text, c.index, t.end, b, c.lineOffset);
  }

  /** Line accounting over the whole stream. */
  lemma {:induction false} StreamLineAccounting(text: string, c: Cursor)
    requires c.index <= |text|
    ensures LinesAccounted(text, c, TokenStream(text, c).placed)
    decreases |text| - c.index
  {
    var s := Scan(text, c);
    if s.outcome.Success? && s.outcome.value.kind != EOF {
      var t := s.outcome.value;
      ScanNoNewline(text, c);
      SkipLineAccounting(text, c);
      StreamLineAccounting(text, s.after);
      StreamOrdered(text, s.after);
      var p := TokenStream(text, c).placed;
      var rest := TokenStream(text, s.after).placed;
      assert p == [Placed(t, s.after.lines, s.after.lineOffset)] + rest;
      assert LinesAccounted(text, s.after, rest);
      forall k | 0 <= k < |p|
        ensures c.index <= p[k].token.begin <= |text|
        ensures p[k].line == c.lines + NewlinesIn(text, c.index, p[k].token.begin)
        ensures p[k].lineOffset == LineStart(text, c.index, p[k].token.begin, c.lineOffset)
      {
        if k > 0 {
          assert p[k] == rest[k - 1];
          AccountAcross(text, c, t, s.after, p[k]);
        }
      }
    }
  }
}
