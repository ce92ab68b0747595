# The mcc lexer, modelled and verified in Dafny

mcc is a small compiler front end written in Python for a C-like language.
This project models its lexer, the `Lexer` class of `mcc.py`.

The lexer holds four pieces of state:

- the decoded source text;
- a cursor `index`;
- a line counter `lines`, starting at 1;
- `line_offset`, the offset at which the current line starts.

`tokenise` first skips whitespace, `//` line comments and `/*…*/` block comments, counting newlines as it goes. It then returns one of:

- the end-of-file token;
- one of the seven single-character punctuators `+ ; @ ( ) { }`, whose kind is its character code;
- a maximal digit run, `NUMBER`;
- a maximal run of letters, digits and `_`, `IDENTIFIER`;
- otherwise it fails on a character that no token starts with.

`lex` calls `tokenise` until end of file. It groups the tokens into `Line` records. A new record starts when the line counter differs from the current record's line number and the current record already holds a token. So the first token always joins the first record, which keeps the line counter and line start from before it was scanned.

The model has six files:

- `tokens.dfy` (module `Tokens`) holds the records:
  - the token kinds 256–259;
  - `Token`, a half-open range of the text;
  - `Line`;
  - the scanning `Cursor`;
  - the two ways scanning can fail.

  A read past the end of the text, which raises in Python, is the failure `IndexOutOfRange(at)`.
- `predicates.dfy` (module `Predicates`) holds the character predicates `range`, `has`, `white`, `linecomment`, `blockcommentbegin`, `blockcommentend`, `digit` and `identifier`. Each one that reads the text returns a `Result` that fails exactly where the Python code reads past the end.
- `scanner.dfy` (module `Scanner`) holds `tokenise` and repeated calls of it, written as functions of the text and a cursor:
  - `Skip` is the skip loop, one `SkipOnce` iteration at a time;
  - `TokenAt` is the token recognition after skipping;
  - `Scan` is one whole call of `tokenise`;
  - `TokenStream` is the sequence of calls that `lex` makes.

  The lemmas state where the skip loop stops. They also state how lines are counted, which token comes out and why a call fails. For the whole stream they state the order of the tokens and the line accounting.
- `grouping.dfy` (module `Grouping`) holds the grouping that `lex` performs, written as a fold over the token stream, and its properties.
- `lexer.dfy` (module `Mcc`) holds the `Lexer` class itself.
  - Its fields are the text and the three counters.
  - `Tokenise` and `Lex` are methods with the loops of the source, proved against `Scan` and `TokenStream`/`Group`.
  - The skip loop, the two comment loops and the token recognition are helper methods of `Tokenise`. Each is proved against its own function in `Scanner`.
- `intended.dfy` (module `Intended`) holds three departures of the code from its evident intent, listed under Findings below. Each has an as-written lemma and a corrected definition with the intended property proved.

The model follows the code as written, with these consequences:

- When the skip loop reaches the last character of the text and that character is not whitespace, `linecomment` reads past the end and tokenising fails. So `a`, `a b` and `x+` fail, while `ab` lexes: its identifier ends at the end of the text, and the skip loop never stands on its last character.
- An unterminated block comment carries the cursor one or two positions past the end. The end-of-file token then lies outside the text.
- A newline at the very last position of an unterminated block comment is never counted.
- The first `Line` record always carries the line counter and line start that the lexer held before its first token.

The language's intended design, as its authors describe it, covers more than the code does. The model follows the code:

- The design lists `...`, `,`, `:`, string literals and the keywords `fn` and `return`. The lexer code has none of these. `fn` and `return` are identifiers. `,`, `:`, `.` and `"` fail as invalid tokens. At the last index of the text they fail earlier, as `IndexOutOfRange` at the text's length, because the skip loop's `linecomment` reads past the end first.
- The design says that reaching end of input while skipping is not an error. It also says that the end-of-file token sits at the text's length. The code departs from both; see Findings.

## Model

| member | source | states |
|---|---|---|
| Predicates.InRange | mcc.py:104-105 | `range(idx)` holds exactly where reading the character at `idx` raises no error |
| Predicates.MatchesIsSlice | mcc.py:107-108 | the comprehension of `has`, each character compared only after its bounds check, is the comparison with the slice of the text at the cursor |
| Predicates.Has | mcc.py:107-108 | `has(s)` never reads outside the text and holds exactly when `s` is the slice of the text at the cursor; the empty string is found anywhere, even past the end |
| Predicates.HasSingle | mcc.py:107-108 | inside the text, `has` of a one-character string is a comparison with the character at the cursor |
| Predicates.White | mcc.py:110-112 | fails with `IndexOutOfRange(idx)` exactly when `idx` lies past the end; otherwise true exactly for space, newline, carriage return and tab |
| Predicates.Pair | mcc.py:114-127 | the two-character test shared by the comment predicates: succeeds exactly when `idx + 1` lies inside the text, fails at the first position read past the end, and otherwise compares the two characters at `idx` and `idx + 1` |
| Predicates.PairIsHas | mcc.py:107-127 | where the two-character test succeeds it is `has` of the two characters; it differs from `has` only in raising past the end |
| Predicates.LineComment | mcc.py:114-117 | succeeds exactly when `idx + 1` lies inside the text, otherwise fails at the first position read past the end; true exactly for `/` followed by `/` |
| Predicates.BlockCommentBegin | mcc.py:119-122 | as LineComment, for `/` followed by `*` |
| Predicates.BlockCommentEnd | mcc.py:124-127 | as LineComment, for `*` followed by `/` |
| Predicates.Digit | mcc.py:129-131 | fails exactly past the end; otherwise true exactly for `0`–`9` |
| Predicates.Identifier | mcc.py:133-135 | fails exactly past the end; otherwise true exactly for a digit, `_` or an ASCII letter; every digit is an identifier character |
| Predicates.CharClassesDisjoint | mcc.py:141-185 | whitespace, punctuators, the comment characters and identifier characters do not overlap, so the order of the tests in `tokenise` decides nothing between them |
| Scanner.NewlinesIn | mcc.py:143-145 | the newline count of a range never exceeds its length |
| Scanner.NewlinesNone | mcc.py:143-145 | the newline count of a range is zero exactly when the range holds no newline |
| Scanner.LineStart | mcc.py:143-145 | the line start after a range is the old one or a position just past one of the range's characters |
| Scanner.LineStartLast | mcc.py:143-145 | the line start after a range is the old one when it holds no newline, and otherwise the position just after its last newline |
| Scanner.NewlinesSplit | mcc.py:143-145 | newline counts of adjacent ranges add up |
| Scanner.LineStartSplit | mcc.py:143-145 | line starts of adjacent ranges compose |
| Scanner.NoNewlines | mcc.py:143-145 | a range without newlines changes neither the line count nor the line start |
| Scanner.LineCommentStop | mcc.py:149-150 | the `//` loop stops inside the text, at a newline or at the last character |
| Scanner.LineCommentStopSpec | mcc.py:149-150 | the `//` loop steps over no newline |
| Scanner.BlockCommentStop | mcc.py:155-159 | the block comment loop stops at a closing star-slash or at the last index of the text |
| Scanner.BlockCommentStopSpec | mcc.py:155-159 | every position the block comment loop steps over is followed by another character and does not close the comment |
| Scanner.RunEnd | mcc.py:187-193 | a run loop stops inside the text, at its end or at the first character outside the class |
| Scanner.RunEndSpec | mcc.py:187-193 | a run loop steps only over characters of the class |
| Scanner.SkipOnce | mcc.py:141-164 | one iteration of the skip loop that goes on moves the cursor forward and never lowers the line counter |
| Scanner.Skip | mcc.py:139-164 | the skip loop never moves the cursor back or lowers the line counter, and does nothing past the end of the text |
| Scanner.SkipOnceStops | mcc.py:140-164 | one iteration stops exactly at a character that is not whitespace and begins no comment; it raises exactly when `linecomment` reads past the end, and then at the text's length |
| Scanner.SkipStopsAtToken | mcc.py:139-164 | the skip loop ends normally past the end or at a character that is not whitespace and begins no comment; it fails only when it stands on the last character of the text and that character is not whitespace, reading at the text's length |
| Scanner.SkipOnceLineAccounting | mcc.py:141-161 | one iteration raises the line counter by the newlines it passes and sets the line start after the last of them |
| Scanner.SkipLineAccounting | mcc.py:139-164 | over the whole skip loop, the line counter rises by the number of newlines skipped and the line start follows the last of them; only the last character after an unterminated block comment is never examined |
| Scanner.SkipOvershoot | mcc.py:151-161 | the skip loop leaves the text only by succeeding, by one or two positions |
| Scanner.TokenAt | mcc.py:166-203 | token recognition keeps the line counter and the line start; a token that is not end of file begins at the cursor and ends where the cursor is left, inside the text |
| Scanner.Scan | mcc.py:137-203 | one call of `tokenise` never moves the cursor back or lowers the line counter; a token that is not end of file lies inside the text, after the old cursor, and ends at the new one |
| Scanner.ScanToken | mcc.py:166-203 | after a normal skip: the end-of-file token past the end; otherwise success exactly for a punctuator or identifier character, a punctuator token of one character whose kind is its code, a NUMBER exactly for a digit and an IDENTIFIER exactly for a letter or `_`, each spanning the maximal run of its class and holding no newline; failure is an invalid token at the cursor |
| Scanner.ScanFailure | mcc.py:147-200 | `tokenise` fails exactly in two ways: reading past the end when the skip loop stands on the last character and it is not whitespace, or an invalid character that is no punctuator, identifier character or comment opener |
| Scanner.ScanEof | mcc.py:166-168 | the end-of-file token is empty and sits at the cursor, which is at or past the end of the text |
| Scanner.ScanNoNewline | mcc.py:166-203 | a token begins where the skip loop stopped, carries its line counter and line start, and holds no newline |
| Scanner.TokenStream | mcc.py:209-219 | the tokenise calls of `lex`, up to the end-of-file token or the first failure; a stream that ends normally ends with the end-of-file token |
| Scanner.StreamOrdered | mcc.py:205-219 | the tokens `lex` collects lie inside the text in order without overlap, none is end of file, and their line counters never fall |
| Scanner.StreamEnds | mcc.py:205-219 | lex stops after its last token, either with one end-of-file token at or past the end of the text or with a failure |
| Scanner.AccountAcross | mcc.py:143-158 | the line accounting of consecutive tokens composes across the token between them |
| Scanner.StreamLineAccounting | mcc.py:139-219 | each token carries the starting line counter plus the newlines before it, and the line start just after the last of them |
| Grouping.GroupFrom | mcc.py:212-224 | the grouping loop from a given point: the record count never falls below the finished records, and at most one record is added for the current one and one per remaining token (that the finished records stay in front is `Grouping.GroupFromPrefix`) |
| Grouping.Group | mcc.py:205-224 | the records `lex` builds from a stream and its starting line counter and line start; there are no more records than tokens |
| Grouping.GroupFromFlatten | mcc.py:212-222 | the grouping loses, duplicates and reorders no token |
| Grouping.GroupFlatten | mcc.py:205-224 | concatenating the records' token lists gives back the stream's tokens |
| Grouping.GroupFromNonEmpty | mcc.py:213-222 | no record is empty |
| Grouping.GroupFromIncreasing | mcc.py:213-222 | line numbers of the records rise strictly when the stream's line counters never fall |
| Grouping.GroupFromPrefix | mcc.py:213-214 | records already finished stay in front |
| Grouping.GroupFromFirst | mcc.py:206-214 | the first record keeps the line counter and line start held before the first token |
| Grouping.GroupProperties | mcc.py:205-224 | the records hold the stream's tokens in order, none is empty, their line numbers rise strictly, the first keeps the starting line, and there are none exactly when there are no tokens |
| Mcc.Lexer.constructor | mcc.py:91-96 | a new lexer holds the given text, cursor 0, line 1 and line start 0 |
| Mcc.Lexer.Tokenise | mcc.py:137-203 | the returned token or failure and the new cursor, line counter and line start are those of `Scan` from the old state |
| Mcc.Lexer.SkipBlank | mcc.py:139-164 | the skip loop's outcome and state are those of `Skip` from the old state |
| Mcc.Lexer.SkipLineComment | mcc.py:149-150 | the `//` loop moves the cursor to `LineCommentStop` and changes nothing else |
| Mcc.Lexer.SkipBlockComment | mcc.py:154-161 | the block comment loop moves the cursor two past `BlockCommentStop`, raises the line counter by the newlines in the comment's body and sets the line start after the last of them |
| Mcc.Lexer.Punctuator | mcc.py:171-185 | the chain of seven `has` checks gives the character code of the punctuator at the cursor, and UNDEFINED exactly when the character is none of `+ ; @ ( ) { }` |
| Mcc.Lexer.ReadToken | mcc.py:166-203 | the token or failure and the new state are those of `TokenAt` from the old state |
| Mcc.Lexer.Lex | mcc.py:205-224 | the new state is where `TokenStream` from the old state ends; lex succeeds exactly when the stream ends with end of file, and then returns `Group` of the stream from the old line counter and line start; otherwise it fails with the stream's error |
| Mcc.FreshLex | mcc.py:205-224 | on a fresh lexer, the records hold every token in order, none is empty, line numbers rise strictly and the first record is (1, 0); the tokens lie in order inside the text with line 1 + newlines before them; a successful lex stops at or past the end |
| Intended.GroupFromHead | mcc.py:212-218 | the record being gathered already sits in the result, with its line number, its line start and the tokens gathered so far |
| Intended.FirstRecordMisplaced | mcc.py:205-218 | when the first token does not lie on the starting line, the first record puts it on the starting line with the starting line start, so the records no longer describe the stream |
| Intended.FreshLexMisplacesFirstToken | mcc.py:205-218 | on a fresh lexer, a newline before the first token puts that token on a later line while the first record stays numbered 1 with line start 0 |
| Intended.GroupByLineFrom | mcc.py:212-224 | corrected grouping loop, where a record takes the line number and line start of its own first token: the record count never falls below the finished records, and at most one record is added per token (that the finished records stay in front is `Intended.GroupByLineFromPrefix`) |
| Intended.GroupByLine | mcc.py:205-224 | corrected grouping of a whole stream; no more records than tokens |
| Intended.GroupByLineFromUngroup | mcc.py:212-222 | corrected grouping: the records built so far, the current record and the rest of the stream describe the whole stream |
| Intended.GroupByLineRoundTrip | mcc.py:205-224 | corrected grouping: the records give back the stream exactly, every token with its own line number and line start |
| Intended.GroupByLineFromPrefix | mcc.py:213-214 | corrected grouping: records already finished stay in front |
| Intended.GroupByLineFromNonEmpty | mcc.py:213-222 | corrected grouping: no record is empty |
| Intended.GroupByLineFromIncreasing | mcc.py:213-222 | corrected grouping: line numbers of the records rise strictly when the stream's line counters never fall |
| Intended.GroupByLineProperties | mcc.py:205-224 | corrected grouping of a stream whose line counters never fall: every record holds a token and line numbers rise strictly |
| Intended.FreshGroupByLine | mcc.py:205-224 | on a fresh lexer the corrected records give back the stream exactly, none is empty and their line numbers rise strictly |
| Intended.FreshStreamSameLineSameStart | mcc.py:143-145 | tokens that lex sees on the same line carry the same line start |
| Intended.LastCharacterFails | mcc.py:114-117 | as written, the one-character text `a` fails with a read at offset 1 |
| Intended.UnclosedCommentOvershoots | mcc.py:154-161 | as written, the text `/` `*` gives the end-of-file token at offsets 4..4 of a text of length 2 |
| Intended.LineCommentEnd | mcc.py:149-150 | corrected `//` loop: stops at a newline or at the end of the text |
| Intended.LineCommentEndSpec | mcc.py:149-150 | corrected `//` loop: steps over no newline |
| Intended.BlockCommentEndAt | mcc.py:155-161 | corrected block comment: ends inside the text or at its end |
| Intended.SkipOnceChecked | mcc.py:141-164 | corrected skip iteration: never raises, and moves the cursor forward but not past the end |
| Intended.SkipChecked | mcc.py:139-164 | corrected skip loop: leaves the cursor inside the text or at its end |
| Intended.SkipOnceCheckedAccounting | mcc.py:141-161 | corrected skip iteration: counts every newline it passes |
| Intended.SkipCheckedSpec | mcc.py:139-164 | corrected skip loop: never fails, stops at the end or at a character that is not whitespace and begins no comment, and counts every newline passed |
| Intended.ScanChecked | mcc.py:137-203 | corrected tokenise: the cursor never moves back nor past the end of the text, and a token that is not end of file ends at the new cursor |
| Intended.ScanCheckedSpec | mcc.py:137-203 | corrected tokenise: stays inside the text, the end-of-file token is exactly at the text's length, and the only failure is an invalid character |

## Left out

- Reading the file in the constructor (mcc.py:98-102) is left out, as is the failure when the file is missing. The constructor takes the decoded text, and the path is not kept; this is I/O.
- The content of the invalid-token message (mcc.py:197-200) is left out; only its position is kept.
  - The model records the failure as `InvalidToken` at the cursor.
  - The message refers to an attribute `line` that the lexer does not have. Forming it would therefore raise before the assertion does, and tokenising stops in either case.
- Running Python with assertions disabled is left out. The invalid-token assertion would then not fire, and a token of kind UNDEFINED would be returned.
- The `iota` counter that numbers `TokenKind` is left out. The kinds are the constants 256–259 it produces.
- The rest of mcc.py is left out, because it is not part of the lexer: the `OS` and `Types` enumerations, the records `Entry`, `Value`, `Parameter`, `Block`, `Func` and `Program` (mcc.py:38-88), the `Parser` stub (mcc.py:226-247), and `main` with its printing (mcc.py:249-256).
- Python exceptions are `Failure` values. `Lex` stops at the first failing call and leaves the lexer state where that call left it.
- `Mcc.Lexer.Tokenise` is one Python method but is modelled as helper methods: `SkipBlank`, `SkipLineComment`, `SkipBlockComment`, `ReadToken` and, inside `ReadToken`, `Punctuator`. Each helper mirrors one part of the method, in the same order, and keeps its proof small.
- The corrected definitions in `Intended` stand beside the model. The `Lexer` class keeps the behaviour of the code as written.
- `Predicates.LineComment`, `Predicates.BlockCommentBegin` and `Predicates.BlockCommentEnd` state their results as character comparisons. The equivalent form in terms of `has` is stated once, in `Predicates.PairIsHas` about `Predicates.Pair`, which all three call.

## Findings

| source | as written | input that shows it | evidently intended | confidence | as-written member | corrected member |
|---|---|---|---|---|---|---|
| mcc.py:205-218 | the first Line record takes the line counter and line start held before the first token is scanned | a text with a newline before its first token, such as newline, `a`, newline | each record carries the line number and line start of its own first token, so columns computed from it are right | medium, not executed | Intended.FreshLexMisplacesFirstToken | Intended.FreshGroupByLine |
| mcc.py:114-117 | `linecomment` reads the character after the cursor without a bounds check, and the skip loop calls it on every character it stands on that is not whitespace, so the read goes past the end when that character is the text's last | `a` | reaching the end of input while skipping is not an error; the comment openers are checked with the bounds-checked `has` | high, not executed | Intended.LastCharacterFails | Intended.SkipCheckedSpec |
| mcc.py:154-161 | after an unterminated block comment the cursor is moved two more positions, past the end of the text | `/` followed by `*` | scanning stops at the end of the text, and the end-of-file token sits at the text's length | high, not executed | Intended.UnclosedCommentOvershoots | Intended.ScanCheckedSpec |
