/**
 The lexer's character predicates. Each one reads the source text at an index;
 a read past the end, which raises an IndexError in mcc.py, is an IndexOutOfRange
 failure here.
 */
module Predicates {
  import opened Tokens

  predicate IsWhiteChar(c: char) {
    c == ' ' || c == '\n' || c == '\r' || c == '\t'
  }

  predicate IsDigitChar(c: char) {
    '0' <= c <= '9'
  }

  predicate IsIdentChar(c: char) {
    IsDigitChar(c) || c == '_' || ('A' <= c <= 'Z') || ('a' <= c <= 'z')
  }

  /** The seven characters that form a token on their own. */
  predicate IsPunctuator(c: char) {
    c == '+' || c == ';' || c == '@' || c == '(' || c == ')' || c == '{' || c == '}'
  }

  /** The character classes do not overlap: whitespace, punctuators, the
      comment introducer `/` and identifier characters are pairwise distinct,
      and an identifier character is a digit, a letter or `_`. */
  lemma CharClassesDisjoint(c: char)
    ensures IsWhiteChar(c) ==> !IsPunctuator(c) && !IsIdentChar(c) && c != '/' && c != '*'
    ensures IsPunctuator(c) ==> !IsIdentChar(c) && c != '/' && c != '\n'
    ensures IsIdentChar(c) ==> c != '/' && c != '\n' && c != '*'
    ensures IsIdentChar(c) && !IsDigitChar(c) <==> c == '_' || ('A' <= c <= 'Z') || ('a' <= c <= 'z')
  {
  }

  /** Whether `idx` is an index of the text: exactly where reading the
      character there raises no error. */
  function InRange(text: string, idx: nat): (b: bool)
    ensures b <==> CharAt(text, idx).Success?
  {
    idx < |text|
  }

  /** Reading text[idx]. */
  function CharAt(text: string, idx: nat): Result<char, LexError> {
    if idx < |text| then Success(text[idx]) else Failure(IndexOutOfRange(idx))
  }

  /** Whether `s` occurs in the text at `index`; each character is compared
      only after its position has been checked to lie inside the text. Has
      never reads outside the text, and it holds exactly when `s` is the slice
      of the text at `index`; the empty string is found anywhere, even past
      the end. */
  function Has(text: string, index: nat, s: string): (b: bool)
    ensures b <==> s == [] || (index + |s| <= |text| && text[index..index + |s|] == s)
  {
    MatchesIsSlice(text, index, s);
    forall i :: 0 <= i < |s| ==> MatchesAt(text, index, s, i)
  }

  /** The i-th element of Has's comprehension: the bounds check comes first. */
  predicate MatchesAt(text: string, index: nat, s: string, i: nat)
    requires i < |s|
  {
    InRange(text, index + i) && s[i] == text[index + i]
  }

  /** Comparing the characters of `s` one by one, each after its bounds
      check, is comparing `s` with the slice of the text at `index`. */
  lemma MatchesIsSlice(text: string, index: nat, s: string)
    ensures (forall i :: 0 <= i < |s| ==> MatchesAt(text, index, s, i))
            <==> s == [] || (index + |s| <= |text| && text[index..index + |s|] == s)
  {
    if (forall i :: 0 <= i < |s| ==> MatchesAt(text, index, s, i)) && s != [] {
      var last := |s| - 1;
      assert MatchesAt(text, index, s, last);
      forall j | 0 <= j < |s|
        ensures text[index..index + |s|][j] == s[j]
      {
        assert MatchesAt(text, index, s, j);
      }
    }
    if index + |s| <= |text| && text[index..index + |s|] == s {
      forall i | 0 <= i < |s|
        ensures MatchesAt(text, index, s, i)
      {
        assert s[i] == text[index..index + |s|][i];
      }
    }
  }

  /** Has for a one-character string inside the text is a comparison with
      the character at the cursor. */
  lemma HasSingle(text: string, index: nat, c: char)
    requires index < |text|
    ensures Has(text, index, [c]) <==> text[index] == c
  {
    assert Has(text, index, [c]) ==> text[index..index + 1][0] == c;
  }

  function White(text: string, idx: nat): (r: Result<bool, LexError>)
    ensures r.Success? <==> idx < |text|
    ensures r.Failure? ==> r.error == IndexOutOfRange(idx)
    ensures r.Success? ==> (r.value <==> IsWhiteChar(text[idx]))
  {
    match CharAt(text, idx)
    case Success(c) => Success(IsWhiteChar(c))
    case Failure(e) => Failure(e)
  }

  /** Two characters c, d at idx and idx + 1: reading d fails one position
      before the end of the text. */
  function Pair(text: string, idx: nat, first: char, second: char): (r: Result<bool, LexError>)
    ensures r.Success? <==> idx + 1 < |text|
    ensures r.Failure? ==> r.error == IndexOutOfRange(if idx < |text| then idx + 1 else idx)
    ensures r.Success? ==> (r.value <==> text[idx] == first && text[idx + 1] == second)
  {
    match CharAt(text, idx)
    case Failure(e) => Failure(e)
    case Success(c) =>
      match CharAt(text, idx + 1)
      case Failure(e) => Failure(e)
      case Success(d) => Success(c == first && d == second)
  }

  /** Where the two-character test succeeds, it is `has` of the two
      characters; it differs from `has` only in raising past the end. */
  lemma PairIsHas(text: string, idx: nat, first: char, second: char)
    requires idx + 1 < |text|
    ensures Pair(text, idx, first, second).value <==> Has(text, idx, [first, second])
  {
    assert Has(text, idx, [first, second]) ==>
      text[idx..idx + 2][0] == first && text[idx..idx + 2][1] == second;
  }

  // Two slashes at idx.
  function LineComment(text: string, idx: nat): (r: Result<bool, LexError>)
    ensures r.Success? <==> idx + 1 < |text|
    ensures r.Failure? ==> r.error == IndexOutOfRange(if idx < |text| then idx + 1 else idx)
    ensures r.Success? ==> (r.value <==> text[idx] == '/' && text[idx + 1] == '/')
  {
    Pair(text, idx, '/', '/')
  }

  // A slash and a star at idx: a block comment opens.
  function BlockCommentBegin(text: string, idx: nat): (r: Result<bool, LexError>)
    ensures r.Success? <==> idx + 1 < |text|
    ensures r.Failure? ==> r.error == IndexOutOfRange(if idx < |text| then idx + 1 else idx)
    ensures r.Success? ==> (r.value <==> text[idx] == '/' && text[idx + 1] == '*')
  {
    Pair(text, idx, '/', '*')
  }

  // A star and a slash at idx: a block comment closes.
  function BlockCommentEnd(text: string, idx: nat): (r: Result<bool, LexError>)
    ensures r.Success? <==> idx + 1 < |text|
    ensures r.Failure? ==> r.error == IndexOutOfRange(if idx < |text| then idx + 1 else idx)
    ensures r.Success? ==> (r.value <==> text[idx] == '*' && text[idx + 1] == '/')
  {
    Pair(text, idx, '*', '/')
  }

  function Digit(text: string, idx: nat): (r: Result<bool, LexError>)
    ensures r.Success? <==> idx < |text|
    ensures r.Failure? ==> r.error == IndexOutOfRange(idx)
    ensures r.Success? ==> (r.value <==> IsDigitChar(text[idx]))
  {
    match CharAt(text, idx)
    case Success(c) => Success(IsDigitChar(c))
    case Failure(e) => Failure(e)
  }

  /** A digit, `_` or an ASCII letter at idx. */
  function Identifier(text: string, idx: nat): (r: Result<bool, LexError>)
    ensures r.Success? <==> idx < |text|
    ensures r.Failure? ==> r.error == IndexOutOfRange(idx)
    ensures r.Success? ==> (r.value <==> IsIdentChar(text[idx]))
    ensures r.Success? && Digit(text, idx).value ==> r.value
  {
    match CharAt(text, idx)
    case Success(c) => Success(Digit(text, idx).value || c == '_' || ('A' <= c <= 'Z') || ('a' <= c <= 'z'))
    case Failure(e) => Failure(e)
  }
}
