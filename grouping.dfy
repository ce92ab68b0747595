/**
 How lex groups the token stream into Line records: a new record starts
 when the line counter differs from the current record's line number and
 the current record already holds a token.
 */
module Grouping {
  import opened Tokens
  import opened Scanner

  /** The tokens of the records, one record after the other. */
  function Flatten(ls: seq<Line>): seq<Token> {
    if ls == [] then [] else Flatten(ls[..|ls| - 1]) + ls[|ls| - 1].tokens
  }

  /** The tokens of a stream, without their line information. */
  function TokensOf(p: seq<Placed>): (ts: seq<Token>)
    ensures |ts| == |p| && forall k :: 0 <= k < |p| ==> ts[k] == p[k].token
  {
    seq(|p|, k requires 0 <= k < |p| => p[k].token)
  }

  /** Grouping the rest of the stream, given the finished records `done`, the
      current record's line number `l` and line start `lo`, and the tokens
      `cur` gathered for it so far. The finished records stay, and at most
      one record is added for the current one and one for each token of the
      rest. */
  function GroupFrom(done: seq<Line>, l: nat, lo: nat, cur: seq<Token>, rest: seq<Placed>): (g: seq<Line>)
    ensures |done| <= |g| <= |done| + (if |cur| >= 1 then 1 else 0) + |rest|
    decreases |rest|
  {
    if rest == [] then
      if |cur| >= 1 then done + [Line(l, lo, cur)] else done
    else
      var p := rest[0];
      if p.line != l && |cur| >= 1 then
        GroupFrom(done + [Line(l, lo, cur)], p.line, p.lineOffset, [p.token], rest[1..])
      else
        GroupFrom(done, l, lo, cur + [p.token], rest[1..])
  }

  /** The records lex builds from a stream, starting from the line counter
      `l` and line start `lo` the lexer held before its first token; there
      are no more records than tokens. */
  function Group(p: seq<Placed>, l: nat, lo: nat): (g: seq<Line>)
    ensures |g| <= |p|
  {
    GroupFrom([], l, lo, [], p)
  }

  lemma FlattenAppend(ls: seq<Line>, x: Line)
    ensures Flatten(ls + [x]) == Flatten(ls) + x.tokens
  {
    assert (ls + [x])[..|ls|] == ls;
  }

  /** Every record holds a token. */
  predicate NonEmptyLines(g: seq<Line>) {
    forall k :: 0 <= k < |g| ==> |g[k].tokens| >= 1
  }

  /** Line numbers rise strictly from record to record. */
  predicate RisingLines(g: seq<Line>) {
    forall k :: 0 < k < |g| ==> g[k - 1].lineNumber < g[k].lineNumber
  }

  lemma AppendAt(ls: seq<Line>, x: Line)
    ensures forall k :: 0 <= k < |ls| ==> (ls + [x])[k] == ls[k]
    ensures (ls + [x])[|ls|] == x
  {
  }

  /** No token is lost, duplicated or reordered by the grouping. */
  lemma {:induction false} GroupFromFlatten(done: seq<Line>, l: nat, lo: nat, cur: seq<Token>, rest: seq<Placed>)
    ensures Flatten(GroupFrom(done, l, lo, cur, rest)) == Flatten(done) + cur + TokensOf(rest)
    decreases |rest|
  {
    if rest == [] {
      if |cur| >= 1 {
        FlattenAppend(done, Line(l, lo, cur));
      }
    } else {
      var p := rest[0];
      assert TokensOf(rest) == [p.token] + TokensOf(rest[1..]);
      if p.line != l && |cur| >= 1 {
        GroupFromFlatten(done + [Line(l, lo, cur)], p.line, p.lineOffset, [p.token], rest[1..]);
        FlattenAppend(done, Line(l, lo, cur));
      } else {
        GroupFromFlatten(done, l, lo, cur + [p.token], rest[1..]);
      }
    }
  }

  /** Concatenating the records' token lists gives back the stream's tokens. */
  lemma GroupFlatten(p: seq<Placed>, l: nat, lo: nat)
    ensures Flatten(Group(p, l, lo)) == TokensOf(p)
  {
    GroupFromFlatten([], l, lo, [], p);
  }

  /** Every record holds at least one token. */
  lemma {:induction false} GroupFromNonEmpty(done: seq<Line>, l: nat, lo: nat, cur: seq<Token>, rest: seq<Placed>)
    requires NonEmptyLines(done)
    ensures NonEmptyLines(GroupFrom(done, l, lo, cur, rest))
    decreases |rest|
  {
    if rest == [] {
      if |cur| >= 1 {
        AppendAt(done, Line(l, lo, cur));
      }
    } else {
      var p := rest[0];
      if p.line != l && |cur| >= 1 {
        AppendAt(done, Line(l, lo, cur));
        assert GroupFrom(done, l, lo, cur, rest)
          == GroupFrom(done + [Line(l, lo, cur)], p.line, p.lineOffset, [p.token], rest[1..]);
        GroupFromNonEmpty(done + [Line(l, lo, cur)], p.line, p.lineOffset, [p.token], rest[1..]);
      } else {
        assert GroupFrom(done, l, lo, cur, rest) == GroupFrom(done, l, lo, cur + [p.token], rest[1..]);
        GroupFromNonEmpty(done, l, lo, cur + [p.token], rest[1..]);
      }
    }
  }

  /** Line numbers rise strictly from one record to the next, provided the
      stream's line counter never falls below the starting one or falls back. */
  lemma {:induction false} GroupFromIncreasing(done: seq<Line>, l: nat, lo: nat, cur: seq<Token>, rest: seq<Placed>)
    requires RisingLines(done)
    requires done != [] ==> done[|done| - 1].lineNumber < l
    requires forall k :: 0 <= k < |rest| ==> l <= rest[k].line
    requires forall k :: 0 < k < |rest| ==> rest[k - 1].line <= rest[k].line
    ensures RisingLines(GroupFrom(done, l, lo, cur, rest))
    decreases |rest|
  {
    if rest == [] {
      if |cur| >= 1 {
        AppendAt(done, Line(l, lo, cur));
      }
    } else {
      var p := rest[0];
      if p.line != l && |cur| >= 1 {
        var done' := done + [Line(l, lo, cur)];
        AppendAt(done, Line(l, lo, cur));
        forall k | 0 <= k < |rest| - 1 ensures p.line <= rest[1..][k].line {
          RisingFrom(rest, 0, k + 1);
        }
        assert GroupFrom(done, l, lo, cur, rest)
          == GroupFrom(done + [Line(l, lo, cur)], p.line, p.lineOffset, [p.token], rest[1..]);
        GroupFromIncreasing(done', p.line, p.lineOffset, [p.token], rest[1..]);
      } else {
        assert GroupFrom(done, l, lo, cur, rest) == GroupFrom(done, l, lo, cur + [p.token], rest[1..]);
        GroupFromIncreasing(done, l, lo, cur + [p.token], rest[1..]);
      }
    }
  }

  /** Adjacent steps of a non-falling sequence of line counters compose. */
  lemma {:induction false} RisingFrom(rest: seq<Placed>, i: nat, j: nat)
    requires i <= j < |rest|
    requires forall k :: 0 < k < |rest| ==> rest[k - 1].line <= rest[k].line
    ensures rest[i].line <= rest[j].line
    decreases j - i
  {
    if i < j {
      RisingFrom(rest, i, j - 1);
    }
  }

  /** The finished records stay in front. */
  lemma {:induction false} GroupFromPrefix(done: seq<Line>, l: nat, lo: nat, cur: seq<Token>, rest: seq<Placed>)
    ensures var g := GroupFrom(done, l, lo, cur, rest);
      |done| <= |g| && g[..|done|] == done
    decreases |rest|
  {
    if rest != [] {
      var p := rest[0];
      if p.line != l && |cur| >= 1 {
        GroupFromPrefix(done + [Line(l, lo, cur)], p.line, p.lineOffset, [p.token], rest[1..]);
        var g := GroupFrom(done, l, lo, cur, rest);
        assert g[..|done|] == g[..|done| + 1][..|done|];
      } else {
        GroupFromPrefix(done, l, lo, cur + [p.token], rest[1..]);
      }
    }
  }

  /** The first record keeps the starting line number and line start, even
      when its first token lies on a later line. */
  lemma {:induction false} GroupFromFirst(l: nat, lo: nat, cur: seq<Token>, rest: seq<Placed>)
    ensures var g := GroupFrom([], l, lo, cur, rest);
      g != [] ==> g[0].lineNumber == l && g[0].lineOffset == lo
    decreases |rest|
  {
    if rest == [] {
      assert [] + [Line(l, lo, cur)] == [Line(l, lo, cur)];
    } else {
      var p := rest[0];
      if p.line != l && |cur| >= 1 {
        assert [] + [Line(l, lo, cur)] == [Line(l, lo, cur)];
        GroupFromPrefix([Line(l, lo, cur)], p.line, p.lineOffset, [p.token], rest[1..]);
      } else {
        GroupFromFirst(l, lo, cur + [p.token], rest[1..]);
      }
    }
  }

  /** The records of a stream: they hold its tokens in order, none is empty,
      their line numbers rise strictly, and the first keeps the starting line
      number and line start. */
  lemma GroupProperties(p: seq<Placed>, l: nat, lo: nat)
    requires forall k :: 0 <= k < |p| ==> l <= p[k].line
    requires forall k :: 0 < k < |p| ==> p[k - 1].line <= p[k].line
    ensures var g := Group(p, l, lo);
      Flatten(g) == TokensOf(p)
      && NonEmptyLines(g)
      && RisingLines(g)
      && (g != [] ==> g[0].lineNumber == l && g[0].lineOffset == lo)
      && (g == [] <==> p == [])
  {
    GroupFlatten(p, l, lo);
    GroupFromNonEmpty([], l, lo, [], p);
    GroupFromIncreasing([], l, lo, [], p);
    GroupFromFirst(l, lo, [], p);
  }
}
