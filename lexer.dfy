/** The lexer (src/lexer.rs): a scanner over the source text that drops
    comments and whitespace and yields text runs, commands and braces, each
    with its span. Characters stand for bytes: the model assumes ASCII
    input, so a character offset is a byte offset. */
module Lexer {

  datatype Option<T> = None | Some(value: T)

  /** The tokens that reach the parser. The two comment rules and the
      whitespace rule of the source never produce a token. */
  datatype Token =
    | Text(content: string)
    | Command(name: string)
    | LBrace
    | RBrace
    | Error

  /** A token with its start and end offsets (end exclusive). */
  datatype Spanned = Spanned(tok: Token, start: nat, end: nat)

  /** ASCII whitespace: the characters `\s` and `split_whitespace` agree on
      below U+0080. */
  predicate IsSpace(c: char)
  {
    c == ' ' || c == '\t' || c == '\n' || c == '\r' || c == '\U{000B}' || c == '\U{000C}'
  }

  /** `[a-zA-Z]` */
  predicate IsLetter(c: char)
  {
    'a' <= c <= 'z' || 'A' <= c <= 'Z'
  }

  /** `[^\\{}\s%]`: a character that may occur in a text run. */
  predicate IsTextChar(c: char)
  {
    c != '\\' && c != '{' && c != '}' && c != '%' && !IsSpace(c)
  }

  /** The character classes whose maximal runs the scanner takes. */
  datatype CharClass = Space | Letter | TextChar | NotNewline

  predicate InClass(c: char, k: CharClass)
  {
    match k
    case Space => IsSpace(c)
    case Letter => IsLetter(c)
    case TextChar => IsTextChar(c)
    case NotNewline => c != '\n'
  }

  /** End of the maximal run of characters of class `k` that starts at `i`. */
  function RunEnd(s: string, i: nat, k: CharClass): (j: nat)
    requires i <= |s|
    ensures i <= j <= |s|
    ensures forall m :: i <= m < j ==> InClass(s[m], k)
    ensures j == |s| || !InClass(s[j], k)
    decreases |s| - i
  {
    if i < |s| && InClass(s[i], k) then RunEnd(s, i + 1, k) else i
  }

  /** A comment starts at `i`: `%`, or `//` (both run to the end of the line). */
  predicate CommentAt(s: string, i: nat)
  {
    i < |s| && (s[i] == '%' || (s[i] == '/' && i + 1 < |s| && s[i + 1] == '/'))
  }

  /** What a token says about the text under its span: the token is the
      one the rules of src/lexer.rs:9-37 give for exactly those characters,
      and the run it came from is maximal. */
  predicate Denotes(s: string, t: Spanned)
  {
    t.start < t.end <= |s| &&
    match t.tok
    case Text(c) =>
      && c == s[t.start..t.end]
      && (forall m :: 0 <= m < |c| ==> IsTextChar(c[m]))
      && (t.end == |s| || !IsTextChar(s[t.end]))
      && !CommentAt(s, t.start)
    case Command(n) =>
      && s[t.start] == '\\'
      && n == s[t.start + 1..t.end]
      && |n| > 0
      && (forall m :: 0 <= m < |n| ==> IsLetter(n[m]))
      && (t.end == |s| || !IsLetter(s[t.end]))
    case LBrace => s[t.start] == '{' && t.end == t.start + 1
    case RBrace => s[t.start] == '}' && t.end == t.start + 1
    case Error =>
      && s[t.start] == '\\' && t.end == t.start + 1
      && (t.end == |s| || !IsLetter(s[t.end]))
  }

  /** The next token at or after `pos`, skipping comments and whitespace, as
      `lexer.next()` returns it; `None` at the end of the input. A `\` that
      is not followed by a letter is an `Error` token of its own and the
      scan goes on after it. */
  function Next(s: string, pos: nat): (r: Option<Spanned>)
    requires pos <= |s|
    ensures r.Some? ==> pos <= r.value.start < r.value.end <= |s|
    decreases |s| - pos
  {
    if pos == |s| then None
    else if CommentAt(s, pos) then Next(s, RunEnd(s, pos + 1, NotNewline))
    else if IsSpace(s[pos]) then Next(s, RunEnd(s, pos, Space))
    else if s[pos] == '{' then Some(Spanned(LBrace, pos, pos + 1))
    else if s[pos] == '}' then Some(Spanned(RBrace, pos, pos + 1))
    else if s[pos] == '\\' then
      if pos + 1 < |s| && IsLetter(s[pos + 1]) then
        var e := RunEnd(s, pos + 1, Letter);
        Some(Spanned(Command(s[pos + 1..e]), pos, e))
      else
        Some(Spanned(Error, pos, pos + 1))
    else
      var e := RunEnd(s, pos, TextChar);
      Some(Spanned(Text(s[pos..e]), pos, e))
  }

  /** All tokens from `pos` on, in source order: spans lie in the input,
      are non-empty, strictly increasing and do not overlap. */
  function TokensFrom(s: string, pos: nat): (r: seq<Spanned>)
    requires pos <= |s|
    ensures forall k :: 0 <= k < |r| ==> pos <= r[k].start < r[k].end <= |s|
    ensures forall k :: 0 <= k < |r| - 1 ==> r[k].end <= r[k + 1].start
    decreases |s| - pos
  {
    match Next(s, pos)
    case None => []
    case Some(t) => [t] + TokensFrom(s, t.end)
  }

  /** The spanned tokens of the whole input. */
  function Tokens(s: string): seq<Spanned>
  {
    TokensFrom(s, 0)
  }

  /** The token kinds alone, as the parser reads them. */
  function Kinds(ts: seq<Spanned>): (r: seq<Token>)
    ensures |r| == |ts| && forall k :: 0 <= k < |ts| ==> r[k] == ts[k].tok
  {
    seq(|ts|, k requires 0 <= k < |ts| => ts[k].tok)
  }

  /** `lex`: pulls tokens until the scanner is exhausted, pushing each with
      its span. */
  method Lex(input: string) returns (tokens: seq<Spanned>)
    ensures tokens == Tokens(input)
  {
    tokens := [];
    var pos := 0;
    var next := Next(input, pos);
    while next.Some?
      invariant pos <= |input|
      invariant next == Next(input, pos)
      invariant tokens + TokensFrom(input, pos) == Tokens(input)
      decreases |input| - pos
    {
      tokens := tokens + [next.value];
      pos := next.value.end;
      next := Next(input, pos);
    }
  }

  /** The token `Next` returns is the one the rules give for the characters
      under its span. */
  lemma {:induction false} NextDenotes(s: string, pos: nat)
    requires pos <= |s|
    ensures Next(s, pos).Some? ==> Denotes(s, Next(s, pos).value)
    decreases |s| - pos
  {
    if pos == |s| {
    } else if CommentAt(s, pos) {
      NextDenotes(s, RunEnd(s, pos + 1, NotNewline));
    } else if IsSpace(s[pos]) {
      NextDenotes(s, RunEnd(s, pos, Space));
    }
  }

  /** Every token from `pos` on is the one the rules give for its span. */
  lemma {:induction false} TokensFromDenote(s: string, pos: nat)
    requires pos <= |s|
    ensures forall k :: 0 <= k < |TokensFrom(s, pos)| ==> Denotes(s, TokensFrom(s, pos)[k])
    decreases |s| - pos
  {
    NextDenotes(s, pos);
    match Next(s, pos)
    case None =>
    case Some(t) =>
      TokensFromDenote(s, t.end);
      assert TokensFrom(s, pos) == [t] + TokensFrom(s, t.end);
  }

  /** Every token of the input agrees with the characters under its span:
      a `Text` holds exactly a maximal run of text characters (so no `\`,
      brace, whitespace or `%`), a `Command` the maximal run of letters after
      its backslash (without the backslash), a brace is one character, and an
      `Error` is a lone backslash not followed by a letter. */
  lemma TokensDenote(s: string)
    ensures forall k :: 0 <= k < |Tokens(s)| ==> Denotes(s, Tokens(s)[k])
  {
    TokensFromDenote(s, 0);
  }

  // ---------------------------------------------------------------------
  // What the scanner drops, and what it keeps

  /** A `%` comment extends from its `%` to, but not including, the next
      newline or the end of input. */
  ghost predicate HasNewline(s: string, i: nat, j: nat)
  {
    exists q :: i <= q < j && q < |s| && s[q] == '\n'
  }

  /** Position `m` lies in a comment that starts at or after `lo`: a `%`
      or `//` at some `i` in `lo..m`, with no newline from `i` to `m`. */
  ghost predicate CommentFrom(s: string, lo: nat, m: nat)
  {
    exists i: nat :: lo <= i <= m < |s| && CommentAt(s, i) && forall q :: i <= q <= m ==> s[q] != '\n'
  }

  /** Position `m` lies in a comment that the scanner skips: one starting at
      or after `lo` at a position no token of `ts` covers. A `//` inside a
      text run (`a//b`) belongs to the run and starts no comment. */
  ghost predicate InComment(s: string, ts: seq<Spanned>, lo: nat, m: nat)
  {
    exists i: nat :: lo <= i <= m < |s| && CommentAt(s, i) && !Covered(ts, i) &&
      forall q :: i <= q <= m ==> s[q] != '\n'
  }

  /** Position `m` lies within the span of one of `ts`. */
  ghost predicate Covered(ts: seq<Spanned>, m: nat)
  {
    exists k :: 0 <= k < |ts| && ts[k].start <= m < ts[k].end
  }

  /** No token's span holds a whitespace character or a `%`. */
  lemma SpanChars(s: string, t: Spanned, m: nat)
    requires Denotes(s, t) && t.start <= m < t.end
    ensures !IsSpace(s[m]) && s[m] != '%'
  {
    match t.tok
    case Text(c) =>
      assert s[m] == c[m - t.start] && IsTextChar(c[m - t.start]);
    case Command(n) =>
      if m > t.start {
        assert s[m] == n[m - t.start - 1] && IsLetter(n[m - t.start - 1]);
      } else {
        assert s[m] == '\\';
      }
    case LBrace =>
      assert s[m] == '{';
    case RBrace =>
      assert s[m] == '}';
    case Error =>
      assert s[m] == '\\';
  }

  /** Whatever `Next` skips before the token it returns (or up to the end of
      input) is whitespace or lies in a comment starting in the skipped
      stretch itself. */
  lemma {:induction false} NextSkipsTrivia(s: string, pos: nat)
    requires pos <= |s|
    ensures Next(s, pos).Some? ==>
      forall m :: pos <= m < Next(s, pos).value.start ==> IsSpace(s[m]) || CommentFrom(s, pos, m)
    ensures Next(s, pos).None? ==>
      forall m :: pos <= m < |s| ==> IsSpace(s[m]) || CommentFrom(s, pos, m)
    decreases |s| - pos
  {
    if pos == |s| {
    } else if CommentAt(s, pos) {
      var e := RunEnd(s, pos + 1, NotNewline);
      NextSkipsTrivia(s, e);
      forall m | pos <= m < e ensures CommentFrom(s, pos, m) {
        assert forall q :: pos <= q <= m ==> s[q] != '\n' by {
          forall q | pos <= q <= m ensures s[q] != '\n' {
            if q > pos { assert InClass(s[q], NotNewline); }
          }
        }
      }
      forall m | e <= m < |s| && CommentFrom(s, e, m) ensures CommentFrom(s, pos, m) {
        var i: nat :| e <= i <= m < |s| && CommentAt(s, i) && forall q :: i <= q <= m ==> s[q] != '\n';
      }
    } else if IsSpace(s[pos]) {
      var e := RunEnd(s, pos, Space);
      NextSkipsTrivia(s, e);
      forall m | e <= m < |s| && CommentFrom(s, e, m) ensures CommentFrom(s, pos, m) {
        var i: nat :| e <= i <= m < |s| && CommentAt(s, i) && forall q :: i <= q <= m ==> s[q] != '\n';
      }
    }
  }

  /** Between a comment start that `Next` skips and the token it returns
      there is a newline: a comment swallows the rest of its line. */
  lemma {:induction false} NextCommentToLineEnd(s: string, pos: nat)
    requires pos <= |s|
    ensures Next(s, pos).Some? ==>
      forall j :: pos <= j < Next(s, pos).value.start && CommentAt(s, j) ==>
        HasNewline(s, j, Next(s, pos).value.start)
    decreases |s| - pos
  {
    if pos == |s| {
    } else if CommentAt(s, pos) {
      var e := RunEnd(s, pos + 1, NotNewline);
      NextCommentToLineEnd(s, e);
      var r := Next(s, pos);
      NextDenotes(s, pos);
      if r.Some? {
        var t := r.value;
        assert e < |s| && s[e] == '\n';
        assert s[t.start] != '\n';
        forall j | pos <= j < t.start && CommentAt(s, j) ensures HasNewline(s, j, t.start) {
          if j < e {
            assert j <= e < t.start && s[e] == '\n';
          }
        }
      }
    } else if IsSpace(s[pos]) {
      NextCommentToLineEnd(s, RunEnd(s, pos, Space));
    }
  }

  /** A position no token of `[t] + rest` covers is covered by no token of
      `rest`, and lies outside `t`. */
  lemma UncoveredCons(t: Spanned, rest: seq<Spanned>, m: nat)
    requires !Covered([t] + rest, m)
    ensures !Covered(rest, m) && !(t.start <= m < t.end)
  {
    var r := [t] + rest;
    assert r[0] == t;
    forall k | 0 <= k < |rest| ensures !(rest[k].start <= m < rest[k].end) {
      assert r[k + 1] == rest[k];
    }
  }

  /** A position before every token's start is covered by none. */
  lemma UncoveredBefore(r: seq<Spanned>, m: nat)
    requires forall k :: 0 <= k < |r| ==> m < r[k].start
    ensures !Covered(r, m)
  {
  }

  /** A position that `rest` does not cover and that lies at or after the
      end of `t` is covered by no token of `[t] + rest`. */
  lemma UncoveredAfter(t: Spanned, rest: seq<Spanned>, m: nat)
    requires !Covered(rest, m) && t.end <= m
    ensures !Covered([t] + rest, m)
  {
    var r := [t] + rest;
    forall k | 0 <= k < |r| ensures !(r[k].start <= m < r[k].end) {
      if k > 0 {
        assert r[k] == rest[k - 1];
      }
    }
  }

  /** Every character of the input from `pos` on is covered by a token, or
      is whitespace, or lies in a comment that starts outside every token. */
  lemma {:induction false} CoverageFrom(s: string, pos: nat)
    requires pos <= |s|
    ensures forall m :: pos <= m < |s| ==>
      Covered(TokensFrom(s, pos), m) || IsSpace(s[m]) || InComment(s, TokensFrom(s, pos), pos, m)
    decreases |s| - pos
  {
    NextSkipsTrivia(s, pos);
    match Next(s, pos)
    case None =>
      forall m | pos <= m < |s| && !IsSpace(s[m]) ensures InComment(s, [], pos, m) {
        var i: nat :| pos <= i <= m < |s| && CommentAt(s, i) && forall q :: i <= q <= m ==> s[q] != '\n';
        assert !Covered([], i);
      }
    case Some(t) =>
      CoverageFrom(s, t.end);
      var r := TokensFrom(s, pos);
      var rest := TokensFrom(s, t.end);
      assert r == [t] + rest;
      forall m | pos <= m < |s| && !IsSpace(s[m]) && !Covered(r, m)
        ensures InComment(s, r, pos, m)
      {
        UncoveredCons(t, rest, m);
        if m < t.start {
          var i: nat :| pos <= i <= m < |s| && CommentAt(s, i) && forall q :: i <= q <= m ==> s[q] != '\n';
          assert forall k :: 0 <= k < |r| ==> i < r[k].start by {
            assert r[0] == t;
            assert forall k :: 0 <= k < |rest| ==> t.end <= rest[k].start;
            assert forall k :: 1 <= k < |r| ==> r[k] == rest[k - 1];
          }
          UncoveredBefore(r, i);
        } else {
          assert InComment(s, rest, t.end, m);
          var i: nat :| t.end <= i <= m < |s| && CommentAt(s, i) && !Covered(rest, i) &&
            forall q :: i <= q <= m ==> s[q] != '\n';
          UncoveredAfter(t, rest, i);
        }
      }
  }

  /** Every comment start at or after `pos` that no token of `r` covers and
      that lies before a token of `r` is followed by a newline before that
      token starts. */
  ghost predicate CommentsEndLines(s: string, pos: nat, r: seq<Spanned>)
  {
    forall k, j :: 0 <= k < |r| && pos <= j < r[k].start && CommentAt(s, j) && !Covered(r, j) ==>
      HasNewline(s, j, r[k].start)
  }

  /** A skipped comment yields no token: every token that starts after it
      starts on a later line. */
  lemma {:induction false} CommentToLineEndFrom(s: string, pos: nat)
    requires pos <= |s|
    ensures CommentsEndLines(s, pos, TokensFrom(s, pos))
    decreases |s| - pos
  {
    NextCommentToLineEnd(s, pos);
    match Next(s, pos)
    case None =>
    case Some(t) =>
      CommentToLineEndFrom(s, t.end);
      var r := TokensFrom(s, pos);
      var rest := TokensFrom(s, t.end);
      assert r == [t] + rest;
      forall k, j | 0 <= k < |r| && pos <= j < r[k].start && CommentAt(s, j) && !Covered(r, j)
        ensures HasNewline(s, j, r[k].start)
      {
        UncoveredCons(t, rest, j);
        if k == 0 {
          assert r[0] == Next(s, pos).value;
        } else {
          assert r[k] == rest[k - 1];
          assert t.end <= rest[k - 1].start;
          if j < t.start {
            assert HasNewline(s, j, t.start);
            var q :| j <= q < t.start && q < |s| && s[q] == '\n';
            assert j <= q < r[k].start;
          } else {
            assert CommentsEndLines(s, t.end, rest);
            assert HasNewline(s, j, rest[k - 1].start);
          }
        }
      }
  }

  /** No token's span holds whitespace or a `%`: whitespace and comments
      never end up inside a token. */
  lemma TokensAvoidTrivia(s: string)
    ensures forall k, m :: 0 <= k < |Tokens(s)| && Tokens(s)[k].start <= m < Tokens(s)[k].end ==>
      !IsSpace(s[m]) && s[m] != '%'
  {
    var r := Tokens(s);
    TokensDenote(s);
    forall k, m | 0 <= k < |r| && r[k].start <= m < r[k].end
      ensures !IsSpace(s[m]) && s[m] != '%'
    {
      SpanChars(s, r[k], m);
    }
  }

  /** A comment produces no token: every token lies wholly before the
      comment's start or starts on a later line. This holds for every `%`,
      which no token ever covers, and for every `//` that starts outside the
      tokens. */
  lemma CommentProducesNoTokens(s: string)
    ensures forall k, j :: 0 <= k < |Tokens(s)| && 0 <= j && CommentAt(s, j) && !Covered(Tokens(s), j) ==>
      Tokens(s)[k].end <= j || HasNewline(s, j, Tokens(s)[k].start)
    ensures forall j :: 0 <= j < |s| && s[j] == '%' ==> !Covered(Tokens(s), j)
  {
    var r := Tokens(s);
    CommentToLineEndFrom(s, 0);
    TokensAvoidTrivia(s);
    forall k, j | 0 <= k < |r| && 0 <= j && CommentAt(s, j) && !Covered(r, j)
      ensures r[k].end <= j || HasNewline(s, j, r[k].start)
    {
      if r[k].start <= j {
        assert !(r[k].start <= j < r[k].end);
      } else {
        assert CommentsEndLines(s, 0, r);
      }
    }
  }

  /** The lexer drops nothing but whitespace and comments: every character
      is inside a token's span, or is whitespace, or lies in a comment whose
      start is under no token. */
  lemma DropsOnlyTrivia(s: string)
    ensures forall m :: 0 <= m < |s| ==>
      Covered(Tokens(s), m) || IsSpace(s[m]) || InComment(s, Tokens(s), 0, m)
  {
    CoverageFrom(s, 0);
  }

  // ---------------------------------------------------------------------
  // One scanner step at a time, and the lexer's own unit tests

  lemma {:induction false} RunEndIs(s: string, i: nat, k: CharClass, j: nat)
    requires i <= j <= |s|
    requires forall m :: i <= m < j ==> InClass(s[m], k)
    requires j == |s| || !InClass(s[j], k)
    ensures RunEnd(s, i, k) == j
    decreases j - i
  {
    if i < j {
      RunEndIs(s, i + 1, k, j);
    }
  }

  /** A maximal run of text characters is one `Text` token. */
  lemma NextText(s: string, pos: nat, e: nat)
    requires pos < e <= |s| && !CommentAt(s, pos)
    requires forall m :: pos <= m < e ==> IsTextChar(s[m])
    requires e == |s| || !IsTextChar(s[e])
    ensures Next(s, pos) == Some(Spanned(Text(s[pos..e]), pos, e))
  {
    RunEndIs(s, pos, TextChar, e);
  }

  /** A maximal run of whitespace yields nothing. */
  lemma NextSpace(s: string, pos: nat, e: nat)
    requires pos < e <= |s|
    requires forall m :: pos <= m < e ==> IsSpace(s[m])
    requires e == |s| || !IsSpace(s[e])
    ensures Next(s, pos) == Next(s, e)
  {
    RunEndIs(s, pos, Space, e);
  }

  /** A comment up to the end of its line yields nothing. */
  lemma NextComment(s: string, pos: nat, e: nat)
    requires pos < e <= |s| && CommentAt(s, pos)
    requires forall m :: pos < m < e ==> s[m] != '\n'
    requires e == |s| || s[e] == '\n'
    ensures Next(s, pos) == Next(s, e)
  {
    RunEndIs(s, pos + 1, NotNewline, e);
  }

  /** A backslash and a maximal run of letters is one `Command` token, named
      without the backslash. */
  lemma NextCommand(s: string, pos: nat, e: nat)
    requires pos + 1 < e <= |s| && s[pos] == '\\'
    requires forall m :: pos < m < e ==> IsLetter(s[m])
    requires e == |s| || !IsLetter(s[e])
    ensures Next(s, pos) == Some(Spanned(Command(s[pos + 1..e]), pos, e))
  {
    RunEndIs(s, pos + 1, Letter, e);
  }

  /** `TokensFrom` one token at a time. */
  lemma TokensStep(s: string, pos: nat, t: Spanned, rest: seq<Spanned>)
    requires pos <= |s| && Next(s, pos) == Some(t) && TokensFrom(s, t.end) == rest
    ensures TokensFrom(s, pos) == [t] + rest
  {
  }

  lemma TokensDone(s: string, pos: nat)
    requires pos <= |s| && Next(s, pos) == None
    ensures TokensFrom(s, pos) == []
  {
  }

  lemma LexTextExample(s: string)
    requires s == "Hello"
    ensures Kinds(Tokens(s)) == [Text("Hello")]
  {
    NextText(s, 0, 5);
    assert s[0..5] == "Hello";
    assert TokensFrom(s, 5) == [];
  }

  lemma LexCommandExample(s: string)
    requires s == "\\textbf"
    ensures Kinds(Tokens(s)) == [Command("textbf")]
  {
    NextCommand(s, 0, 7);
    assert s[1..7] == "textbf";
    assert TokensFrom(s, 7) == [];
  }

  lemma LexBracesExample(s: string)
    requires s == "{ }"
    ensures Kinds(Tokens(s)) == [LBrace, RBrace]
  {
    NextSpace(s, 1, 2);
    assert TokensFrom(s, 3) == [];
    assert TokensFrom(s, 1) == [Spanned(RBrace, 2, 3)];
  }

  lemma LexUnclosedExample(s: string)
    requires s == "{A"
    ensures Kinds(Tokens(s)) == [LBrace, Text("A")]
  {
    NextText(s, 1, 2);
    assert s[1..2] == "A";
    TokensDone(s, 2);
    TokensStep(s, 1, Spanned(Text(s[1..2]), 1, 2), []);
    TokensStep(s, 0, Spanned(LBrace, 0, 1), [Spanned(Text(s[1..2]), 1, 2)]);
  }

  lemma LexTrailingExample(s: string)
    requires s == "a}"
    ensures Kinds(Tokens(s)) == [Text("a"), RBrace]
  {
    NextText(s, 0, 1);
    assert s[0..1] == "a";
    assert TokensFrom(s, 2) == [];
    assert TokensFrom(s, 1) == [Spanned(RBrace, 1, 2)];
  }

  // `\emph{Word} and text`, one token at a time

  lemma MixedCommand(s: string)
    requires s == "\\emph{Word} and text"
    ensures Next(s, 0) == Some(Spanned(Command(s[1..5]), 0, 5))
  {
    NextCommand(s, 0, 5);
  }

  lemma MixedBraces(s: string)
    requires s == "\\emph{Word} and text"
    ensures Next(s, 5) == Some(Spanned(LBrace, 5, 6))
    ensures Next(s, 10) == Some(Spanned(RBrace, 10, 11))
  {
  }

  lemma MixedWord(s: string)
    requires s == "\\emph{Word} and text"
    ensures Next(s, 6) == Some(Spanned(Text(s[6..10]), 6, 10))
  {
    NextText(s, 6, 10);
  }

  lemma MixedAnd(s: string)
    requires s == "\\emph{Word} and text"
    ensures Next(s, 11) == Some(Spanned(Text(s[12..15]), 12, 15))
  {
    NextSpace(s, 11, 12);
    NextText(s, 12, 15);
  }

  lemma MixedText(s: string)
    requires s == "\\emph{Word} and text"
    ensures Next(s, 15) == Some(Spanned(Text(s[16..20]), 16, 20))
    ensures TokensFrom(s, 20) == []
  {
    NextSpace(s, 15, 16);
    NextText(s, 16, 20);
    TokensDone(s, 20);
  }

  lemma MixedTokens(s: string)
    requires s == "\\emph{Word} and text"
    ensures TokensFrom(s, 0)
         == [Spanned(Command(s[1..5]), 0, 5), Spanned(LBrace, 5, 6), Spanned(Text(s[6..10]), 6, 10),
             Spanned(RBrace, 10, 11), Spanned(Text(s[12..15]), 12, 15), Spanned(Text(s[16..20]), 16, 20)]
  {
    var t0, t1, t2 := Spanned(Command(s[1..5]), 0, 5), Spanned(LBrace, 5, 6), Spanned(Text(s[6..10]), 6, 10);
    var t3, t4, t5 := Spanned(RBrace, 10, 11), Spanned(Text(s[12..15]), 12, 15), Spanned(Text(s[16..20]), 16, 20);
    MixedCommand(s);
    MixedBraces(s);
    MixedWord(s);
    MixedAnd(s);
    MixedText(s);
    TokensStep(s, 15, t5, []);
    TokensStep(s, 11, t4, [t5]);
    TokensStep(s, 10, t3, [t4, t5]);
    TokensStep(s, 6, t2, [t3, t4, t5]);
    TokensStep(s, 5, t1, [t2, t3, t4, t5]);
    TokensStep(s, 0, t0, [t1, t2, t3, t4, t5]);
  }

  lemma LexMixedExample(s: string)
    requires s == "\\emph{Word} and text"
    ensures Kinds(Tokens(s))
         == [Command("emph"), LBrace, Text("Word"), RBrace, Text("and"), Text("text")]
  {
    MixedTokens(s);
    assert s[1..5] == "emph" && s[6..10] == "Word" && s[12..15] == "and" && s[16..20] == "text";
  }

  // `Text % comment\nMore`, one token at a time

  lemma CommentFirst(s: string)
    requires s == "Text % comment\nMore"
    ensures Next(s, 0) == Some(Spanned(Text(s[0..4]), 0, 4))
  {
    NextText(s, 0, 4);
  }

  lemma CommentBody(s: string)
    requires s == "Text % comment\nMore"
    ensures Next(s, 5) == Next(s, 14)
  {
    NextComment(s, 5, 14);
  }

  lemma CommentSkipped(s: string)
    requires s == "Text % comment\nMore"
    ensures Next(s, 4) == Next(s, 15)
  {
    NextSpace(s, 4, 5);
    CommentBody(s);
    NextSpace(s, 14, 15);
  }

  lemma CommentLast(s: string)
    requires s == "Text % comment\nMore"
    ensures Next(s, 15) == Some(Spanned(Text(s[15..19]), 15, 19))
    ensures TokensFrom(s, 19) == []
  {
    NextText(s, 15, 19);
    TokensDone(s, 19);
  }

  lemma LexCommentExample(s: string)
    requires s == "Text % comment\nMore"
    ensures Kinds(Tokens(s)) == [Text("Text"), Text("More")]
  {
    var t0, t1 := Spanned(Text(s[0..4]), 0, 4), Spanned(Text(s[15..19]), 15, 19);
    CommentFirst(s);
    CommentSkipped(s);
    CommentLast(s);
    TokensStep(s, 4, t1, []);
    TokensStep(s, 0, t0, [t1]);
    assert s[0..4] == "Text" && s[15..19] == "More";
  }

  lemma ErrorNexts(s: string)
    requires s == "\\{x}"
    ensures Next(s, 0) == Some(Spanned(Error, 0, 1)) && Next(s, 1) == Some(Spanned(LBrace, 1, 2))
    ensures Next(s, 2) == Some(Spanned(Text(s[2..3]), 2, 3)) && Next(s, 3) == Some(Spanned(RBrace, 3, 4))
    ensures TokensFrom(s, 4) == []
  {
    NextText(s, 2, 3);
    TokensDone(s, 4);
  }

  /** A backslash before a non-letter is an `Error` token and lexing goes on. */
  lemma LexErrorExample(s: string)
    requires s == "\\{x}"
    ensures Kinds(Tokens(s)) == [Error, LBrace, Text("x"), RBrace]
  {
    var t0, t1, t2, t3 := Spanned(Error, 0, 1), Spanned(LBrace, 1, 2), Spanned(Text(s[2..3]), 2, 3), Spanned(RBrace, 3, 4);
    ErrorNexts(s);
    TokensStep(s, 3, t3, []);
    TokensStep(s, 2, t2, [t3]);
    TokensStep(s, 1, t1, [t2, t3]);
    TokensStep(s, 0, t0, [t1, t2, t3]);
    assert s[2..3] == "x";
  }

  // `{Hi there}`, one token at a time

  lemma GroupHi(s: string)
    requires s == "{Hi there}"
    ensures Next(s, 1) == Some(Spanned(Text(s[1..3]), 1, 3))
  {
    NextText(s, 1, 3);
  }

  lemma GroupThere(s: string)
    requires s == "{Hi there}"
    ensures Next(s, 3) == Some(Spanned(Text(s[4..9]), 4, 9))
  {
    NextSpace(s, 3, 4);
    NextText(s, 4, 9);
  }

  lemma GroupBraces(s: string)
    requires s == "{Hi there}"
    ensures Next(s, 0) == Some(Spanned(LBrace, 0, 1)) && Next(s, 9) == Some(Spanned(RBrace, 9, 10))
    ensures TokensFrom(s, 10) == []
  {
    TokensDone(s, 10);
  }

  lemma LexGroupExample(s: string)
    requires s == "{Hi there}"
    ensures Kinds(Tokens(s)) == [LBrace, Text("Hi"), Text("there"), RBrace]
  {
    var t0, t1, t2, t3 := Spanned(LBrace, 0, 1), Spanned(Text(s[1..3]), 1, 3), Spanned(Text(s[4..9]), 4, 9), Spanned(RBrace, 9, 10);
    GroupHi(s);
    GroupThere(s);
    GroupBraces(s);
    TokensStep(s, 9, t3, []);
    TokensStep(s, 3, t2, [t3]);
    TokensStep(s, 1, t1, [t2, t3]);
    TokensStep(s, 0, t0, [t1, t2, t3]);
    assert s[1..3] == "Hi" && s[4..9] == "there";
  }

  // `\textbf{Bold}`, one token at a time

  lemma MacroGroupCommand(s: string)
    requires s == "\\textbf{Bold}"
    ensures Next(s, 0) == Some(Spanned(Command(s[1..7]), 0, 7))
  {
    NextCommand(s, 0, 7);
  }

  lemma MacroGroupWord(s: string)
    requires s == "\\textbf{Bold}"
    ensures Next(s, 8) == Some(Spanned(Text(s[8..12]), 8, 12))
  {
    NextText(s, 8, 12);
  }

  lemma MacroGroupBraces(s: string)
    requires s == "\\textbf{Bold}"
    ensures Next(s, 7) == Some(Spanned(LBrace, 7, 8)) && Next(s, 12) == Some(Spanned(RBrace, 12, 13))
    ensures TokensFrom(s, 13) == []
  {
    TokensDone(s, 13);
  }

  lemma LexMacroGroupExample(s: string)
    requires s == "\\textbf{Bold}"
    ensures Kinds(Tokens(s)) == [Command("textbf"), LBrace, Text("Bold"), RBrace]
  {
    var t0, t1 := Spanned(Command(s[1..7]), 0, 7), Spanned(LBrace, 7, 8);
    var t2, t3 := Spanned(Text(s[8..12]), 8, 12), Spanned(RBrace, 12, 13);
    MacroGroupCommand(s);
    MacroGroupWord(s);
    MacroGroupBraces(s);
    TokensStep(s, 12, t3, []);
    TokensStep(s, 8, t2, [t3]);
    TokensStep(s, 7, t1, [t2, t3]);
    TokensStep(s, 0, t0, [t1, t2, t3]);
    assert s[8..12] == "Bold";
    assert s[1..7] == "textbf" by {
      assert s[1] == 't' && s[2] == 'e' && s[3] == 'x' && s[4] == 't' && s[5] == 'b' && s[6] == 'f';
    }
  }
}
