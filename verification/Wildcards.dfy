/**
 Wildcard patterns.  Two spellings are in use: caller-ARN patterns, where only `*` is special, and
 device-name globs, where `*` and `?` are special and which are translated to SQL LIKE patterns.  All
 three notations denote sequences of tokens, and `InLanguage` is the one declarative meaning they share.
 */
module Wildcards {

  datatype Option<+T> = None | Some(value: T)

  datatype Token = Literal(c: char) | AnyChar | AnyString

  /** How a literal is compared with a text character; SQL LIKE may fold case, Go's strings package never does. */
  type CharEq = (char, char) -> bool

  predicate Exact(a: char, b: char) {
    a == b
  }

  /** `s` splits into one piece per token: that literal, any one character, or any string at all. */
  ghost predicate InLanguage(eq: CharEq, toks: seq<Token>, s: string)
    decreases |toks|
  {
    if toks == [] then s == []
    else match toks[0]
      case Literal(c) => s != [] && eq(c, s[0]) && InLanguage(eq, toks[1..], s[1..])
      case AnyChar => s != [] && InLanguage(eq, toks[1..], s[1..])
      case AnyString => exists k :: 0 <= k <= |s| && InLanguage(eq, toks[1..], s[k..])
  }

  // ---------------------------------------------------------------- the greedy `*` matcher

  function StarToken(c: char): Token {
    if c == '*' then AnyString else Literal(c)
  }

  function StarTokens(pattern: string): seq<Token> {
    if pattern == [] then [] else [StarToken(pattern[0])] + StarTokens(pattern[1..])
  }

  /** What a pattern accepts, character by character. */
  lemma StarMeans(c: char, rest: string, s: string)
    ensures InLanguage(Exact, StarTokens(""), s) <==> s == ""
    ensures InLanguage(Exact, StarTokens([c] + rest), s) <==>
              if c == '*' then exists k :: 0 <= k <= |s| && InLanguage(Exact, StarTokens(rest), s[k..])
              else s != "" && s[0] == c && InLanguage(Exact, StarTokens(rest), s[1..])
  {
    assert ([c] + rest)[1..] == rest;
    assert StarTokens([c] + rest)[1..] == StarTokens(rest);
  }

  /** The maximal star-free pieces of a pattern, in order. */
  function SplitAtStars(pattern: string): (parts: seq<string>)
    ensures |parts| >= 1
  {
    if pattern == [] then [[]]
    else
      var rest := SplitAtStars(pattern[1..]);
      if pattern[0] == '*' then [[]] + rest else [[pattern[0]] + rest[0]] + rest[1..]
  }

  function JoinWithStars(parts: seq<string>): string
    requires parts != []
  {
    if |parts| == 1 then parts[0] else parts[0] + ['*'] + JoinWithStars(parts[1..])
  }

  /** Splitting loses nothing, and no star is left inside a piece. */
  lemma {:induction false} SplitJoin(pattern: string)
    ensures JoinWithStars(SplitAtStars(pattern)) == pattern
    ensures forall i :: 0 <= i < |SplitAtStars(pattern)| ==> '*' !in SplitAtStars(pattern)[i]
  {
    if pattern != [] {
      var rest := SplitAtStars(pattern[1..]);
      SplitJoin(pattern[1..]);
      var parts := SplitAtStars(pattern);
      if pattern[0] == '*' {
        assert parts[1..] == rest;
      } else {
        assert parts[1..] == rest[1..];
        assert pattern == [pattern[0]] + pattern[1..];
        if |rest| > 1 {
          assert [pattern[0]] + (rest[0] + ['*'] + JoinWithStars(rest[1..]))
              == ([pattern[0]] + rest[0]) + ['*'] + JoinWithStars(rest[1..]);
        }
      }
    }
  }

  /** The pieces occur in order: the first at the front, the last at the end, the others anywhere between. */
  ghost predicate PiecesMatch(parts: seq<string>, s: string)
    requires parts != []
    decreases |parts|, 0
  {
    if |parts| == 1 then s == parts[0]
    else parts[0] <= s && PiecesFloat(parts[1..], s[|parts[0]|..])
  }

  /** As `PiecesMatch`, with anything allowed in front of the first piece. */
  ghost predicate PiecesFloat(parts: seq<string>, s: string)
    requires parts != []
    decreases |parts|, 1
  {
    exists k {:trigger PiecesMatch(parts, s[k..])} :: 0 <= k <= |s| && PiecesMatch(parts, s[k..])
  }

  /** Cutting a pattern at its stars does not change the language. */
  lemma {:induction false} PiecesAreTokens(pattern: string, s: string)
    ensures InLanguage(Exact, StarTokens(pattern), s) <==> PiecesMatch(SplitAtStars(pattern), s)
    decreases |pattern|
  {
    if pattern != [] {
      var rest := SplitAtStars(pattern[1..]);
      var parts := SplitAtStars(pattern);
      assert StarTokens(pattern)[1..] == StarTokens(pattern[1..]);
      if pattern[0] == '*' {
        assert parts[1..] == rest && s[|parts[0]|..] == s;
        forall k | 0 <= k <= |s|
          ensures InLanguage(Exact, StarTokens(pattern[1..]), s[k..]) <==> PiecesMatch(rest, s[k..])
        {
          PiecesAreTokens(pattern[1..], s[k..]);
        }
      } else if s != [] {
        assert parts[1..] == rest[1..];
        PiecesAreTokens(pattern[1..], s[1..]);
        PrependToFirstPiece(pattern[0], rest, s);
      } else {
        assert |parts[0]| > 0;
      }
    }
  }

  lemma {:induction false} PrependToFirstPiece(c: char, rest: seq<string>, s: string)
    requires rest != [] && s != []
    ensures PiecesMatch([[c] + rest[0]] + rest[1..], s) <==> s[0] == c && PiecesMatch(rest, s[1..])
  {
    var parts := [[c] + rest[0]] + rest[1..];
    assert s == [s[0]] + s[1..];
    if |rest| > 1 {
      assert parts[1..] == rest[1..];
      if s[0] == c && rest[0] <= s[1..] {
        assert parts[0] <= s && s[|parts[0]|..] == s[1..][|rest[0]|..];
      }
      if parts[0] <= s {
        assert rest[0] == parts[0][1..] && rest[0] <= s[1..];
        assert s[|parts[0]|..] == s[1..][|rest[0]|..];
      }
    }
  }

  predicate OccursAt(s: string, sub: string, j: int) {
    0 <= j <= |s| && sub <= s[j..]
  }

  /** strings.Index: the leftmost occurrence of `sub` in `s`, or -1. */
  function IndexOf(s: string, sub: string): (i: int)
    ensures i == -1 || 0 <= i <= |s| - |sub|
  {
    if sub <= s then 0
    else if s == [] then -1
    else
      var r := IndexOf(s[1..], sub);
      if r < 0 then -1 else r + 1
  }

  lemma {:induction false} IndexOfIsLeftmost(s: string, sub: string)
    ensures var i := IndexOf(s, sub);
            && (i >= 0 ==> OccursAt(s, sub, i))
            && (forall j :: (j < i || i < 0) ==> !OccursAt(s, sub, j))
  {
    assert s[0..] == s;
    if !(sub <= s) && s != [] {
      IndexOfIsLeftmost(s[1..], sub);
      assert forall j :: 1 <= j <= |s| ==> s[j..] == s[1..][j - 1..];
      assert forall j :: OccursAt(s, sub, j) ==> j == 0 || OccursAt(s[1..], sub, j - 1);
    }
  }

  /** Dropping characters from the front of a floating match's text can only lose matches. */
  lemma {:induction false} FloatWiden(parts: seq<string>, s: string, cut: nat)
    requires parts != [] && cut <= |s| && PiecesFloat(parts, s[cut..])
    ensures PiecesFloat(parts, s)
  {
    var k :| 0 <= k <= |s| - cut && PiecesMatch(parts, s[cut..][k..]);
    assert s[cut..][k..] == s[cut + k..];
    assert PiecesMatch(parts, s[cut + k..]);
  }

  /**
   The exchange argument: wherever a piece is placed in some match, it can be moved to its leftmost
   occurrence, because everything after it sits behind a star.
   */
  lemma {:induction false} LeftmostIsEnough(parts: seq<string>, s: string)
    requires |parts| > 1
    ensures var i := IndexOf(s, parts[0]);
            PiecesFloat(parts, s) <==> i >= 0 && PiecesFloat(parts[1..], s[i + |parts[0]|..])
  {
    var i := IndexOf(s, parts[0]);
    IndexOfIsLeftmost(s, parts[0]);
    if PiecesFloat(parts, s) {
      var k :| 0 <= k <= |s| && PiecesMatch(parts, s[k..]);
      MoveLeft(parts, s, k);
    }
    if i >= 0 && PiecesFloat(parts[1..], s[i + |parts[0]|..]) {
      assert s[i..][|parts[0]|..] == s[i + |parts[0]|..];
      assert PiecesMatch(parts, s[i..]);
    }
  }

  lemma {:induction false} MoveLeft(parts: seq<string>, s: string, k: nat)
    requires |parts| > 1 && k <= |s| && PiecesMatch(parts, s[k..])
    ensures var i := IndexOf(s, parts[0]);
            i >= 0 && PiecesFloat(parts[1..], s[i + |parts[0]|..])
  {
    var i := IndexOf(s, parts[0]);
    IndexOfIsLeftmost(s, parts[0]);
    assert OccursAt(s, parts[0], k);
    assert 0 <= i <= k;
    var tail := s[i + |parts[0]|..];
    assert s[k..][|parts[0]|..] == tail[k - i..];
    FloatWiden(parts[1..], tail, k - i);
  }

  predicate HasSuffix(s: string, suffix: string) {
    |suffix| <= |s| && s[|s| - |suffix|..] == suffix
  }

  lemma {:induction false} LastPieceIsSuffix(parts: seq<string>, s: string)
    requires |parts| == 1
    ensures PiecesFloat(parts, s) <==> HasSuffix(s, parts[0])
  {
    if HasSuffix(s, parts[0]) {
      assert PiecesMatch(parts, s[|s| - |parts[0]|..]);
    }
  }

  predicate Greedy(parts: seq<string>, s: string)
    requires parts != []
  {
    if |parts| == 1 then HasSuffix(s, parts[0])
    else var at := IndexOf(s, parts[0]); at >= 0 && Greedy(parts[1..], s[at + |parts[0]|..])
  }

  lemma {:induction false} GreedyIsEnough(parts: seq<string>, s: string)
    requires parts != []
    ensures Greedy(parts, s) <==> PiecesFloat(parts, s)
  {
    if |parts| == 1 {
      LastPieceIsSuffix(parts, s);
    } else {
      var at := IndexOf(s, parts[0]);
      if at >= 0 {
        GreedyIsEnough(parts[1..], s[at + |parts[0]|..]);
      }
      LeftmostIsEnough(parts, s);
    }
  }

  /** The matcher accepts exactly the language of the pattern. */
  method MatchGlob(pattern: string, text: string) returns (ok: bool)
    ensures ok <==> InLanguage(Exact, StarTokens(pattern), text)
  {
    PiecesAreTokens(pattern, text);
    ok := MatchPieces(SplitAtStars(pattern), text);
  }

  method MatchPieces(parts: seq<string>, text: string) returns (ok: bool)
    requires parts != []
    ensures ok <==> PiecesMatch(parts, text)
  {
    if |parts| == 1 {
      return parts[0] == text;
    }
    if !(parts[0] <= text) {
      return false;
    }
    ok := MatchFloating(parts[1..], text[|parts[0]|..]);
  }

  /** The middle pieces each at its leftmost occurrence, then the last as a suffix. */
  method MatchFloating(parts: seq<string>, text: string) returns (ok: bool)
    requires parts != []
    ensures ok <==> PiecesFloat(parts, text)
  {
    GreedyIsEnough(parts, text);
    var s, i := text, 0;
    ghost var goal := Greedy(parts, text);
    assert parts[0..] == parts;
    while i < |parts| - 1
      invariant i < |parts| && (goal <==> Greedy(parts[i..], s))
    {
      GreedyOnce(parts, i, s);
      var at := IndexOf(s, parts[i]);
      if at < 0 {
        return false;
      }
      s := s[at + |parts[i]|..];
      i := i + 1;
    }
    return HasSuffix(s, parts[i]);
  }

  lemma GreedyOnce(parts: seq<string>, i: nat, s: string)
    requires i + 1 < |parts|
    ensures var at := IndexOf(s, parts[i]);
            Greedy(parts[i..], s) <==> at >= 0 && Greedy(parts[i + 1..], s[at + |parts[i]|..])
  {
    assert parts[i..][1..] == parts[i + 1..];
  }

  // ---------------------------------------------------------------- globs and SQL LIKE

  function GlobToken(c: char): Token {
    if c == '*' then AnyString else if c == '?' then AnyChar else Literal(c)
  }

  /** A device-name glob has no escape: every other character, the backslash included, is literal. */
  function GlobTokens(glob: string): seq<Token> {
    if glob == [] then [] else [GlobToken(glob[0])] + GlobTokens(glob[1..])
  }

  /** What a glob describes, character by character. */
  lemma GlobMeans(eq: CharEq, c: char, rest: string, s: string)
    ensures InLanguage(eq, GlobTokens(""), s) <==> s == ""
    ensures InLanguage(eq, GlobTokens([c] + rest), s) <==>
              if c == '*' then exists k :: 0 <= k <= |s| && InLanguage(eq, GlobTokens(rest), s[k..])
              else s != "" && (c == '?' || eq(c, s[0])) && InLanguage(eq, GlobTokens(rest), s[1..])
  {
    assert ([c] + rest)[1..] == rest;
    assert GlobTokens([c] + rest)[1..] == GlobTokens(rest);
  }

  const ESCAPE := '\\'

  /** LIKE ... ESCAPE '\': None for a pattern the database rejects because it ends in the escape character. */
  function LikeTokens(like: string): (toks: Option<seq<Token>>) {
    if like == [] then Some([])
    else if like[0] == ESCAPE then
      if |like| == 1 then None
      else match LikeTokens(like[2..])
        case None => None
        case Some(rest) => Some([Literal(like[1])] + rest)
    else match LikeTokens(like[1..])
      case None => None
      case Some(rest) =>
        Some([if like[0] == '%' then AnyString else if like[0] == '_' then AnyChar else Literal(like[0])] + rest)
  }

  /** What a LIKE pattern selects, character by character. */
  lemma LikeMeans(eq: CharEq, c: char, rest: string, s: string)
    requires LikeTokens(rest).Some?
    ensures LikeTokens("") == Some([]) && LikeTokens("\\") == None
    ensures LikeTokens([ESCAPE, c] + rest).Some? && (c != ESCAPE ==> LikeTokens([c] + rest).Some?)
    ensures InLanguage(eq, LikeTokens([ESCAPE, c] + rest).value, s) <==>
              s != "" && eq(c, s[0]) && InLanguage(eq, LikeTokens(rest).value, s[1..])
    ensures c != ESCAPE ==> (InLanguage(eq, LikeTokens([c] + rest).value, s) <==>
              if c == '%' then exists k :: 0 <= k <= |s| && InLanguage(eq, LikeTokens(rest).value, s[k..])
              else s != "" && (c == '_' || eq(c, s[0])) && InLanguage(eq, LikeTokens(rest).value, s[1..]))
  {
    var toks := LikeTokens(rest).value;
    assert ([ESCAPE, c] + rest)[2..] == rest && ([c] + rest)[1..] == rest;
    assert LikeTokens([ESCAPE, c] + rest).value[1..] == toks;
    if c != ESCAPE {
      assert LikeTokens([c] + rest).value[1..] == toks;
    }
  }

  function LikePiece(c: char): string {
    if c == '*' then "%"
    else if c == '?' then "_"
    else if c == '%' || c == '_' || c == ESCAPE then [ESCAPE, c]
    else [c]
  }

  function LikeOf(glob: string): string {
    if glob == [] then [] else LikePiece(glob[0]) + LikeOf(glob[1..])
  }

  lemma {:induction false} LikeOfSnoc(glob: string, c: char)
    ensures LikeOf(glob + [c]) == LikeOf(glob) + LikePiece(c)
  {
    if glob == [] {
      assert LikeOf([c]) == LikePiece(c) + LikeOf([]);
    } else {
      assert (glob + [c])[1..] == glob[1..] + [c];
      LikeOfSnoc(glob[1..], c);
    }
  }

  /** Parsing the translated pattern gives back the glob's own tokens; in particular it never dangles. */
  lemma {:induction false} LikeOfMeansGlob(glob: string)
    ensures LikeTokens(LikeOf(glob)) == Some(GlobTokens(glob))
  {
    if glob != [] {
      LikeOfMeansGlob(glob[1..]);
      var like := LikeOf(glob);
      var piece := LikePiece(glob[0]);
      assert like[|piece|..] == LikeOf(glob[1..]);
      assert like[0] == piece[0];
    }
  }

  /** Distinct globs select by distinct LIKE patterns. */
  lemma {:induction false} LikeOfInjective(g: string, h: string)
    requires LikeOf(g) == LikeOf(h)
    ensures g == h
  {
    LikeOfMeansGlob(g);
    LikeOfMeansGlob(h);
    GlobTokensInjective(g, h);
  }

  lemma {:induction false} GlobTokensInjective(g: string, h: string)
    requires GlobTokens(g) == GlobTokens(h)
    ensures g == h
  {
    if g != [] && h != [] {
      assert GlobTokens(g)[0] == GlobToken(g[0]) && GlobTokens(h)[0] == GlobToken(h[0]);
      assert GlobTokens(g)[1..] == GlobTokens(g[1..]) && GlobTokens(h)[1..] == GlobTokens(h[1..]);
      GlobTokensInjective(g[1..], h[1..]);
      assert g == [g[0]] + g[1..] && h == [h[0]] + h[1..];
    }
  }

  /** Whatever character comparison the database uses, the translation selects exactly what the glob describes. */
  method GlobToLike(glob: string) returns (like: string)
    ensures LikeTokens(like).Some?
    ensures forall eq: CharEq, s: string ::
              InLanguage(eq, LikeTokens(like).value, s) <==> InLanguage(eq, GlobTokens(glob), s)
    ensures like == LikeOf(glob)
  {
    like := "";
    for i := 0 to |glob|
      invariant like == LikeOf(glob[..i])
    {
      LikeOfSnoc(glob[..i], glob[i]);
      assert glob[..i] + [glob[i]] == glob[..i + 1];
      match glob[i]
      case '*' => like := like + "%";
      case '?' => like := like + "_";
      case _ =>
        if glob[i] == '%' || glob[i] == '_' || glob[i] == '\\' {
          like := like + [ESCAPE];
        }
        like := like + [glob[i]];
    }
    assert glob[..|glob|] == glob;
    LikeOfMeansGlob(glob);
  }
}
