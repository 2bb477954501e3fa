/** Glob patterns, LIKE patterns and search terms: redisPatternToLike and escapeLike of
    internal/store/sqlstore, which internal/store/d1store repeats.

    A char is one Unicode code point, the unit over which the translator loops and LIKE matches.  `same`
    is the database's comparison of two characters (SQLite folds ASCII case, PostgreSQL does not): every
    theorem holds for any comparison. */
module Like {

  type Same = (char, char) -> bool

  /** SQL: text LIKE pattern ESCAPE esc. */
  predicate LikeMatch(p: string, s: string, esc: char, same: Same)
    decreases |p| + |s|
  {
    if p == "" then s == ""
    else if p[0] == esc then
      |p| >= 2 && s != "" && same(p[1], s[0]) && LikeMatch(p[2..], s[1..], esc, same)
    else if p[0] == '%' then
      LikeMatch(p[1..], s, esc, same) || (s != "" && LikeMatch(p, s[1..], esc, same))
    else if p[0] == '_' then s != "" && LikeMatch(p[1..], s[1..], esc, same)
    else s != "" && same(p[0], s[0]) && LikeMatch(p[1..], s[1..], esc, same)
  }

  /** A glob in which only * and ? are special. */
  predicate GlobMatch(p: string, s: string, same: Same)
    decreases |p| + |s|
  {
    if p == "" then s == ""
    else if p[0] == '*' then
      GlobMatch(p[1..], s, same) || (s != "" && GlobMatch(p, s[1..], same))
    else if p[0] == '?' then s != "" && GlobMatch(p[1..], s[1..], same)
    else s != "" && same(p[0], s[0]) && GlobMatch(p[1..], s[1..], same)
  }

  // ---------------------------------------------------------------- glob to LIKE

  function TranslateChar(c: char): string {
    if c == '*' then "%"
    else if c == '?' then "_"
    else if c == '%' || c == '_' || c == '\\' then ['\\', c]
    else [c]
  }

  function PatternToLike(pattern: string): string {
    if pattern == "" then "" else TranslateChar(pattern[0]) + PatternToLike(pattern[1..])
  }

  lemma {:induction false} TranslateNext(pattern: string, c: char)
    ensures PatternToLike(pattern + [c]) == PatternToLike(pattern) + TranslateChar(c)
  {
    if pattern == "" {
      assert pattern + [c] == [c] && [c][1..] == "";
      assert PatternToLike([c]) == TranslateChar(c) + PatternToLike("");
    } else {
      TranslateNext(pattern[1..], c);
      assert (pattern + [c])[1..] == pattern[1..] + [c];
    }
  }

  method RedisPatternToLike(pattern: string) returns (out: string)
    ensures out == PatternToLike(pattern)
  {
    out := "";
    for i := 0 to |pattern|
      invariant out == PatternToLike(pattern[..i])
    {
      var r := pattern[i];
      TranslateNext(pattern[..i], r);
      assert pattern[..i + 1] == pattern[..i] + [r];
      if r == '*' {
        out := out + "%";
      } else if r == '?' {
        out := out + "_";
      } else if r == '%' || r == '_' || r == '\\' {
        out := out + ['\\', r];
      } else {
        out := out + [r];
      }
    }
    assert pattern[..|pattern|] == pattern;
  }

  /** No escape dangles at the end, and each one stands before a character that needs it. */
  predicate WellEscaped(p: string, esc: char) {
    if p == "" then true
    else if p[0] == esc then
      |p| >= 2 && (p[1] == '%' || p[1] == '_' || p[1] == esc) && WellEscaped(p[2..], esc)
    else WellEscaped(p[1..], esc)
  }

  lemma {:induction false} EscapesWellPlaced(pattern: string)
    ensures WellEscaped(PatternToLike(pattern), '\\')
  {
    if pattern != "" {
      EscapesWellPlaced(pattern[1..]);
      Peel(pattern);
    }
  }

  /** The translation's first piece and the rest. */
  lemma Peel(pattern: string)
    requires pattern != ""
    ensures
      var out, piece := PatternToLike(pattern), TranslateChar(pattern[0]);
      && |piece| <= |out|
      && out[0] == piece[0] && (|piece| == 2 ==> out[1] == piece[1])
      && out[|piece|..] == PatternToLike(pattern[1..])
  {
  }

  /** One translated piece in front of a LIKE pattern means what the glob character meant. */
  lemma LikePiece(c: char, rest: string, s: string, same: Same)
    ensures
      var p := TranslateChar(c) + rest;
      LikeMatch(p, s, '\\', same) ==
        if c == '*' then
          LikeMatch(rest, s, '\\', same) || (s != "" && LikeMatch(p, s[1..], '\\', same))
        else
          s != "" && (c == '?' || same(c, s[0])) && LikeMatch(rest, s[1..], '\\', same)
  {
    var p := TranslateChar(c) + rest;
    if |TranslateChar(c)| == 2 {
      assert p[2..] == rest;
    } else {
      assert p[1..] == rest;
    }
  }

  /** The same one step of a glob. */
  lemma GlobStep(p: string, s: string, same: Same)
    requires p != ""
    ensures
      GlobMatch(p, s, same) ==
        if p[0] == '*' then GlobMatch(p[1..], s, same) || (s != "" && GlobMatch(p, s[1..], same))
        else s != "" && (p[0] == '?' || same(p[0], s[0])) && GlobMatch(p[1..], s[1..], same)
  {
  }

  /** The translated pattern matches exactly the keys the glob matches. */
  lemma {:induction false} GlobPreserved(pattern: string, s: string, same: Same)
    ensures LikeMatch(PatternToLike(pattern), s, '\\', same) == GlobMatch(pattern, s, same)
    decreases |pattern| + |s|, 1
  {
    if pattern != "" {
      PreservedStep(pattern, s, same);
    }
  }

  lemma {:induction false} PreservedStep(pattern: string, s: string, same: Same)
    requires pattern != ""
    ensures LikeMatch(PatternToLike(pattern), s, '\\', same) == GlobMatch(pattern, s, same)
    decreases |pattern| + |s|, 0
  {
    hide LikeMatch, GlobMatch, TranslateChar;
    LikePiece(pattern[0], PatternToLike(pattern[1..]), s, same);
    GlobStep(pattern, s, same);
    GlobPreserved(pattern[1..], s, same);
    if s != "" {
      GlobPreserved(pattern[1..], s[1..], same);
      GlobPreserved(pattern, s[1..], same);
    }
  }

  /** SCAN leaves the LIKE clause out for the pattern "*", which matches every key anyway. */
  lemma {:induction false} StarMatchesAll(s: string, same: Same)
    ensures GlobMatch("*", s, same)
  {
    if s != "" {
      StarMatchesAll(s[1..], same);
    } else {
      assert GlobMatch("*"[1..], s, same);
    }
  }

  // ---------------------------------------------------------------- search terms

  /** strings.ReplaceAll for a single-character pattern. */
  function ReplaceAll(s: string, c: char, with: string): string {
    if s == "" then "" else (if s[0] == c then with else [s[0]]) + ReplaceAll(s[1..], c, with)
  }

  function EscapeLike(value: string): string {
    var v1 := ReplaceAll(value, '|', "||");
    var v2 := ReplaceAll(v1, '%', "|%");
    ReplaceAll(v2, '_', "|_")
  }

  function EscapeChar(c: char): string {
    if c == '|' || c == '%' || c == '_' then ['|', c] else [c]
  }

  function OnePass(value: string): string {
    if value == "" then "" else EscapeChar(value[0]) + OnePass(value[1..])
  }

  lemma Assoc(a: string, b: string, c: string)
    ensures (a + b) + c == a + (b + c)
  {
  }

  lemma ReplaceStep(s: string, c: char, with: string)
    ensures s == "" ==> ReplaceAll(s, c, with) == ""
    ensures s != "" ==>
      ReplaceAll(s, c, with) == (if s[0] == c then with else [s[0]]) + ReplaceAll(s[1..], c, with)
  {
  }

  lemma {:induction false} ReplaceConcat(a: string, b: string, c: char, with: string)
    ensures ReplaceAll(a + b, c, with) == ReplaceAll(a, c, with) + ReplaceAll(b, c, with)
  {
    hide ReplaceAll;
    ReplaceStep(a, c, with);
    if a == "" {
      assert a + b == b;
    } else {
      ReplaceConcat(a[1..], b, c, with);
      assert (a + b)[1..] == a[1..] + b;
      ReplaceStep(a + b, c, with);
      Assoc(if a[0] == c then with else [a[0]], ReplaceAll(a[1..], c, with), ReplaceAll(b, c, with));
    }
  }

  /** The three replacements in sequence equal one pass that escapes each special character once. */
  lemma {:induction false} SequentialIsOnePass(value: string)
    ensures EscapeLike(value) == OnePass(value)
  {
    if value != "" {
      var head, tail := [value[0]], value[1..];
      assert value == head + tail;
      SequentialIsOnePass(tail);
      var h1, t1 := ReplaceAll(head, '|', "||"), ReplaceAll(tail, '|', "||");
      ReplaceConcat(head, tail, '|', "||");
      var h2, t2 := ReplaceAll(h1, '%', "|%"), ReplaceAll(t1, '%', "|%");
      ReplaceConcat(h1, t1, '%', "|%");
      ReplaceConcat(h2, t2, '_', "|_");
      EscapeOne(value[0]);
    }
  }

  lemma EscapeOne(c: char)
    ensures ReplaceAll(ReplaceAll(ReplaceAll([c], '|', "||"), '%', "|%"), '_', "|_") == EscapeChar(c)
  {
    assert [c][1..] == "";
    assert ReplaceAll("", '|', "||") == "";
    if c == '|' {
      assert ReplaceAll([c], '|', "||") == "||";
      TwoCharacters('|', '|', '%', "|%");
      TwoCharacters('|', '|', '_', "|_");
    } else if c == '%' {
      assert ReplaceAll([c], '|', "||") == [c];
      assert ReplaceAll([c], '%', "|%") == "|%";
      TwoCharacters('|', '%', '_', "|_");
    } else {
      assert ReplaceAll([c], '|', "||") == [c];
      assert ReplaceAll([c], '%', "|%") == [c];
    }
  }

  lemma TwoCharacters(a: char, b: char, c: char, with: string)
    requires a != c && b != c
    ensures ReplaceAll([a, b], c, with) == [a, b]
  {
    assert [a, b][1..] == [b] && [b][1..] == "";
    assert ReplaceAll([b], c, with) == [b];
  }

  predicate SameText(v: string, s: string, same: Same) {
    |v| == |s| && forall i :: 0 <= i < |v| ==> same(v[i], s[i])
  }

  /** v stands in s at position i. */
  predicate OccursAt(s: string, v: string, i: int, same: Same) {
    0 <= i <= |s| - |v| && SameText(v, s[i..i + |v|], same)
  }

  ghost predicate Contains(s: string, v: string, same: Same) {
    exists i :: OccursAt(s, v, i, same)
  }

  lemma EscapedPiece(c: char, rest: string, s: string, same: Same)
    ensures LikeMatch(EscapeChar(c) + rest, s, '|', same) <==>
            s != "" && same(c, s[0]) && LikeMatch(rest, s[1..], '|', same)
  {
    var p := EscapeChar(c) + rest;
    if |EscapeChar(c)| == 2 {
      assert p[2..] == rest;
    } else {
      assert p[1..] == rest;
    }
  }

  /** An escaped term matches itself literally, whatever pattern follows it. */
  lemma {:induction false} LiteralMatch(v: string, rest: string, s: string, same: Same)
    ensures LikeMatch(OnePass(v) + rest, s, '|', same) <==>
            |v| <= |s| && SameText(v, s[..|v|], same) && LikeMatch(rest, s[|v|..], '|', same)
  {
    hide LikeMatch, EscapeChar, SameText;
    if v == "" {
      assert OnePass(v) + rest == rest;
      assert s[|v|..] == s;
      SameTextEmpty(s[..|v|], same);
    } else {
      assert OnePass(v) + rest == EscapeChar(v[0]) + (OnePass(v[1..]) + rest);
      EscapedPiece(v[0], OnePass(v[1..]) + rest, s, same);
      if s != "" {
        LiteralMatch(v[1..], rest, s[1..], same);
        if |v| <= |s| {
          assert s[1..][|v| - 1..] == s[|v|..];
          assert s[1..][..|v| - 1] == s[..|v|][1..];
          SameTextStep(v, s[..|v|], same);
        }
      }
    }
  }

  lemma SameTextEmpty(t: string, same: Same)
    requires t == ""
    ensures SameText("", t, same)
  {
  }

  lemma SameTextStep(v: string, t: string, same: Same)
    requires |v| == |t| > 0
    ensures SameText(v, t, same) <==> same(v[0], t[0]) && SameText(v[1..], t[1..], same)
  {
    if same(v[0], t[0]) && SameText(v[1..], t[1..], same) {
      forall i | 0 <= i < |v|
        ensures same(v[i], t[i])
      {
        if i > 0 {
          assert v[i] == v[1..][i - 1] && t[i] == t[1..][i - 1];
        }
      }
    }
  }

  /** A leading % lets the rest match at any position. */
  lemma {:induction false} PercentMatch(q: string, s: string, same: Same)
    ensures LikeMatch("%" + q, s, '|', same) <==>
            exists i :: 0 <= i <= |s| && LikeMatch(q, s[i..], '|', same)
  {
    var p := "%" + q;
    assert p[1..] == q && s[0..] == s;
    if s != "" {
      PercentMatch(q, s[1..], same);
      if LikeMatch(p, s, '|', same) && !LikeMatch(q, s, '|', same) {
        var i :| 0 <= i <= |s| - 1 && LikeMatch(q, s[1..][i..], '|', same);
        assert s[1..][i..] == s[i + 1..];
      }
      if i :| 0 <= i <= |s| && LikeMatch(q, s[i..], '|', same) {
        if i > 0 {
          assert s[i..] == s[1..][i - 1..];
        }
      }
    }
  }

  lemma {:induction false} PercentAlone(s: string, same: Same)
    ensures LikeMatch("%", s, '|', same)
  {
    if s != "" {
      PercentAlone(s[1..], same);
    } else {
      assert LikeMatch("%"[1..], s, '|', same);
    }
  }

  /** A document search finds exactly the texts that contain the search term, special characters and all. */
  lemma SearchIsContainment(v: string, s: string, same: Same)
    ensures LikeMatch("%" + EscapeLike(v) + "%", s, '|', same) <==> Contains(s, v, same)
  {
    hide LikeMatch, SameText;
    SequentialIsOnePass(v);
    var q := OnePass(v) + "%";
    assert "%" + EscapeLike(v) + "%" == "%" + q;
    PercentMatch(q, s, same);
    forall i | 0 <= i <= |s|
      ensures LikeMatch(q, s[i..], '|', same) <==> OccursAt(s, v, i, same)
    {
      LiteralMatch(v, "%", s[i..], same);
      if |v| <= |s[i..]| {
        PercentAlone(s[i..][|v|..], same);
        assert s[i..][..|v|] == s[i..i + |v|];
      }
    }
  }
}
