/** SQLite's LIKE with ESCAPE '\', and the literal-substring patterns built for
    it. */
module Like {
  import opened Text

  const ESCAPE := '\\'

  /** LIKE ignores case in the ASCII letters only, and its reader takes the two
      noncharacters of the basic plane for U+FFFD. */
  function FoldChar(c: char): char {
    if 'A' <= c <= 'Z' then (c as int + 32) as char
    else if c == '\U{FFFE}' || c == '\U{FFFF}' then '\U{FFFD}'
    else c
  }

  /** Alike are equal characters, the two cases of an ASCII letter, and U+FFFD with
      the two noncharacters. */
  predicate Alike(c: char, d: char) {
    || c == d
    || ('A' <= c <= 'Z' && d as int == c as int + 32)
    || ('A' <= d <= 'Z' && c as int == d as int + 32)
    || (0xFFFD <= c as int <= 0xFFFF && 0xFFFD <= d as int <= 0xFFFF)
  }

  lemma FoldingIsAlike(c: char, d: char)
    ensures FoldChar(c) == FoldChar(d) <==> Alike(c, d)
  {
  }

  predicate SameFolded(a: string, b: string) {
    |a| == |b| && forall i :: 0 <= i < |a| ==> FoldChar(a[i]) == FoldChar(b[i])
  }

  /** '%' matches any run, '_' any one character, an escaped character itself. */
  predicate Matches(pattern: string, s: string)
    decreases |pattern| + |s|
  {
    if pattern == "" then s == ""
    else if pattern[0] == '%' then
      Matches(pattern[1..], s) || (s != "" && Matches(pattern, s[1..]))
    else if pattern[0] == '_' then
      s != "" && Matches(pattern[1..], s[1..])
    else if pattern[0] == ESCAPE then
      |pattern| >= 2 && s != "" && FoldChar(pattern[1]) == FoldChar(s[0]) && Matches(pattern[2..], s[1..])
    else
      s != "" && FoldChar(pattern[0]) == FoldChar(s[0]) && Matches(pattern[1..], s[1..])
  }

  predicate Special(c: char) {
    c == '%' || c == '_' || c == ESCAPE
  }

  function EscapeChar(c: char): string {
    if Special(c) then [ESCAPE, c] else [c]
  }

  function EscapeLike(s: string): string {
    if s == "" then ""
    else EscapeChar(s[0]) + EscapeLike(s[1..])
  }

  function ContainsPattern(v: string): string {
    "%" + EscapeLike(v) + "%"
  }

  predicate OccursAt(v: string, s: string, i: nat) {
    i + |v| <= |s| && SameFolded(v, s[i..i + |v|])
  }

  /** v occurs in s, character for character up to ASCII case. */
  predicate Occurs(v: string, s: string) {
    exists i :: 0 <= i <= |s| && OccursAt(v, s, i)
  }

  lemma SameFoldedCons(a: string, b: string)
    requires |a| == |b| > 0
    ensures SameFolded(a, b) <==> FoldChar(a[0]) == FoldChar(b[0]) && SameFolded(a[1..], b[1..])
  {
    assert a == [a[0]] + a[1..] && b == [b[0]] + b[1..];
  }

  /** One escaped character matches one character. */
  lemma EscapedCharMatches(c: char, tail: string, s: string)
    ensures Matches(EscapeChar(c) + tail, s) <==> s != "" && FoldChar(c) == FoldChar(s[0]) && Matches(tail, s[1..])
  {
    var p := EscapeChar(c) + tail;
    if Special(c) {
      assert p[0] == ESCAPE && p[1] == c && p[2..] == tail;
    } else {
      assert p[0] == c && p[1..] == tail;
    }
  }

  lemma UnderscoreMatchesOne(s: string)
    ensures Matches("_", s) <==> |s| == 1
  {
    assert "_"[1..] == "";
  }

  /** Occurrence in plain terms: every character of v is alike to the one of s at its
      place. */
  lemma OccursMeans(v: string, s: string)
    ensures Occurs(v, s) <==>
      exists i :: 0 <= i <= |s| - |v| && PlacedAt(v, s, i)
  {
    forall i | 0 <= i <= |s| - |v|
      ensures OccursAt(v, s, i) <==> PlacedAt(v, s, i)
    {
      var part := s[i..i + |v|];
      forall j | 0 <= j < |v|
        ensures FoldChar(v[j]) == FoldChar(part[j]) <==> Alike(v[j], s[i + j])
      {
        assert part[j] == s[i + j];
        FoldingIsAlike(v[j], part[j]);
      }
      if SameFolded(v, part) {
        assert forall j :: 0 <= j < |v| ==> FoldChar(v[j]) == FoldChar(part[j]);
      }
    }
  }

  predicate PlacedAt(v: string, s: string, i: int) {
    0 <= i <= |s| - |v| && forall j :: 0 <= j < |v| ==> Alike(v[j], s[i + j])
  }

  /** Escaped text matches itself and hands the rest on. */
  lemma {:induction false} EscapedMatchesLiterally(v: string, rest: string, s: string)
    ensures Matches(EscapeLike(v) + rest, s) <==> |v| <= |s| && SameFolded(v, s[..|v|]) && Matches(rest, s[|v|..])
  {
    if v == "" {
      assert EscapeLike(v) + rest == rest && s[|v|..] == s;
    } else {
      var tail := EscapeLike(v[1..]) + rest;
      assert EscapeLike(v) + rest == EscapeChar(v[0]) + tail;
      EscapedCharMatches(v[0], tail, s);
      if s != "" {
        EscapedMatchesLiterally(v[1..], rest, s[1..]);
        if |v| <= |s| {
          assert s[1..][|v| - 1..] == s[|v|..];
          assert s[1..][..|v| - 1] == s[..|v|][1..];
          SameFoldedCons(v, s[..|v|]);
        }
      }
    }
  }

  lemma {:induction false} PercentMatchesAnything(s: string)
    ensures Matches("%", s)
  {
    assert "%"[1..] == "";
    if s != "" {
      PercentMatchesAnything(s[1..]);
    }
  }

  /** A leading '%' tries every starting point. */
  lemma {:induction false} PercentTriesEverySuffix(rest: string, s: string)
    ensures Matches("%" + rest, s) <==> exists i :: 0 <= i <= |s| && Matches(rest, s[i..])
  {
    var p := "%" + rest;
    assert p[1..] == rest;
    assert s[0..] == s;
    if s != "" {
      PercentTriesEverySuffix(rest, s[1..]);
      if i :| 0 <= i <= |s| - 1 && Matches(rest, s[1..][i..]) {
        assert s[1..][i..] == s[i + 1..];
      }
      if i :| 0 <= i <= |s| && Matches(rest, s[i..]) {
        if i > 0 {
          assert s[i..] == s[1..][i - 1..];
        }
      }
    }
  }

  /** The built pattern matches exactly the texts in which v occurs literally, up to
      folding. */
  lemma ContainsPatternIsLiteral(v: string, s: string)
    ensures Matches(ContainsPattern(v), s) <==> Occurs(v, s)
  {
    var rest := EscapeLike(v) + "%";
    assert ContainsPattern(v) == "%" + rest;
    PercentTriesEverySuffix(rest, s);
    forall i | 0 <= i <= |s|
      ensures Matches(rest, s[i..]) <==> OccursAt(v, s, i)
    {
      EscapedMatchesLiterally(v, "%", s[i..]);
      if |v| <= |s[i..]| {
        PercentMatchesAnything(s[i..][|v|..]);
        assert s[i..][..|v|] == s[i..i + |v|];
      }
    }
  }

  // ----- text with U+0000

  /** LIKE as it is evaluated: both arguments end at their first U+0000. */
  predicate IsLike(pattern: string, s: string) {
    Matches(CString(pattern), CString(s))
  }

  predicate Ends(v: string, s: string) {
    |v| <= |s| && SameFolded(v, s[|s| - |v|..])
  }

  /** What the pattern built from v selects. */
  predicate Hit(v: string, s: string) {
    if NulFree(v) then Occurs(v, CString(s)) else Ends(CString(v), CString(s))
  }

  /** Without its closing '%' the pattern asks for the end of the text. */
  lemma OpenPatternIsSuffix(u: string, s: string)
    ensures Matches("%" + EscapeLike(u), s) <==> Ends(u, s)
  {
    PercentTriesEverySuffix(EscapeLike(u), s);
    forall i | 0 <= i <= |s|
      ensures Matches(EscapeLike(u), s[i..]) <==> |s| - i == |u| && SameFolded(u, s[i..])
    {
      EscapedMatchesLiterally(u, "", s[i..]);
      assert EscapeLike(u) + "" == EscapeLike(u);
      if |u| <= |s| - i {
        assert Matches("", s[i..][|u|..]) <==> |s| - i == |u|;
        assert |s| - i == |u| ==> s[i..][..|u|] == s[i..];
      }
    }
    if Ends(u, s) {
      assert Matches(EscapeLike(u), s[|s| - |u|..]);
    }
  }

  lemma {:induction false} EscapeConcat(a: string, b: string)
    ensures EscapeLike(a + b) == EscapeLike(a) + EscapeLike(b)
    ensures NulFree(a) ==> NulFree(EscapeLike(a))
  {
    if a == "" {
      assert a + b == b;
    } else {
      assert (a + b)[1..] == a[1..] + b;
      EscapeConcat(a[1..], b);
      assert NulFree(a) ==> NulFree(a[1..]) && a[0] != NUL;
    }
  }

  lemma PatternOfNulFree(v: string)
    requires NulFree(v)
    ensures CString(ContainsPattern(v)) == ContainsPattern(v)
  {
    EscapeConcat(v, "");
  }

  /** The pattern of a value with U+0000 loses its closing '%'. */
  lemma PatternCutOpen(u: string, rest: string)
    requires NulFree(u) && rest != "" && rest[0] == NUL
    ensures CString(ContainsPattern(u + rest)) == "%" + EscapeLike(u)
  {
    EscapeConcat(u, rest);
    EscapeKeepsNul(rest);
    CutBetween(EscapeLike(u), EscapeLike(rest));
  }

  lemma EscapeKeepsNul(rest: string)
    requires rest != "" && rest[0] == NUL
    ensures EscapeLike(rest) != "" && EscapeLike(rest)[0] == NUL
  {
  }

  lemma CutBetween(head: string, tail: string)
    requires NulFree(head) && tail != "" && tail[0] == NUL
    ensures CString("%" + (head + tail) + "%") == "%" + head
  {
    CStringIsFirst("%" + (head + tail) + "%", "%" + head);
  }

  /** For all texts: a filter value without U+0000 selects what it occurs in before
      any U+0000; another one selects whatever ends with its part before it. */
  lemma ContainsPatternExactly(v: string, s: string)
    ensures IsLike(ContainsPattern(v), s) <==> Hit(v, s)
  {
    if NulFree(v) {
      PatternOfNulFree(v);
      ContainsPatternIsLiteral(v, CString(s));
    } else {
      var u := CString(v);
      assert v == u + v[|u|..];
      PatternCutOpen(u, v[|u|..]);
      OpenPatternIsSuffix(u, CString(s));
    }
  }

  lemma EndsWithItself(u: string)
    ensures Ends(u, u)
  {
    assert u[|u| - |u|..] == u;
  }

  /** What occurs in a text without U+0000 has none itself. */
  lemma OccursNulFree(v: string, s: string)
    requires NulFree(s) && Occurs(v, s)
    ensures NulFree(v)
  {
    var i :| 0 <= i <= |s| && OccursAt(v, s, i);
    forall j | 0 <= j < |v|
      ensures v[j] != NUL
    {
      assert FoldChar(v[j]) == FoldChar(s[i..i + |v|][j]) && s[i..i + |v|][j] == s[i + j];
    }
  }

  /** The filter value is taken literally on all texts without U+0000 exactly when
      it has none. */
  lemma LiteralExactly(v: string)
    ensures (forall s :: NulFree(s) ==> (IsLike(ContainsPattern(v), s) <==> Occurs(v, s))) <==> NulFree(v)
  {
    forall s
      ensures IsLike(ContainsPattern(v), s) <==> Hit(v, s)
    {
      ContainsPatternExactly(v, s);
    }
    if !NulFree(v) {
      var u := CString(v);
      EndsWithItself(u);
      assert IsLike(ContainsPattern(v), u);
      if Occurs(v, u) {
        OccursNulFree(v, u);
      }
    }
  }

  /** What occurs in the end of a text occurs in the text. */
  lemma OccursInEnding(v: string, u: string, s: string)
    requires Occurs(v, u) && Ends(u, s)
    ensures Occurs(v, s)
  {
    var i :| 0 <= i <= |u| && OccursAt(v, u, i);
    var k := |s| - |u| + i;
    forall j | 0 <= j < |v|
      ensures FoldChar(v[j]) == FoldChar(s[k..k + |v|][j])
    {
      assert FoldChar(v[j]) == FoldChar(u[i..i + |v|][j]) && u[i..i + |v|][j] == u[i + j];
      assert FoldChar(u[i + j]) == FoldChar(s[|s| - |u|..][i + j]) && s[|s| - |u|..][i + j] == s[k + j];
    }
    assert OccursAt(v, s, k);
  }
}
