/** Free text becomes an FTS5 query of quoted strings. */
module Fts {
  import opened Text

  /** unicode.IsSpace */
  predicate IsSpace(c: char) {
    || '\t' <= c <= '\r' || c == ' ' || c == '\U{0085}' || c == '\U{00A0}' || c == '\U{1680}'
    || '\U{2000}' <= c <= '\U{200A}' || c == '\U{2028}' || c == '\U{2029}' || c == '\U{202F}'
    || c == '\U{205F}' || c == '\U{3000}'
  }

  /** The code points that separate fields. */
  lemma SpaceMeans(c: char)
    ensures IsSpace(c) <==>
      var n := c as int;
      || 9 <= n <= 13 || n == 32 || n == 133 || n == 160 || n == 5760 || 8192 <= n <= 8202
      || n == 8232 || n == 8233 || n == 8239 || n == 8287 || n == 12288
  {
  }

  /** The length of the leading run of non-space characters. */
  function Word(s: string): (n: nat)
    ensures n <= |s| && (n < |s| ==> IsSpace(s[n]))
    ensures forall i :: 0 <= i < n ==> !IsSpace(s[i])
  {
    if s == "" || IsSpace(s[0]) then 0
    else
      var n := Word(s[1..]);
      assert forall i :: 1 <= i < n + 1 ==> s[i] == s[1..][i - 1];
      n + 1
  }

  /** strings.Fields: the maximal runs of non-space characters. */
  function Fields(s: string): seq<string>
    decreases |s|
  {
    if s == "" then []
    else if IsSpace(s[0]) then Fields(s[1..])
    else [s[..Word(s)]] + Fields(s[Word(s)..])
  }

  predicate Solid(s: string) {
    forall i :: 0 <= i < |s| ==> !IsSpace(s[i])
  }

  /** A run without spaces that ends the text or meets a space is one field. */
  lemma SolidRunIsOneField(run: string, rest: string)
    requires run != "" && Solid(run) && (rest == "" || IsSpace(rest[0]))
    ensures Fields(run + rest) == [run] + Fields(rest)
  {
    var s := run + rest;
    assert forall i :: 0 <= i < |run| ==> s[i] == run[i];
    if rest != "" {
      assert s[|run|] == rest[0];
    }
    assert Word(s) == |run|;
    assert s[..|run|] == run && s[|run|..] == rest;
  }

  /** Every space splits.  With the lemma above this determines the fields of every
      text. */
  lemma {:induction false} FieldsSplitAtSpace(a: string, space: char, b: string)
    requires IsSpace(space)
    ensures Fields(a + [space] + b) == Fields(a) + Fields(b)
    decreases |a|
  {
    if a == "" {
      SpaceIsSkipped(space, b);
      assert a + [space] + b == [space] + b;
    } else if IsSpace(a[0]) {
      FieldsSplitAtSpace(a[1..], space, b);
      SpaceIsSkipped(a[0], a[1..]);
      SpaceIsSkipped(a[0], a[1..] + [space] + b);
      assert a == [a[0]] + a[1..];
      Regrouped([a[0]], a[1..], [space], b);
    } else {
      var run, rest := a[..Word(a)], a[Word(a)..];
      FieldsSplitAtSpace(rest, space, b);
      assert a == run + rest;
      SplitBehindRun(run, rest, space, b);
    }
  }

  lemma SplitBehindRun(run: string, rest: string, space: char, b: string)
    requires run != "" && Solid(run) && (rest == "" || IsSpace(rest[0])) && IsSpace(space)
    requires Fields(rest + [space] + b) == Fields(rest) + Fields(b)
    ensures Fields(run + rest + [space] + b) == Fields(run + rest) + Fields(b)
  {
    SolidRunIsOneField(run, rest);
    MeetsSpace(rest, space, b);
    SolidRunIsOneField(run, rest + [space] + b);
    Regrouped(run, rest, [space], b);
    Regrouped([run], Fields(rest), Fields(b), []);
  }

  lemma MeetsSpace(rest: string, space: char, b: string)
    requires (rest == "" || IsSpace(rest[0])) && IsSpace(space)
    ensures IsSpace((rest + [space] + b)[0])
  {
  }

  lemma Regrouped<T>(a: seq<T>, b: seq<T>, c: seq<T>, d: seq<T>)
    ensures a + (b + c + d) == a + b + c + d
    ensures a + (b + c) == a + b + c
  {
  }

  lemma SpaceIsSkipped(space: char, s: string)
    requires IsSpace(space)
    ensures Fields([space] + s) == Fields(s)
  {
    assert ([space] + s)[1..] == s;
  }

  const QUOTE := '"'

  /** Every quote doubled. */
  function Doubled(s: string): string {
    if s == "" then "" else (if s[0] == QUOTE then [QUOTE, QUOTE] else [s[0]]) + Doubled(s[1..])
  }

  function Quoted(s: string): string {
    [QUOTE] + Doubled(s) + [QUOTE]
  }

  function Joined(terms: seq<string>): string {
    if terms == [] then ""
    else if |terms| == 1 then Quoted(terms[0])
    else Quoted(terms[0]) + " " + Joined(terms[1..])
  }

  function FtsMatch(text: string): string {
    Joined(Fields(text))
  }

  // ----- the FTS5 string grammar

  /** What follows an opening quote: the content up to the first quote that is not
      doubled, and the rest of the query. */
  function ReadString(s: string): Option<(string, string)> {
    if s == "" then None
    else if s[0] != QUOTE then
      match ReadString(s[1..])
      case None => None
      case Some((content, rest)) => Some(([s[0]] + content, rest))
    else if |s| >= 2 && s[1] == QUOTE then
      match ReadString(s[2..])
      case None => None
      case Some((content, rest)) => Some(([QUOTE] + content, rest))
    else Some(("", s[1..]))
  }

  lemma {:induction false} ReadStringShrinks(s: string)
    ensures ReadString(s).Some? ==> |ReadString(s).value.1| < |s|
  {
    if s != "" {
      if s[0] != QUOTE {
        ReadStringShrinks(s[1..]);
      } else if |s| >= 2 && s[1] == QUOTE {
        ReadStringShrinks(s[2..]);
      }
    }
  }

  /** A query of strings separated by spaces; anything else is not one. */
  function ReadTerms(s: string): Option<seq<string>>
    decreases |s|
  {
    if s == "" then Some([])
    else if s[0] == ' ' then ReadTerms(s[1..])
    else if s[0] != QUOTE then None
    else
      ReadStringShrinks(s[1..]);
      match ReadString(s[1..])
      case None => None
      case Some((content, rest)) =>
        match ReadTerms(rest)
        case None => None
        case Some(terms) => Some([content] + terms)
  }

  lemma {:induction false} ReadStringUndoesDoubling(s: string, rest: string)
    requires rest == "" || rest[0] != QUOTE
    ensures ReadString(Doubled(s) + [QUOTE] + rest) == Some((s, rest))
  {
    var t := Doubled(s) + [QUOTE] + rest;
    if s == "" {
      assert t[0] == QUOTE && t[1..] == rest;
    } else {
      ReadStringUndoesDoubling(s[1..], rest);
      var tail := Doubled(s[1..]) + [QUOTE] + rest;
      assert s == [s[0]] + s[1..];
      if s[0] == QUOTE {
        assert t[0] == QUOTE && t[1] == QUOTE && t[2..] == tail;
      } else {
        assert t[0] == s[0] && t[1..] == tail;
      }
    }
  }

  lemma ReadOneTerm(term: string, rest: string)
    requires rest == "" || rest[0] == ' '
    ensures ReadTerms(Quoted(term) + rest) ==
      if ReadTerms(rest).Some? then Some([term] + ReadTerms(rest).value) else None
  {
    var q := Quoted(term) + rest;
    assert q[0] == QUOTE && q[1..] == Doubled(term) + [QUOTE] + rest;
    ReadStringUndoesDoubling(term, rest);
  }

  /** What FTS5 makes of a query: its reader stops at the first U+0000. */
  function ReadQuery(s: string): Option<seq<string>> {
    ReadTerms(CString(s))
  }

  // ----- terms with U+0000

  lemma {:induction false} DoubledConcat(a: string, b: string)
    ensures Doubled(a + b) == Doubled(a) + Doubled(b)
    ensures NulFree(a) ==> NulFree(Doubled(a))
  {
    if a == "" {
      assert a + b == b;
    } else {
      assert (a + b)[1..] == a[1..] + b;
      DoubledConcat(a[1..], b);
      assert NulFree(a) ==> NulFree(a[1..]) && a[0] != NUL;
    }
  }

  /** A string cut off before its closing quote is not a string. */
  lemma {:induction false} Unterminated(u: string)
    ensures ReadString(Doubled(u)) == None
  {
    if u != "" {
      var t, tail := Doubled(u), Doubled(u[1..]);
      Unterminated(u[1..]);
      if u[0] == QUOTE {
        assert t[0] == QUOTE && t[1] == QUOTE && t[2..] == tail;
      } else {
        assert t[0] == u[0] && t[1..] == tail;
      }
    }
  }

  lemma QuotedNulFree(term: string)
    requires NulFree(term)
    ensures NulFree(Quoted(term))
  {
    DoubledConcat(term, "");
  }

  /** A quoted term with U+0000 is cut off inside its string. */
  lemma CutInsideTerm(term: string, rest: string)
    requires !NulFree(term)
    ensures CString(Quoted(term) + rest) == [QUOTE] + Doubled(CString(term))
  {
    var u := CString(term);
    var w := term[|u|..];
    assert term == u + w;
    DoubledConcat(u, w);
    DoubledKeepsNul(w);
    CutBehindQuote(Doubled(u), Doubled(w), rest);
  }

  lemma DoubledKeepsNul(w: string)
    requires w != "" && w[0] == NUL
    ensures Doubled(w) != "" && Doubled(w)[0] == NUL
  {
  }

  lemma CutBehindQuote(head: string, tail: string, rest: string)
    requires NulFree(head) && tail != "" && tail[0] == NUL
    ensures CString([QUOTE] + (head + tail) + [QUOTE] + rest) == [QUOTE] + head
  {
    CStringIsFirst([QUOTE] + (head + tail) + [QUOTE] + rest, [QUOTE] + head);
  }

  predicate AllNulFree(terms: seq<string>) {
    forall i :: 0 <= i < |terms| ==> NulFree(terms[i])
  }

  /** The joined terms are read back exactly when none of them holds U+0000, and
      are not a query otherwise. */
  lemma {:induction false} ReadQueryOfJoined(terms: seq<string>)
    ensures ReadQuery(Joined(terms)) == if AllNulFree(terms) then Some(terms) else None
  {
    if terms != [] {
      var rest := if |terms| == 1 then "" else " " + Joined(terms[1..]);
      assert Joined(terms) == Quoted(terms[0]) + rest;
      assert terms == [terms[0]] + terms[1..];
      ReadQueryOfJoined(terms[1..]);
      AllNulFreeCons(terms[0], terms[1..]);
      if NulFree(terms[0]) {
        WholeTerm(terms[0], terms[1..], rest);
      } else {
        CutTerm(terms[0], rest);
      }
    }
  }

  lemma WholeTerm(term: string, terms: seq<string>, rest: string)
    requires NulFree(term) && rest == if terms == [] then "" else " " + Joined(terms)
    ensures ReadQuery(Quoted(term) + rest) ==
      if ReadQuery(Joined(terms)).Some? then Some([term] + ReadQuery(Joined(terms)).value) else None
  {
    QuotedNulFree(term);
    CStringOfPrefix(Quoted(term), rest);
    RestOfQuery(terms, rest);
    ReadOneTerm(term, CString(rest));
  }

  lemma CutTerm(term: string, rest: string)
    requires !NulFree(term)
    ensures ReadQuery(Quoted(term) + rest) == None
  {
    CutInsideTerm(term, rest);
    Unterminated(CString(term));
    NotATerm(Doubled(CString(term)));
  }

  lemma NotATerm(body: string)
    requires ReadString(body) == None
    ensures ReadTerms([QUOTE] + body) == None
  {
    assert ([QUOTE] + body)[1..] == body;
  }

  /** A separating space changes nothing. */
  lemma RestOfQuery(terms: seq<string>, rest: string)
    requires rest == if terms == [] then "" else " " + Joined(terms)
    ensures CString(rest) == "" || CString(rest)[0] == ' '
    ensures ReadTerms(CString(rest)) == ReadQuery(Joined(terms))
  {
    if terms != [] {
      CStringOfPrefix(" ", Joined(terms));
      assert CString(rest)[1..] == CString(Joined(terms));
    }
  }

  /** Splitting into fields loses no U+0000: it is no space. */
  lemma {:induction false} FieldsKeepNul(s: string)
    ensures AllNulFree(Fields(s)) <==> NulFree(s)
    decreases |s|
  {
    if s != "" {
      if IsSpace(s[0]) {
        FieldsKeepNul(s[1..]);
        assert s == [s[0]] + s[1..];
        assert s[0] != NUL;
      } else {
        var run, rest := s[..Word(s)], s[Word(s)..];
        FieldsKeepNul(rest);
        assert s == run + rest;
        NulFreeConcat(run, rest);
        AllNulFreeCons(run, Fields(rest));
      }
    }
  }

  lemma NulFreeConcat(a: string, b: string)
    ensures NulFree(a + b) <==> NulFree(a) && NulFree(b)
  {
    assert forall i :: 0 <= i < |a| ==> (a + b)[i] == a[i];
    assert forall i :: 0 <= i < |b| ==> (a + b)[|a| + i] == b[i];
  }

  lemma AllNulFreeCons(term: string, terms: seq<string>)
    ensures AllNulFree([term] + terms) <==> NulFree(term) && AllNulFree(terms)
  {
    assert ([term] + terms)[0] == term;
    assert forall i :: 0 <= i < |terms| ==> ([term] + terms)[i + 1] == terms[i];
  }

  /** Whether the search engine takes the query built from a text. */
  predicate Runs(text: string) {
    FtsMatch(text) == "" || ReadQuery(FtsMatch(text)).Some?
  }

  /** For every text: FTS5 reads back exactly its whitespace-separated fields, so
      that no punctuation acts as an operator, exactly when it holds no U+0000; any
      other text makes a query that is refused.  The query is empty exactly when
      there are no fields. */
  lemma FtsReadsTheFields(text: string)
    ensures ReadQuery(FtsMatch(text)) == if NulFree(text) then Some(Fields(text)) else None
    ensures FtsMatch(text) == "" <==> Fields(text) == []
    ensures Runs(text) <==> NulFree(text)
  {
    ReadQueryOfJoined(Fields(text));
    FieldsKeepNul(text);
  }
}
