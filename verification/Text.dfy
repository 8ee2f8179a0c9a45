/** Shared value types, and the byte-wise order that SQLite's BINARY collation
    gives to text columns. */
module Text {

  datatype Option<+T> = None | Some(value: T)

  datatype Result<+T> = Ok(value: T) | Err(error: string)

  /** a sorts strictly before b when compared character by character. */
  predicate Less(a: string, b: string) {
    if b == "" then false
    else if a == "" then true
    else a[0] < b[0] || (a[0] == b[0] && Less(a[1..], b[1..]))
  }

  lemma {:induction false} LessIrreflexive(a: string)
    ensures !Less(a, a)
  {
    if a != "" {
      LessIrreflexive(a[1..]);
    }
  }

  lemma {:induction false} LessTotal(a: string, b: string)
    ensures Less(a, b) || Less(b, a) || a == b
  {
    if a != "" && b != "" && a[0] == b[0] {
      LessTotal(a[1..], b[1..]);
      assert a == [a[0]] + a[1..] && b == [b[0]] + b[1..];
    }
  }

  lemma {:induction false} LessTransitive(a: string, b: string, c: string)
    requires Less(a, b) && Less(b, c)
    ensures Less(a, c)
  {
    if a != "" && a[0] == b[0] && b[0] == c[0] {
      LessTransitive(a[1..], b[1..], c[1..]);
    }
  }

  lemma LessAsymmetric(a: string, b: string)
    requires Less(a, b)
    ensures !Less(b, a) && a != b
  {
    LessIrreflexive(a);
    if Less(b, a) {
      LessTransitive(a, b, a);
    }
  }

  /** Two texts that start with equally long heads are ordered by the heads, and
      by the tails only when the heads agree. */
  lemma {:induction false} LessByHead(a: string, b: string, x: string, y: string)
    requires |a| == |b|
    ensures Less(a + x, b + y) <==> Less(a, b) || (a == b && Less(x, y))
  {
    if a == "" {
      assert a + x == x && b + y == y;
    } else {
      assert (a + x)[1..] == a[1..] + x && (b + y)[1..] == b[1..] + y;
      assert a == [a[0]] + a[1..] && b == [b[0]] + b[1..];
      LessByHead(a[1..], b[1..], x, y);
    }
  }

  // ----- text as C reads it

  const NUL := '\0'

  predicate NulFree(s: string) {
    forall i :: 0 <= i < |s| ==> s[i] != NUL
  }

  /** What is left of a text for code that stops at the first U+0000. */
  function CString(s: string): (r: string)
    ensures NulFree(r) && r <= s
    ensures NulFree(s) ==> r == s
    ensures !NulFree(s) ==> |r| < |s| && s[|r|] == NUL
  {
    if s == "" || s[0] == NUL then ""
    else
      var r := [s[0]] + CString(s[1..]);
      assert s == [s[0]] + s[1..];
      r
  }

  lemma CStringOfPrefix(a: string, b: string)
    requires NulFree(a)
    ensures CString(a + b) == a + CString(b)
  {
    CStringIsFirst(a + b, a + CString(b));
  }

  /** The text up to the first U+0000 is unique. */
  lemma CStringIsFirst(s: string, r: string)
    requires NulFree(r) && r <= s && (r == s || s[|r|] == NUL)
    ensures CString(s) == r
  {
    assert |CString(s)| == |r|;
  }

  /** The order of a dictionary: the first difference decides, and a beginning comes
      before what it begins. */
  lemma {:induction false} LessMeans(a: string, b: string)
    ensures Less(a, b) <==>
      exists k :: 0 <= k <= |a| && k < |b| && a[..k] == b[..k] && (k == |a| || a[k] < b[k])
  {
    if b == "" {
    } else if a == "" {
      assert a[..0] == b[..0];
    } else {
      LessMeans(a[1..], b[1..]);
      if Less(a, b) {
        if a[0] < b[0] {
          assert a[..0] == b[..0];
        } else {
          var k :| 0 <= k <= |a[1..]| && k < |b[1..]| && a[1..][..k] == b[1..][..k] && (k == |a[1..]| || a[1..][k] < b[1..][k]);
          assert a[..k + 1] == [a[0]] + a[1..][..k] && b[..k + 1] == [b[0]] + b[1..][..k];
        }
      }
      if k :| 0 <= k <= |a| && k < |b| && a[..k] == b[..k] && (k == |a| || a[k] < b[k]) {
        if k > 0 {
          assert a[0] == a[..k][0] == b[..k][0] == b[0];
          assert a[1..][..k - 1] == a[..k][1..] && b[1..][..k - 1] == b[..k][1..];
        }
      }
    }
  }

  predicate Distinct(s: seq<string>) {
    forall i, j :: 0 <= i < j < |s| ==> s[i] != s[j]
  }

  /** The members of s in the order of their first occurrence, each once: the
      result of the "seen map" loops in the engine, the hydrator and the feed
      producer. */
  function Dedupe(s: seq<string>): seq<string> {
    if s == [] then []
    else
      var front, x := s[..|s| - 1], s[|s| - 1];
      if x in front then Dedupe(front) else Dedupe(front) + [x]
  }

  lemma {:induction false} DedupeMembers(s: seq<string>)
    ensures forall x :: x in Dedupe(s) <==> x in s
    ensures Distinct(Dedupe(s))
  {
    if s != [] {
      var front := s[..|s| - 1];
      DedupeMembers(front);
      assert s == front + [s[|s| - 1]];
    }
  }

  lemma DedupeSnoc(s: seq<string>, x: string)
    ensures Dedupe(s + [x]) == if x in s then Dedupe(s) else Dedupe(s) + [x]
  {
    assert (s + [x])[..|s|] == s;
  }

  /** First occurrences keep their places: whatever is appended, the list so far
      stays in front. */
  lemma {:induction false} DedupePrefix(s: seq<string>, t: seq<string>)
    ensures Dedupe(s) <= Dedupe(s + t)
  {
    if t == [] {
      assert s + t == s;
    } else {
      var front, x := t[..|t| - 1], t[|t| - 1];
      assert s + t == (s + front) + [x];
      DedupePrefix(s, front);
      DedupeSnoc(s + front, x);
    }
  }

  /** A tail that repeats only earlier members adds nothing. */
  lemma {:induction false} DedupeAbsorbs(s: seq<string>, t: seq<string>)
    requires forall x :: x in t ==> x in s
    ensures Dedupe(s + t) == Dedupe(s)
  {
    if t == [] {
      assert s + t == s;
    } else {
      var front, x := t[..|t| - 1], t[|t| - 1];
      assert s + t == (s + front) + [x];
      assert x in t;
      DedupeAbsorbs(s, front);
      DedupeSnoc(s + front, x);
    }
  }

  lemma {:induction false} DedupeOfDistinct(s: seq<string>)
    requires Distinct(s)
    ensures Dedupe(s) == s
  {
    if s != [] {
      var front := s[..|s| - 1];
      DedupeOfDistinct(front);
      assert s == front + [s[|s| - 1]];
    }
  }
}
