/** Page tokens: "p:" and the page number in unpadded base64url (section 5 of
    RFC 4648). */
module Tokens {
  import opened Text
  import opened Decimal

  const TOKEN_PREFIX := "p:"

  predicate Bytes(s: string) {
    forall i :: 0 <= i < |s| ==> s[i] as int < 256
  }

  function Letter(n: nat): (c: char)
    requires n < 64
    ensures c != '\r' && c != '\n'
  {
    if n < 26 then ('A' as int + n) as char
    else if n < 52 then ('a' as int + n - 26) as char
    else if n < 62 then ('0' as int + n - 52) as char
    else if n == 62 then '-' else '_'
  }

  function Sextet(c: char): (n: Option<nat>)
    ensures n.Some? ==> n.value < 64
  {
    if 'A' <= c <= 'Z' then Some(c as int - 'A' as int)
    else if 'a' <= c <= 'z' then Some(c as int - 'a' as int + 26)
    else if '0' <= c <= '9' then Some(c as int - '0' as int + 52)
    else if c == '-' then Some(62)
    else if c == '_' then Some(63)
    else None
  }

  /** The alphabet of section 5 of RFC 4648. */
  lemma Alphabet(n: nat)
    requires n < 64
    ensures n < 26 ==> Letter(n) as int == 'A' as int + n
    ensures 26 <= n < 52 ==> Letter(n) as int == 'a' as int + n - 26
    ensures 52 <= n < 62 ==> Letter(n) as int == '0' as int + n - 52
    ensures n == 62 ==> Letter(n) == '-'
    ensures n == 63 ==> Letter(n) == '_'
  {
  }

  /** The first letter carries the six high bits of the first byte, and so on. */
  lemma BitsOfLetters(b0: nat, b1: nat, b2: nat)
    requires b0 < 256 && b1 < 256 && b2 < 256
    ensures
      var v := SplitGroup(b0, b1, b2);
      b0 * 65_536 + b1 * 256 + b2 == v[0] * 262_144 + v[1] * 4096 + v[2] * 64 + v[3]
  {
  }

  lemma SextetOfLetter(n: nat)
    requires n < 64
    ensures Sextet(Letter(n)) == Some(n)
  {
  }

  predicate Sextets(v: seq<nat>) {
    forall i :: 0 <= i < |v| ==> v[i] < 64
  }

  /** Three bytes become four sextets; a last group of one or two bytes becomes
      two or three. */
  function Split(s: string): (v: seq<nat>)
    requires Bytes(s)
    ensures Sextets(v)
  {
    if s == "" then []
    else if |s| == 1 then SplitGroup(s[0] as int, 0, 0)[..2]
    else if |s| == 2 then SplitGroup(s[0] as int, s[1] as int, 0)[..3]
    else SplitGroup(s[0] as int, s[1] as int, s[2] as int) + Split(s[3..])
  }

  function SplitGroup(b0: nat, b1: nat, b2: nat): (v: seq<nat>)
    requires b0 < 256 && b1 < 256 && b2 < 256
    ensures |v| == 4 && Sextets(v)
  {
    [b0 / 4, b0 % 4 * 16 + b1 / 16, b1 % 16 * 4 + b2 / 64, b2 % 64]
  }

  function JoinGroup(x: nat, y: nat, z: nat, w: nat): (s: string)
    requires x < 64 && y < 64 && z < 64 && w < 64
    ensures |s| == 3
  {
    [(x * 4 + y / 16) as char, (y % 16 * 16 + z / 4) as char, (z % 4 * 64 + w) as char]
  }

  /** The inverse of Split; a lone sextet is an error, trailing bits are not
      looked at. */
  function Join(v: seq<nat>): Option<string>
    requires Sextets(v)
  {
    if v == [] then Some("")
    else if |v| == 1 then None
    else if |v| == 2 then Some(JoinGroup(v[0], v[1], 0, 0)[..1])
    else if |v| == 3 then Some(JoinGroup(v[0], v[1], v[2], 0)[..2])
    else
      match Join(v[4..])
      case None => None
      case Some(rest) => Some(JoinGroup(v[0], v[1], v[2], v[3]) + rest)
  }

  function Letters(v: seq<nat>): (t: string)
    requires Sextets(v)
    ensures |t| == |v| && forall i :: 0 <= i < |v| ==> t[i] == Letter(v[i])
  {
    seq(|v|, i requires 0 <= i < |v| => Letter(v[i]))
  }

  function Encode(s: string): string
    requires Bytes(s)
  {
    Letters(Split(s))
  }

  /** The decoder skips line breaks. */
  function WithoutBreaks(t: string): string {
    if t == "" then "" else (if t[0] == '\r' || t[0] == '\n' then "" else [t[0]]) + WithoutBreaks(t[1..])
  }

  function Values(t: string): Option<seq<nat>> {
    if exists i :: 0 <= i < |t| && Sextet(t[i]).None? then None
    else Some(seq(|t|, i requires 0 <= i < |t| && Sextet(t[i]).Some? => Sextet(t[i]).value))
  }

  function Decode(t: string): Option<string> {
    match Values(WithoutBreaks(t))
    case None => None
    case Some(v) => Join(v)
  }

  lemma {:induction false} NothingToSkip(t: string)
    requires forall i :: 0 <= i < |t| ==> t[i] != '\r' && t[i] != '\n'
    ensures WithoutBreaks(t) == t
  {
    if t != "" {
      NothingToSkip(t[1..]);
    }
  }

  lemma ValuesOfLetters(v: seq<nat>)
    requires Sextets(v)
    ensures Values(Letters(v)) == Some(v)
  {
    forall i | 0 <= i < |v|
      ensures Sextet(Letters(v)[i]) == Some(v[i])
    {
      SextetOfLetter(v[i]);
    }
    var t := Letters(v);
    assert Values(t).Some?;
    assert Values(t).value == v;
  }

  /** Splitting three bytes into four sextets loses nothing. */
  lemma SplitAndJoin(b0: nat, b1: nat, b2: nat)
    requires b0 < 256 && b1 < 256 && b2 < 256
    ensures
      var v := SplitGroup(b0, b1, b2);
      JoinGroup(v[0], v[1], v[2], v[3]) == [b0 as char, b1 as char, b2 as char]
  {
    assert b0 / 4 * 4 + (b0 % 4 * 16 + b1 / 16) / 16 == b0;
    assert (b0 % 4 * 16 + b1 / 16) % 16 * 16 + (b1 % 16 * 4 + b2 / 64) / 4 == b1;
    assert (b1 % 16 * 4 + b2 / 64) % 4 * 64 + b2 % 64 == b2;
  }

  lemma {:induction false} JoinOfSplit(s: string)
    requires Bytes(s)
    ensures Join(Split(s)) == Some(s)
  {
    if s == "" {
    } else if |s| == 1 {
      SplitAndJoin(s[0] as int, 0, 0);
      LastTwo(SplitGroup(s[0] as int, 0, 0), s[0] as int);
      assert s == [s[0]];
    } else if |s| == 2 {
      SplitAndJoin(s[0] as int, s[1] as int, 0);
      LastThree(SplitGroup(s[0] as int, s[1] as int, 0), s[0] as int, s[1] as int);
      assert s == [s[0], s[1]];
    } else {
      JoinOfSplit(s[3..]);
      JoinCons(s[0] as int, s[1] as int, s[2] as int, Split(s[3..]));
      assert s == [s[0], s[1], s[2]] + s[3..];
    }
  }

  lemma JoinCons(b0: nat, b1: nat, b2: nat, rest: seq<nat>)
    requires b0 < 256 && b1 < 256 && b2 < 256 && Sextets(rest) && Join(rest).Some?
    ensures Sextets(SplitGroup(b0, b1, b2) + rest)
    ensures Join(SplitGroup(b0, b1, b2) + rest) == Some([b0 as char, b1 as char, b2 as char] + Join(rest).value)
  {
    SplitAndJoin(b0, b1, b2);
    assert (SplitGroup(b0, b1, b2) + rest)[4..] == rest;
  }

  lemma LastTwo(g: seq<nat>, b0: nat)
    requires b0 < 256 && g == SplitGroup(b0, 0, 0)
    ensures Join(g[..2]) == Some([b0 as char])
  {
    SplitAndJoin(b0, 0, 0);
    assert g[2] == 0 && g[3] == 0 && g[..2][0] == g[0] && g[..2][1] == g[1];
    assert JoinGroup(g[0], g[1], 0, 0)[..1] == [b0 as char];
  }

  lemma LastThree(g: seq<nat>, b0: nat, b1: nat)
    requires b0 < 256 && b1 < 256 && g == SplitGroup(b0, b1, 0)
    ensures Join(g[..3]) == Some([b0 as char, b1 as char])
  {
    SplitAndJoin(b0, b1, 0);
    assert g[3] == 0 && g[..3][0] == g[0] && g[..3][1] == g[1] && g[..3][2] == g[2];
    assert JoinGroup(g[0], g[1], g[2], 0)[..2] == [b0 as char, b1 as char];
  }

  /** Any byte string survives encoding and decoding. */
  lemma Base64RoundTrip(s: string)
    requires Bytes(s)
    ensures Decode(Encode(s)) == Some(s)
  {
    NothingToSkip(Encode(s));
    ValuesOfLetters(Split(s));
    JoinOfSplit(s);
  }

  // ----- tokens

  lemma TokenTextIsBytes(page: nat)
    ensures Bytes(TOKEN_PREFIX + Itoa(page))
  {
    assert forall i :: 0 <= i < |Itoa(page)| ==> IsDigit(Itoa(page)[i]);
  }

  function EncodeToken(page: nat): string {
    TokenTextIsBytes(page);
    Encode(TOKEN_PREFIX + Itoa(page))
  }

  function DecodeToken(t: string): Option<GoInt> {
    match Decode(t)
    case None => None
    case Some(s) =>
      if !(TOKEN_PREFIX <= s) then None
      else
        match Atoi(s[|TOKEN_PREFIX|..])
        case None => None
        case Some(p) => if p < 1 then None else Some(p)
  }

  /** A token is any text that decodes to "p:" and a positive number; nothing else
      is one. */
  lemma TokenMeans(t: string, p: GoInt)
    ensures DecodeToken(t) == Some(p) <==>
      p >= 1 && Decode(t).Some? && "p:" <= Decode(t).value && Atoi(Decode(t).value[2..]) == Some(p)
  {
  }

  lemma TokenRoundTrip(page: nat)
    requires 1 <= page <= MAX_INT
    ensures DecodeToken(EncodeToken(page)) == Some(page)
    ensures EncodeToken(page) != ""
  {
    var s := TOKEN_PREFIX + Itoa(page);
    TokenTextIsBytes(page);
    Base64RoundTrip(s);
    assert s[|TOKEN_PREFIX|..] == Itoa(page);
    AtoiOfItoa(page);
  }
}
