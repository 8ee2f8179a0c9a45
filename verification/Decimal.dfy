/** strconv.Itoa and strconv.Atoi on 64-bit integers. */
module Decimal {
  import opened Text

  const MAX_INT: int := 0x7FFF_FFFF_FFFF_FFFF

  /** Go's int on 64-bit platforms. */
  type GoInt = n: int | -MAX_INT - 1 <= n <= MAX_INT

  function Digit(d: nat): (c: char)
    requires d < 10
    ensures '0' <= c <= '9'
  {
    ('0' as int + d) as char
  }

  predicate IsDigit(c: char) {
    '0' <= c <= '9'
  }

  function Itoa(n: nat): (s: string)
    ensures s != "" && forall i :: 0 <= i < |s| ==> IsDigit(s[i])
  {
    if n < 10 then [Digit(n)] else Itoa(n / 10) + [Digit(n % 10)]
  }

  function IntText(n: int): string {
    if n < 0 then "-" + Itoa(-n) else Itoa(n)
  }

  /** The number a run of decimal digits denotes. */
  function Value(s: string): nat
    requires forall i :: 0 <= i < |s| ==> IsDigit(s[i])
  {
    if s == "" then 0
    else
      assert IsDigit(s[|s| - 1]);
      Value(s[..|s| - 1]) * 10 + (s[|s| - 1] as int - '0' as int)
  }

  /** An optional sign, then one or more digits, within the 64-bit range. */
  function Atoi(s: string): Option<GoInt> {
    var negative := s != "" && s[0] == '-';
    var digits := if s != "" && (s[0] == '-' || s[0] == '+') then s[1..] else s;
    if digits == "" || exists i :: 0 <= i < |digits| && !IsDigit(digits[i]) then None
    else
      var n := if negative then 0 - Value(digits) else Value(digits);
      if -MAX_INT - 1 <= n <= MAX_INT then Some(n) else None
  }

  lemma {:induction false} ValueOfItoa(n: nat)
    ensures Value(Itoa(n)) == n
  {
    if n >= 10 {
      ValueOfItoa(n / 10);
      assert Itoa(n)[..|Itoa(n)| - 1] == Itoa(n / 10);
    }
  }

  /** A sign is read as such, and numbers outside 64 bits are not read. */
  lemma AtoiOfSigned(n: nat)
    ensures Atoi("-" + Itoa(n)).Some? <==> n <= MAX_INT + 1
    ensures n <= MAX_INT + 1 ==> Atoi("-" + Itoa(n)).value + n == 0
    ensures Atoi("+" + Itoa(n)) == if n <= MAX_INT then Some(n) else None
    ensures Atoi("") == None && Atoi("-") == None && Atoi("+") == None
  {
    ValueOfItoa(n);
    assert ("-" + Itoa(n))[1..] == Itoa(n) && ("+" + Itoa(n))[1..] == Itoa(n);
    assert "-"[1..] == "" && "+"[1..] == "";
  }

  /** One digit is its own text, and a further digit goes behind. */
  lemma ItoaMeans(n: nat, d: nat)
    requires d < 10
    ensures |Itoa(d)| == 1 && Itoa(d)[0] as int == '0' as int + d
    ensures n > 0 ==> Itoa(10 * n + d) == Itoa(n) + Itoa(d)
  {
  }

  lemma AtoiOfItoa(n: nat)
    requires n <= MAX_INT
    ensures Atoi(Itoa(n)) == Some(n)
  {
    ValueOfItoa(n);
    assert IsDigit(Itoa(n)[0]);
  }
}
