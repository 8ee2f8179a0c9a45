/** formatTime: instants become fixed-width RFC 3339 text of whole-second
    precision, the store sorts that text, and readers parse it again.  An
    instant is a count of nanoseconds from 0000-01-01T00:00:00Z, before or after,
    in the proleptic Gregorian calendar. */
module TimeText {
  import opened Text
  import opened Decimal

  const NANOS_PER_SECOND := 1_000_000_000
  const SECONDS_PER_DAY := 86_400

  type Instant = int

  datatype Civil = Civil(year: int, month: nat, day: nat, hour: nat, minute: nat, second: nat)

  /** Truncation to the whole second at or before the instant. */
  function Second(t: Instant): int {
    t / NANOS_PER_SECOND
  }

  predicate Leap(y: int) {
    y % 4 == 0 && (y % 100 != 0 || y % 400 == 0)
  }

  function YearLength(y: int): nat {
    if Leap(y) then 366 else 365
  }

  /** Days from the first day of the year 0 to that of y. */
  function DaysBeforeYear(y: int): int
    decreases if y < 0 then -y else y
  {
    if y == 0 then 0
    else if y > 0 then DaysBeforeYear(y - 1) + YearLength(y - 1)
    else DaysBeforeYear(y + 1) - YearLength(y)
  }

  lemma YearsAreAdjacent(y: int)
    ensures DaysBeforeYear(y + 1) == DaysBeforeYear(y) + YearLength(y)
  {
  }

  function MonthLength(y: int, m: nat): nat
    requires 1 <= m <= 12
  {
    if m == 2 then if Leap(y) then 29 else 28
    else if m == 4 || m == 6 || m == 9 || m == 11 then 30
    else 31
  }

  function DaysBeforeMonth(y: int, m: nat): nat
    requires 1 <= m <= 13
  {
    if m == 1 then 0 else DaysBeforeMonth(y, m - 1) + MonthLength(y, m - 1)
  }

  lemma MonthsFillTheYear(y: int)
    ensures DaysBeforeMonth(y, 13) == YearLength(y)
  {
    assert DaysBeforeMonth(y, 2) == 31;
    assert DaysBeforeMonth(y, 3) == 31 + MonthLength(y, 2);
    assert DaysBeforeMonth(y, 5) == 31 + MonthLength(y, 2) + 61;
    assert DaysBeforeMonth(y, 7) == 31 + MonthLength(y, 2) + 122;
    assert DaysBeforeMonth(y, 9) == 31 + MonthLength(y, 2) + 184;
    assert DaysBeforeMonth(y, 11) == 31 + MonthLength(y, 2) + 245;
  }

  /** The calendar year that holds a day, searched upwards from y. */
  function YearAbove(day: int, y: int): (r: int)
    requires DaysBeforeYear(y) <= day
    ensures DaysBeforeYear(r) <= day < DaysBeforeYear(r + 1)
    decreases day - DaysBeforeYear(y)
  {
    YearsAreAdjacent(y);
    if day < DaysBeforeYear(y + 1) then y else YearAbove(day, y + 1)
  }

  /** The same, searched downwards from y. */
  function YearBelow(day: int, y: int): (r: int)
    requires day < DaysBeforeYear(y + 1)
    ensures DaysBeforeYear(r) <= day < DaysBeforeYear(r + 1)
    decreases DaysBeforeYear(y + 1) - day
  {
    YearsAreAdjacent(y);
    if DaysBeforeYear(y) <= day then y else YearBelow(day, y - 1)
  }

  function YearOf(day: int): (r: int)
    ensures DaysBeforeYear(r) <= day < DaysBeforeYear(r + 1)
  {
    if day >= 0 then YearAbove(day, 0) else YearBelow(day, -1)
  }

  function MonthOf(y: int, dayOfYear: nat, m: nat): (r: nat)
    requires 1 <= m <= 12 && DaysBeforeMonth(y, m) <= dayOfYear < YearLength(y)
    ensures 1 <= r <= 12 && DaysBeforeMonth(y, r) <= dayOfYear < DaysBeforeMonth(y, r + 1)
    decreases 12 - m
  {
    MonthsFillTheYear(y);
    if dayOfYear < DaysBeforeMonth(y, m + 1) then m else MonthOf(y, dayOfYear, m + 1)
  }

  predicate Valid(c: Civil) {
    && 1 <= c.month <= 12
    && 1 <= c.day <= MonthLength(c.year, c.month)
    && c.hour < 24 && c.minute < 60 && c.second < 60
  }

  /** The UTC calendar fields of a whole second. */
  function CivilOf(second: int): (c: Civil)
    ensures Valid(c)
    ensures SecondOf(c) == second
  {
    var day, rest := second / SECONDS_PER_DAY, second % SECONDS_PER_DAY;
    var y := YearOf(day);
    YearsAreAdjacent(y);
    var m := MonthOf(y, day - DaysBeforeYear(y), 1);
    Civil(y, m, day - DaysBeforeYear(y) - DaysBeforeMonth(y, m) + 1,
          rest / 3600, rest % 3600 / 60, rest % 60)
  }

  /** The inverse of CivilOf: the second that calendar fields name. */
  function SecondOf(c: Civil): int
    requires Valid(c)
  {
    (DaysBeforeYear(c.year) + DaysBeforeMonth(c.year, c.month) + c.day - 1) * SECONDS_PER_DAY
    + c.hour * 3600 + c.minute * 60 + c.second
  }

  /** Zero padding to four places behind the sign; a longer year is printed in
      full. */
  function YearText(y: int): string {
    if y < 0 then "-" + Padded(-y) else Padded(y)
  }

  function Padded(n: nat): string {
    if n < 10_000 then Two(n / 100) + Two(n % 100) else Itoa(n)
  }

  function Two(n: nat): string
    requires n < 100
  {
    [Digit(n / 10), Digit(n % 10)]
  }

  predicate TwoDigits(fields: seq<nat>) {
    forall i :: 0 <= i < |fields| ==> fields[i] < 100
  }

  /** Two-digit fields, each after its separator, closed by the UTC designator. */
  function Render(seps: seq<string>, fields: seq<nat>): string
    requires |seps| == |fields| && TwoDigits(fields)
  {
    if fields == [] then "Z"
    else seps[0] + (Two(fields[0]) + Render(seps[1..], fields[1..]))
  }

  const SEPARATORS: seq<string> := ["-", "-", "T", ":", ":"]

  function FormatCivil(c: Civil): string
    requires Valid(c)
  {
    YearText(c.year) + Render(SEPARATORS, [c.month, c.day, c.hour, c.minute, c.second])
  }

  function FormatTime(t: Instant): string {
    FormatCivil(CivilOf(Second(t)))
  }

  predicate FourDigitYear(t: Instant) {
    0 <= CivilOf(Second(t)).year < 10_000
  }

  // ----- order of the text

  predicate Before(a: seq<nat>, b: seq<nat>)
    requires |a| == |b|
  {
    a != [] && (a[0] < b[0] || (a[0] == b[0] && Before(a[1..], b[1..])))
  }

  lemma TwoOrder(m: nat, n: nat)
    requires m < 100 && n < 100
    ensures Less(Two(m), Two(n)) <==> m < n
    ensures Two(m) == Two(n) <==> m == n
  {
    var tens, tens' := [Digit(m / 10)], [Digit(n / 10)];
    assert Two(m) == tens + [Digit(m % 10)] && Two(n) == tens' + [Digit(n % 10)];
    LessByHead(tens, tens', [Digit(m % 10)], [Digit(n % 10)]);
    assert Less(tens, tens') <==> tens[0] < tens'[0];
    assert Two(m)[0] == Digit(m / 10) && Two(m)[1] == Digit(m % 10);
    assert Two(n)[0] == Digit(n / 10) && Two(n)[1] == Digit(n % 10);
  }

  lemma {:induction false} RenderOrder(seps: seq<string>, a: seq<nat>, b: seq<nat>)
    requires |seps| == |a| == |b| && TwoDigits(a) && TwoDigits(b)
    ensures Less(Render(seps, a), Render(seps, b)) <==> Before(a, b)
  {
    if a == [] {
    } else {
      var x, y := Render(seps[1..], a[1..]), Render(seps[1..], b[1..]);
      RenderOrder(seps[1..], a[1..], b[1..]);
      TwoOrder(a[0], b[0]);
      LessByHead(Two(a[0]), Two(b[0]), x, y);
      LessIrreflexive(seps[0]);
      LessByHead(seps[0], seps[0], Two(a[0]) + x, Two(b[0]) + y);
    }
  }

  // ----- order of the calendar fields

  lemma {:induction false} YearsAscend(y: int, z: int)
    requires y <= z
    ensures DaysBeforeYear(y) <= DaysBeforeYear(z)
    decreases z - y
  {
    if y < z {
      YearsAreAdjacent(z - 1);
      YearsAscend(y, z - 1);
    }
  }

  lemma {:induction false} MonthsAscend(y: int, m: nat, n: nat)
    requires 1 <= m <= n <= 13
    ensures DaysBeforeMonth(y, m) <= DaysBeforeMonth(y, n)
    decreases n - m
  {
    if m < n {
      MonthsAscend(y, m, n - 1);
    }
  }

  function DayNumber(c: Civil): int
    requires Valid(c)
  {
    DaysBeforeYear(c.year) + DaysBeforeMonth(c.year, c.month) + c.day - 1
  }

  /** Earlier in year, then month, then day. */
  predicate EarlierDate(c: Civil, d: Civil) {
    c.year < d.year || (c.year == d.year &&
      (c.month < d.month || (c.month == d.month && c.day < d.day)))
  }

  predicate EarlierTime(c: Civil, d: Civil) {
    c.hour < d.hour || (c.hour == d.hour &&
      (c.minute < d.minute || (c.minute == d.minute && c.second < d.second)))
  }

  predicate SameDate(c: Civil, d: Civil) {
    c.year == d.year && c.month == d.month && c.day == d.day
  }

  lemma DatesAscend(c: Civil, d: Civil)
    requires Valid(c) && Valid(d) && EarlierDate(c, d)
    ensures DayNumber(c) < DayNumber(d)
  {
    if c.year < d.year {
      YearsAreAdjacent(c.year);
      MonthsFillTheYear(c.year);
      MonthsAscend(c.year, c.month + 1, 13);
      YearsAscend(c.year + 1, d.year);
    } else if c.month < d.month {
      MonthsAscend(c.year, c.month + 1, d.month);
    }
  }

  lemma CivilAscends(c: Civil, d: Civil)
    requires Valid(c) && Valid(d)
    requires EarlierDate(c, d) || (SameDate(c, d) && EarlierTime(c, d))
    ensures SecondOf(c) < SecondOf(d)
  {
    if EarlierDate(c, d) {
      DatesAscend(c, d);
    }
  }

  /** Calendar fields, most significant first, order seconds. */
  lemma CivilOrder(c: Civil, d: Civil)
    requires Valid(c) && Valid(d)
    ensures SecondOf(c) < SecondOf(d) <==> EarlierDate(c, d) || (SameDate(c, d) && EarlierTime(c, d))
  {
    if EarlierDate(c, d) || (SameDate(c, d) && EarlierTime(c, d)) {
      CivilAscends(c, d);
    } else if c != d {
      CivilAscends(d, c);
    }
  }

  // ----- the two orders agree

  function DateFields(c: Civil): seq<nat>
    requires c.year >= 0
  {
    [c.year / 100] + ([c.year % 100] + ([c.month] + ([c.day] + TimeFields(c))))
  }

  function TimeFields(c: Civil): seq<nat> {
    [c.hour] + ([c.minute] + ([c.second] + []))
  }

  lemma BeforeCons(x: nat, a: seq<nat>, y: nat, b: seq<nat>)
    requires |a| == |b|
    ensures Before([x] + a, [y] + b) <==> x < y || (x == y && Before(a, b))
  {
    assert ([x] + a)[1..] == a && ([y] + b)[1..] == b;
  }

  lemma TimeFieldsOrder(c: Civil, d: Civil)
    ensures Before(TimeFields(c), TimeFields(d)) <==> EarlierTime(c, d)
  {
    BeforeCons(c.second, [], d.second, []);
    BeforeCons(c.minute, [c.second] + [], d.minute, [d.second] + []);
    BeforeCons(c.hour, [c.minute] + ([c.second] + []), d.hour, [d.minute] + ([d.second] + []));
  }

  lemma FieldsOrder(c: Civil, d: Civil)
    requires c.year >= 0 && d.year >= 0
    ensures Before(DateFields(c), DateFields(d)) <==> EarlierDate(c, d) || (SameDate(c, d) && EarlierTime(c, d))
  {
    TimeFieldsOrder(c, d);
    var c1, d1 := [c.day] + TimeFields(c), [d.day] + TimeFields(d);
    BeforeCons(c.day, TimeFields(c), d.day, TimeFields(d));
    BeforeCons(c.month, c1, d.month, d1);
    BeforeCons(c.year % 100, [c.month] + c1, d.year % 100, [d.month] + d1);
    BeforeCons(c.year / 100, [c.year % 100] + ([c.month] + c1), d.year / 100, [d.year % 100] + ([d.month] + d1));
  }

  const ALL_SEPARATORS: seq<string> := [""] + ([""] + SEPARATORS)

  lemma RenderCons(sep: string, seps: seq<string>, x: nat, fields: seq<nat>)
    requires |seps| == |fields| && x < 100 && TwoDigits(fields)
    ensures Render([sep] + seps, [x] + fields) == sep + (Two(x) + Render(seps, fields))
  {
    assert ([sep] + seps)[1..] == seps && ([x] + fields)[1..] == fields;
  }

  lemma FormatIsRender(c: Civil)
    requires Valid(c) && 0 <= c.year < 10_000
    ensures FormatCivil(c) == Render(ALL_SEPARATORS, DateFields(c))
    ensures |FormatCivil(c)| == 20
  {
    var tail := [c.month] + ([c.day] + TimeFields(c));
    assert tail == [c.month, c.day, c.hour, c.minute, c.second];
    RenderCons("", SEPARATORS, c.year % 100, tail);
    RenderCons("", [""] + SEPARATORS, c.year / 100, [c.year % 100] + tail);
    RenderLength(SEPARATORS, tail);
  }

  lemma {:induction false} RenderLength(seps: seq<string>, fields: seq<nat>)
    requires |seps| == |fields| && TwoDigits(fields)
    requires forall i :: 0 <= i < |seps| ==> |seps[i]| == 1
    ensures |Render(seps, fields)| == 3 * |fields| + 1
  {
    if fields != [] {
      RenderLength(seps[1..], fields[1..]);
    }
  }

  /** Byte-wise order of the stored text is chronological order of the truncated
      instants, and equal text means the same second, for every pair of instants
      whose UTC year has four digits (sections 5.1 and 5.6 of RFC 3339). */
  lemma TextOrderIsTimeOrder(t: Instant, u: Instant)
    requires FourDigitYear(t) && FourDigitYear(u)
    ensures Less(FormatTime(t), FormatTime(u)) <==> Second(t) < Second(u)
    ensures FormatTime(t) == FormatTime(u) <==> Second(t) == Second(u)
    ensures |FormatTime(t)| == 20
  {
    CivilTextOrder(CivilOf(Second(t)), CivilOf(Second(u)));
    CivilTextOrder(CivilOf(Second(u)), CivilOf(Second(t)));
    FormatIsRender(CivilOf(Second(t)));
    LessTotal(FormatTime(t), FormatTime(u));
    LessIrreflexive(FormatTime(t));
  }

  lemma CivilTextOrder(c: Civil, d: Civil)
    requires Valid(c) && Valid(d) && 0 <= c.year < 10_000 && 0 <= d.year < 10_000
    ensures Less(FormatCivil(c), FormatCivil(d)) <==> SecondOf(c) < SecondOf(d)
  {
    FormatIsRender(c);
    FormatIsRender(d);
    RenderOrder(ALL_SEPARATORS, DateFields(c), DateFields(d));
    FieldsOrder(c, d);
    CivilOrder(c, d);
  }

  // ----- the years on both sides, which a timestamp with an offset can still reach

  predicate Reachable(t: Instant) {
    -1 <= CivilOf(Second(t)).year <= 10_000
  }

  /** The reachable years in the order in which their text sorts. */
  datatype Era = BeforeZero | UpTo1000 | Year10000 | From1001

  function EraOf(t: Instant): Era {
    var y := CivilOf(Second(t)).year;
    if y < 0 then BeforeZero else if y <= 1000 then UpTo1000 else if y < 10_000 then From1001 else Year10000
  }

  function TextRank(e: Era): nat {
    match e
    case BeforeZero => 0
    case UpTo1000 => 1
    case Year10000 => 2
    case From1001 => 3
  }

  /** One of the two falls in the year 10000 and the other in 1001 to 9999. */
  predicate Crosses(t: Instant, u: Instant) {
    (EraOf(t) == Year10000 && EraOf(u) == From1001) || (EraOf(u) == Year10000 && EraOf(t) == From1001)
  }

  function FieldsAfterYear(c: Civil): seq<nat> {
    [c.month] + ([c.day] + TimeFields(c))
  }

  lemma FieldsAfterYearOrder(c: Civil, d: Civil)
    requires c.year == d.year
    ensures Before(FieldsAfterYear(c), FieldsAfterYear(d)) <==> EarlierDate(c, d) || (SameDate(c, d) && EarlierTime(c, d))
  {
    TimeFieldsOrder(c, d);
    BeforeCons(c.day, TimeFields(c), d.day, TimeFields(d));
    BeforeCons(c.month, [c.day] + TimeFields(c), d.month, [d.day] + TimeFields(d));
  }

  /** Within one year, of any width, the text sorts by time. */
  lemma OneYearOrder(c: Civil, d: Civil)
    requires Valid(c) && Valid(d) && c.year == d.year
    ensures Less(FormatCivil(c), FormatCivil(d)) <==> SecondOf(c) < SecondOf(d)
  {
    var a, b := FieldsAfterYear(c), FieldsAfterYear(d);
    assert a == [c.month, c.day, c.hour, c.minute, c.second] && b == [d.month, d.day, d.hour, d.minute, d.second];
    LessIrreflexive(YearText(c.year));
    LessByHead(YearText(c.year), YearText(d.year), Render(SEPARATORS, a), Render(SEPARATORS, b));
    RenderOrder(SEPARATORS, a, b);
    FieldsAfterYearOrder(c, d);
    CivilOrder(c, d);
  }

  lemma WideYearText()
    ensures YearText(10_000) == Two(10) + (Two(0) + "0")
  {
    assert Itoa(10_000) == Itoa(1000) + ['0'] && Itoa(1000) == Itoa(100) + ['0'];
    assert Itoa(100) == Itoa(10) + ['0'] && Itoa(10) == Itoa(1) + ['0'];
  }

  /** The wider text sorts behind the years up to 1000 only. */
  lemma WideYearOrder(y: nat, x: string, z: string)
    requires 0 <= y < 10_000 && x != "" && x[0] == '-'
    ensures Less(YearText(y) + x, YearText(10_000) + z) <==> y <= 1000
    ensures Less(YearText(10_000) + z, YearText(y) + x) <==> y > 1000
  {
    WideYearText();
    var tail := "0" + z;
    assert YearText(y) + x == Two(y / 100) + (Two(y % 100) + x);
    assert YearText(10_000) + z == Two(10) + (Two(0) + tail);
    LessByHead(Two(y / 100), Two(10), Two(y % 100) + x, Two(0) + tail);
    LessByHead(Two(y % 100), Two(0), x, tail);
    LessByHead(Two(10), Two(y / 100), Two(0) + tail, Two(y % 100) + x);
    LessByHead(Two(0), Two(y % 100), tail, x);
    TwoOrder(y / 100, 10);
    TwoOrder(10, y / 100);
    TwoOrder(y % 100, 0);
    TwoOrder(0, y % 100);
    assert Less(x, tail) && !Less(tail, x);
  }

  lemma MixedYearOrder(c: Civil, d: Civil)
    requires Valid(c) && Valid(d) && 0 <= c.year < 10_000 && d.year == 10_000
    ensures SecondOf(c) < SecondOf(d)
    ensures Less(FormatCivil(c), FormatCivil(d)) <==> c.year <= 1000
    ensures Less(FormatCivil(d), FormatCivil(c)) <==> c.year > 1000
  {
    CivilAscends(c, d);
    var x, z := Render(SEPARATORS, [c.month, c.day, c.hour, c.minute, c.second]),
                Render(SEPARATORS, [d.month, d.day, d.hour, d.minute, d.second]);
    WideYearOrder(c.year, x, z);
  }

  /** The last second of 9999 and the next one: the later prints one place wider
      and sorts first. */
  lemma FiveDigitYearSortsEarlier(last: Civil, first: Civil)
    requires last == Civil(9999, 12, 31, 23, 59, 59) && first == Civil(10_000, 1, 1, 0, 0, 0)
    ensures Valid(last) && Valid(first) && SecondOf(last) + 1 == SecondOf(first)
    ensures Less(FormatCivil(first), FormatCivil(last))
  {
    NewYear(last, first);
    MixedYearOrder(last, first);
  }

  lemma NewYear(last: Civil, first: Civil)
    requires first == Civil(last.year + 1, 1, 1, 0, 0, 0) && last == Civil(last.year, 12, 31, 23, 59, 59)
    ensures Valid(last) && Valid(first) && SecondOf(last) + 1 == SecondOf(first)
  {
    MonthsFillTheYear(last.year);
    assert MonthLength(last.year, 12) == 31;
  }

  /** For every pair of instants a timestamp can denote, the text sorts by time
      exactly when they do not cross from 1001-9999 into 10000. */
  lemma TextOrderExactly(t: Instant, u: Instant)
    requires Reachable(t) && Reachable(u)
    ensures (Less(FormatTime(t), FormatTime(u)) <==> Second(t) < Second(u)) <==> !Crosses(t, u)
    ensures FormatTime(t) == FormatTime(u) <==> Second(t) == Second(u)
  {
    CivilTextsEqual(CivilOf(Second(t)), CivilOf(Second(u)));
  }

  lemma CivilTextsEqual(c: Civil, d: Civil)
    requires Valid(c) && Valid(d) && -1 <= c.year <= 10_000 && -1 <= d.year <= 10_000
    ensures
      var crosses := (c.year == 10_000 && 1000 < d.year < 10_000) || (d.year == 10_000 && 1000 < c.year < 10_000);
      (Less(FormatCivil(c), FormatCivil(d)) <==> SecondOf(c) < SecondOf(d)) <==> !crosses
    ensures FormatCivil(c) == FormatCivil(d) <==> SecondOf(c) == SecondOf(d)
  {
    CivilTextOrderExactly(c, d);
    CivilTextOrderExactly(d, c);
    LessTotal(FormatCivil(c), FormatCivil(d));
    LessIrreflexive(FormatCivil(c));
  }

  lemma ErasSort(t: Instant, u: Instant)
    requires Reachable(t) && Reachable(u) && TextRank(EraOf(t)) < TextRank(EraOf(u))
    ensures Less(FormatTime(t), FormatTime(u))
    ensures Second(t) < Second(u) <==> !Crosses(t, u)
  {
    if Crosses(t, u) {
      MixedYearOrder(CivilOf(Second(u)), CivilOf(Second(t)));
    } else {
      CivilAscends(CivilOf(Second(t)), CivilOf(Second(u)));
      TextOrderExactly(t, u);
    }
  }

  lemma TenThousandIsLater(t: Instant, u: Instant)
    requires EraOf(t) == From1001 && EraOf(u) == Year10000
    ensures Second(t) < Second(u)
  {
    CivilAscends(CivilOf(Second(t)), CivilOf(Second(u)));
  }

  lemma CivilTextOrderExactly(c: Civil, d: Civil)
    requires Valid(c) && Valid(d) && -1 <= c.year <= 10_000 && -1 <= d.year <= 10_000
    ensures
      var crosses := (c.year == 10_000 && 1000 < d.year < 10_000) || (d.year == 10_000 && 1000 < c.year < 10_000);
      && ((Less(FormatCivil(c), FormatCivil(d)) <==> SecondOf(c) < SecondOf(d)) <==> !crosses)
      && (crosses ==> FormatCivil(c) != FormatCivil(d) && SecondOf(c) != SecondOf(d))
  {
    if c.year == d.year {
      OneYearOrder(c, d);
    } else if c.year < 0 {
      SignSortsFirst(c, d);
    } else if d.year < 0 {
      SignSortsFirst(d, c);
    } else if c.year < 10_000 && d.year < 10_000 {
      CivilTextOrder(c, d);
    } else if c.year < 10_000 {
      MixedYearOrder(c, d);
      LessIrreflexive(FormatCivil(c));
    } else {
      MixedYearOrder(d, c);
      LessIrreflexive(FormatCivil(c));
    }
  }

  /** A signed year sorts before every unsigned one. */
  lemma SignSortsFirst(c: Civil, d: Civil)
    requires Valid(c) && Valid(d) && c.year < 0 <= d.year
    ensures SecondOf(c) < SecondOf(d)
    ensures Less(FormatCivil(c), FormatCivil(d)) && !Less(FormatCivil(d), FormatCivil(c))
  {
    CivilAscends(c, d);
    StartsWithDigit(d.year);
    assert FormatCivil(c)[0] == '-' && IsDigit(FormatCivil(d)[0]);
  }

  lemma StartsWithDigit(y: nat)
    ensures YearText(y) != "" && IsDigit(YearText(y)[0])
  {
  }

  // ----- reading the text back

  function ReadTwo(s: string): (r: Option<nat>)
    ensures r.Some? ==> r.value < 100
  {
    if |s| >= 2 && IsDigit(s[0]) && IsDigit(s[1]) then Some((s[0] - '0') as nat * 10 + (s[1] - '0') as nat) else None
  }

  function ReadFields(seps: seq<string>, s: string): (r: Option<seq<nat>>)
    ensures r.Some? ==> |r.value| == |seps|
  {
    if seps == [] then if s == "Z" then Some([]) else None
    else if !(seps[0] <= s) then None
    else
      var t := s[|seps[0]|..];
      match ReadTwo(t)
      case None => None
      case Some(n) =>
        match ReadFields(seps[1..], t[2..])
        case None => None
        case Some(rest) => Some([n] + rest)
  }

  /** time.Parse on text of the stored layout: four year digits, two for every
      other field, calendar fields in range. */
  function ParseTime(s: string): Option<int> {
    match ReadFields(ALL_SEPARATORS, s)
    case None => None
    case Some(f) =>
      var c := Civil(f[0] * 100 + f[1], f[2], f[3], f[4], f[5], f[6]);
      if Valid(c) then Some(SecondOf(c)) else None
  }

  lemma ReadTwoUndoesTwo(n: nat, rest: string)
    requires n < 100
    ensures ReadTwo(Two(n) + rest) == Some(n) && (Two(n) + rest)[2..] == rest
  {
  }

  lemma {:induction false} ReadUndoesRender(seps: seq<string>, fields: seq<nat>)
    requires |seps| == |fields| && TwoDigits(fields)
    ensures ReadFields(seps, Render(seps, fields)) == Some(fields)
  {
    if fields != [] {
      var rest := Render(seps[1..], fields[1..]);
      var s := seps[0] + (Two(fields[0]) + rest);
      ReadUndoesRender(seps[1..], fields[1..]);
      ReadTwoUndoesTwo(fields[0], rest);
      assert s[|seps[0]|..] == Two(fields[0]) + rest;
      assert fields == [fields[0]] + fields[1..];
    }
  }

  lemma ParseUndoesFormat(c: Civil)
    requires Valid(c) && 0 <= c.year < 10_000
    ensures ParseTime(FormatCivil(c)) == Some(SecondOf(c))
  {
    FormatIsRender(c);
    ReadUndoesRender(ALL_SEPARATORS, DateFields(c));
    FieldsOfCivil(c, DateFields(c));
    ParseOfFields(FormatCivil(c), DateFields(c), c);
  }

  lemma FieldsOfCivil(c: Civil, f: seq<nat>)
    requires c.year >= 0 && f == DateFields(c)
    ensures f == [c.year / 100, c.year % 100, c.month, c.day, c.hour, c.minute, c.second]
  {
  }

  lemma ParseOfFields(s: string, f: seq<nat>, c: Civil)
    requires Valid(c) && c.year >= 0 && ReadFields(ALL_SEPARATORS, s) == Some(f)
    requires f == [c.year / 100, c.year % 100, c.month, c.day, c.hour, c.minute, c.second]
    ensures ParseTime(s) == Some(SecondOf(c))
  {
    assert f[0] * 100 + f[1] == c.year;
  }

  lemma {:induction false} WideYearHasFiveDigits(y: nat)
    requires y >= 10_000
    ensures |Itoa(y)| >= 5
  {
    assert |Itoa(y / 10_000)| >= 1 && |Itoa(y / 1000)| >= 2 && |Itoa(y / 100)| >= 3 && |Itoa(y / 10)| >= 4;
  }

  lemma NoThirdPair(s: string)
    requires |s| >= 5 && s[4] != '-'
    ensures ReadFields(ALL_SEPARATORS, s) == None
  {
    var seps := ALL_SEPARATORS;
    assert s[0..] == s && seps[1..] == [""] + SEPARATORS && seps[1..][1..] == SEPARATORS;
    if ReadTwo(s).Some? && ReadTwo(s[2..]).Some? {
      assert s[2..][2..][0] == s[4];
      assert ReadFields(SEPARATORS, s[2..][2..]) == None;
    }
  }

  lemma NoSign(s: string)
    requires s != "" && s[0] == '-'
    ensures ReadFields(ALL_SEPARATORS, s) == None
  {
    assert s[0..] == s;
  }

  lemma OtherYearsDoNotParse(c: Civil)
    requires Valid(c) && !(0 <= c.year < 10_000)
    ensures ParseTime(FormatCivil(c)) == None
  {
    if c.year < 0 {
      assert FormatCivil(c)[0] == '-';
      NoSign(FormatCivil(c));
    } else {
      WideYearHasFiveDigits(c.year);
      assert FormatCivil(c)[4] == Itoa(c.year)[4] && IsDigit(Itoa(c.year)[4]);
      NoThirdPair(FormatCivil(c));
    }
  }

  /** For every instant: what was written is read back, to the second, exactly when
      its UTC year has four digits; any other stored time cannot be read at all. */
  lemma ReadBackExactly(t: Instant)
    ensures ParseTime(FormatTime(t)) == if FourDigitYear(t) then Some(Second(t)) else None
  {
    var c := CivilOf(Second(t));
    if 0 <= c.year < 10_000 {
      ParseUndoesFormat(c);
    } else {
      OtherYearsDoNotParse(c);
    }
  }

  lemma CivilUnique(c: Civil)
    requires Valid(c)
    ensures CivilOf(SecondOf(c)) == c
  {
    var d := CivilOf(SecondOf(c));
    CivilOrder(c, d);
    CivilOrder(d, c);
  }

  /** An instant in the given second. */
  function InstantAt(second: int): (t: Instant)
    ensures Second(t) == second
  {
    second * NANOS_PER_SECOND
  }
}
