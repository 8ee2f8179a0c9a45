/** The calendar and the layout behind the stored times, in plain numbers. */
module Calendar {
  import opened Decimal
  import opened TimeText

  // ----- the calendar

  lemma SecondIsFloor(t: Instant)
    ensures Second(t) * 1_000_000_000 <= t < Second(t) * 1_000_000_000 + 1_000_000_000
  {
  }

  /** Years have 365 days, and one more in every fourth year except the full
      centuries that 400 does not divide. */
  lemma {:induction false} DaysOfYears(y: int)
    ensures DaysBeforeYear(y) == 365 * y + (y + 3) / 4 - (y + 99) / 100 + (y + 399) / 400
    decreases if y < 0 then -y else y
  {
    if y > 0 {
      DaysOfYears(y - 1);
      YearsAreAdjacent(y - 1);
      LeapStep(y - 1);
    } else if y < 0 {
      DaysOfYears(y + 1);
      YearsAreAdjacent(y);
      LeapStep(y);
    }
  }

  lemma LeapStep(y: int)
    ensures YearLength(y) == 365 + ((y + 4) / 4 - (y + 3) / 4) - ((y + 100) / 100 - (y + 99) / 100) + ((y + 400) / 400 - (y + 399) / 400)
  {
    StepOf(y, 4);
    StepOf(y, 100);
    StepOf(y, 400);
    LeapCount(y);
  }

  lemma LeapCount(y: int)
    ensures YearLength(y) == 365 + (if y % 4 == 0 then 1 else 0) - (if y % 100 == 0 then 1 else 0) + (if y % 400 == 0 then 1 else 0)
  {
    var q, p := y / 100, y / 400;
    assert y % 100 == 0 ==> y == 4 * (25 * q);
    assert y % 400 == 0 ==> y == 100 * (4 * p);
  }

  lemma StepOf(y: int, d: int)
    requires d > 1
    ensures (y + d) / d - (y + d - 1) / d == if y % d == 0 then 1 else 0
  {
    var q, r := y / d, y % d;
    NextMultiple(d, q);
    FloorOf(d, q + 1, r);
    if r == 0 {
      FloorOf(d, q, d - 1);
      assert y + d - 1 == d * q + (d - 1);
    } else {
      FloorOf(d, q + 1, r - 1);
      assert y + d - 1 == d * (q + 1) + (r - 1);
    }
    assert y + d == d * (q + 1) + r;
  }

  lemma NextMultiple(d: int, q: int)
    ensures d * (q + 1) == d * q + d
  {
  }

  lemma FloorOf(d: int, q: int, r: int)
    requires 0 <= r < d
    ensures (d * q + r) / d == q
  {
    var n := d * q + r;
    var p, s := n / d, n % d;
    assert d * (p - q) == d * p - d * q == r - s;
    Multiples(d, p - q);
  }

  lemma Multiples(d: int, k: int)
    requires d > 0
    ensures k >= 1 ==> d * k >= d
    ensures k <= -1 ==> d * k <= -d
  {
    if k >= 1 {
      assert d * (k - 1) >= 0;
    } else if k <= -1 {
      assert d * (-k - 1) >= 0;
    }
  }

  lemma DaysOfMonths(y: int)
    ensures
      var feb := if YearLength(y) == 366 then 29 else 28;
      && MonthLength(y, 1) == 31 && MonthLength(y, 2) == feb && MonthLength(y, 3) == 31 && MonthLength(y, 4) == 30
      && MonthLength(y, 5) == 31 && MonthLength(y, 6) == 30 && MonthLength(y, 7) == 31 && MonthLength(y, 8) == 31
      && MonthLength(y, 9) == 30 && MonthLength(y, 10) == 31 && MonthLength(y, 11) == 30 && MonthLength(y, 12) == 31
  {
  }

  // ----- the layout

  lemma TwoIsDecimal(n: nat)
    requires n < 100
    ensures |Two(n)| == 2 && IsDigit(Two(n)[0]) && IsDigit(Two(n)[1])
    ensures (Two(n)[0] - '0') as int * 10 + (Two(n)[1] - '0') as int == n
  {
  }

  /** yyyy-mm-ddThh:mm:ssZ */
  lemma LayoutOfFields(c: Civil)
    requires Valid(c) && 0 <= c.year < 10_000
    ensures FormatCivil(c) == Two(c.year / 100) + Two(c.year % 100)
                              + ("-" + Two(c.month) + "-" + Two(c.day)
                              + ("T" + Two(c.hour) + ":" + Two(c.minute) + ":" + Two(c.second) + "Z"))
  {
    assert [c.month, c.day, c.hour, c.minute, c.second] == [c.month] + ([c.day] + [c.hour, c.minute, c.second]);
    LayoutOfTime(c.hour, c.minute, c.second);
    LayoutOfDate(c.month, c.day, [c.hour, c.minute, c.second]);
  }

  lemma LayoutOfTime(hour: nat, minute: nat, second: nat)
    requires hour < 100 && minute < 100 && second < 100
    ensures Render(["T", ":", ":"], [hour, minute, second]) == "T" + Two(hour) + ":" + Two(minute) + ":" + Two(second) + "Z"
  {
    RenderCons("T", [":", ":"], hour, [minute, second]);
    RenderCons(":", [":"], minute, [second]);
    RenderCons(":", [], second, []);
  }

  lemma LayoutOfDate(month: nat, day: nat, time: seq<nat>)
    requires month < 100 && day < 100 && |time| == 3 && TwoDigits(time)
    ensures Render(SEPARATORS, [month] + ([day] + time)) ==
      "-" + Two(month) + "-" + Two(day) + Render(["T", ":", ":"], time)
  {
    RenderCons("-", ["-", "T", ":", ":"], month, [day] + time);
    RenderCons("-", ["T", ":", ":"], day, time);
  }
}
