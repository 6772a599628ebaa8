/** The civil calendar. */
module Civil {
  import opened Decimal
  import opened Options

  predicate Leap(y: int) { y % 4 == 0 && (y % 100 != 0 || y % 400 == 0) }

  function DaysIn(y: int, m: int): (d: int)
    requires 1 <= m <= 12
    ensures 28 <= d <= 31
  {
    if m == 2 then (if Leap(y) then 29 else 28)
    else if m == 4 || m == 6 || m == 9 || m == 11 then 30 else 31
  }

  /** A YYYY-MM-DD text that names a day of the calendar. */
  predicate IsDateText(s: string) {
    && |s| == 10 && s[4] == '-' && s[7] == '-'
    && Digits(s[..4]).Some? && Digits(s[5..7]).Some? && Digits(s[8..]).Some?
    && 1 <= Digits(s[5..7]).value <= 12
    && 1 <= Digits(s[8..]).value <= DaysIn(Digits(s[..4]).value, Digits(s[5..7]).value)
  }

  /** Such a text names a day exactly when the month has it, by the lengths of the months. */
  lemma DateTextExactly(y: nat, m: nat, d: nat)
    requires y < 10000 && m < 100 && d < 100
    ensures
      var leap := y % 400 == 0 || (y % 4 == 0 && y % 100 != 0);
      IsDateText(TwoDigits(y / 100) + TwoDigits(y % 100) + "-" + TwoDigits(m) + "-" + TwoDigits(d)) <==>
        && 1 <= m <= 12 && 1 <= d <= 31 && (m in {4, 6, 9, 11} ==> d <= 30)
        && (m == 2 ==> d <= 28 || (d == 29 && leap))
  {
    var a, b, c, e := TwoDigits(y / 100), TwoDigits(y % 100), TwoDigits(m), TwoDigits(d);
    var s := a + b + "-" + c + "-" + e;
    assert s[..4] == a + b && s[5..7] == c && s[8..] == e && s[4] == '-' && s[7] == '-';
    TwoDigitsRead(m);
    TwoDigitsRead(d);
    YearRead(y);
    hide Digits, ParseInt, TwoDigits, Leap;
    assert IsDateText(s) <==> 1 <= m <= 12 && 1 <= d <= DaysIn(y, m);
    LeapYears(y);
  }

  lemma LeapYears(y: int)
    ensures Leap(y) <==> y % 400 == 0 || (y % 4 == 0 && y % 100 != 0)
  {
    LeapRule(y);
  }

  lemma YearRead(y: nat)
    requires y < 10000
    ensures Digits(TwoDigits(y / 100) + TwoDigits(y % 100)) == Some(y)
  {
    var a, b := TwoDigits(y / 100), TwoDigits(y % 100);
    var s := a + b;
    TwoDigitsRead(y / 100);
    assert s[..3] == a + [b[0]] && s[..3][..2] == a && s == s[..3] + [b[1]];
    assert Digits(s[..3]) == Some(10 * (y / 100) + (y % 100) / 10);
  }

  // ---------- day numbers ----------

  datatype Date = Date(y: int, m: int, d: int)

  predicate Valid(x: Date) { 1 <= x.m <= 12 && 1 <= x.d <= DaysIn(x.y, x.m) }

  function DaysBeforeYear(y: int): int { 365 * (y - 1) + (y - 1) / 4 - (y - 1) / 100 + (y - 1) / 400 }

  function DaysBeforeMonth(y: int, m: int): int
    requires 1 <= m <= 13
  {
    if m == 1 then 0 else DaysBeforeMonth(y, m - 1) + DaysIn(y, m - 1)
  }

  /** Days from the start of year 1, whose first day is day 1, a Monday. */
  function Ord(x: Date): int
    requires Valid(x)
  {
    DaysBeforeYear(x.y) + DaysBeforeMonth(x.y, x.m) + x.d
  }

  /** 0 is Sunday. */
  function Weekday(x: Date): int
    requires Valid(x)
  {
    Ord(x) % 7
  }

  /** Any one day with its weekday fixes all others: the first of January 1970 was a Thursday, and every day is
      followed by one of the next weekday. */
  lemma WeekdaysRun(x: Date)
    requires Valid(x)
    ensures Weekday(Date(1970, 1, 1)) == 4
    ensures Weekday(NextDay(x)) == (Weekday(x) + 1) % 7
  {
    NextIsOneMore(x);
    assert Ord(Date(1970, 1, 1)) == 719163;
    hide Ord, NextDay;
  }

  lemma FourYears(y: int)
    ensures y / 4 - (y - 1) / 4 == if y % 4 == 0 then 1 else 0
  {
  }

  lemma HundredYears(y: int)
    ensures y / 100 - (y - 1) / 100 == if y % 100 == 0 then 1 else 0
  {
  }

  lemma FourHundredYears(y: int)
    ensures y / 400 - (y - 1) / 400 == if y % 400 == 0 then 1 else 0
  {
  }

  lemma LeapRule(y: int)
    ensures y % 400 == 0 ==> y % 100 == 0
    ensures y % 100 == 0 ==> y % 4 == 0
  {
  }

  lemma YearLength(y: int)
    ensures DaysBeforeYear(y + 1) - DaysBeforeYear(y) == if Leap(y) then 366 else 365
  {
    FourYears(y);
    HundredYears(y);
    FourHundredYears(y);
    LeapRule(y);
  }

  lemma MonthsFillYear(y: int)
    ensures DaysBeforeMonth(y, 13) == if Leap(y) then 366 else 365
  {
    var feb := DaysIn(y, 2);
    assert DaysBeforeMonth(y, 2) == 31;
    assert DaysBeforeMonth(y, 3) == 31 + feb;
    assert DaysBeforeMonth(y, 4) == 62 + feb;
    assert DaysBeforeMonth(y, 5) == 92 + feb;
    assert DaysBeforeMonth(y, 6) == 123 + feb;
    assert DaysBeforeMonth(y, 7) == 153 + feb;
    assert DaysBeforeMonth(y, 8) == 184 + feb;
    assert DaysBeforeMonth(y, 9) == 215 + feb;
    assert DaysBeforeMonth(y, 10) == 245 + feb;
    assert DaysBeforeMonth(y, 11) == 276 + feb;
    assert DaysBeforeMonth(y, 12) == 306 + feb;
  }

  lemma {:induction false} YearsGrow(a: int, b: int)
    requires a <= b
    ensures DaysBeforeYear(a) <= DaysBeforeYear(b)
    decreases b - a
  {
    if a < b {
      YearsGrow(a, b - 1);
      YearLength(b - 1);
    }
  }

  lemma {:induction false} MonthsGrow(y: int, a: int, b: int)
    requires 1 <= a < b <= 13
    ensures DaysBeforeMonth(y, a) + DaysIn(y, a) <= DaysBeforeMonth(y, b)
    decreases b - a
  {
    if a < b - 1 { MonthsGrow(y, a, b - 1); }
  }

  predicate Earlier(a: Date, b: Date) {
    a.y < b.y || (a.y == b.y && (a.m < b.m || (a.m == b.m && a.d < b.d)))
  }

  lemma EarlierIsLess(a: Date, b: Date)
    requires Valid(a) && Valid(b) && Earlier(a, b)
    ensures Ord(a) < Ord(b)
  {
    if a.y < b.y {
      MonthsGrow(a.y, a.m, 13);
      MonthsFillYear(a.y);
      YearLength(a.y);
      YearsGrow(a.y + 1, b.y);
      if b.m > 1 { MonthsGrow(b.y, 1, b.m); }
    } else if a.m < b.m {
      MonthsGrow(a.y, a.m, b.m);
    }
  }

  /** Day numbers order the calendar, and name each day once. */
  lemma OrdOrders(a: Date, b: Date)
    requires Valid(a) && Valid(b)
    ensures Ord(a) < Ord(b) <==> Earlier(a, b)
    ensures Ord(a) == Ord(b) <==> a == b
  {
    if Earlier(a, b) { EarlierIsLess(a, b); }
    if Earlier(b, a) { EarlierIsLess(b, a); }
  }

  function NextDay(x: Date): Date {
    if 1 <= x.m <= 12 && x.d < DaysIn(x.y, x.m) then x.(d := x.d + 1)
    else if x.m < 12 then Date(x.y, x.m + 1, 1)
    else Date(x.y + 1, 1, 1)
  }

  lemma NextIsOneMore(x: Date)
    requires Valid(x)
    ensures Valid(NextDay(x)) && Ord(NextDay(x)) == Ord(x) + 1
    ensures NextDay(x) == x.(d := x.d + 1) || (x.m < 12 && NextDay(x) == Date(x.y, x.m + 1, 1))
            || (x.m == 12 && NextDay(x) == Date(x.y + 1, 1, 1))
  {
    if x.d == DaysIn(x.y, x.m) && x.m == 12 {
      MonthsFillYear(x.y);
      YearLength(x.y);
    }
  }

  function AddDays(x: Date, n: nat): Date
    decreases n
  {
    if n == 0 then x else AddDays(NextDay(x), n - 1)
  }

  lemma {:induction false} AddDaysAdds(x: Date, n: nat)
    requires Valid(x)
    ensures Valid(AddDays(x, n)) && Ord(AddDays(x, n)) == Ord(x) + n
    decreases n
  {
    if n > 0 {
      NextIsOneMore(x);
      AddDaysAdds(NextDay(x), n - 1);
    }
  }
}
