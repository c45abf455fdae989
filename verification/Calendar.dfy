/**
 * The proleptic Gregorian calendar, as Python's `date` has it: day 1 is 1 January of year 1. Years
 * before that continue it backwards.
 */
module Calendar {
  datatype Date = Date(year: int, month: int, day: int)

  predicate IsLeap(y: int) { y % 4 == 0 && (y % 100 != 0 || y % 400 == 0) }

  function DaysInMonth(y: int, m: int): int {
    if m == 2 then (if IsLeap(y) then 29 else 28)
    else if m == 4 || m == 6 || m == 9 || m == 11 then 30
    else 31
  }

  function DaysBeforeYear(y: int): int { 365 * (y - 1) + (y - 1) / 4 - (y - 1) / 100 + (y - 1) / 400 }

  /** Days of the year before this month. */
  function DaysBeforeMonth(y: int, m: int): int
    requires 1 <= m <= 13
    decreases m
  {
    if m == 1 then 0 else DaysBeforeMonth(y, m - 1) + DaysInMonth(y, m - 1)
  }

  predicate ValidDate(d: Date) { 1 <= d.month <= 12 && 1 <= d.day <= DaysInMonth(d.year, d.month) }

  function Ordinal(d: Date): int
    requires ValidDate(d)
  {
    DaysBeforeYear(d.year) + DaysBeforeMonth(d.year, d.month) + d.day
  }

  /** The month, from `m` on, in which this day of the year lies, counted from 0. */
  function MonthFrom(y: int, m: int, rest: int): int
    requires 1 <= m <= 12
    decreases 12 - m
  {
    if m == 12 || rest < DaysBeforeMonth(y, m + 1) then m else MonthFrom(y, m + 1, rest)
  }

  /** The year that contains a day: whole cycles of 400, 100, 4 and 1 years. */
  function YearOf(n: int): int {
    var r := (n - 1) % 146097;
    var s := r % 36524;
    var t := s % 1461;
    var y := 400 * ((n - 1) / 146097) + 100 * (r / 36524) + 4 * (s / 1461) + t / 365 + 1;
    if r / 36524 == 4 || t / 365 == 4 then y - 1 else y
  }

  function DateOf(n: int): Date {
    var y := YearOf(n);
    var rest := n - 1 - DaysBeforeYear(y);
    var m := MonthFrom(y, 1, rest);
    Date(y, m, rest - DaysBeforeMonth(y, m) + 1)
  }

  lemma YearLength(y: int)
    ensures DaysBeforeYear(y + 1) == DaysBeforeYear(y) + DaysBeforeMonth(y, 13)
    ensures DaysBeforeMonth(y, 13) == if IsLeap(y) then 366 else 365
  {
    MonthsAddUp(y);
    LeapDays(y);
  }

  lemma MonthsAddUp(y: int)
    ensures DaysBeforeMonth(y, 13) == if IsLeap(y) then 366 else 365
  {
    assert DaysBeforeMonth(y, 2) == 31;
    assert DaysBeforeMonth(y, 4) == DaysBeforeMonth(y, 2) + DaysInMonth(y, 2) + 31;
    assert DaysBeforeMonth(y, 6) == DaysBeforeMonth(y, 4) + 61;
    assert DaysBeforeMonth(y, 8) == DaysBeforeMonth(y, 6) + 61;
    assert DaysBeforeMonth(y, 10) == DaysBeforeMonth(y, 8) + 61;
    assert DaysBeforeMonth(y, 12) == DaysBeforeMonth(y, 10) + 61;
  }

  /** A multiple of `n` is passed exactly when the quotient grows. */
  lemma QuotientGrows(y: int, n: int)
    requires n == 4 || n == 100 || n == 400
    ensures y / n == (y - 1) / n + (if y % n == 0 then 1 else 0)
  {
  }

  lemma Multiple(k: int, n: int)
    requires n == 4 || n == 100
    ensures (n * k) % n == 0
  {
  }

  lemma CyclesNest(y: int)
    ensures y % 400 == 0 ==> y % 100 == 0
    ensures y % 100 == 0 ==> y % 4 == 0
  {
    if y % 100 == 0 {
      Multiple(25 * (y / 100), 4);
    }
    if y % 400 == 0 {
      Multiple(4 * (y / 400), 100);
    }
  }

  lemma LeapDays(y: int)
    ensures DaysBeforeYear(y + 1) == DaysBeforeYear(y) + (if IsLeap(y) then 366 else 365)
  {
    QuotientGrows(y, 4);
    QuotientGrows(y, 100);
    QuotientGrows(y, 400);
    CyclesNest(y);
    assert DaysBeforeYear(y + 1) == 365 * y + y / 4 - y / 100 + y / 400;
  }

  /** The year found contains the day. */
  lemma YearContains(n: int)
    ensures DaysBeforeYear(YearOf(n)) < n <= DaysBeforeYear(YearOf(n) + 1)
  {
    var a, r := (n - 1) / 146097, (n - 1) % 146097;
    var b, s := r / 36524, r % 36524;
    var c, t := s / 1461, s % 1461;
    var e := t / 365;
    assert n - 1 == 146097 * a + 36524 * b + 1461 * c + t;
    assert 0 <= b <= 4 && 0 <= c <= 24 && 0 <= e <= 4;
    if b == 4 {
      assert s == 0;
      YearStart(a, 3, 24, 3);
      YearStart(a + 1, 0, 0, 0);
    } else if e == 4 {
      YearStart(a, b, c, 3);
      NextCycle(a, b, c);
    } else {
      YearStart(a, b, c, e);
      YearLength(400 * a + 100 * b + 4 * c + e + 1);
    }
  }

  lemma YearStart(a: int, b: int, c: int, e: int)
    requires 0 <= b <= 3 && 0 <= c <= 24 && 0 <= e <= 3
    ensures DaysBeforeYear(400 * a + 100 * b + 4 * c + e + 1) == 146097 * a + 36524 * b + 1461 * c + 365 * e
  {
    var x := 400 * a + 100 * b + 4 * c + e;
    assert x / 4 == 100 * a + 25 * b + c;
    assert x / 100 == 4 * a + b;
    assert x / 400 == a;
  }

  /** The year after the fourth of a cycle begins the next cycle. */
  lemma NextCycle(a: int, b: int, c: int)
    requires 0 <= b <= 3 && 0 <= c <= 24
    ensures DaysBeforeYear(400 * a + 100 * b + 4 * c + 5) >= 146097 * a + 36524 * b + 1461 * c + 1460
    ensures c < 24 || b == 3 ==> DaysBeforeYear(400 * a + 100 * b + 4 * c + 5) == 146097 * a + 36524 * b + 1461 * c + 1461
  {
    if c < 24 {
      YearStart(a, b, c + 1, 0);
    } else if b < 3 {
      YearStart(a, b + 1, 0, 0);
    } else {
      YearStart(a + 1, 0, 0, 0);
    }
  }

  lemma {:induction false} MonthContains(y: int, m: int, rest: int)
    requires 1 <= m <= 12 && DaysBeforeMonth(y, m) <= rest < DaysBeforeMonth(y, 13)
    ensures var k := MonthFrom(y, m, rest);
            m <= k <= 12 && DaysBeforeMonth(y, k) <= rest < DaysBeforeMonth(y, k) + DaysInMonth(y, k)
    decreases 12 - m
  {
    assert DaysBeforeMonth(y, m + 1) == DaysBeforeMonth(y, m) + DaysInMonth(y, m);
    if m < 12 && rest >= DaysBeforeMonth(y, m + 1) {
      MonthContains(y, m + 1, rest);
    }
  }

  /** Every day has a date, and it is the day of that date. */
  lemma DateOfDay(n: int)
    ensures ValidDate(DateOf(n)) && Ordinal(DateOf(n)) == n
  {
    YearContains(n);
    YearLength(YearOf(n));
    MonthContains(YearOf(n), 1, n - 1 - DaysBeforeYear(YearOf(n)));
  }

  lemma {:induction false} YearsAscend(y: int, z: int)
    requires y <= z
    ensures DaysBeforeYear(y) + (z - y) <= DaysBeforeYear(z)
    decreases z - y
  {
    if y < z {
      YearsAscend(y, z - 1);
      YearLength(z - 1);
    }
  }

  lemma {:induction false} MonthsAscend(y: int, m: int, k: int)
    requires 1 <= m <= k <= 13
    ensures DaysBeforeMonth(y, m) + (if m < k then DaysInMonth(y, m) else 0) <= DaysBeforeMonth(y, k)
    decreases k - m
  {
    if m < k {
      MonthsAscend(y, m, k - 1);
    }
  }

  predicate Earlier(a: Date, b: Date) {
    a.year < b.year || (a.year == b.year && (a.month < b.month || (a.month == b.month && a.day < b.day)))
  }

  /** Days come in the order of their dates. */
  lemma DatesAscend(a: Date, b: Date)
    requires ValidDate(a) && ValidDate(b) && Earlier(a, b)
    ensures Ordinal(a) < Ordinal(b)
  {
    if a.year < b.year {
      YearsAscend(a.year + 1, b.year);
      YearLength(a.year);
      MonthsAscend(a.year, a.month, 13);
      MonthsAscend(b.year, 1, b.month);
    } else if a.month < b.month {
      MonthsAscend(a.year, a.month, b.month);
    }
  }

  /** Every date is that of its day. */
  lemma DayOfDate(d: Date)
    requires ValidDate(d)
    ensures DateOf(Ordinal(d)) == d
  {
    var n := Ordinal(d);
    DateOfDay(n);
    if DateOf(n) != d {
      if Earlier(DateOf(n), d) {
        DatesAscend(DateOf(n), d);
      } else {
        DatesAscend(d, DateOf(n));
      }
    }
  }

  /** The first day of the next month; a month of fewer than 31 days is followed by one of 31. */
  lemma FirstOfNextMonth(d: Date) returns (next: Date)
    requires ValidDate(d)
    ensures ValidDate(next) && next.day == 1 && Ordinal(next) == Ordinal(d) + DaysInMonth(d.year, d.month) - d.day + 1
    ensures DaysInMonth(d.year, d.month) < 31 ==> DaysInMonth(next.year, next.month) == 31
  {
    if d.month < 12 {
      next := Date(d.year, d.month + 1, 1);
    } else {
      next := Date(d.year + 1, 1, 1);
      YearLength(d.year);
    }
  }

  /** ISO weekday, 1 for Monday. */
  function Weekday(day: int): int { (day - 1) % 7 + 1 }

  /** Counting back by the number of a weekday leads to a multiple of seven, and only for that weekday. */
  lemma WeekdayMeans(day: int, k: int)
    requires 1 <= k <= 7
    ensures Weekday(day) == k <==> (day - k) % 7 == 0
  {
  }
}
