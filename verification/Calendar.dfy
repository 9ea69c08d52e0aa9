/**
Conversion between broken-down times and microseconds since 1601
(libc/common/timeconv.c), for the years 1601 to 2400.
 */
module Calendar {

  const SECS_PER_DAY := 86400
  const MICROS := 1000000
  const FIRST_YEAR := 1601
  const LAST_YEAR := 2400

  datatype OsTime = OsTime(year: int, month: nat, day: nat, hour: nat, min: nat, sec: nat, microsec: nat)

  predicate IsLeapYear(year: int) {
    year % 4 == 0 && (year % 100 != 0 || year % 400 == 0)
  }

  /** Days before the first of the month after `months` months of a common year. */
  function CumulativeDays(months: nat): nat
    requires months <= 12
  {
    if months == 0 then 0 else if months == 1 then 31 else if months == 2 then 59 else if months == 3 then 90
    else if months == 4 then 120 else if months == 5 then 151 else if months == 6 then 181 else if months == 7 then 212
    else if months == 8 then 243 else if months == 9 then 273 else if months == 10 then 304
    else if months == 11 then 334 else 365
  }

  // ---- the calendar ----

  /** Leap years from 1601 up to but not including `year`. */
  ghost function LeapsBefore(year: int): nat
    requires year >= FIRST_YEAR
    decreases year
  {
    if year == FIRST_YEAR then 0 else LeapsBefore(year - 1) + if IsLeapYear(year - 1) then 1 else 0
  }

  function YearLength(year: int): nat {
    if IsLeapYear(year) then 366 else 365
  }

  /** Days from 1 January 1601 to 1 January of the year. */
  ghost function YearStart(year: int): nat
    requires year >= FIRST_YEAR
    decreases year
  {
    if year == FIRST_YEAR then 0 else YearStart(year - 1) + YearLength(year - 1)
  }

  /** Days from 1 January to the first of the month; month 13 is the next January. */
  function MonthStart(year: int, month: nat): nat
    requires 1 <= month <= 13
  {
    CumulativeDays(month - 1) + if month >= 3 && IsLeapYear(year) then 1 else 0
  }

  /** The times that get a value: the day is checked without looking at the month. */
  predicate Accepted(t: OsTime) {
    FIRST_YEAR <= t.year <= LAST_YEAR && 1 <= t.month <= 12 && 1 <= t.day <= 31
  }

  function MonthLength(year: int, month: nat): int
    requires 1 <= month <= 12
  {
    MonthStart(year, month + 1) - MonthStart(year, month)
  }

  ghost predicate ValidTime(t: OsTime) {
    && Accepted(t)
    && t.day <= MonthLength(t.year, t.month)
    && t.hour < 24 && t.min < 60 && t.sec < 60 && t.microsec < MICROS
  }

  ghost function DayOf(t: OsTime): nat
    requires Accepted(t)
  {
    YearStart(t.year) + MonthStart(t.year, t.month) + t.day - 1
  }

  ghost function SecondOf(t: OsTime): nat {
    t.hour * 3600 + t.min * 60 + t.sec
  }

  ghost function ValueOf(t: OsTime): nat
    requires Accepted(t)
  {
    (DayOf(t) * SECS_PER_DAY + SecondOf(t)) * MICROS + t.microsec
  }

  /** One microsecond past the last time of 2400. */
  ghost function Span(): nat {
    YearStart(LAST_YEAR + 1) * SECS_PER_DAY * MICROS
  }

  lemma MonthsIncrease(year: int, a: nat, b: nat)
    requires 1 <= a < b <= 13
    ensures MonthStart(year, a) < MonthStart(year, b) && MonthStart(year, b) <= YearLength(year)
  {
  }

  lemma {:induction false} YearsIncrease(a: int, b: int)
    requires FIRST_YEAR <= a <= b
    ensures YearStart(a) <= YearStart(b) && (a < b ==> YearStart(a) + YearLength(a) <= YearStart(b))
    decreases b
  {
    if a < b {
      YearsIncrease(a, b - 1);
    }
  }

  lemma {:induction false} YearStartCounts(year: int)
    requires year >= FIRST_YEAR
    ensures YearStart(year) == 365 * (year - FIRST_YEAR) + LeapsBefore(year)
    decreases year
  {
    if year > FIRST_YEAR {
      YearStartCounts(year - 1);
    }
  }

  lemma NextQuotients(y: nat)
    requires y > 0
    ensures y / 4 == (y - 1) / 4 + if y % 4 == 0 then 1 else 0
    ensures y / 100 == (y - 1) / 100 + if y % 100 == 0 then 1 else 0
    ensures y / 400 == (y - 1) / 400 + if y % 400 == 0 then 1 else 0
  {
  }

  lemma Multiples(y: nat)
    ensures y % 400 == 0 ==> y % 100 == 0
    ensures y % 100 == 0 ==> y % 4 == 0
  {
    assert y % 400 == 0 ==> y == 100 * (4 * (y / 400));
    assert y % 100 == 0 ==> y == 4 * (25 * (y / 100));
  }

  /** Leap years so far, by the rule of fours, hundreds and four hundreds. */
  lemma {:induction false} LeapsAre(year: nat)
    requires year >= FIRST_YEAR
    ensures LeapsBefore(year) == (year - 1) / 4 - (year - 1) / 100 + (year - 1) / 400 - 388
    decreases year
  {
    if year > FIRST_YEAR {
      LeapsAre(year - 1);
      NextQuotients(year - 1);
      Multiples(year - 1);
    }
  }

  /** The months have the lengths they have. */
  lemma MonthLengths(year: int, month: nat)
    requires 1 <= month <= 12
    ensures MonthLength(year, month) ==
            if month == 2 then (if IsLeapYear(year) then 29 else 28)
            else if month == 4 || month == 6 || month == 9 || month == 11 then 30 else 31
    ensures MonthStart(year, 1) == 0
  {
  }

  /** Days from 1601 to a year, by the rule. */
  lemma YearStartIs(year: nat, n: nat)
    requires year >= FIRST_YEAR && n == year - 1
    ensures YearStart(year) == 365 * (n - 1600) + n / 4 - n / 100 + n / 400 - 388
  {
    YearStartCounts(year);
    LeapsAre(year);
  }

  /** The first moment of a year is so many days of 86400 seconds after that of 1601. */
  lemma NewYear(t: OsTime, days: nat)
    requires Accepted(t) && YearStart(t.year) == days
    requires t.month == 1 && t.day == 1 && t.hour == 0 && t.min == 0 && t.sec == 0 && t.microsec == 0
    ensures ValueOf(t) == days * 86400 * 1000000
  {
  }

  /** The first moment of 1970 is as many seconds after that of 1601 as Unix time is behind. */
  lemma UnixEpoch(t: OsTime)
    requires Accepted(t) && t.year == 1970
    requires t.month == 1 && t.day == 1 && t.hour == 0 && t.min == 0 && t.sec == 0 && t.microsec == 0
    ensures ValueOf(t) == 11644473600 * 1000000
  {
    YearStartIs(t.year, 1969);
    NewYear(t, 134774);
  }

  // ---- order ----

  ghost predicate DateBefore(t: OsTime, u: OsTime) {
    || t.year < u.year
    || (t.year == u.year && t.month < u.month)
    || (t.year == u.year && t.month == u.month && t.day < u.day)
  }

  ghost predicate ClockBefore(t: OsTime, u: OsTime) {
    || t.hour < u.hour
    || (t.hour == u.hour && t.min < u.min)
    || (t.hour == u.hour && t.min == u.min && t.sec < u.sec)
  }

  ghost predicate SameDate(t: OsTime, u: OsTime) {
    t.year == u.year && t.month == u.month && t.day == u.day
  }

  ghost predicate SameClock(t: OsTime, u: OsTime) {
    t.hour == u.hour && t.min == u.min && t.sec == u.sec
  }

  /** Lexicographic order of broken-down times. */
  ghost predicate Before(t: OsTime, u: OsTime) {
    || DateBefore(t, u)
    || (SameDate(t, u) && ClockBefore(t, u))
    || (SameDate(t, u) && SameClock(t, u) && t.microsec < u.microsec)
  }

  lemma DaysIncrease(t: OsTime, u: OsTime)
    requires ValidTime(t) && ValidTime(u) && DateBefore(t, u)
    ensures DayOf(t) < DayOf(u)
  {
    MonthsIncrease(t.year, t.month, t.month + 1);
    if t.year < u.year {
      YearsIncrease(t.year, u.year);
    } else if t.month < u.month && t.month + 1 != u.month {
      MonthsIncrease(t.year, t.month + 1, u.month);
    }
  }

  /** The value is strictly increasing in the lexicographic order of the times. */
  lemma ValueIncreases(t: OsTime, u: OsTime)
    requires ValidTime(t) && ValidTime(u) && Before(t, u)
    ensures ValueOf(t) < ValueOf(u)
  {
    if DateBefore(t, u) {
      DaysIncrease(t, u);
    }
  }

  /** No two times have the same value. */
  lemma ValueIsUnique(t: OsTime, u: OsTime)
    requires ValidTime(t) && ValidTime(u) && ValueOf(t) == ValueOf(u)
    ensures t == u
  {
    if Before(t, u) {
      ValueIncreases(t, u);
    } else if Before(u, t) {
      ValueIncreases(u, t);
    }
  }

  lemma ValueInSpan(t: OsTime)
    requires ValidTime(t)
    ensures ValueOf(t) < Span()
  {
    MonthsIncrease(t.year, t.month, t.month + 1);
    YearsIncrease(t.year, LAST_YEAR + 1);
    assert DayOf(t) + 1 <= YearStart(LAST_YEAR + 1);
  }

  // ---- the code ----

  lemma {:induction false} NoLeapsBetween(a: int, b: int)
    requires FIRST_YEAR <= a <= b && a % 4 == 1 && b - a <= 3
    ensures LeapsBefore(b) == LeapsBefore(a)
    decreases b
  {
    if a != b {
      NoLeapsBetween(a, b - 1);
    }
  }

  lemma NextFour(i: int)
    requires i >= 1604 && i % 4 == 0
    ensures LeapsBefore(i + 1) == LeapsBefore(i - 3) + if IsLeapYear(i) then 1 else 0
  {
    NoLeapsBetween(i - 3, i);
  }

  method GetFullLeapYearsSince1601(year: int) returns (leaps: nat)
    requires year >= FIRST_YEAR
    ensures leaps == LeapsBefore(year)
  {
    leaps := 0;
    var i := 1604;
    while i < year
      invariant i % 4 == 0 && i >= 1604 && i - 4 < year
      invariant leaps == LeapsBefore(i - 3)
    {
      NextFour(i);
      if IsLeapYear(i) {
        leaps := leaps + 1;
      }
      i := i + 4;
    }
    NoLeapsBetween(i - 3, year);
  }

  /** A day past the end of its month, up to the 31st, stands for a day at the start of the next month. */
  lemma DayCarries(t: OsTime)
    requires Accepted(t) && t.day > MonthLength(t.year, t.month)
    ensures var u := t.(month := t.month + 1, day := t.day - MonthLength(t.year, t.month));
            u.month <= 12 && 1 <= u.day <= 3 && ValueOf(t) == ValueOf(u)
  {
  }

  /** Out-of-range years, months and days give 0. */
  method TimeStructToValue(t: OsTime) returns (v: nat)
    ensures v == if Accepted(t) then ValueOf(t) else 0
  {
    if t.year < 1601 || t.year > 2400 {
      return 0;
    }
    if t.month < 1 || t.month > 12 {
      return 0;
    }
    if t.day < 1 || t.day > 31 {
      return 0;
    }
    var totalSecs := t.sec + t.min * 60 + t.hour * 3600;
    var days := t.day - 1;
    days := days + CumulativeDays(t.month - 1);
    if IsLeapYear(t.year) && t.month >= 3 {
      days := days + 1;
    }
    days := days + 365 * (t.year - 1601);
    var leaps := GetFullLeapYearsSince1601(t.year);
    days := days + leaps;
    YearStartCounts(t.year);
    totalSecs := totalSecs + days * SECS_PER_DAY;
    v := totalSecs * MICROS + t.microsec;
  }

  /** The loop over the months of a year; month 13 says that the day is not in this year. */
  method FindMonth(year: int, days: nat) returns (month: nat, rest: nat)
    ensures days >= YearLength(year) ==> month == 13 && rest == days
    ensures days < YearLength(year) ==>
              && 1 <= month <= 12 && MonthStart(year, month) + rest == days
              && days < MonthStart(year, month + 1)
  {
    month, rest := 1, days;
    var i := 1;
    while i <= 12
      invariant 1 <= i <= 13 && month == i && rest == days && MonthStart(year, i) <= days
    {
      var leap := if i >= 2 && IsLeapYear(year) then 1 else 0;
      if rest >= CumulativeDays(i) + leap {
        month := month + 1;
      } else {
        var prior := CumulativeDays(i - 1) + if i - 1 >= 2 && IsLeapYear(year) then 1 else 0;
        rest := rest - prior;
        MonthsIncrease(year, i, i + 1);
        if i < 12 {
          MonthsIncrease(year, i + 1, 13);
        }
        return;
      }
      i := i + 1;
    }
  }

  /** The loop over the years. */
  method FindDate(days: nat) returns (year: int, month: nat, rest: nat)
    ensures days < YearStart(LAST_YEAR + 1) ==>
              && FIRST_YEAR <= year <= LAST_YEAR && 1 <= month <= 12
              && YearStart(year) + MonthStart(year, month) + rest == days
              && MonthStart(year, month) + rest < MonthStart(year, month + 1)
    ensures days >= YearStart(LAST_YEAR + 1) ==> year == LAST_YEAR + 1
  {
    year, month, rest := 1601, 1, days;
    while true
      invariant FIRST_YEAR <= year <= LAST_YEAR + 1 && YearStart(year) + rest == days
      decreases LAST_YEAR + 1 - year
    {
      if year > 2400 {
        break;
      }
      var inYear := rest;
      month, rest := FindMonth(year, rest);
      if month == 13 {
        rest := rest - if IsLeapYear(year) then 366 else 365;
        year := year + 1;
      } else {
        YearsIncrease(year, LAST_YEAR + 1);
        return;
      }
    }
  }

  lemma ClockOf(secs: nat)
    ensures secs % SECS_PER_DAY == secs / 3600 % 24 * 3600 + secs / 60 % 60 * 60 + secs % 60
  {
    var h := secs / 3600;
    assert secs / 60 / 60 == h && secs / 60 == h * 60 + secs / 60 % 60;
    assert h / 24 == secs / SECS_PER_DAY;
  }

  method TimeValueToStruct(t: nat) returns (r: OsTime)
    ensures t < Span() ==> ValidTime(r) && ValueOf(r) == t
    ensures t >= Span() ==> r.year == LAST_YEAR + 1
  {
    var microsec, secs := t % MICROS, t / MICROS;
    var days := secs / SECS_PER_DAY;
    var year, month, rest := FindDate(days);
    r := OsTime(year, month, rest + 1, secs / 3600 % 24, secs / 60 % 60, secs % 60, microsec);
    ClockOf(secs);
    assert t < Span() <==> days < YearStart(LAST_YEAR + 1);
  }

  /** Every valid time comes back from its value. */
  method TimeRoundTrip(t: OsTime) returns (r: OsTime)
    requires ValidTime(t)
    ensures r == t
  {
    var v := TimeStructToValue(t);
    ValueInSpan(t);
    r := TimeValueToStruct(v);
    ValueIsUnique(r, t);
  }

  /** A value comes back from its time exactly when it is inside the span. */
  method ValueRoundTrip(v: nat) returns (w: nat)
    ensures w == v <==> v < Span()
  {
    var t := TimeValueToStruct(v);
    w := TimeStructToValue(t);
    assert Span() > 0 by {
      YearsIncrease(FIRST_YEAR, LAST_YEAR + 1);
    }
  }
}
