/**
 * The proleptic Gregorian calendar in UTC, as the date library presents it:
 * seconds are counted from the start of the year 0.
 */
module Calendar {

  const DAY: nat := 86400

  predicate IsLeap(year: nat) {
    year % 4 == 0 && (year % 100 != 0 || year % 400 == 0)
  }

  function DaysInYear(year: nat): nat {
    if IsLeap(year) then 366 else 365
  }

  function DaysInMonth(year: nat, month: nat): nat {
    if month == 2 then if IsLeap(year) then 29 else 28
    else if month in {4, 6, 9, 11} then 30
    else 31
  }

  function DaysBeforeYear(year: nat): nat {
    if year == 0 then 0 else DaysBeforeYear(year - 1) + DaysInYear(year - 1)
  }

  function DaysBeforeMonth(year: nat, month: nat): nat
    requires 1 <= month <= 13
  {
    if month == 1 then 0 else DaysBeforeMonth(year, month - 1) + DaysInMonth(year, month - 1)
  }

  lemma MonthsFillTheYear(year: nat)
    ensures DaysBeforeMonth(year, 13) == DaysInYear(year)
  {
    assert DaysBeforeMonth(year, 2) == 31;
    assert DaysBeforeMonth(year, 3) == 31 + DaysInMonth(year, 2);
    assert DaysBeforeMonth(year, 5) == DaysBeforeMonth(year, 3) + 31 + 30;
    assert DaysBeforeMonth(year, 7) == DaysBeforeMonth(year, 5) + 31 + 30;
    assert DaysBeforeMonth(year, 9) == DaysBeforeMonth(year, 7) + 31 + 31;
    assert DaysBeforeMonth(year, 11) == DaysBeforeMonth(year, 9) + 30 + 31;
    assert DaysBeforeMonth(year, 13) == DaysBeforeMonth(year, 11) + 30 + 31;
  }

  /** Of all years before `year`, every fourth is a leap year, but for three centuries in four. */
  function LeapYearsBefore(year: nat): int {
    (year + 3) / 4 - (year + 99) / 100 + (year + 399) / 400
  }

  lemma OneLeapYearMore(year: nat)
    ensures LeapYearsBefore(year + 1) == LeapYearsBefore(year) + if IsLeap(year) then 1 else 0
  {
    assert (year + 4) / 4 - (year + 3) / 4 == if year % 4 == 0 then 1 else 0;
    assert (year + 100) / 100 - (year + 99) / 100 == if year % 100 == 0 then 1 else 0;
    assert (year + 400) / 400 - (year + 399) / 400 == if year % 400 == 0 then 1 else 0;
    assert year % 400 == 0 ==> year % 100 == 0;
    assert year % 100 == 0 ==> year % 4 == 0;
  }

  /** The days before a year, counted without going through the years. */
  lemma {:induction false} DaysOfYears(year: nat)
    ensures DaysBeforeYear(year) == 365 * year + LeapYearsBefore(year)
  {
    if year > 0 {
      DaysOfYears(year - 1);
      OneLeapYearMore(year - 1);
    }
  }

  /** The days before each month, in a common year and in a leap year. */
  lemma DaysOfMonths(year: nat, month: nat)
    requires 1 <= month <= 12
    ensures DaysBeforeMonth(year, month) ==
      [0, 31, 59, 90, 120, 151, 181, 212, 243, 273, 304, 334][month - 1]
      + if month > 2 && DaysInYear(year) == 366 then 1 else 0
  {
    if month > 1 {
      DaysOfMonths(year, month - 1);
    }
  }

  // ------------------------------------------------------------------
  // Dates and their instants
  // ------------------------------------------------------------------

  datatype Civil = Civil(year: nat, month: nat, day: nat, hour: nat, minute: nat, second: nat)

  predicate ValidCivil(c: Civil) {
    && 1 <= c.month <= 12 && 1 <= c.day <= DaysInMonth(c.year, c.month)
    && c.hour < 24 && c.minute < 60 && c.second < 60
  }

  function DayNumber(year: nat, month: nat, day: nat): nat
    requires 1 <= month <= 12 && 1 <= day
  {
    DaysBeforeYear(year) + DaysBeforeMonth(year, month) + day - 1
  }

  function Seconds(c: Civil): nat
    requires ValidCivil(c)
  {
    DayNumber(c.year, c.month, c.day) * DAY + c.hour * 3600 + c.minute * 60 + c.second
  }

  /** The year that holds a day, counting on from `year`, and the day's number in it. */
  function YearOf(days: nat, year: nat): (r: (nat, nat))
    ensures r.0 >= year && r.1 < DaysInYear(r.0)
    ensures DaysBeforeYear(year) + days == DaysBeforeYear(r.0) + r.1
  {
    if days < DaysInYear(year) then (year, days) else YearOf(days - DaysInYear(year), year + 1)
  }

  /** The month that holds a day of `year`, counting on from `month`. */
  function MonthOf(year: nat, days: nat, month: nat): (r: (nat, nat))
    requires 1 <= month <= 12 && DaysBeforeMonth(year, month) + days < DaysInYear(year)
    ensures month <= r.0 <= 12 && r.1 < DaysInMonth(year, r.0)
    ensures DaysBeforeMonth(year, month) + days == DaysBeforeMonth(year, r.0) + r.1
    decreases 12 - month
  {
    MonthsFillTheYear(year);
    if days < DaysInMonth(year, month) then (month, days)
    else MonthOf(year, days - DaysInMonth(year, month), month + 1)
  }

  /** The date and time of an instant. */
  function CivilOf(t: nat): Civil {
    var (year, dayOfYear) := YearOf(t / DAY, 0);
    var (month, day) := MonthOf(year, dayOfYear, 1);
    var s := t % DAY;
    Civil(year, month, day + 1, s / 3600, s / 60 % 60, s % 60)
  }

  lemma CivilOfInstant(t: nat)
    ensures ValidCivil(CivilOf(t)) && Seconds(CivilOf(t)) == t
  {
    var c, s := CivilOf(t), t % DAY;
    DateOfDays(t / DAY);
    ClockOfSeconds(s);
    assert t == t / DAY * DAY + s;
  }

  lemma DateOfDays(days: nat)
    ensures var (year, dayOfYear) := YearOf(days, 0);
      var (month, day) := MonthOf(year, dayOfYear, 1);
      1 <= month <= 12 && day < DaysInMonth(year, month) && DayNumber(year, month, day + 1) == days
  {
  }

  lemma ClockOfSeconds(s: nat)
    requires s < DAY
    ensures s / 3600 < 24 && s == s / 3600 * 3600 + s / 60 % 60 * 60 + s % 60
  {
    assert s / 60 / 60 == s / 3600;
    assert s / 60 == s / 3600 * 60 + s / 60 % 60;
  }

  // ------------------------------------------------------------------
  // Later in the calendar is later in time
  // ------------------------------------------------------------------

  /** Lexicographic order on year, month, day, hour, minute, second. */
  predicate Before(a: Civil, b: Civil) {
    || a.year < b.year
    || (a.year == b.year && (
        || a.month < b.month
        || (a.month == b.month && (
            || a.day < b.day
            || (a.day == b.day && (
                || a.hour < b.hour
                || (a.hour == b.hour && (
                    || a.minute < b.minute
                    || (a.minute == b.minute && a.second < b.second)))))))))
  }

  lemma {:induction false} YearsAscend(a: nat, b: nat)
    requires a < b
    ensures DaysBeforeYear(a) + DaysInYear(a) <= DaysBeforeYear(b)
  {
    if a + 1 < b {
      YearsAscend(a, b - 1);
    }
  }

  lemma {:induction false} MonthsAscend(year: nat, a: nat, b: nat)
    requires 1 <= a < b <= 13
    ensures DaysBeforeMonth(year, a) + DaysInMonth(year, a) <= DaysBeforeMonth(year, b)
  {
    if a + 1 < b {
      MonthsAscend(year, a, b - 1);
    }
  }

  lemma DaysAscend(a: Civil, b: Civil)
    requires ValidCivil(a) && ValidCivil(b)
    requires a.year < b.year || (a.year == b.year && (a.month < b.month || (a.month == b.month && a.day < b.day)))
    ensures DayNumber(a.year, a.month, a.day) < DayNumber(b.year, b.month, b.day)
  {
    if a.year < b.year {
      YearsAscend(a.year, b.year);
      MonthsAscend(a.year, a.month, 13);
      MonthsFillTheYear(a.year);
    } else if a.month < b.month {
      MonthsAscend(a.year, a.month, b.month);
    }
  }

  lemma BeforeIsEarlier(a: Civil, b: Civil)
    requires ValidCivil(a) && ValidCivil(b) && Before(a, b)
    ensures Seconds(a) < Seconds(b)
  {
    var m, n := DayNumber(a.year, a.month, a.day), DayNumber(b.year, b.month, b.day);
    if a.year == b.year && a.month == b.month && a.day == b.day {
      assert m == n;
    } else {
      DaysAscend(a, b);
      assert (m + 1) * DAY <= n * DAY;
    }
  }

  /** The calendar order of dates is the order of their instants. */
  lemma CalendarOrder(a: Civil, b: Civil)
    requires ValidCivil(a) && ValidCivil(b)
    ensures Before(a, b) <==> Seconds(a) < Seconds(b)
  {
    if Before(a, b) {
      BeforeIsEarlier(a, b);
    } else if Before(b, a) {
      BeforeIsEarlier(b, a);
    } else {
      assert a == b;
    }
  }

  /** Two valid dates of the same instant are the same date. */
  lemma SecondsInjective(a: Civil, b: Civil)
    requires ValidCivil(a) && ValidCivil(b) && Seconds(a) == Seconds(b)
    ensures a == b
  {
    CalendarOrder(a, b);
    CalendarOrder(b, a);
  }

  /** Dates and instants correspond one to one. */
  lemma InstantOfCivil(c: Civil)
    requires ValidCivil(c)
    ensures CivilOf(Seconds(c)) == c
  {
    CivilOfInstant(Seconds(c));
    SecondsInjective(CivilOf(Seconds(c)), c);
  }
}
