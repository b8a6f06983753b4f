/**
 The proleptic Gregorian calendar as Python's `datetime` implements it, at minute resolution.

 Instants are compared through `Stamp`, a count of minutes from 0001-01-01 00:00.  The proofs about
 the cron search compare field by field instead (`Before`); `StampOrder` connects the two.
 */
module Calendar {

  datatype DateTime = DateTime(year: int, month: int, day: int, hour: int, minute: int)

  predicate IsLeap(y: int) {
    y % 4 == 0 && (y % 100 != 0 || y % 400 == 0)
  }

  function DaysInMonth(y: int, m: int): (n: int)
    requires 1 <= m <= 12
    ensures 28 <= n <= 31
  {
    if m == 2 then (if IsLeap(y) then 29 else 28)
    else if m == 4 || m == 6 || m == 9 || m == 11 then 30
    else 31
  }

  predicate ValidDate(y: int, m: int, d: int) {
    1 <= y && 1 <= m <= 12 && 1 <= d <= DaysInMonth(y, m)
  }

  predicate Valid(t: DateTime) {
    ValidDate(t.year, t.month, t.day) && 0 <= t.hour < 24 && 0 <= t.minute < 60
  }

  function DaysInYear(y: int): int {
    if IsLeap(y) then 366 else 365
  }

  /** Number of days before January 1st of year `y`. */
  function DaysBeforeYear(y: int): (n: int)
    requires 1 <= y
    ensures n >= 0
  {
    if y == 1 then 0 else DaysBeforeYear(y - 1) + DaysInYear(y - 1)
  }

  /** Number of days in year `y` before the first of month `m`. */
  function DaysBeforeMonth(y: int, m: int): (n: int)
    requires 1 <= m <= 13
    ensures n >= 0
  {
    if m == 1 then 0 else DaysBeforeMonth(y, m - 1) + DaysInMonth(y, m - 1)
  }

  /** `date.toordinal()`: 0001-01-01 is day 1. */
  function Ordinal(y: int, m: int, d: int): int
    requires 1 <= y && 1 <= m <= 12
  {
    DaysBeforeYear(y) + DaysBeforeMonth(y, m) + d
  }

  /** `datetime.weekday()`: Monday is 0 and Sunday is 6. */
  function Weekday(t: DateTime): (w: int)
    requires Valid(t)
    ensures 0 <= w < 7
  {
    DayOfWeek(Ordinal(t.year, t.month, t.day))
  }

  function DayOfWeek(ordinal: int): (w: int)
    ensures 0 <= w < 7
  {
    (ordinal + 6) % 7
  }

  function Stamp(t: DateTime): int
    requires Valid(t)
  {
    (Ordinal(t.year, t.month, t.day) * 24 + t.hour) * 60 + t.minute
  }

  /** Lexicographic order on the five fields. */
  predicate Before(a: DateTime, b: DateTime) {
    || a.year < b.year
    || (a.year == b.year &&
        (|| a.month < b.month
         || (a.month == b.month &&
             (|| a.day < b.day
              || (a.day == b.day &&
                  (a.hour < b.hour || (a.hour == b.hour && a.minute < b.minute)))))))
  }

  predicate AtOrBefore(a: DateTime, b: DateTime) {
    a == b || Before(a, b)
  }

  // ---------- steps ----------

  function NextDay(t: DateTime): (r: DateTime)
    requires Valid(t)
    ensures Valid(r) && r.hour == 0 && r.minute == 0
  {
    if t.day < DaysInMonth(t.year, t.month) then DateTime(t.year, t.month, t.day + 1, 0, 0)
    else FirstOfNextMonth(t)
  }

  function FirstOfNextMonth(t: DateTime): (r: DateTime)
    requires Valid(t)
    ensures Valid(r) && r.day == 1 && r.hour == 0 && r.minute == 0
  {
    if t.month == 12 then DateTime(t.year + 1, 1, 1, 0, 0) else DateTime(t.year, t.month + 1, 1, 0, 0)
  }

  function NextHour(t: DateTime): (r: DateTime)
    requires Valid(t)
    ensures Valid(r) && r.minute == 0
  {
    if t.hour < 23 then t.(hour := t.hour + 1, minute := 0) else NextDay(t)
  }

  function NextMinute(t: DateTime): (r: DateTime)
    requires Valid(t)
    ensures Valid(r)
  {
    if t.minute < 59 then t.(minute := t.minute + 1) else NextHour(t)
  }

  /** A count of months, so that the month of year is the count modulo twelve. */
  function MonthIndex(t: DateTime): int {
    t.year * 12 + t.month - 1
  }

  // ---------- the field steps are exactly timedelta additions ----------

  /** The year count in closed form, with the Gregorian leap rule in its three divisions. */
  lemma {:induction false} YearsClosedForm(y: int)
    requires 1 <= y
    ensures DaysBeforeYear(y) == (y - 1) * 365 + LeapsUpTo(y - 1)
  {
    if y > 1 {
      YearsClosedForm(y - 1);
      LeapsUpToSteps(y - 1);
    }
  }

  function LeapsUpTo(n: int): int {
    n / 4 - n / 100 + n / 400
  }

  lemma LeapsUpToSteps(n: int)
    ensures LeapsUpTo(n) == LeapsUpTo(n - 1) + if IsLeap(n) then 1 else 0
  {
    FourthsStep(n);
    CenturiesStep(n);
    CyclesStep(n);
    if n % 400 == 0 {
      CyclesAreCenturies(n);
    } else if n % 100 == 0 {
      CenturiesAreFourths(n);
    }
  }

  lemma FourthsStep(n: int)
    ensures n / 4 == (n - 1) / 4 + if n % 4 == 0 then 1 else 0
  {
  }

  lemma CenturiesStep(n: int)
    ensures n / 100 == (n - 1) / 100 + if n % 100 == 0 then 1 else 0
  {
  }

  lemma CyclesStep(n: int)
    ensures n / 400 == (n - 1) / 400 + if n % 400 == 0 then 1 else 0
  {
  }

  lemma CenturiesAreFourths(n: int)
    requires n % 100 == 0
    ensures n % 4 == 0
  {
  }

  lemma CyclesAreCenturies(n: int)
    requires n % 400 == 0
    ensures n % 100 == 0 && n % 4 == 0
  {
  }

  /** The twelve months add up to the year. */
  lemma MonthsFillYear(y: int)
    ensures DaysBeforeMonth(y, 13) == DaysInYear(y)
  {
    assert DaysBeforeMonth(y, 2) == 31;
    assert DaysBeforeMonth(y, 3) == if IsLeap(y) then 60 else 59;
    assert DaysBeforeMonth(y, 4) == if IsLeap(y) then 91 else 90;
    assert DaysBeforeMonth(y, 5) == if IsLeap(y) then 121 else 120;
    assert DaysBeforeMonth(y, 6) == if IsLeap(y) then 152 else 151;
    assert DaysBeforeMonth(y, 7) == if IsLeap(y) then 182 else 181;
    assert DaysBeforeMonth(y, 8) == if IsLeap(y) then 213 else 212;
    assert DaysBeforeMonth(y, 9) == if IsLeap(y) then 244 else 243;
    assert DaysBeforeMonth(y, 10) == if IsLeap(y) then 274 else 273;
    assert DaysBeforeMonth(y, 11) == if IsLeap(y) then 305 else 304;
    assert DaysBeforeMonth(y, 12) == if IsLeap(y) then 335 else 334;
  }

  lemma NextDayIsNextOrdinal(t: DateTime)
    requires Valid(t)
    ensures var n := NextDay(t); Ordinal(n.year, n.month, n.day) == Ordinal(t.year, t.month, t.day) + 1
  {
    MonthsFillYear(t.year);
    if t.day == DaysInMonth(t.year, t.month) {
      MonthEndIsNextOrdinal(t.year, t.month);
    }
    hide DaysBeforeMonth, DaysBeforeYear, DaysInMonth;
  }

  /** The last day of a month is followed by the first of the next one. */
  lemma MonthEndIsNextOrdinal(y: int, m: int)
    requires 1 <= y && 1 <= m <= 12
    ensures Ordinal(y, m, DaysInMonth(y, m)) + 1 == if m < 12 then Ordinal(y, m + 1, 1) else Ordinal(y + 1, 1, 1)
  {
    MonthsFillYear(y);
    MonthStep(y, m);
    hide DaysBeforeMonth, DaysInMonth;
    assert DaysBeforeMonth(y + 1, 1) == 0 by { JanuaryFirst(y + 1); }
  }

  lemma MonthStep(y: int, m: int)
    requires 1 <= m <= 12
    ensures DaysBeforeMonth(y, m + 1) == DaysBeforeMonth(y, m) + DaysInMonth(y, m)
  {
    hide DaysInMonth;
  }

  lemma JanuaryFirst(y: int)
    ensures DaysBeforeMonth(y, 1) == 0
  {}

  /** Adding one day, one hour or one minute by fields adds exactly that to the stamp. */
  lemma StepsAreExact(t: DateTime)
    requires Valid(t)
    ensures Stamp(NextDay(t)) == Stamp(t.(hour := 0, minute := 0)) + 24 * 60
    ensures Stamp(NextHour(t)) == Stamp(t.(minute := 0)) + 60
    ensures Stamp(NextMinute(t)) == Stamp(t) + 1
  {
    NextDayIsNextOrdinal(t);
  }

  /** Consecutive days have consecutive weekdays. */
  lemma WeekdayCycles(t: DateTime)
    requires Valid(t)
    ensures Weekday(NextDay(t)) == (Weekday(t) + 1) % 7
  {
    NextDayIsNextOrdinal(t);
    DayOfWeekSteps(Ordinal(t.year, t.month, t.day));
  }

  lemma DayOfWeekSteps(ordinal: int)
    ensures DayOfWeek(ordinal + 1) == (DayOfWeek(ordinal) + 1) % 7
  {
  }

  /** The cycle is anchored: 2026-03-09 is a Monday. */
  lemma WeekdayAnchor()
    ensures Weekday(DateTime(2026, 3, 9, 0, 0)) == 0
  {
    YearsClosedForm(2026);
    assert LeapsUpTo(2025) == 491;
    assert DaysBeforeMonth(2026, 2) == 31;
    assert DaysBeforeMonth(2026, 3) == 59;
  }

  // ---------- the stamp order is the field order ----------

  lemma {:induction false} MonthsAccumulate(y: int, m: int, m': int)
    requires 1 <= m < m' <= 13
    ensures DaysBeforeMonth(y, m) + DaysInMonth(y, m) <= DaysBeforeMonth(y, m')
    decreases m'
  {
    if m + 1 < m' {
      MonthsAccumulate(y, m, m' - 1);
    }
  }

  lemma {:induction false} YearsAccumulate(y: int, y': int)
    requires 1 <= y < y'
    ensures DaysBeforeYear(y) + DaysInYear(y) <= DaysBeforeYear(y')
    decreases y'
  {
    if y + 1 < y' {
      YearsAccumulate(y, y' - 1);
    }
  }

  lemma OrdinalIncreases(a: DateTime, b: DateTime)
    requires Valid(a) && Valid(b)
    requires Before(a.(hour := 0, minute := 0), b.(hour := 0, minute := 0))
    ensures Ordinal(a.year, a.month, a.day) < Ordinal(b.year, b.month, b.day)
  {
    if a.year < b.year {
      YearsAccumulate(a.year, b.year);
      MonthsFillYear(a.year);
      MonthsAccumulate(a.year, a.month, 13);
    } else if a.month < b.month {
      MonthsAccumulate(a.year, a.month, b.month);
    }
  }

  lemma StampIncreases(a: DateTime, b: DateTime)
    requires Valid(a) && Valid(b) && Before(a, b)
    ensures Stamp(a) < Stamp(b)
  {
    if (a.year, a.month, a.day) != (b.year, b.month, b.day) {
      OrdinalIncreases(a, b);
    }
  }

  /** Comparing instants and comparing fields agree. */
  lemma StampOrder(a: DateTime, b: DateTime)
    requires Valid(a) && Valid(b)
    ensures Before(a, b) <==> Stamp(a) < Stamp(b)
    ensures a == b <==> Stamp(a) == Stamp(b)
  {
    if Before(a, b) {
      StampIncreases(a, b);
    } else if Before(b, a) {
      StampIncreases(b, a);
    }
  }
}
