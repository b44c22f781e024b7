/**
 * The ISO-8601 proleptic Gregorian calendar of java.time.LocalDate, reduced to
 * what the service needs: valid dates, month lengths, day numbers (so that
 * plusDays/minusDays and ChronoUnit.DAYS.between become integer arithmetic),
 * month intervals on the day line, and timestamps at whole-second precision.
 */
module Calendar {

  const MinYear: int := -999_999_999
  const MaxYear: int := 999_999_999
  const SecondsPerDay: int := 86400

  /** The ISO leap-year rule (LocalDate.isLeapYear): divisible by 4, and not by 100 unless by 400. */
  predicate IsLeapYear(y: int) {
    y % 4 == 0 && (y % 100 != 0 || y % 400 == 0)
  }

  /** LocalDate.lengthOfMonth(). */
  function DaysInMonth(y: int, m: int): (n: int)
    requires 1 <= m <= 12
    ensures 28 <= n <= 31
  {
    if m == 2 then (if IsLeapYear(y) then 29 else 28)
    else if m == 4 || m == 6 || m == 9 || m == 11 then 30
    else 31
  }

  function DaysInYear(y: int): int {
    if IsLeapYear(y) then 366 else 365
  }

  /** Days of year y that precede the first of month m (m == 13 gives the whole year). */
  function DaysBeforeMonth(y: int, m: int): (n: int)
    requires 1 <= m <= 13
  {
    [0, 31, 59, 90, 120, 151, 181, 212, 243, 273, 304, 334, 365][m - 1]
      + (if m > 2 && IsLeapYear(y) then 1 else 0)
  }

  /** Month m of year y fills exactly DaysInMonth(y, m) days before month m + 1. */
  lemma MonthStep(y: int, m: int)
    requires 1 <= m <= 12
    ensures DaysBeforeMonth(y, m + 1) == DaysBeforeMonth(y, m) + DaysInMonth(y, m)
  {
  }

  /** The months, laid end to end, make up the year: 365 days, or 366 in a leap year. */
  lemma {:induction false} MonthsFillYear(y: int, m: int)
    requires 1 <= m <= 13
    ensures DaysBeforeMonth(y, m) == SumOfMonths(y, m - 1)
    ensures DaysBeforeMonth(y, 13) == DaysInYear(y)
    decreases m
  {
    if m > 1 {
      MonthsFillYear(y, m - 1);
      MonthStep(y, m - 1);
    }
  }

  /** The lengths of the first k months of year y, added up. */
  function SumOfMonths(y: int, k: int): int
    requires 0 <= k <= 12
  {
    if k == 0 then 0 else SumOfMonths(y, k - 1) + DaysInMonth(y, k)
  }

  /** Leap years among 1..n (for n <= 0, minus those among n+1..0); Dafny's / is floor division here. */
  function LeapsThrough(n: int): int {
    n / 4 - n / 100 + n / 400
  }

  /** The day number of January 1st of year y; day 0 is 1970-01-01. */
  function YearStart(y: int): int {
    365 * (y - 1970) + LeapsThrough(y - 1) - LeapsThrough(1969)
  }

  lemma FloorStep(y: int, k: int)
    requires k == 4 || k == 100 || k == 400
    ensures y / k - (y - 1) / k == if y % k == 0 then 1 else 0
  {
  }

  /** Consecutive years are DaysInYear apart on the day line. */
  lemma YearStep(y: int)
    ensures YearStart(y + 1) == YearStart(y) + DaysInYear(y)
  {
    FloorStep(y, 4);
    FloorStep(y, 100);
    FloorStep(y, 400);
  }

  lemma {:induction false} YearStartMonotone(a: int, b: int)
    requires a <= b
    ensures YearStart(a) + 365 * (b - a) <= YearStart(b)
    decreases b - a
  {
    if a < b {
      YearStartMonotone(a, b - 1);
      YearStep(b - 1);
    }
  }

  /** The day number of the first of month m of year y. */
  function MonthStart(y: int, m: int): int
    requires 1 <= m <= 12
  {
    YearStart(y) + DaysBeforeMonth(y, m)
  }

  /** The month after (y, m), as LocalDate.plusMonths(1) reaches it from the first of the month. */
  function NextMonth(y: int, m: int): (r: (int, int))
    requires 1 <= m <= 12
    ensures 1 <= r.1 <= 12
  {
    if m == 12 then (y + 1, 1) else (y, m + 1)
  }

  /** The first of the next month is DaysInMonth(y, m) days after the first of this month. */
  lemma NextMonthStart(y: int, m: int)
    requires 1 <= m <= 12
    ensures MonthStart(NextMonth(y, m).0, NextMonth(y, m).1) == MonthStart(y, m) + DaysInMonth(y, m)
  {
    MonthStep(y, m);
    if m == 12 {
      MonthsFillYear(y, 13);
      YearStep(y);
    }
  }

  predicate MonthBefore(y1: int, m1: int, y2: int, m2: int) {
    y1 < y2 || (y1 == y2 && m1 < m2)
  }

  /** An earlier month ends (its last day included) before a later month begins. */
  lemma MonthsInOrder(y1: int, m1: int, y2: int, m2: int)
    requires 1 <= m1 <= 12 && 1 <= m2 <= 12
    requires MonthBefore(y1, m1, y2, m2)
    ensures MonthStart(y1, m1) + DaysInMonth(y1, m1) <= MonthStart(y2, m2)
  {
    MonthStep(y1, m1);
    if y1 < y2 {
      MonthsFillYear(y1, 13);
      assert DaysBeforeMonth(y1, m1 + 1) <= DaysBeforeMonth(y1, 13);
      YearStep(y1);
      YearStartMonotone(y1 + 1, y2);
    }
  }

  /** Day number d lies in month (y, m): between the first and the last of that month. */
  predicate InMonth(d: int, y: int, m: int)
    requires 1 <= m <= 12
  {
    MonthStart(y, m) <= d <= MonthStart(y, m) + DaysInMonth(y, m) - 1
  }

  /** A day lies in at most one month. */
  lemma MonthsDisjoint(d: int, y1: int, m1: int, y2: int, m2: int)
    requires 1 <= m1 <= 12 && 1 <= m2 <= 12
    requires InMonth(d, y1, m1) && InMonth(d, y2, m2)
    ensures y1 == y2 && m1 == m2
  {
    if MonthBefore(y1, m1, y2, m2) {
      MonthsInOrder(y1, m1, y2, m2);
    } else if MonthBefore(y2, m2, y1, m1) {
      MonthsInOrder(y2, m2, y1, m1);
    }
  }

  // --- Dates ---

  datatype CivilDate = CivilDate(year: int, month: int, day: int)

  /** What LocalDate.of accepts. */
  predicate ValidDate(d: CivilDate) {
    MinYear <= d.year <= MaxYear && 1 <= d.month <= 12 && 1 <= d.day <= DaysInMonth(d.year, d.month)
  }

  type Date = d: CivilDate | ValidDate(d) witness CivilDate(1970, 1, 1)

  /** LocalDate.toEpochDay(), up to the choice of day 0. */
  function EpochDay(d: Date): int {
    MonthStart(d.year, d.month) + d.day - 1
  }

  lemma DateInItsMonth(d: Date)
    ensures InMonth(EpochDay(d), d.year, d.month)
  {
  }

  /** LocalDate.isAfter: the field-by-field comparison. */
  predicate IsAfter(a: Date, b: Date) {
    a.year > b.year
    || (a.year == b.year && a.month > b.month)
    || (a.year == b.year && a.month == b.month && a.day > b.day)
  }

  /** Comparing dates field by field is comparing their day numbers. */
  lemma IsAfterIffLaterDay(a: Date, b: Date)
    ensures IsAfter(a, b) <==> EpochDay(a) > EpochDay(b)
  {
    if MonthBefore(a.year, a.month, b.year, b.month) {
      MonthsInOrder(a.year, a.month, b.year, b.month);
    } else if MonthBefore(b.year, b.month, a.year, a.month) {
      MonthsInOrder(b.year, b.month, a.year, a.month);
    }
  }

  /** Different dates have different day numbers. */
  lemma EpochDayInjective(a: Date, b: Date)
    requires EpochDay(a) == EpochDay(b)
    ensures a == b
  {
    IsAfterIffLaterDay(a, b);
    IsAfterIffLaterDay(b, a);
  }

  /**
   * firstDay.plusMonths(1).minusDays(1) is the date (y, m, DaysInMonth(y, m)), so its
   * getDayOfMonth() is the month's length.
   */
  lemma LastDayOfMonth(y: int, m: int)
    requires MinYear <= y <= MaxYear && 1 <= m <= 12
    ensures ValidDate(CivilDate(y, m, DaysInMonth(y, m)))
    ensures MonthStart(NextMonth(y, m).0, NextMonth(y, m).1) - 1 == EpochDay(CivilDate(y, m, DaysInMonth(y, m)))
  {
    NextMonthStart(y, m);
  }

  // --- Timestamps ---

  /** A LocalDateTime at whole-second precision: a day number and the second of that day. */
  datatype DateTime = DateTime(day: int, second: int)

  type Instant = t: DateTime | 0 <= t.second < SecondsPerDay witness DateTime(0, 0)

  /** Seconds since day 0: the order in which the store compares timestamps. */
  function Ordinal(t: DateTime): int {
    t.day * SecondsPerDay + t.second
  }

  /** LocalDate.atStartOfDay(). */
  function AtStartOfDay(d: int): Instant {
    DateTime(d, 0)
  }

  /** LocalDate.atTime(23, 59, 59). */
  function AtLastSecond(d: int): Instant {
    DateTime(d, SecondsPerDay - 1)
  }

  /** The half-open range [d 00:00, d+1 00:00) holds exactly the timestamps of day d. */
  lemma HalfOpenDay(t: Instant, d: int)
    ensures Ordinal(AtStartOfDay(d)) <= Ordinal(t) < Ordinal(AtStartOfDay(d + 1)) <==> t.day == d
  {
    if t.day < d {
      assert Ordinal(t) < t.day * SecondsPerDay + SecondsPerDay <= d * SecondsPerDay;
    } else if t.day > d {
      assert Ordinal(t) >= t.day * SecondsPerDay >= (d + 1) * SecondsPerDay;
    }
  }

  /** The closed range [first 00:00:00, last 23:59:59] holds exactly the timestamps of days first..last. */
  lemma ClosedDays(t: Instant, first: int, last: int)
    ensures Ordinal(AtStartOfDay(first)) <= Ordinal(t) <= Ordinal(AtLastSecond(last)) <==> first <= t.day <= last
  {
    if t.day < first {
      assert Ordinal(t) < t.day * SecondsPerDay + SecondsPerDay <= first * SecondsPerDay;
    } else if t.day > last {
      assert Ordinal(t) >= t.day * SecondsPerDay >= (last + 1) * SecondsPerDay;
    }
  }

  /**
   * The server clock: today's date and the second of the day. One reading serves
   * both LocalDate.now() and LocalDateTime.now().  The year is kept strictly inside
   * LocalDate's range, where the day-by-day and month-by-month arithmetic the service
   * does on "today" cannot leave it.
   */
  datatype ClockReading = ClockReading(today: CivilDate, second: int)

  type Clock = c: ClockReading | ValidDate(c.today) && MinYear < c.today.year < MaxYear && 0 <= c.second < SecondsPerDay
    witness ClockReading(CivilDate(1970, 1, 1), 0)

  function Today(c: Clock): Date {
    c.today
  }

  function Now(c: Clock): (t: Instant)
    ensures t.day == EpochDay(Today(c))
  {
    DateTime(EpochDay(Today(c)), c.second)
  }
}
