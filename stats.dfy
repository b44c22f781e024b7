/**
 * getMonthlyCheckinStats and getCheckinStats: dates are de-duplicated before they
 * are counted, so several records on one day count once.  The two rates, which the
 * service computes in floating point and formats, are integers here: the monthly one
 * in tenths of a percent, the overall one in hundredths.
 */
module Stats {
  import opened Wrappers
  import opened Calendar
  import opened Entities
  import opened Store

  /** The distinct calendar dates of the records (map to toLocalDate, then a set or distinct()). */
  function DatesOf(rs: seq<CheckinRecord>): set<int> {
    set r | r in rs :: r.checkinTime.day
  }

  /** A set of integers inside an interval of n integers has at most n elements. */
  lemma {:induction false} IntervalSubsetSize(s: set<int>, lo: int, n: nat)
    requires forall x :: x in s ==> lo <= x < lo + n
    ensures |s| <= n
    decreases n
  {
    if n == 0 {
      assert forall x :: x !in s;
      assert s == {};
    } else {
      IntervalSubsetSize(s - {lo + n - 1}, lo, n - 1);
    }
  }

  /** A record on a day that already has one adds no date: that day counts once. */
  lemma SameDayCountsOnce(rs: seq<CheckinRecord>, r: CheckinRecord)
    requires exists x :: x in rs && x.checkinTime.day == r.checkinTime.day
    ensures DatesOf(rs + [r]) == DatesOf(rs)
  {
    forall d | d in DatesOf(rs + [r]) ensures d in DatesOf(rs) {
      var x :| x in rs + [r] && x.checkinTime.day == d;
      if x == r {
        var y :| y in rs && y.checkinTime.day == r.checkinTime.day;
        assert d in DatesOf(rs);
      }
    }
  }

  /** A record on a day that has none adds exactly one date. */
  lemma NewDayCountsOnce(rs: seq<CheckinRecord>, r: CheckinRecord)
    requires forall x :: x in rs ==> x.checkinTime.day != r.checkinTime.day
    ensures |DatesOf(rs + [r])| == |DatesOf(rs)| + 1
  {
    assert DatesOf(rs + [r]) == DatesOf(rs) + {r.checkinTime.day};
  }

  /**
   * num / den * scale rounded half up (what Math.round does, and what "%.1f" does to
   * the percentage): the integer r with r - 1/2 <= scale * num / den < r + 1/2.
   */
  function RoundedRatio(num: int, den: int, scale: int): (r: int)
    requires 0 <= num <= den && den > 0 && scale >= 0
    ensures 0 <= r <= scale
    ensures 2 * den * r <= 2 * scale * num + den < 2 * den * (r + 1)
  {
    var q := (2 * scale * num + den) / (2 * den);
    RoundedBounds(num, den, scale, q);
    q
  }

  lemma RoundedBounds(num: int, den: int, scale: int, q: int)
    requires 0 <= num <= den && den > 0 && scale >= 0
    requires q == (2 * scale * num + den) / (2 * den)
    ensures 0 <= q <= scale
    ensures 2 * den * q <= 2 * scale * num + den < 2 * den * (q + 1)
  {
    var a := 2 * scale * num + den;
    var b := 2 * den;
    DivBounds(a, b, q);
    MulMonotone(scale, num, den);
    assert a < b * (scale + 1);
    MulCancel(b, q, scale + 1);
  }

  lemma MulCancel(b: int, x: int, y: int)
    requires b > 0 && b * x < b * y
    ensures x < y
  {
    if x >= y {
      MulMonotone(b, y, x);
    }
  }

  lemma DivBounds(a: int, b: int, q: int)
    requires b > 0 && a >= 0 && q == a / b
    ensures b * q <= a < b * (q + 1)
  {
  }

  lemma MulMonotone(k: int, a: int, b: int)
    requires k >= 0 && a <= b
    ensures k * a <= k * b
  {
  }

  // --- getMonthlyCheckinStats ---

  /** user_id = uid AND checkin_time in [firstDay 00:00:00, lastDay 23:59:59]. */
  predicate InMonthQuery(r: CheckinRecord, uid: int, y: int, m: int)
    requires 1 <= m <= 12
  {
    r.userId == uid
    && Ordinal(AtStartOfDay(FirstDay(y, m))) <= Ordinal(r.checkinTime) <= Ordinal(AtLastSecond(LastDay(y, m)))
  }

  /** The month query's rows, ascending by time. */
  function MonthRecords(rs: seq<CheckinRecord>, uid: int, y: int, m: int): (t: seq<CheckinRecord>)
    requires 1 <= m <= 12
    ensures SortedAsc(t)
    ensures multiset(t) == multiset(Filter(rs, (r: CheckinRecord) => InMonthQuery(r, uid, y, m)))
    ensures forall x :: x in t <==> x in rs && x.userId == uid && InMonth(x.checkinTime.day, y, m)
  {
    var rows := Filter(rs, (r: CheckinRecord) => InMonthQuery(r, uid, y, m));
    var t := SortAsc(rows);
    assert forall x :: x in t <==> x in rows by {
      forall x ensures x in t <==> x in rows {
        assert x in t <==> x in multiset(t);
        assert x in rows <==> x in multiset(rows);
      }
    }
    forall x | x in rs ensures InMonthQuery(x, uid, y, m) <==> x.userId == uid && InMonth(x.checkinTime.day, y, m) {
      MonthRange(x.checkinTime, y, m);
    }
    t
  }

  /** The monthly figures for user uid in month (y, m). */
  function MonthlyStatsOf(rs: seq<CheckinRecord>, uid: int, y: int, m: int): (s: MonthlyStats)
    requires MonthArithmeticDefined(y, m)
    ensures s.year == y && s.month == m
    ensures s.totalDays == DaysInMonth(y, m)
    ensures forall d :: (d in s.checkinDates
      <==> InMonth(d, y, m) && exists x :: x in rs && x.userId == uid && x.checkinTime.day == d)
    ensures s.checkinDays == |s.checkinDates| <= s.totalDays
    ensures 0 <= s.checkinRatePermille <= 1000
    ensures 2 * s.totalDays * s.checkinRatePermille <= 2000 * s.checkinDays + s.totalDays
    ensures 2000 * s.checkinDays + s.totalDays < 2 * s.totalDays * (s.checkinRatePermille + 1)
    ensures s.records == MonthRecords(rs, uid, y, m)
    ensures SortedAsc(s.records)
    ensures forall x :: x in s.records <==> x in rs && x.userId == uid && InMonth(x.checkinTime.day, y, m)
  {
    // lastDay = firstDay.plusMonths(1).minusDays(1) is the date (y, m, DaysInMonth(y, m)).
    LastDayOfMonth(y, m);
    var totalDays := DaysInMonth(y, m);
    var records := MonthRecords(rs, uid, y, m);
    var dates := DatesOf(records);
    IntervalSubsetSize(dates, MonthStart(y, m), totalDays);
    var rate := if totalDays == 0 then 0 else RoundedRatio(|dates|, totalDays, 1000);
    MonthlyStats(y, m, totalDays, |dates|, rate, dates, records)
  }

  // --- getCheckinStats ---

  /** This month's distinct dates: firstDayOfMonth - 1 < date < lastDayOfMonth + 1. */
  function CurrentMonthDates(dates: set<int>, today: Date): (t: set<int>)
    ensures t <= dates
    ensures forall d :: d in t <==> d in dates && InMonth(d, today.year, today.month)
  {
    var first := EpochDay(today.(day := 1));
    var last := EpochDay(today.(day := DaysInMonth(today.year, today.month)));
    set d | d in dates && d > first - 1 && d < last + 1
  }

  /** The overall figures for user uid, given the streak the service looked up. */
  function OverallStatsOf(rs: seq<CheckinRecord>, uid: int, continuous: int, today: Date): (s: CheckinStats)
    ensures s.userId == uid && s.continuousDays == continuous && s.currentMonth == today.month
    ensures s.totalDays == |DatesOf(RecordsOf(rs, uid))|
    ensures s.monthlyDays == |CurrentMonthDates(DatesOf(RecordsOf(rs, uid)), today)|
    ensures s.monthlyDays <= s.totalDays
    ensures s.monthlyDays <= DaysInMonth(today.year, today.month)
    ensures 0 <= s.monthlyRateHundredths <= 100
    ensures var len := DaysInMonth(today.year, today.month);
      && 2 * len * s.monthlyRateHundredths <= 200 * s.monthlyDays + len
      && 200 * s.monthlyDays + len < 2 * len * (s.monthlyRateHundredths + 1)
  {
    var all := DatesOf(RecordsOf(rs, uid));
    var monthly := CurrentMonthDates(all, today);
    var len := DaysInMonth(today.year, today.month);
    IntervalSubsetSize(monthly, MonthStart(today.year, today.month), len);
    SubsetSize(monthly, all);
    var rate := if len > 0 then RoundedRatio(|monthly|, len, 100) else 0;
    CheckinStats(|all|, continuous, uid, |monthly|, rate, today.month)
  }

  lemma SubsetSize(a: set<int>, b: set<int>)
    requires a <= b
    ensures |a| <= |b|
  {
    assert b == a + (b - a);
  }
}
