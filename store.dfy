/**
 * The queries the service puts to the user and record tables, written as the
 * conditions of the query wrappers (ranges on timestamps compared as seconds),
 * together with what each condition means on calendar days.
 */
module Store {
  import opened Wrappers
  import opened ApiResult
  import opened Calendar
  import opened Entities

  const MsgUserIdMissing: string := "用户ID不能为空"
  const MsgUserNotFound: string := "用户不存在"

  // --- Users ---

  /** userMapper.selectById(id) != null. */
  predicate UserExists(users: seq<User>, id: int) {
    exists i :: 0 <= i < |users| && users[i].id == id
  }

  /** validateUserExists: a missing id, then an unknown id, are errors; otherwise success(). */
  function ValidateUserExists(users: seq<User>, userId: Option<int>): (r: Result<Payload>)
    ensures r.IsSuccess() <==> userId.Some? && UserExists(users, userId.value)
    ensures r.IsSuccess() ==> r == Success()
    ensures !r.IsSuccess() ==> r.code == ErrorCode && r.data.None?
    ensures !r.IsSuccess() ==> r.msg == if userId.None? then MsgUserIdMissing else MsgUserNotFound
  {
    if userId.None? then Error(MsgUserIdMissing)
    else if !UserExists(users, userId.value) then Error(MsgUserNotFound)
    else Success()
  }

  // --- Counting and filtering ---

  /** selectCount: how many records satisfy the condition. */
  function CountWhere(rs: seq<CheckinRecord>, p: CheckinRecord -> bool): (n: nat)
    ensures n <= |rs|
  {
    if rs == [] then 0 else CountWhere(rs[..|rs| - 1], p) + (if p(rs[|rs| - 1]) then 1 else 0)
  }

  lemma CountWhereAppend(rs: seq<CheckinRecord>, r: CheckinRecord, p: CheckinRecord -> bool)
    ensures CountWhere(rs + [r], p) == CountWhere(rs, p) + (if p(r) then 1 else 0)
  {
    assert (rs + [r])[..|rs|] == rs;
  }

  lemma {:induction false} CountWherePositive(rs: seq<CheckinRecord>, p: CheckinRecord -> bool)
    ensures CountWhere(rs, p) > 0 <==> exists i :: 0 <= i < |rs| && p(rs[i])
  {
    if rs != [] {
      var front := rs[..|rs| - 1];
      CountWherePositive(front, p);
      if exists i :: 0 <= i < |front| && p(front[i]) {
        var i :| 0 <= i < |front| && p(front[i]);
        assert rs[i] == front[i];
      }
      if exists i :: 0 <= i < |rs| && p(rs[i]) {
        var i :| 0 <= i < |rs| && p(rs[i]);
        if i < |front| { assert front[i] == rs[i]; }
      }
    }
  }

  /** The records that satisfy the condition, in store order. */
  function Filter(rs: seq<CheckinRecord>, p: CheckinRecord -> bool): (t: seq<CheckinRecord>)
    ensures |t| <= |rs|
    ensures forall x :: x in t <==> x in rs && p(x)
    ensures multiset(t) <= multiset(rs)
  {
    if rs == [] then []
    else
      var front := Filter(rs[..|rs| - 1], p);
      assert rs == rs[..|rs| - 1] + [rs[|rs| - 1]];
      if p(rs[|rs| - 1]) then front + [rs[|rs| - 1]] else front
  }

  /** Appending a record extends the filtered rows by that record alone, if it qualifies. */
  lemma FilterAppend(rs: seq<CheckinRecord>, r: CheckinRecord, p: CheckinRecord -> bool)
    ensures Filter(rs + [r], p) == Filter(rs, p) + (if p(r) then [r] else [])
  {
    assert (rs + [r])[..|rs|] == rs;
  }

  /** "eq user_id": the records of one user. */
  function RecordsOf(rs: seq<CheckinRecord>, uid: int): (t: seq<CheckinRecord>)
    ensures forall x :: x in t <==> x in rs && x.userId == uid
  {
    Filter(rs, (r: CheckinRecord) => r.userId == uid)
  }

  // --- Day and month conditions ---

  /** user_id = uid AND checkin_time >= d 00:00 AND checkin_time < (d + 1) 00:00. */
  predicate OnDay(r: CheckinRecord, uid: int, d: int) {
    r.userId == uid
    && Ordinal(AtStartOfDay(d)) <= Ordinal(r.checkinTime) < Ordinal(AtStartOfDay(d + 1))
  }

  /** hasCheckedInToday / hasCheckedInDate: the count over the half-open day is positive. */
  predicate HasCheckedInDate(rs: seq<CheckinRecord>, uid: int, d: int) {
    CountWhere(rs, (r: CheckinRecord) => OnDay(r, uid, d)) > 0
  }

  /** The half-open count finds a record exactly when the user has one dated day d. */
  lemma HasCheckedInDateIff(rs: seq<CheckinRecord>, uid: int, d: int)
    ensures HasCheckedInDate(rs, uid, d)
        <==> exists i :: 0 <= i < |rs| && rs[i].userId == uid && rs[i].checkinTime.day == d
  {
    CountWherePositive(rs, (r: CheckinRecord) => OnDay(r, uid, d));
    forall i | 0 <= i < |rs| ensures OnDay(rs[i], uid, d) <==> rs[i].userId == uid && rs[i].checkinTime.day == d {
      HalfOpenDay(rs[i].checkinTime, d);
    }
  }

  /** Whether the month arithmetic of LocalDate.of(y, m, 1).plusMonths(1) stays in range (otherwise it throws). */
  predicate MonthArithmeticDefined(y: int, m: int) {
    MinYear <= y <= MaxYear && 1 <= m <= 12 && !(y == MaxYear && m == 12)
  }

  /** LocalDate.of(y, m, 1), as a day number. */
  function FirstDay(y: int, m: int): int
    requires 1 <= m <= 12
  {
    MonthStart(y, m)
  }

  /** firstDay.plusMonths(1).minusDays(1), as a day number. */
  function LastDay(y: int, m: int): int
    requires 1 <= m <= 12
  {
    MonthStart(NextMonth(y, m).0, NextMonth(y, m).1) - 1
  }

  /** [firstDay 00:00:00, lastDay 23:59:59] holds exactly the timestamps of month (y, m). */
  lemma MonthRange(t: Instant, y: int, m: int)
    requires 1 <= m <= 12
    ensures Ordinal(AtStartOfDay(FirstDay(y, m))) <= Ordinal(t) <= Ordinal(AtLastSecond(LastDay(y, m)))
        <==> InMonth(t.day, y, m)
  {
    ClosedDays(t, FirstDay(y, m), LastDay(y, m));
    NextMonthStart(y, m);
  }

  /** user_id = uid AND is_reissue = 1 AND reissue_time in [firstDay 00:00:00, lastDay 23:59:59]. */
  predicate IsMonthlyReissue(r: CheckinRecord, uid: int, y: int, m: int)
    requires 1 <= m <= 12
  {
    r.userId == uid && r.isReissue == 1 && r.reissueTime.Some?
    && Ordinal(AtStartOfDay(FirstDay(y, m))) <= Ordinal(r.reissueTime.value) <= Ordinal(AtLastSecond(LastDay(y, m)))
  }

  /** countMonthlyReissues: the quota is spent by when a backfill was submitted, not by the day it fills. */
  function CountMonthlyReissues(rs: seq<CheckinRecord>, uid: int, y: int, m: int): (n: nat)
    requires 1 <= m <= 12
    ensures n <= |rs|
  {
    CountWhere(rs, (r: CheckinRecord) => IsMonthlyReissue(r, uid, y, m))
  }

  lemma IsMonthlyReissueIff(r: CheckinRecord, uid: int, y: int, m: int)
    requires 1 <= m <= 12
    ensures IsMonthlyReissue(r, uid, y, m)
        <==> r.userId == uid && r.isReissue == 1 && r.reissueTime.Some? && InMonth(r.reissueTime.value.day, y, m)
  {
    if r.reissueTime.Some? {
      MonthRange(r.reissueTime.value, y, m);
    }
  }

  /** Appending a record raises a month's reissue count by one exactly when it was submitted then by that user as a reissue. */
  lemma CountMonthlyReissuesAppend(rs: seq<CheckinRecord>, r: CheckinRecord, uid: int, y: int, m: int)
    requires 1 <= m <= 12
    ensures CountMonthlyReissues(rs + [r], uid, y, m) == CountMonthlyReissues(rs, uid, y, m)
      + (if r.userId == uid && r.isReissue == 1 && r.reissueTime.Some? && InMonth(r.reissueTime.value.day, y, m) then 1 else 0)
  {
    CountWhereAppend(rs, r, (x: CheckinRecord) => IsMonthlyReissue(x, uid, y, m));
    IsMonthlyReissueIff(r, uid, y, m);
  }

  // --- Ordering by check-in time ---

  function TimeKey(r: CheckinRecord): int {
    Ordinal(r.checkinTime)
  }

  /** "orderByAsc checkin_time". */
  ghost predicate SortedAsc(s: seq<CheckinRecord>) {
    forall i, j :: 0 <= i < j < |s| ==> TimeKey(s[i]) <= TimeKey(s[j])
  }

  /** "orderByDesc checkin_time". */
  ghost predicate SortedDesc(s: seq<CheckinRecord>) {
    forall i, j :: 0 <= i < j < |s| ==> TimeKey(s[i]) >= TimeKey(s[j])
  }

  /** A record no later than every row of a sorted sequence can go in front of it. */
  lemma ConsSorted(a: CheckinRecord, t: seq<CheckinRecord>)
    requires SortedAsc(t)
    requires forall k :: 0 <= k < |t| ==> TimeKey(a) <= TimeKey(t[k])
    ensures SortedAsc([a] + t)
  {
    var u := [a] + t;
    forall i, j | 0 <= i < j < |u| ensures TimeKey(u[i]) <= TimeKey(u[j]) {
      if i > 0 {
        assert u[i] == t[i - 1] && u[j] == t[j - 1];
      } else {
        assert u[j] == t[j - 1];
      }
    }
  }

  /** Every row of a permutation of the tail of a sorted sequence, plus a later x, is no earlier than its head. */
  lemma HeadBelow(x: CheckinRecord, s: seq<CheckinRecord>, rest: seq<CheckinRecord>)
    requires SortedAsc(s) && s != [] && TimeKey(s[0]) < TimeKey(x)
    requires multiset(rest) == multiset(s[1..]) + multiset{x}
    ensures forall k :: 0 <= k < |rest| ==> TimeKey(s[0]) <= TimeKey(rest[k])
  {
    forall k | 0 <= k < |rest| ensures TimeKey(s[0]) <= TimeKey(rest[k]) {
      assert rest[k] in multiset(rest);
      if rest[k] != x {
        assert rest[k] in multiset(s[1..]);
        var i :| 0 <= i < |s[1..]| && s[1..][i] == rest[k];
        assert s[i + 1] == rest[k];
      }
    }
  }

  function InsertAsc(x: CheckinRecord, s: seq<CheckinRecord>): (t: seq<CheckinRecord>)
    requires SortedAsc(s)
    ensures SortedAsc(t) && multiset(t) == multiset(s) + multiset{x}
  {
    if s == [] || TimeKey(x) <= TimeKey(s[0]) then
      ConsSorted(x, s);
      [x] + s
    else
      var rest := InsertAsc(x, s[1..]);
      assert s == [s[0]] + s[1..];
      HeadBelow(x, s, rest);
      ConsSorted(s[0], rest);
      [s[0]] + rest
  }

  /** The query's rows in ascending time order (ties in an order the model fixes). */
  function SortAsc(s: seq<CheckinRecord>): (t: seq<CheckinRecord>)
    ensures SortedAsc(t) && multiset(t) == multiset(s)
  {
    if s == [] then []
    else
      assert s == [s[0]] + s[1..];
      InsertAsc(s[0], SortAsc(s[1..]))
  }

  function Reverse(s: seq<CheckinRecord>): (t: seq<CheckinRecord>)
    ensures |t| == |s| && forall i :: 0 <= i < |s| ==> t[i] == s[|s| - 1 - i]
    ensures multiset(t) == multiset(s)
  {
    if s == [] then []
    else
      assert s == [s[0]] + s[1..];
      Reverse(s[1..]) + [s[0]]
  }

  /** The query's rows in descending time order. */
  function SortDesc(s: seq<CheckinRecord>): (t: seq<CheckinRecord>)
    ensures SortedDesc(t) && multiset(t) == multiset(s)
  {
    Reverse(SortAsc(s))
  }

  /** The calendar date of each row, in row order. */
  function DaysOf(s: seq<CheckinRecord>): (d: seq<int>)
    ensures |d| == |s| && forall i :: 0 <= i < |s| ==> d[i] == s[i].checkinTime.day
  {
    if s == [] then [] else [s[0].checkinTime.day] + DaysOf(s[1..])
  }

  /** Rows in descending time order have dates in descending order. */
  lemma DaysOfSortedDesc(s: seq<CheckinRecord>)
    requires SortedDesc(s)
    ensures forall i, j :: 0 <= i < j < |s| ==> DaysOf(s)[i] >= DaysOf(s)[j]
  {
    forall i, j | 0 <= i < j < |s| ensures s[i].checkinTime.day >= s[j].checkinTime.day {
      HalfOpenDay(s[j].checkinTime, s[i].checkinTime.day);
    }
  }
}
