/**
 * The check-in service object: the user table and the record table it works on, the
 * optional streak cache, and the operations of CheckinRecordServiceImpl over them.
 * The two writes (createCheckin, reissueCheckin) keep the table invariants of Policy;
 * every read leaves the tables as they are.
 */
module Service {
  import opened Wrappers
  import opened ApiResult
  import opened Calendar
  import opened Entities
  import opened Store
  import opened Paging
  import opened Streak
  import opened Stats
  import opened Policy

  /** What GlobalExceptionHandler answers for an uncaught exception. */
  const MsgServerError: string := "服务器内部错误，请稍后再试"
  const MsgNoUsers: string := "无用户数据"

  /** The last date LocalDate can represent; plusDays(1) on it throws. */
  const LastDate: CivilDate := CivilDate(MaxYear, 12, 31)

  /** setPassword(null): the user as getUncheckedUsers returns it. */
  function Redact(u: User): (r: User)
    ensures r.id == u.id && r.username == u.username && r.role == u.role && r.createTime == u.createTime
    ensures r.password.None?
  {
    u.(password := None)
  }

  /** The users with no record on day d, in table order, passwords removed. */
  function UncheckedUsers(users: seq<User>, records: seq<CheckinRecord>, d: int): (t: seq<User>)
    ensures |t| <= |users|
    ensures forall u :: u in t ==> u.password.None?
    ensures forall u :: u in t <==> exists v :: v in users && !HasCheckedInDate(records, v.id, d) && u == Redact(v)
  {
    if users == [] then []
    else
      var rest := UncheckedUsers(users[1..], records, d);
      assert users == [users[0]] + users[1..];
      if HasCheckedInDate(records, users[0].id, d) then rest else [Redact(users[0])] + rest
  }

  /** A user is listed (without password) exactly when that user has no record on day d. */
  lemma UncheckedUsersIff(users: seq<User>, records: seq<CheckinRecord>, d: int, v: User)
    requires v in users
    ensures Redact(v) in UncheckedUsers(users, records, d) <==> !HasCheckedInDate(records, v.id, d)
  {
    if Redact(v) in UncheckedUsers(users, records, d) {
      var w :| w in users && !HasCheckedInDate(records, w.id, d) && Redact(v) == Redact(w);
      assert w.id == v.id;
    }
  }

  /** Filtering distributes over concatenation: the kept users stay in table order. */
  lemma {:induction false} UncheckedUsersAppend(a: seq<User>, b: seq<User>, records: seq<CheckinRecord>, d: int)
    ensures UncheckedUsers(a + b, records, d) == UncheckedUsers(a, records, d) + UncheckedUsers(b, records, d)
  {
    if a != [] {
      assert (a + b)[1..] == a[1..] + b;
      UncheckedUsersAppend(a[1..], b, records, d);
    } else {
      assert a + b == b;
    }
  }

  /** selectCheckedUserIds: the owners of the records inside [d 00:00, (d + 1) 00:00). */
  function CheckedUserIds(records: seq<CheckinRecord>, d: int): (ids: seq<int>)
    ensures |ids| <= |records|
  {
    if records == [] then []
    else
      var last := records[|records| - 1];
      CheckedUserIds(records[..|records| - 1], d) + (if OnDay(last, last.userId, d) then [last.userId] else [])
  }

  /** An id is among the checked ids exactly when the half-open count finds a record of that user. */
  lemma {:induction false} CheckedUserIdsIff(records: seq<CheckinRecord>, d: int, uid: int)
    ensures uid in CheckedUserIds(records, d) <==> HasCheckedInDate(records, uid, d)
  {
    if records != [] {
      var front := records[..|records| - 1];
      CheckedUserIdsIff(front, d, uid);
      assert records == front + [records[|records| - 1]];
      CountWhereAppend(front, records[|records| - 1], (r: CheckinRecord) => OnDay(r, uid, d));
    }
  }

  /** The invariants of the record table that the two writes keep. */
  ghost predicate TableInvariant(cfg: Config, users: seq<User>, records: seq<CheckinRecord>, nextId: int) {
    && OnePerDay(records)
    && (forall r :: r in records ==> WellFormedRecord(cfg, r) && UserExists(users, r.userId) && r.id < nextId)
    && (forall i, j :: 0 <= i < j < |records| ==> records[i].id < records[j].id)
    && QuotaRespected(cfg, records)
  }

  /** Appending a well formed row of an existing user under the next id keeps the table invariant. */
  lemma AppendKeepsTable(cfg: Config, users: seq<User>, rs: seq<CheckinRecord>, nextId: int, rec: CheckinRecord)
    requires TableInvariant(cfg, users, rs, nextId)
    requires OnePerDay(rs + [rec]) && QuotaRespected(cfg, rs + [rec])
    requires WellFormedRecord(cfg, rec) && UserExists(users, rec.userId) && rec.id == nextId
    ensures TableInvariant(cfg, users, rs + [rec], nextId + 1)
  {
    var t := rs + [rec];
    forall i, j | 0 <= i < j < |t| ensures t[i].id < t[j].id {
      assert t[i] in rs;
    }
  }

  /** The row a checkin admitted today stores keeps the table invariant. */
  lemma CheckinKeepsTable(cfg: Config, users: seq<User>, rs: seq<CheckinRecord>, nextId: int,
                          req: CheckinRequest, clock: Clock, uid: int)
    requires TableInvariant(cfg, users, rs, nextId)
    requires CheckinVerdict(cfg, users, rs, req, EpochDay(Today(clock))) == Admitted(uid)
    ensures TableInvariant(cfg, users, rs + [NewCheckinRecord(req, uid, nextId, clock)], nextId + 1)
  {
    CheckinAdmission(cfg, users, rs, req, EpochDay(Today(clock)));
    var rec := NewCheckinRecord(req, uid, nextId, clock);
    AdmittedDayKeepsOnePerDay(rs, rec);
    PlainRecordKeepsQuota(cfg, rs, rec);
    AppendKeepsTable(cfg, users, rs, nextId, rec);
  }

  /** The row an admitted backfill stores keeps the table invariant. */
  lemma ReissueKeepsTable(cfg: Config, users: seq<User>, rs: seq<CheckinRecord>, nextId: int,
                          userId: Option<int>, date: Date, reason: Option<string>, clock: Clock, uid: int)
    requires TableInvariant(cfg, users, rs, nextId)
    requires ReissueVerdict(cfg, users, rs, userId, date, reason, clock) == Admitted(uid)
    ensures reason.Some?
    ensures TableInvariant(cfg, users, rs + [NewReissueRecord(uid, date, reason.value, nextId, clock)], nextId + 1)
  {
    ReissueAdmission(cfg, users, rs, userId, date, reason, clock);
    var rec := NewReissueRecord(uid, date, reason.value, nextId, clock);
    AdmittedDayKeepsOnePerDay(rs, rec);
    AdmittedReissueKeepsQuota(cfg, rs, rec, clock);
    assert WellFormedRecord(cfg, rec);
    AppendKeepsTable(cfg, users, rs, nextId, rec);
  }

  /** A page of rows in descending order is itself in descending order and holds only those rows. */
  lemma PageOfSortedDesc(rows: seq<CheckinRecord>, current: int, size: int)
    requires current >= 1 && size >= 1
    requires SortedDesc(rows)
    ensures SortedDesc(PageOf(rows, current, size).records)
    ensures forall x :: x in PageOf(rows, current, size).records ==> x in rows
  {
    var page := PageOf(rows, current, size).records;
    var offset := (current - 1) * size;
    if offset < |rows| {
      assert offset + |page| <= |rows|;
      assert forall k :: 0 <= k < |page| ==> page[k] == rows[offset + k];
      forall i, j | 0 <= i < j < |page| ensures TimeKey(page[i]) >= TimeKey(page[j]) {
        assert page[i] == rows[offset + i];
        assert page[j] == rows[offset + j];
      }
      forall x | x in page ensures x in rows {
        var k :| 0 <= k < |page| && page[k] == x;
        assert x == rows[offset + k];
      }
    }
  }

  /** After a row is stored, its user has a record on its day. */
  lemma StoredRowMarksDay(rs: seq<CheckinRecord>, rec: CheckinRecord)
    ensures HasCheckedInDate(rs + [rec], rec.userId, rec.checkinTime.day)
  {
    HasCheckedInDateIff(rs + [rec], rec.userId, rec.checkinTime.day);
    assert (rs + [rec])[|rs|] == rec;
  }

  lemma RecordsOfGrows(rs: seq<CheckinRecord>, r: CheckinRecord, uid: int)
    ensures |RecordsOf(rs, uid)| <= |RecordsOf(rs + [r], uid)|
  {
    FilterAppend(rs, r, (x: CheckinRecord) => x.userId == uid);
  }

  lemma SortDescLength(s: seq<CheckinRecord>)
    ensures |SortDesc(s)| == |s|
  {
    assert |multiset(SortDesc(s))| == |multiset(s)|;
  }

  /**
   * The service's invariant: the table invariant, and what the cache can hold (nothing
   * without Redis; otherwise only streaks of existing users, none larger than that
   * user's number of records).
   */
  ghost predicate Consistent(cfg: Config, users: seq<User>, records: seq<CheckinRecord>, nextId: int,
                             cache: map<Option<int>, int>, redisPresent: bool)
  {
    && TableInvariant(cfg, users, records, nextId)
    && (!redisPresent ==> cache == map[])
    && None !in cache
    && (forall u :: Some(u) in cache ==> UserExists(users, u))
    && (forall u :: Some(u) in cache ==> 0 <= cache[Some(u)] <= |RecordsOf(records, u)|)
  }

  /** Storing a row and evicting its user's streak keeps the cache bounds. */
  lemma CacheAfterInsert(users: seq<User>, rs: seq<CheckinRecord>, cache: map<Option<int>, int>, rec: CheckinRecord)
    requires None !in cache
    requires forall u :: Some(u) in cache ==> UserExists(users, u)
    requires forall u :: Some(u) in cache ==> 0 <= cache[Some(u)] <= |RecordsOf(rs, u)|
    ensures forall u :: Some(u) in cache - {Some(rec.userId)} ==>
      0 <= (cache - {Some(rec.userId)})[Some(u)] <= |RecordsOf(rs + [rec], u)|
  {
    forall u | Some(u) in cache - {Some(rec.userId)}
      ensures 0 <= (cache - {Some(rec.userId)})[Some(u)] <= |RecordsOf(rs + [rec], u)|
    {
      RecordsOfGrows(rs, rec, u);
    }
  }

  /** The state after an admitted checkin has been stored is consistent again. */
  lemma CheckinStep(cfg: Config, users: seq<User>, rs: seq<CheckinRecord>, nextId: int,
                    cache: map<Option<int>, int>, redisPresent: bool, req: CheckinRequest, clock: Clock, uid: int)
    requires Consistent(cfg, users, rs, nextId, cache, redisPresent)
    requires CheckinVerdict(cfg, users, rs, req, EpochDay(Today(clock))) == Admitted(uid)
    ensures Consistent(cfg, users, rs + [NewCheckinRecord(req, uid, nextId, clock)], nextId + 1,
                       if redisPresent then cache - {Some(uid)} else cache, redisPresent)
    ensures HasCheckedInDate(rs + [NewCheckinRecord(req, uid, nextId, clock)], uid, EpochDay(Today(clock)))
  {
    var rec := NewCheckinRecord(req, uid, nextId, clock);
    CheckinKeepsTable(cfg, users, rs, nextId, req, clock, uid);
    CacheAfterInsert(users, rs, cache, rec);
    StoredRowMarksDay(rs, rec);
  }

  /** The state after an admitted backfill has been stored is consistent again, with one more backfill this month. */
  lemma ReissueStep(cfg: Config, users: seq<User>, rs: seq<CheckinRecord>, nextId: int,
                    cache: map<Option<int>, int>, redisPresent: bool,
                    userId: Option<int>, date: Date, reason: Option<string>, clock: Clock, uid: int)
    requires Consistent(cfg, users, rs, nextId, cache, redisPresent)
    requires ReissueVerdict(cfg, users, rs, userId, date, reason, clock) == Admitted(uid)
    ensures reason.Some?
    ensures var rec := NewReissueRecord(uid, date, reason.value, nextId, clock);
      && Consistent(cfg, users, rs + [rec], nextId + 1,
                    if redisPresent then cache - {Some(uid)} else cache, redisPresent)
      && HasCheckedInDate(rs + [rec], uid, EpochDay(date))
      && CountMonthlyReissues(rs + [rec], uid, Today(clock).year, Today(clock).month)
         == CountMonthlyReissues(rs, uid, Today(clock).year, Today(clock).month) + 1
  {
    var rec := NewReissueRecord(uid, date, reason.value, nextId, clock);
    ReissueKeepsTable(cfg, users, rs, nextId, userId, date, reason, clock, uid);
    CacheAfterInsert(users, rs, cache, rec);
    StoredRowMarksDay(rs, rec);
    ReissueSpendsOneQuota(rs, rec, clock, uid, Today(clock).year, Today(clock).month);
  }

  class CheckinService {
    var users: seq<User>
    var records: seq<CheckinRecord>
    /** The id the table assigns to the next stored row. */
    var nextId: int
    /**
     * The Redis values this core reads and writes: the streak stored under the key
     * StreakKey(userId), indexed here by the user id itself (StreakKeyInjective: no two
     * ids, null included, share a key string).
     */
    var cache: map<Option<int>, int>
    /** Whether a RedisTemplate was injected; without one every cache operation is skipped. */
    const redisPresent: bool
    const cfg: Config

    /**
     * The table invariants the writes keep, and what the cache can hold: only streaks of
     * existing ids, none larger than that user's number of records.
     */
    ghost predicate Valid()
      reads this
    {
      Consistent(cfg, users, records, nextId, cache, redisPresent)
    }

    constructor (cfg: Config, users: seq<User>, redisPresent: bool)
      ensures Valid()
      ensures this.cfg == cfg && this.users == users && this.redisPresent == redisPresent
      ensures records == [] && nextId == 1 && cache == map[]
    {
      this.cfg := cfg;
      this.users := users;
      this.redisPresent := redisPresent;
      records := [];
      nextId := 1;
      cache := map[];
    }

    /** baseMapper.insert: the database may refuse the row, and then nothing is stored. */
    method Insert(rec: CheckinRecord) returns (stored: bool)
      modifies this`records, this`nextId
      ensures stored ==> records == old(records) + [rec] && nextId == old(nextId) + 1
      ensures !stored ==> records == old(records) && nextId == old(nextId)
    {
      stored :| true;
      if stored {
        records := records + [rec];
        nextId := nextId + 1;
      }
    }

    /** redisTemplate.delete(key), skipped without Redis. */
    method Evict(key: Option<int>)
      modifies this`cache
      ensures cache == if redisPresent then old(cache) - {key} else old(cache)
    {
      if redisPresent {
        cache := cache - {key};
      }
    }

    /** createCheckin: the checks of CheckinVerdict, then the insert and the cache eviction. */
    method CreateCheckin(req: CheckinRequest, clock: Clock) returns (res: Result<Payload>)
      requires Valid()
      modifies this`records, this`nextId, this`cache
      ensures Valid()
      ensures var v := CheckinVerdict(cfg, users, old(records), req, EpochDay(Today(clock)));
        v.Rejected? ==> res == v.response && records == old(records) && nextId == old(nextId) && cache == old(cache)
      ensures var v := CheckinVerdict(cfg, users, old(records), req, EpochDay(Today(clock)));
        v.Admitted? && !res.IsSuccess() ==>
          res == Error(MsgCheckinFailed) && records == old(records) && nextId == old(nextId) && cache == old(cache)
      ensures var v := CheckinVerdict(cfg, users, old(records), req, EpochDay(Today(clock)));
        v.Admitted? && res.IsSuccess() ==>
          var rec := NewCheckinRecord(req, v.userId, old(nextId), clock);
          && res == SuccessMsg(MsgCheckinOk, Record(rec))
          && records == old(records) + [rec] && nextId == old(nextId) + 1
          && cache == (if redisPresent then old(cache) - {Some(v.userId)} else old(cache))
      ensures res.IsSuccess() ==> req.userId.Some? && HasCheckedInDate(records, req.userId.value, EpochDay(Today(clock)))
    {
      var today := EpochDay(Today(clock));
      var v := CheckinVerdict(cfg, users, records, req, today);
      if v.Rejected? {
        return v.response;
      }
      ghost var before, idBefore, cacheBefore := records, nextId, cache;
      var rec := NewCheckinRecord(req, v.userId, nextId, clock);
      var stored := Insert(rec);
      if !stored {
        return Error(MsgCheckinFailed);
      }
      Evict(Some(v.userId));
      CheckinStep(cfg, users, before, idBefore, cacheBefore, redisPresent, req, clock, v.userId);
      assert records == before + [rec] && nextId == idBefore + 1;
      assert cache == if redisPresent then cacheBefore - {Some(v.userId)} else cacheBefore;
      res := SuccessMsg(MsgCheckinOk, Record(rec));
    }

    /** reissueCheckin: the checks of ReissueVerdict, then the insert and the cache eviction. */
    method ReissueCheckin(userId: Option<int>, date: Date, reason: Option<string>, clock: Clock)
      returns (res: Result<Payload>)
      requires Valid()
      modifies this`records, this`nextId, this`cache
      ensures Valid()
      ensures var v := ReissueVerdict(cfg, users, old(records), userId, date, reason, clock);
        v.Rejected? ==> res == v.response && records == old(records) && nextId == old(nextId) && cache == old(cache)
      ensures var v := ReissueVerdict(cfg, users, old(records), userId, date, reason, clock);
        v.Admitted? && !res.IsSuccess() ==>
          res == Error(MsgReissueFailed) && records == old(records) && nextId == old(nextId) && cache == old(cache)
      ensures var v := ReissueVerdict(cfg, users, old(records), userId, date, reason, clock);
        v.Admitted? && res.IsSuccess() ==>
          var rec := NewReissueRecord(v.userId, date, reason.value, old(nextId), clock);
          && res == SuccessMsg(MsgReissueOk, Record(rec))
          && records == old(records) + [rec] && nextId == old(nextId) + 1
          && cache == (if redisPresent then old(cache) - {Some(v.userId)} else old(cache))
      ensures res.IsSuccess() ==>
        && userId.Some? && HasCheckedInDate(records, userId.value, EpochDay(date))
        && CountMonthlyReissues(records, userId.value, Today(clock).year, Today(clock).month)
           == CountMonthlyReissues(old(records), userId.value, Today(clock).year, Today(clock).month) + 1
    {
      var v := ReissueVerdict(cfg, users, records, userId, date, reason, clock);
      if v.Rejected? {
        return v.response;
      }
      ghost var before, idBefore, cacheBefore := records, nextId, cache;
      var rec := NewReissueRecord(v.userId, date, reason.value, nextId, clock);
      var stored := Insert(rec);
      if !stored {
        return Error(MsgReissueFailed);
      }
      Evict(Some(v.userId));
      ReissueStep(cfg, users, before, idBefore, cacheBefore, redisPresent, userId, date, reason, clock, v.userId);
      assert records == before + [rec] && nextId == idBefore + 1;
      assert cache == if redisPresent then cacheBefore - {Some(v.userId)} else cacheBefore;
      res := SuccessMsg(MsgReissueOk, Record(rec));
    }

    /** The streak a cache miss computes for an existing user. */
    ghost function FreshStreak(uid: int, clock: Clock): nat
      reads this
    {
      StreakLength(DaysOf(SortDesc(RecordsOf(records, uid))), EpochDay(Today(clock)))
    }

    /**
     * getContinuousCheckinDays: a cached value is answered as it is, before the user is
     * even checked; on a miss the streak is computed and cached under the same key.
     */
    method GetContinuousCheckinDays(userId: Option<int>, clock: Clock) returns (res: Result<Payload>)
      requires Valid()
      modifies this`cache
      ensures Valid()
      ensures redisPresent && userId in old(cache) ==>
        res == SuccessWith(Count(old(cache)[userId])) && cache == old(cache)
      ensures !(redisPresent && userId in old(cache)) && !ValidateUserExists(users, userId).IsSuccess() ==>
          res == ValidateUserExists(users, userId) && cache == old(cache)
      ensures !(redisPresent && userId in old(cache)) && ValidateUserExists(users, userId).IsSuccess() ==>
        var n := FreshStreak(userId.value, clock);
        res == SuccessWith(Count(n)) && cache == (if redisPresent then old(cache)[userId := n] else old(cache))
      ensures userId.None? ==> res == Error(MsgUserIdMissing)
      ensures res.IsSuccess() <==> userId.Some? && UserExists(users, userId.value)
      ensures res.IsSuccess() ==>
        && res.data.Some? && res.data.value.Count?
        && 0 <= res.data.value.n <= |RecordsOf(records, userId.value)|
    {
      if redisPresent && userId in cache {
        return SuccessWith(Count(cache[userId]));
      }
      var check := ValidateUserExists(users, userId);
      if !check.IsSuccess() {
        return check;
      }
      var uid := userId.value;
      var rows := SortDesc(RecordsOf(records, uid));
      SortDescLength(RecordsOf(records, uid));
      var n := ComputeStreak(DaysOf(rows), EpochDay(Today(clock)));
      if redisPresent {
        cache := cache[userId := n];
      }
      res := SuccessWith(Count(n));
    }

    /** getCheckinStats: the user check, then the overall figures with the streak of GetContinuousCheckinDays. */
    method GetCheckinStats(userId: Option<int>, clock: Clock) returns (res: Result<Payload>)
      requires Valid()
      modifies this`cache
      ensures Valid()
      ensures !ValidateUserExists(users, userId).IsSuccess() ==>
        res == ValidateUserExists(users, userId) && cache == old(cache)
      ensures ValidateUserExists(users, userId).IsSuccess() ==>
        var k := if redisPresent && userId in old(cache) then old(cache)[userId] else FreshStreak(userId.value, clock);
        && res == SuccessWith(Overall(OverallStatsOf(records, userId.value, k, Today(clock))))
        && cache == (if redisPresent then old(cache)[userId := k] else old(cache))
      ensures res.IsSuccess() ==>
        && res.data.Some? && res.data.value.Overall?
        && 0 <= res.data.value.stats.continuousDays <= |RecordsOf(records, userId.value)|
    {
      var check := ValidateUserExists(users, userId);
      if !check.IsSuccess() {
        return check;
      }
      var c := GetContinuousCheckinDays(userId, clock);
      var continuous := if c.IsSuccess() && c.data.Some? && c.data.value.Count? then c.data.value.n else 0;
      res := SuccessWith(Overall(OverallStatsOf(records, userId.value, continuous, Today(clock))));
    }

    /** getUserCheckins: all of the user's records, newest first. */
    function GetUserCheckins(userId: Option<int>): (r: Result<Payload>)
      reads this
      ensures r.IsSuccess() <==> userId.Some? && UserExists(users, userId.value)
      ensures !r.IsSuccess() ==> r == ValidateUserExists(users, userId)
      ensures r.IsSuccess() ==>
        && r.data.Some? && r.data.value.Records?
        && SortedDesc(r.data.value.records)
        && multiset(r.data.value.records) == multiset(RecordsOf(records, userId.value))
        && forall x :: x in r.data.value.records <==> x in records && x.userId == userId.value
    {
      var check := ValidateUserExists(users, userId);
      if !check.IsSuccess() then check
      else
        var rows := SortDesc(RecordsOf(records, userId.value));
        assert forall x :: x in rows <==> x in multiset(RecordsOf(records, userId.value));
        SuccessWith(Records(rows))
    }

    /** getTodayCheckinStatus: whether the user has a record dated today. */
    function GetTodayCheckinStatus(userId: Option<int>, clock: Clock): (r: Result<Payload>)
      reads this
      ensures r.IsSuccess() <==> userId.Some? && UserExists(users, userId.value)
      ensures !r.IsSuccess() ==> r == ValidateUserExists(users, userId)
      ensures r.IsSuccess() ==>
        r.data == Some(Flag(exists i :: (0 <= i < |records| && records[i].userId == userId.value
                                          && records[i].checkinTime.day == EpochDay(Today(clock)))))
    {
      var check := ValidateUserExists(users, userId);
      if !check.IsSuccess() then check
      else
        HasCheckedInDateIff(records, userId.value, EpochDay(Today(clock)));
        SuccessWith(Flag(HasCheckedInDate(records, userId.value, EpochDay(Today(clock)))))
    }

    /** getUserCheckinsByPage: the paging input corrected, then one page of the newest-first rows. */
    function GetUserCheckinsByPage(userId: Option<int>, pageNum: int, pageSize: int): (r: Result<Payload>)
      reads this
      ensures r.IsSuccess() <==> userId.Some? && UserExists(users, userId.value)
      ensures !r.IsSuccess() ==> r == ValidateUserExists(users, userId)
      ensures r.IsSuccess() ==>
        && r.data.Some? && r.data.value.Page?
        && var pg := r.data.value.page;
        && pg == PageOf(SortDesc(RecordsOf(records, userId.value)), ClampPageNum(pageNum), ClampPageSize(pageSize))
        && pg.current == ClampPageNum(pageNum) && pg.size == ClampPageSize(pageSize)
        && pg.total == |RecordsOf(records, userId.value)|
        && |pg.records| <= MaxPageSize
        && SortedDesc(pg.records)
        && forall x :: x in pg.records ==> x in records && x.userId == userId.value
    {
      var check := ValidateUserExists(users, userId);
      if !check.IsSuccess() then check
      else
        var all := RecordsOf(records, userId.value);
        var rows := SortDesc(all);
        SortDescLength(all);
        assert forall x :: x in rows ==> x in multiset(all);
        var pg := PageOf(rows, ClampPageNum(pageNum), ClampPageSize(pageSize));
        PageOfSortedDesc(rows, ClampPageNum(pageNum), ClampPageSize(pageSize));
        SuccessWith(Page(pg))
    }

    /**
     * getMonthlyCheckinStats: the user check, then the month's figures; a year or month
     * LocalDate rejects, or a month whose successor LocalDate cannot hold, throws.
     */
    function GetMonthlyCheckinStats(userId: Option<int>, year: int, month: int): (r: Result<Payload>)
      reads this
      ensures r.IsSuccess() <==> userId.Some? && UserExists(users, userId.value) && MonthArithmeticDefined(year, month)
      ensures !ValidateUserExists(users, userId).IsSuccess() ==> r == ValidateUserExists(users, userId)
      ensures ValidateUserExists(users, userId).IsSuccess() && !MonthArithmeticDefined(year, month) ==>
        r == Error(MsgServerError)
      ensures r.IsSuccess() ==>
        && r.data.Some? && r.data.value.Monthly?
        && r.data.value.monthly == MonthlyStatsOf(records, userId.value, year, month)
    {
      var check := ValidateUserExists(users, userId);
      if !check.IsSuccess() then check
      else if !MonthArithmeticDefined(year, month) then Error(MsgServerError)
      else SuccessWith(Monthly(MonthlyStatsOf(records, userId.value, year, month)))
    }

    /** getUncheckedUsers: every user with no record on the date, in table order, passwords removed. */
    method GetUncheckedUsers(date: Date) returns (res: Result<Payload>)
      ensures users == [] ==> res == SuccessWith(Text(MsgNoUsers))
      ensures users != [] && date == LastDate ==> res == Error(MsgServerError)
      ensures users != [] && date != LastDate ==>
        res == SuccessWith(Users(UncheckedUsers(users, records, EpochDay(date))))
    {
      if users == [] {
        return SuccessWith(Text(MsgNoUsers));
      }
      if date == LastDate {
        return Error(MsgServerError);
      }
      var d := EpochDay(date);
      var checked := CheckedUserIds(records, d);
      var kept: seq<User> := [];
      var i := 0;
      while i < |users|
        invariant 0 <= i <= |users|
        invariant kept == UncheckedUsers(users[..i], records, d)
      {
        var u := users[i];
        CheckedUserIdsIff(records, d, u.id);
        assert users[..i + 1] == users[..i] + [u];
        UncheckedUsersAppend(users[..i], [u], records, d);
        assert [u][1..] == [];
        if u.id !in checked {
          kept := kept + [Redact(u)];
        }
        i := i + 1;
      }
      assert users[..|users|] == users;
      res := SuccessWith(Users(kept));
    }
  }
}
