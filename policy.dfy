/**
 * The admission rules of createCheckin and reissueCheckin, as verdicts on the
 * tables before the insert, the records each one inserts, and the invariants of
 * the record table that the two together keep: one record per user and day, well
 * formed backfills, and the monthly backfill quota.
 */
module Policy {
  import opened Wrappers
  import opened ApiResult
  import opened Text
  import opened Calendar
  import opened Entities
  import opened Store
  import opened Geofence

  const MaxLocationLength: int := 100
  const MaxReasonLength: int := 500
  const ReissueLocation: string := "补卡"

  const MsgLocationBlank: string := "打卡地点不能为空"
  const MsgLocationTooLong: string := "打卡地点不能超过100个字符"
  const MsgAlreadyCheckedIn: string := "今日已打卡，请勿重复操作"
  const MsgCheckinOk: string := "打卡成功"
  const MsgCheckinFailed: string := "打卡失败，请重试"
  const MsgFutureDate: string := "不能补未来的卡"
  const MsgDateTaken: string := "该日期已打卡，无需补卡"
  const MsgBadReason: string := "补卡理由不能为空且不超过500字"
  const MsgReissueOk: string := "补卡成功"
  const MsgReissueFailed: string := "补卡失败，请重试"

  function MsgWindowExceeded(maxDays: int, daysBetween: int): string {
    "仅支持" + IntToString(maxDays) + "天内的补卡（当前超出" + IntToString(daysBetween) + "天）"
  }

  function MsgQuotaExceeded(maxCount: int, used: int): string {
    "本月补卡次数已达上限（最多" + IntToString(maxCount) + "次，已使用" + IntToString(used) + "次）"
  }

  /** The outcome of the checks that precede an insert. */
  datatype Verdict = Rejected(response: Result<Payload>) | Admitted(userId: int)

  predicate LocationTextOk(location: Option<string>) {
    location.Some? && !IsBlank(location.value) && Utf16Length(location.value) <= MaxLocationLength
  }

  predicate ReasonOk(reason: Option<string>) {
    reason.Some? && !IsBlank(reason.value) && Utf16Length(reason.value) <= MaxReasonLength
  }

  // --- createCheckin ---

  /**
   * createCheckin's checks, in the source's order: the location text, the user, the
   * half-open count for today, and the coordinates (only when both are given).
   */
  function CheckinVerdict(cfg: Config, users: seq<User>, records: seq<CheckinRecord>,
                          req: CheckinRequest, today: int): (v: Verdict)
    ensures v.Admitted? ==> req.userId == Some(v.userId)
    ensures v.Rejected? ==> !v.response.IsSuccess() && v.response.data.None?
  {
    if req.location.None? || Trim(req.location.value) == [] then
      Rejected(Error(MsgLocationBlank))
    else if Utf16Length(req.location.value) > MaxLocationLength then
      Rejected(Error(MsgLocationTooLong))
    else if !ValidateUserExists(users, req.userId).IsSuccess() then
      Rejected(ValidateUserExists(users, req.userId))
    else if HasCheckedInDate(records, req.userId.value, today) then
      Rejected(Error(MsgAlreadyCheckedIn))
    else if req.latitude.Some? && req.longitude.Some?
         && !ValidateCheckinLocation(cfg, req.latitude, req.longitude).IsSuccess() then
      Rejected(ValidateCheckinLocation(cfg, req.latitude, req.longitude))
    else
      Admitted(req.userId.value)
  }

  /** A checkin is admitted exactly when every check passes. */
  lemma CheckinAdmission(cfg: Config, users: seq<User>, records: seq<CheckinRecord>, req: CheckinRequest, today: int)
    ensures CheckinVerdict(cfg, users, records, req, today).Admitted? <==>
      && LocationTextOk(req.location)
      && req.userId.Some? && UserExists(users, req.userId.value)
      && !HasCheckedInDate(records, req.userId.value, today)
      && (req.latitude.Some? && req.longitude.Some? ==> InBounds(cfg, req.latitude.value, req.longitude.value))
  {
    if req.location.Some? {
      TrimEmptyIffBlank(req.location.value);
    }
  }

  /**
   * Which check answers first: a missing or blank location, then its length, then the user,
   * then a repeat the same day, then coordinates outside the rectangle.
   */
  lemma CheckinRejections(cfg: Config, users: seq<User>, records: seq<CheckinRecord>, req: CheckinRequest, today: int)
    ensures var v := CheckinVerdict(cfg, users, records, req, today);
      && (req.location.None? || IsBlank(req.location.value) ==> v == Rejected(Error(MsgLocationBlank)))
      && (req.location.Some? && !IsBlank(req.location.value) && Utf16Length(req.location.value) > MaxLocationLength
          ==> v == Rejected(Error(MsgLocationTooLong)))
      && (LocationTextOk(req.location) && !ValidateUserExists(users, req.userId).IsSuccess()
          ==> v == Rejected(ValidateUserExists(users, req.userId)))
      && ((LocationTextOk(req.location) && ValidateUserExists(users, req.userId).IsSuccess()
           && HasCheckedInDate(records, req.userId.value, today)) ==> v == Rejected(Error(MsgAlreadyCheckedIn)))
      && ((LocationTextOk(req.location) && ValidateUserExists(users, req.userId).IsSuccess()
           && !HasCheckedInDate(records, req.userId.value, today)
           && req.latitude.Some? && req.longitude.Some?
           && !InBounds(cfg, req.latitude.value, req.longitude.value))
          ==> v == Rejected(ValidateCheckinLocation(cfg, req.latitude, req.longitude)))
  {
    if req.location.Some? {
      TrimEmptyIffBlank(req.location.value);
    }
  }

  /** The record createCheckin stores: server time, status 1, not a reissue; the rest as submitted. */
  function NewCheckinRecord(req: CheckinRequest, uid: int, id: int, clock: Clock): (r: CheckinRecord)
    ensures r.id == id && r.userId == uid && r.checkinTime == Now(clock)
    ensures r.status == StatusNormal && r.isReissue == 0
    ensures r.location == req.location && r.latitude == req.latitude && r.longitude == req.longitude
    ensures r.reissueReason == req.reissueReason && r.reissueTime == req.reissueTime
  {
    CheckinRecord(id, uid, Now(clock), req.location, req.latitude, req.longitude,
                  StatusNormal, 0, req.reissueReason, req.reissueTime)
  }

  // --- reissueCheckin ---

  /**
   * reissueCheckin's checks, in the source's order: the user, a future date, the day
   * window, a date already taken, the monthly quota by submission time, the reason.
   */
  function ReissueVerdict(cfg: Config, users: seq<User>, records: seq<CheckinRecord>,
                          userId: Option<int>, date: Date, reason: Option<string>, clock: Clock): (v: Verdict)
    ensures v.Admitted? ==> userId == Some(v.userId) && reason.Some?
    ensures v.Rejected? ==> !v.response.IsSuccess() && v.response.data.None?
  {
    var today := Today(clock);
    if !ValidateUserExists(users, userId).IsSuccess() then
      Rejected(ValidateUserExists(users, userId))
    else if IsAfter(date, today) then
      Rejected(Error(MsgFutureDate))
    else
      var daysBetween := EpochDay(today) - EpochDay(date);
      if daysBetween > cfg.maxReissueDays then
        Rejected(Error(MsgWindowExceeded(cfg.maxReissueDays, daysBetween)))
      else if HasCheckedInDate(records, userId.value, EpochDay(date)) then
        Rejected(Error(MsgDateTaken))
      else
        var count := CountMonthlyReissues(records, userId.value, today.year, today.month);
        if count >= cfg.maxReissueCount then
          Rejected(Error(MsgQuotaExceeded(cfg.maxReissueCount, count)))
        else if reason.None? || Trim(reason.value) == [] || Utf16Length(reason.value) > MaxReasonLength then
          Rejected(Error(MsgBadReason))
        else
          Admitted(userId.value)
  }

  /** A backfill is admitted exactly when every check passes. */
  lemma ReissueAdmission(cfg: Config, users: seq<User>, records: seq<CheckinRecord>,
                         userId: Option<int>, date: Date, reason: Option<string>, clock: Clock)
    ensures ReissueVerdict(cfg, users, records, userId, date, reason, clock).Admitted? <==>
      && userId.Some? && UserExists(users, userId.value)
      && EpochDay(date) <= EpochDay(Today(clock))
      && EpochDay(Today(clock)) - EpochDay(date) <= cfg.maxReissueDays
      && !HasCheckedInDate(records, userId.value, EpochDay(date))
      && CountMonthlyReissues(records, userId.value, Today(clock).year, Today(clock).month) < cfg.maxReissueCount
      && ReasonOk(reason)
  {
    IsAfterIffLaterDay(date, Today(clock));
    if reason.Some? {
      TrimEmptyIffBlank(reason.value);
    }
  }

  /**
   * Which check answers first: the user, then a future date, then the window (with the
   * distance in the message), then a date already taken, then the quota (with the count).
   * ReissueReasonRejected states the sixth and last answer.
   */
  lemma ReissueRejections(cfg: Config, users: seq<User>, records: seq<CheckinRecord>,
                          userId: Option<int>, date: Date, reason: Option<string>, clock: Clock)
    ensures !ValidateUserExists(users, userId).IsSuccess() ==>
      ReissueVerdict(cfg, users, records, userId, date, reason, clock) == Rejected(ValidateUserExists(users, userId))
    ensures ValidateUserExists(users, userId).IsSuccess() && EpochDay(date) > EpochDay(Today(clock)) ==>
      ReissueVerdict(cfg, users, records, userId, date, reason, clock) == Rejected(Error(MsgFutureDate))
    ensures var gap := EpochDay(Today(clock)) - EpochDay(date);
      ValidateUserExists(users, userId).IsSuccess() && 0 <= gap && gap > cfg.maxReissueDays ==>
      ReissueVerdict(cfg, users, records, userId, date, reason, clock)
        == Rejected(Error(MsgWindowExceeded(cfg.maxReissueDays, gap)))
    ensures var gap := EpochDay(Today(clock)) - EpochDay(date);
      ValidateUserExists(users, userId).IsSuccess() && 0 <= gap <= cfg.maxReissueDays
      && HasCheckedInDate(records, userId.value, EpochDay(date)) ==>
      ReissueVerdict(cfg, users, records, userId, date, reason, clock) == Rejected(Error(MsgDateTaken))
    ensures var gap := EpochDay(Today(clock)) - EpochDay(date);
      (ValidateUserExists(users, userId).IsSuccess() && 0 <= gap <= cfg.maxReissueDays
       && !HasCheckedInDate(records, userId.value, EpochDay(date))) ==>
      var used := CountMonthlyReissues(records, userId.value, Today(clock).year, Today(clock).month);
      used >= cfg.maxReissueCount ==>
        ReissueVerdict(cfg, users, records, userId, date, reason, clock)
          == Rejected(Error(MsgQuotaExceeded(cfg.maxReissueCount, used)))
  {
    IsAfterIffLaterDay(date, Today(clock));
  }

  /** The last check: once the five before it pass, a missing, blank or over-long reason is refused. */
  lemma ReissueReasonRejected(cfg: Config, users: seq<User>, records: seq<CheckinRecord>,
                              userId: Option<int>, date: Date, reason: Option<string>, clock: Clock)
    ensures var gap := EpochDay(Today(clock)) - EpochDay(date);
      (ValidateUserExists(users, userId).IsSuccess() && 0 <= gap <= cfg.maxReissueDays
       && !HasCheckedInDate(records, userId.value, EpochDay(date))
       && CountMonthlyReissues(records, userId.value, Today(clock).year, Today(clock).month) < cfg.maxReissueCount
       && !ReasonOk(reason)) ==>
      ReissueVerdict(cfg, users, records, userId, date, reason, clock) == Rejected(Error(MsgBadReason))
  {
    IsAfterIffLaterDay(date, Today(clock));
    if reason.Some? {
      TrimEmptyIffBlank(reason.value);
    }
  }

  /** The record reissueCheckin stores: the start of the backfilled day, marked as a reissue, submitted now. */
  function NewReissueRecord(uid: int, date: Date, reason: string, id: int, clock: Clock): (r: CheckinRecord)
    ensures r.id == id && r.userId == uid
    ensures r.checkinTime == AtStartOfDay(EpochDay(date))
    ensures r.location == Some(ReissueLocation) && r.latitude.None? && r.longitude.None?
    ensures r.status == StatusReissue && r.isReissue == 1
    ensures r.reissueReason == Some(reason) && r.reissueTime == Some(Now(clock))
  {
    CheckinRecord(id, uid, AtStartOfDay(EpochDay(date)), Some(ReissueLocation), None, None,
                  StatusReissue, 1, Some(reason), Some(Now(clock)))
  }

  // --- Invariants of the record table ---

  /** At most one record per user and calendar day. */
  ghost predicate OnePerDay(rs: seq<CheckinRecord>) {
    forall i, j :: 0 <= i < j < |rs| && rs[i].userId == rs[j].userId ==>
      rs[i].checkinTime.day != rs[j].checkinTime.day
  }

  /** A normal record has status 1; a backfill has status 2, a valid reason, and was submitted within the window after its day. */
  predicate WellFormedRecord(cfg: Config, r: CheckinRecord) {
    || (r.isReissue == 0 && r.status == StatusNormal)
    || (&& r.isReissue == 1 && r.status == StatusReissue
        && ReasonOk(r.reissueReason) && r.reissueTime.Some?
        && r.checkinTime.second == 0
        && 0 <= r.reissueTime.value.day - r.checkinTime.day <= cfg.maxReissueDays)
  }

  function QuotaBound(cfg: Config): nat {
    if cfg.maxReissueCount < 0 then 0 else cfg.maxReissueCount
  }

  /** No user has more backfills submitted in any month than the quota allows. */
  ghost predicate QuotaRespected(cfg: Config, rs: seq<CheckinRecord>) {
    forall uid, y, m :: 1 <= m <= 12 ==> CountMonthlyReissues(rs, uid, y, m) <= QuotaBound(cfg)
  }

  /** The record a checkin admitted for today keeps one record per user and day. */
  lemma AdmittedDayKeepsOnePerDay(rs: seq<CheckinRecord>, r: CheckinRecord)
    requires OnePerDay(rs)
    requires !HasCheckedInDate(rs, r.userId, r.checkinTime.day)
    ensures OnePerDay(rs + [r])
  {
    HasCheckedInDateIff(rs, r.userId, r.checkinTime.day);
    var t := rs + [r];
    forall i, j | 0 <= i < j < |t| && t[i].userId == t[j].userId
      ensures t[i].checkinTime.day != t[j].checkinTime.day
    {
      if j == |rs| {
        assert t[i] == rs[i];
      } else {
        assert t[i] == rs[i] && t[j] == rs[j];
      }
    }
  }

  /** A record that is not a backfill leaves every monthly count, and so the quota, as it was. */
  lemma PlainRecordKeepsQuota(cfg: Config, rs: seq<CheckinRecord>, r: CheckinRecord)
    requires QuotaRespected(cfg, rs)
    requires r.isReissue != 1
    ensures QuotaRespected(cfg, rs + [r])
  {
    forall uid, y, m | 1 <= m <= 12 ensures CountMonthlyReissues(rs + [r], uid, y, m) <= QuotaBound(cfg) {
      CountMonthlyReissuesAppend(rs, r, uid, y, m);
    }
  }

  /** A backfill submitted now raises the count of the current month for its user by one, and no other count. */
  lemma ReissueSpendsOneQuota(rs: seq<CheckinRecord>, r: CheckinRecord, clock: Clock, uid: int, y: int, m: int)
    requires 1 <= m <= 12
    requires r.isReissue == 1 && r.reissueTime == Some(Now(clock))
    ensures CountMonthlyReissues(rs + [r], uid, y, m) == CountMonthlyReissues(rs, uid, y, m)
      + (if uid == r.userId && y == Today(clock).year && m == Today(clock).month then 1 else 0)
  {
    CountMonthlyReissuesAppend(rs, r, uid, y, m);
    DateInItsMonth(Today(clock));
    if InMonth(Now(clock).day, y, m) {
      MonthsDisjoint(Now(clock).day, y, m, Today(clock).year, Today(clock).month);
    }
  }

  /** A backfill admitted under the quota keeps every user within it in every month. */
  lemma AdmittedReissueKeepsQuota(cfg: Config, rs: seq<CheckinRecord>, r: CheckinRecord, clock: Clock)
    requires QuotaRespected(cfg, rs)
    requires r.isReissue == 1 && r.reissueTime == Some(Now(clock))
    requires CountMonthlyReissues(rs, r.userId, Today(clock).year, Today(clock).month) < cfg.maxReissueCount
    ensures QuotaRespected(cfg, rs + [r])
  {
    forall uid, y, m | 1 <= m <= 12 ensures CountMonthlyReissues(rs + [r], uid, y, m) <= QuotaBound(cfg) {
      ReissueSpendsOneQuota(rs, r, clock, uid, y, m);
    }
  }

  // --- Consequences across calls ---

  /** Once a checkin has been stored, a second one the same day by the same user is refused as a repeat. */
  lemma SecondCheckinSameDayRejected(cfg: Config, users: seq<User>, records: seq<CheckinRecord>,
                                     req: CheckinRequest, req2: CheckinRequest, id: int, clock: Clock)
    requires CheckinVerdict(cfg, users, records, req, EpochDay(Today(clock))).Admitted?
    requires req2.userId == req.userId && LocationTextOk(req2.location)
    ensures var uid := req.userId.value;
      CheckinVerdict(cfg, users, records + [NewCheckinRecord(req, uid, id, clock)], req2, EpochDay(Today(clock)))
        == Rejected(Error(MsgAlreadyCheckedIn))
  {
    CheckinAdmission(cfg, users, records, req, EpochDay(Today(clock)));
    var uid := req.userId.value;
    var t := records + [NewCheckinRecord(req, uid, id, clock)];
    HasCheckedInDateIff(t, uid, EpochDay(Today(clock)));
    assert t[|records|].checkinTime.day == EpochDay(Today(clock));
    CheckinRejections(cfg, users, t, req2, EpochDay(Today(clock)));
  }

  /**
   * With a quota of one a month, once a backfill has been stored, the next one submitted in
   * the same month is refused for the quota (after passing the checks before it).
   */
  lemma SecondReissueSameMonthRejected(cfg: Config, users: seq<User>, records: seq<CheckinRecord>,
                                       uid: int, date: Date, reason: string, id: int, clock: Clock,
                                       date2: Date, reason2: Option<string>, clock2: Clock)
    requires cfg.maxReissueCount == 1
    requires ReissueVerdict(cfg, users, records, Some(uid), date, Some(reason), clock).Admitted?
    requires Today(clock2).year == Today(clock).year && Today(clock2).month == Today(clock).month
    requires EpochDay(date2) <= EpochDay(Today(clock2))
    requires EpochDay(Today(clock2)) - EpochDay(date2) <= cfg.maxReissueDays
    requires !HasCheckedInDate(records + [NewReissueRecord(uid, date, reason, id, clock)], uid, EpochDay(date2))
    ensures ReissueVerdict(cfg, users, records + [NewReissueRecord(uid, date, reason, id, clock)],
                           Some(uid), date2, reason2, clock2)
      == Rejected(Error(MsgQuotaExceeded(1, 1)))
  {
    ReissueAdmission(cfg, users, records, Some(uid), date, Some(reason), clock);
    var r := NewReissueRecord(uid, date, reason, id, clock);
    var t := records + [r];
    var today := Today(clock);
    assert UserExists(users, uid);
    assert 0 <= CountMonthlyReissues(records, uid, today.year, today.month) < 1;
    ReissueSpendsOneQuota(records, r, clock, uid, today.year, today.month);
    assert CountMonthlyReissues(t, uid, Today(clock2).year, Today(clock2).month) == 1;
    ReissueRejections(cfg, users, t, Some(uid), date2, reason2, clock2);
  }

  /** A backfill submitted this month does not count against any other month's quota. */
  lemma ReissueLeavesOtherMonths(rs: seq<CheckinRecord>, uid: int, date: Date, reason: string, id: int,
                                 clock: Clock, y: int, m: int)
    requires 1 <= m <= 12
    requires y != Today(clock).year || m != Today(clock).month
    ensures CountMonthlyReissues(rs + [NewReissueRecord(uid, date, reason, id, clock)], uid, y, m)
         == CountMonthlyReissues(rs, uid, y, m)
  {
    ReissueSpendsOneQuota(rs, NewReissueRecord(uid, date, reason, id, clock), clock, uid, y, m);
  }

  /** With the default window of 3 days, a date four days back is refused for the window. */
  lemma FourDaysBackRejected(cfg: Config, users: seq<User>, records: seq<CheckinRecord>,
                             uid: int, date: Date, reason: Option<string>, clock: Clock)
    requires cfg.maxReissueDays == DefaultMaxReissueDays
    requires UserExists(users, uid)
    requires EpochDay(date) == EpochDay(Today(clock)) - 4
    ensures ReissueVerdict(cfg, users, records, Some(uid), date, reason, clock)
      == Rejected(Error(MsgWindowExceeded(3, 4)))
  {
    ReissueRejections(cfg, users, records, Some(uid), date, reason, clock);
  }
}
