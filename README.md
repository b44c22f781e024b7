# Check-in service core, modelled in Dafny

This project models the attendance core of the check-in backend. That core is
`CheckinRecordServiceImpl` together with the `Result` envelope that every operation
returns. It covers these operations:

- daily check-in (`createCheckin`);
- backfill, called "reissue" in the code (`reissueCheckin`);
- the consecutive-day streak and its cache-aside Redis entry (`getContinuousCheckinDays`);
- the record listings: all rows, one page of rows, and today's status;
- the monthly statistics and the overall statistics;
- the list of users who have no record on a given date.

It also covers the private helpers that these operations share: the user check, the geofence
test, the per-day test and the monthly backfill count.

The service object is the class `Service.CheckinService`. It holds the user table, the
record table, the next row id and the streak cache. The two writes change that state through
`Insert` and `Evict`, and they keep an invariant (`Valid`). The invariant says:

- each user has at most one record per calendar day;
- every row is well formed and belongs to an existing user;
- row ids increase;
- no user has more backfills submitted in one month than the quota allows;
- the cache is empty when Redis is absent;
- the cache holds only streaks of existing users, and no cached streak exceeds that user's
  number of records.

The checks that precede an insert are pure functions (`Policy.CheckinVerdict` and
`Policy.ReissueVerdict`). Lemmas state exactly when each one admits a request, and which
message answers when it does not: for each rejection, the conditions under which it is the
answer given, in the service's order of checks.

The streak is modelled as the code computes it. The loop keeps `today` at the date of the
last matched record, but it compares the next record against `today - count`. The matched
records therefore lie 0, 1, 3, 6, … days before today, following the triangular numbers
(`Streak.StreakIsTriangular`, `Streak.TriangularIsStreak`). Records on today, yesterday and
the day before give a streak of 2 (`Streak.ThreeConsecutiveDaysGiveTwo`). That is
surprising, because the evident intent of a "consecutive check-in days" count is the length
of the unbroken daily run ending today. The model keeps the code's behaviour and proves what
it actually yields. Two further points follow the code rather than what a reader might expect:

- A rejected insert answers "打卡失败，请重试" (error 500); there is no distinct outcome
  for a duplicate row.
- When the newest record is not from today, the streak is 1, not 0.

Modelling choices:

- Days are day numbers, with day 0 = 1970-01-01.
- Timestamps are a day number plus a second of that day.
- Strings are `seq<char>`. Their Java `length()` is counted in UTF-16 code units.
- The record carries the columns the service reads and writes: latitude, longitude,
  `is_reissue`, `reissue_reason` and `reissue_time`, besides the five that the entity
  file declares.
- `Result` has no `isSuccess()` method in its own file. Its callers' use of that method
  is read as "the code is 200".
- An exception that the code does not catch becomes the answer of the global exception
  handler: error 500 with "服务器内部错误，请稍后再试". Four cases reach it, all in the
  month and day arithmetic (`Store.MonthArithmeticDefined`, `Service.LastDate`):
  - `LocalDate.of(year, month, 1)` with a month outside 1..12;
  - `LocalDate.of(year, month, 1)` with a year outside -999,999,999..999,999,999;
  - `plusMonths(1)` from December of year 999,999,999;
  - `plusDays(1)` on 31 December 999,999,999, the last date `LocalDate` represents.
- The two rates are integers. The monthly `%.1f%%` figure becomes a permille rounded
  half up. The overall rate becomes hundredths, as `Math.round(x * 100) / 100.0` gives.

## Model

| member | source | states |
|---|---|---|
| ApiResult.Success | src/main/java/com/checkin/common/Result.java:24-29 | code 200, message "操作成功", no data |
| ApiResult.SuccessWith | src/main/java/com/checkin/common/Result.java:35-41 | code 200, the default message, and the data exactly as given |
| ApiResult.SuccessMsg | src/main/java/com/checkin/common/Result.java:47-53 | code 200 with exactly the given message and data |
| ApiResult.Error | src/main/java/com/checkin/common/Result.java:59-64 | code 500, the given message, no data; never a success |
| ApiResult.ErrorWithCode | src/main/java/com/checkin/common/Result.java:70-75 | the given code and message, no data; a success exactly when the code is 200 |
| ApiResult.SuccessMsgInjective | src/main/java/com/checkin/common/Result.java:47-53 | two equal success(msg, data) results were built from the same message and data |
| ApiResult.ErrorIsNeverSuccess | src/main/java/com/checkin/common/Result.java:24-64 | error(msg) never equals the result of any success factory |
| Text.Utf16Length | src/main/java/com/checkin/service/impl/CheckinRecordServiceImpl.java:68 | `length()` lies between the number of characters and twice that number |
| Text.Utf16LengthOfBmp | src/main/java/com/checkin/service/impl/CheckinRecordServiceImpl.java:68 | inside the Basic Multilingual Plane, `length()` is the number of characters |
| Text.TrimEmptyIffBlank | src/main/java/com/checkin/service/impl/CheckinRecordServiceImpl.java:65 | `trim().isEmpty()` holds exactly when every character is at most U+0020 |
| Text.TrimStartEmptyIffBlank | src/main/java/com/checkin/service/impl/CheckinRecordServiceImpl.java:65 | stripping leading blanks leaves nothing exactly when the string is blank |
| Text.TrimEndEmptyIffBlank | src/main/java/com/checkin/service/impl/CheckinRecordServiceImpl.java:65 | stripping trailing blanks leaves nothing exactly when the string is blank |
| Text.Trim | src/main/java/com/checkin/service/impl/CheckinRecordServiceImpl.java:65 | `trim()` never lengthens the string |
| Text.TrimEndPrefix | src/main/java/com/checkin/service/impl/CheckinRecordServiceImpl.java:65 | stripping trailing blanks keeps a prefix of the string, and the part removed is blank |
| Text.TrimStartSuffix | src/main/java/com/checkin/service/impl/CheckinRecordServiceImpl.java:65 | stripping leading blanks keeps a suffix of the string, and the part removed is blank |
| Text.TrimIsInfix | src/main/java/com/checkin/service/impl/CheckinRecordServiceImpl.java:65 | `trim()` returns a slice s[i..j] of its argument with only blanks before i and after j; with TrimLeavesNoBlankEnds this fixes i and j as the first and last kept characters |
| Text.TrimEndLast | src/main/java/com/checkin/service/impl/CheckinRecordServiceImpl.java:65 | a non-empty right-stripped string ends with a character that trim keeps |
| Text.TrimLeavesNoBlankEnds | src/main/java/com/checkin/service/impl/CheckinRecordServiceImpl.java:65 | a non-empty `trim()` result neither starts nor ends with a character at most U+0020 |
| Text.TrimStartHead | src/main/java/com/checkin/service/impl/CheckinRecordServiceImpl.java:65 | a non-empty left-stripped string starts with a character that trim keeps |
| Text.NatToString | src/main/java/com/checkin/service/impl/CheckinRecordServiceImpl.java:292 | the rendering has at least one character, all of them decimal digits, and no leading zero unless it is "0" |
| Text.DigitsRoundTrip | src/main/java/com/checkin/service/impl/CheckinRecordServiceImpl.java:292 | reading back the decimal rendering of n gives n |
| Text.IntToStringInjective | src/main/java/com/checkin/service/impl/CheckinRecordServiceImpl.java:162 | different numbers render as different strings |
| Text.LeadingMinusIffNegative | src/main/java/com/checkin/service/impl/CheckinRecordServiceImpl.java:162 | the rendering starts with '-' exactly when the number is negative |
| Calendar.DaysInMonth | src/main/java/com/checkin/service/impl/CheckinRecordServiceImpl.java:353-354 | each month has 28 to 31 days |
| Calendar.MonthsFillYear | src/main/java/com/checkin/service/impl/CheckinRecordServiceImpl.java:353-354 | the month lengths add up to the year: 365 days, or 366 in a leap year |
| Calendar.NextMonthStart | src/main/java/com/checkin/service/impl/CheckinRecordServiceImpl.java:353 | `plusMonths(1)` from the first of a month lands DaysInMonth days later |
| Calendar.LastDayOfMonth | src/main/java/com/checkin/service/impl/CheckinRecordServiceImpl.java:353-354 | `firstDay.plusMonths(1).minusDays(1)` is the valid date (y, m, DaysInMonth), so getDayOfMonth is the month's length |
| Calendar.MonthsInOrder | src/main/java/com/checkin/service/impl/CheckinRecordServiceImpl.java:352-353 | an earlier month ends before a later one begins |
| Calendar.MonthsDisjoint | src/main/java/com/checkin/service/impl/CheckinRecordServiceImpl.java:524-533 | a day lies in at most one month |
| Calendar.DateInItsMonth | src/main/java/com/checkin/service/impl/CheckinRecordServiceImpl.java:441-448 | a date's day number lies in the date's own month |
| Calendar.IsAfter | src/main/java/com/checkin/service/impl/CheckinRecordServiceImpl.java:287 | `LocalDate.isAfter`, compared year, then month, then day; IsAfterIffLaterDay equates it with a later day number |
| Calendar.EpochDay | src/main/java/com/checkin/service/impl/CheckinRecordServiceImpl.java:290 | the day number of a date, day 0 being 1970-01-01, so `DAYS.between(a, b)` is EpochDay(b) - EpochDay(a); DateInItsMonth and EpochDayInjective state its properties |
| Calendar.IsAfterIffLaterDay | src/main/java/com/checkin/service/impl/CheckinRecordServiceImpl.java:286-289 | `isAfter` holds exactly when the day number is later |
| Calendar.EpochDayInjective | src/main/java/com/checkin/service/impl/CheckinRecordServiceImpl.java:290-291 | different dates have different day numbers |
| Calendar.HalfOpenDay | src/main/java/com/checkin/service/impl/CheckinRecordServiceImpl.java:509-517 | [d 00:00, d+1 00:00) holds exactly the timestamps of day d |
| Calendar.ClosedDays | src/main/java/com/checkin/service/impl/CheckinRecordServiceImpl.java:359-360 | [first 00:00:00, last 23:59:59] holds exactly the timestamps of days first..last |
| Calendar.Now | src/main/java/com/checkin/service/impl/CheckinRecordServiceImpl.java:94 | `LocalDateTime.now()` falls on `LocalDate.now()` |
| Store.ValidateUserExists | src/main/java/com/checkin/service/impl/CheckinRecordServiceImpl.java:479-488 | a null id gives "用户ID不能为空", then an unknown id gives "用户不存在", and otherwise success(); a success exactly when the id is present and exists |
| Store.CountWherePositive | src/main/java/com/checkin/service/impl/CheckinRecordServiceImpl.java:498-503 | a positive selectCount means some row satisfies the condition, and conversely |
| Store.CountWhereAppend | src/main/java/com/checkin/service/impl/CheckinRecordServiceImpl.java:498-503 | a new row raises the count by one exactly when it satisfies the condition |
| Store.Filter | src/main/java/com/checkin/service/impl/CheckinRecordServiceImpl.java:129-130 | the selected rows are exactly the rows satisfying the condition, none added |
| Store.FilterAppend | src/main/java/com/checkin/service/impl/CheckinRecordServiceImpl.java:129-130 | a new row extends the selection by itself alone, when it qualifies |
| Store.RecordsOf | src/main/java/com/checkin/service/impl/CheckinRecordServiceImpl.java:129-130 | `eq("user_id", uid)` selects exactly that user's rows |
| Store.HasCheckedInDate | src/main/java/com/checkin/service/impl/CheckinRecordServiceImpl.java:493-519 | hasCheckedInToday/hasCheckedInDate: the count of the user's rows in the half-open day is positive; HasCheckedInDateIff states what that means |
| Store.HasCheckedInDateIff | src/main/java/com/checkin/service/impl/CheckinRecordServiceImpl.java:493-519 | hasCheckedInToday/hasCheckedInDate hold exactly when the user has a row dated that day |
| Store.MonthRange | src/main/java/com/checkin/service/impl/CheckinRecordServiceImpl.java:525-532 | the range from firstDay 00:00:00 to lastDay 23:59:59 holds exactly the timestamps of month (y, m) |
| Store.IsMonthlyReissueIff | src/main/java/com/checkin/service/impl/CheckinRecordServiceImpl.java:528-533 | a row counts for (uid, y, m) exactly when it is that user's backfill submitted in that month |
| Store.CountMonthlyReissues | src/main/java/com/checkin/service/impl/CheckinRecordServiceImpl.java:524-534 | the monthly backfill count never exceeds the number of rows |
| Store.CountMonthlyReissuesAppend | src/main/java/com/checkin/service/impl/CheckinRecordServiceImpl.java:524-534 | a new row raises a month's count by one exactly when it is that user's backfill submitted in that month |
| Store.InsertAsc | src/main/java/com/checkin/service/impl/CheckinRecordServiceImpl.java:361 | inserting into an ascending sequence keeps it ascending and adds exactly that row |
| Store.SortAsc | src/main/java/com/checkin/service/impl/CheckinRecordServiceImpl.java:361 | `orderByAsc("checkin_time")`: ascending, and a permutation of the rows |
| Store.Reverse | src/main/java/com/checkin/service/impl/CheckinRecordServiceImpl.java:131 | the rows in the opposite order, the same multiset |
| Store.SortDesc | src/main/java/com/checkin/service/impl/CheckinRecordServiceImpl.java:131 | `orderByDesc("checkin_time")`: descending, and a permutation of the rows |
| Store.DaysOf | src/main/java/com/checkin/service/impl/CheckinRecordServiceImpl.java:190-206 | one date per row, position for position |
| Store.DaysOfSortedDesc | src/main/java/com/checkin/service/impl/CheckinRecordServiceImpl.java:177-206 | rows in descending time order have dates in descending order |
| Geofence.ValidateCheckinLocation | src/main/java/com/checkin/service/impl/CheckinRecordServiceImpl.java:255-271 | a missing coordinate gives "打卡地点不能为空"; a success exactly when both are present and inside the inclusive rectangle |
| Geofence.CornersAccepted | src/main/java/com/checkin/service/impl/CheckinRecordServiceImpl.java:261-264 | the four corners of the rectangle are accepted: the bounds are inclusive |
| Geofence.ExampleBox | src/main/java/com/checkin/service/impl/CheckinRecordServiceImpl.java:261-264 | against [30, 31] x [120, 121], (30.5, 120.5) passes and latitude 91 fails |
| Paging.ClampPageNum | src/main/java/com/checkin/service/impl/CheckinRecordServiceImpl.java:236 | `Math.max(pageNum, 1)`: at least 1, and unchanged when already valid |
| Paging.ClampPageSize | src/main/java/com/checkin/service/impl/CheckinRecordServiceImpl.java:237 | the size clamped into 1..100: unchanged inside, 1 below, 100 above |
| Paging.ClampIdempotent | src/main/java/com/checkin/service/impl/CheckinRecordServiceImpl.java:236-237 | correcting the paging input twice is the same as correcting it once |
| Paging.PageRows | src/main/java/com/checkin/service/impl/CheckinRecordServiceImpl.java:239-244 | the rows after `offset`: at most `size` of them, in order from that position, none past the end, and none at all when the offset is past the end |
| Paging.PageOf | src/main/java/com/checkin/service/impl/CheckinRecordServiceImpl.java:239-247 | page p holds the rows after the first (p - 1) * size, with the page number, the size and the total row count |
| Streak.StreakKeyInjective | src/main/java/com/checkin/service/impl/CheckinRecordServiceImpl.java:162 | different user ids, null included, never share a cache key |
| Streak.RenderingStartsWithDigitOrMinus | src/main/java/com/checkin/service/impl/CheckinRecordServiceImpl.java:162 | a rendered id starts with a digit or '-', so it never collides with "null" |
| Streak.StreakKey | src/main/java/com/checkin/service/impl/CheckinRecordServiceImpl.java:162 | every key starts with "checkin:continuous:" and has something after it; StreakKeyInjective shows no two ids share one |
| Streak.StreakLength | src/main/java/com/checkin/service/impl/CheckinRecordServiceImpl.java:181-213 | the streak never exceeds the number of records, and is at least 1 once there is one |
| Streak.Walk | src/main/java/com/checkin/service/impl/CheckinRecordServiceImpl.java:203-213 | the walk adds at most one day per remaining record |
| Streak.StreakBounds | src/main/java/com/checkin/service/impl/CheckinRecordServiceImpl.java:181-213 | 0 with no records; otherwise between 1 and the record count; 1 when the newest record is not from today |
| Streak.ComputeStreak | src/main/java/com/checkin/service/impl/CheckinRecordServiceImpl.java:181-213 | the loop, with its early exits, computes the streak function |
| Streak.WalkMatches | src/main/java/com/checkin/service/impl/CheckinRecordServiceImpl.java:203-213 | the walk stops at the first record off the triangular pattern |
| Streak.StreakIsTriangular | src/main/java/com/checkin/service/impl/CheckinRecordServiceImpl.java:190-213 | the matched records lie Tri(j) days before today, and the next record breaks that pattern |
| Streak.TriangularIsStreak | src/main/java/com/checkin/service/impl/CheckinRecordServiceImpl.java:190-213 | conversely, a triangular prefix and its first break fix the streak |
| Streak.StreakIgnoresLaterRecords | src/main/java/com/checkin/service/impl/CheckinRecordServiceImpl.java:203-213 | records after the one that breaks the walk never change the result |
| Streak.ConsecutiveRunYieldsTwo | src/main/java/com/checkin/service/impl/CheckinRecordServiceImpl.java:203-213 | any run of two or more consecutive days ending today gives 2 |
| Streak.ThreeConsecutiveDaysGiveTwo | src/main/java/com/checkin/service/impl/CheckinRecordServiceImpl.java:203-213 | records on today, today - 1 and today - 2 give 2 |
| Stats.IntervalSubsetSize | src/main/java/com/checkin/service/impl/CheckinRecordServiceImpl.java:365-368 | a month has at most as many distinct dates as days |
| Stats.SameDayCountsOnce | src/main/java/com/checkin/service/impl/CheckinRecordServiceImpl.java:365-368 | a second record on an already counted day adds no date |
| Stats.NewDayCountsOnce | src/main/java/com/checkin/service/impl/CheckinRecordServiceImpl.java:431-434 | a record on a new day adds exactly one date |
| Stats.RoundedRatio | src/main/java/com/checkin/service/impl/CheckinRecordServiceImpl.java:456 | round half up of scale * num / den, within 0..scale |
| Stats.RoundedBounds | src/main/java/com/checkin/service/impl/CheckinRecordServiceImpl.java:456 | the rounded quotient lies within half a unit of the exact ratio, and within 0..scale |
| Stats.MonthRecords | src/main/java/com/checkin/service/impl/CheckinRecordServiceImpl.java:357-362 | the month query's rows: ascending, a permutation of the rows the query filter selects, and exactly the user's rows dated in the month |
| Stats.MonthlyStatsOf | src/main/java/com/checkin/service/impl/CheckinRecordServiceImpl.java:352-379 | total days equal the month's length; the dates are exactly the distinct dates of the month's rows; check-in days at most the month's length; the permille rate rounded half up, within 0..1000; the records are MonthRecords, the month query's rows ascending |
| Stats.CurrentMonthDates | src/main/java/com/checkin/service/impl/CheckinRecordServiceImpl.java:442-448 | the filter keeps exactly the dates of the current month |
| Stats.OverallStatsOf | src/main/java/com/checkin/service/impl/CheckinRecordServiceImpl.java:430-466 | total days equal the distinct dates; monthly days are at most the total and at most the month's length; the rate is this month's distinct days over the month's length, in hundredths rounded half up, within 0..100 |
| Policy.MsgWindowExceeded | src/main/java/com/checkin/service/impl/CheckinRecordServiceImpl.java:290-293 | the message names the window and the actual gap |
| Policy.MsgQuotaExceeded | src/main/java/com/checkin/service/impl/CheckinRecordServiceImpl.java:301-304 | the message names the quota and how much of it has been used |
| Policy.CheckinVerdict | src/main/java/com/checkin/service/impl/CheckinRecordServiceImpl.java:63-91 | an admission is for the request's own user; a rejection is an error without data |
| Policy.CheckinAdmission | src/main/java/com/checkin/service/impl/CheckinRecordServiceImpl.java:63-91 | admitted exactly when the location is non-blank and at most 100 long, the user exists, there is no record today, and given coordinates lie in the rectangle |
| Policy.CheckinRejections | src/main/java/com/checkin/service/impl/CheckinRecordServiceImpl.java:65-91 | in order: blank location, too long, user check, already checked in today, then coordinates outside the rectangle answered by the geofence result |
| Policy.NewCheckinRecord | src/main/java/com/checkin/service/impl/CheckinRecordServiceImpl.java:94-96 | server time, status NORMAL, not a reissue; the location, coordinates and backfill fields as submitted |
| Policy.ReissueVerdict | src/main/java/com/checkin/service/impl/CheckinRecordServiceImpl.java:278-309 | an admission is for the given user, with a reason; a rejection is an error without data |
| Policy.ReissueAdmission | src/main/java/com/checkin/service/impl/CheckinRecordServiceImpl.java:278-309 | admitted exactly when the user exists, the date is not in the future and within the window, the date is free, the month's quota is not spent, and the reason is non-blank and at most 500 long |
| Policy.ReissueRejections | src/main/java/com/checkin/service/impl/CheckinRecordServiceImpl.java:279-304 | in order: user check, a future date, the window message with the gap, a taken date, the quota message with the used count |
| Policy.ReissueReasonRejected | src/main/java/com/checkin/service/impl/CheckinRecordServiceImpl.java:279-309 | once the user, date, window, taken-date and quota checks pass, a missing, blank or over-500 reason is refused with the reason message |
| Policy.NewReissueRecord | src/main/java/com/checkin/service/impl/CheckinRecordServiceImpl.java:312-319 | the start of the backfilled day, location "补卡", no coordinates, status REISSUE, is_reissue 1, the reason, submitted now |
| Policy.AdmittedDayKeepsOnePerDay | src/main/java/com/checkin/service/impl/CheckinRecordServiceImpl.java:80-83 | a row for a day the user has no record on keeps one record per user and day |
| Policy.PlainRecordKeepsQuota | src/main/java/com/checkin/service/impl/CheckinRecordServiceImpl.java:94-100 | a normal check-in leaves every monthly quota as it was |
| Policy.ReissueSpendsOneQuota | src/main/java/com/checkin/service/impl/CheckinRecordServiceImpl.java:301-319 | a backfill submitted now raises only the current month's count for its user, by one |
| Policy.AdmittedReissueKeepsQuota | src/main/java/com/checkin/service/impl/CheckinRecordServiceImpl.java:301-319 | a backfill admitted under the quota keeps every user within the quota in every month |
| Policy.SecondCheckinSameDayRejected | src/main/java/com/checkin/service/impl/CheckinRecordServiceImpl.java:80-83 | once a check-in is stored, a second one that day from the same user is refused as a repeat |
| Policy.SecondReissueSameMonthRejected | src/main/java/com/checkin/service/impl/CheckinRecordServiceImpl.java:301-304 | with the default quota of 1, a second backfill in the same month is refused with the used count 1 |
| Policy.ReissueLeavesOtherMonths | src/main/java/com/checkin/service/impl/CheckinRecordServiceImpl.java:316-318 | a backfill submitted now leaves every other month's count unchanged |
| Policy.FourDaysBackRejected | src/main/java/com/checkin/service/impl/CheckinRecordServiceImpl.java:290-293 | with the default window of 3 days, a date 4 days back is refused with the window message |
| Service.Redact | src/main/java/com/checkin/service/impl/CheckinRecordServiceImpl.java:406 | the same user, id, name, role and creation time unchanged, without a password |
| Service.UncheckedUsers | src/main/java/com/checkin/service/impl/CheckinRecordServiceImpl.java:404-407 | the listed users are exactly the users with no record that day, passwords removed |
| Service.UncheckedUsersIff | src/main/java/com/checkin/service/impl/CheckinRecordServiceImpl.java:404-407 | a user is listed exactly when that user has no record on the date |
| Service.UncheckedUsersAppend | src/main/java/com/checkin/service/impl/CheckinRecordServiceImpl.java:404-407 | the filter distributes over concatenation, so the kept users stay in table order |
| Service.CheckedUserIds | src/main/java/com/checkin/service/impl/CheckinRecordServiceImpl.java:399-401 | `selectCheckedUserIds` over [d 00:00, d+1 00:00): at most one id per row |
| Service.CheckedUserIdsIff | src/main/java/com/checkin/service/impl/CheckinRecordServiceImpl.java:399-401 | an id is among the checked ids exactly when that user has a record on the day |
| Service.AppendKeepsTable | src/main/java/com/checkin/service/impl/CheckinRecordServiceImpl.java:99-100 | appending a well formed row of an existing user under the next id keeps the table invariant |
| Service.CheckinKeepsTable | src/main/java/com/checkin/service/impl/CheckinRecordServiceImpl.java:63-100 | the row of an admitted check-in keeps the table invariant |
| Service.ReissueKeepsTable | src/main/java/com/checkin/service/impl/CheckinRecordServiceImpl.java:278-322 | the row of an admitted backfill keeps the table invariant |
| Service.PageOfSortedDesc | src/main/java/com/checkin/service/impl/CheckinRecordServiceImpl.java:239-247 | a page of newest-first rows is newest first and holds only those rows |
| Service.StoredRowMarksDay | src/main/java/com/checkin/service/impl/CheckinRecordServiceImpl.java:99-100 | once a row is stored, its user has a record on its day |
| Service.CheckinStep | src/main/java/com/checkin/service/impl/CheckinRecordServiceImpl.java:94-103 | after an admitted check-in is stored and its cache entry evicted, the state is consistent again |
| Service.ReissueStep | src/main/java/com/checkin/service/impl/CheckinRecordServiceImpl.java:312-325 | the same for a backfill, and that month's count rises by exactly one |
| Service.CheckinService.constructor | src/main/java/com/checkin/service/impl/CheckinRecordServiceImpl.java:39-56 | an empty record table and cache, with the given users, configuration and Redis presence |
| Service.CheckinService.Insert | src/main/java/com/checkin/service/impl/CheckinRecordServiceImpl.java:99-100 | either the row is appended under the next id, or nothing changes |
| Service.CheckinService.Evict | src/main/java/com/checkin/service/impl/CheckinRecordServiceImpl.java:101-103 | the user's cache entry is removed, and the whole step is skipped without Redis |
| Service.CheckinService.CreateCheckin | src/main/java/com/checkin/service/impl/CheckinRecordServiceImpl.java:63-114 | keeps the invariant; a rejection answers the verdict and changes nothing; a failed insert answers "打卡失败，请重试" and changes nothing; a success stores exactly the new row, evicts the user's streak, and makes today checked in |
| Service.CheckinService.ReissueCheckin | src/main/java/com/checkin/service/impl/CheckinRecordServiceImpl.java:278-337 | the same for a backfill; a success marks the date as checked in and raises this month's backfill count by one |
| Service.CheckinService.GetContinuousCheckinDays | src/main/java/com/checkin/service/impl/CheckinRecordServiceImpl.java:160-221 | a cache hit is answered unchanged, before the user check; a miss checks the user, computes the streak and caches it under the same key; a success exactly when the user exists, and the value never exceeds the user's record count |
| Service.CheckinService.GetCheckinStats | src/main/java/com/checkin/service/impl/CheckinRecordServiceImpl.java:417-472 | the user check, then the overall figures with the streak, cached or fresh |
| Service.CheckinService.GetUserCheckins | src/main/java/com/checkin/service/impl/CheckinRecordServiceImpl.java:121-135 | a success exactly when the user exists; the user's rows newest first, as a permutation of exactly those rows |
| Service.CheckinService.GetTodayCheckinStatus | src/main/java/com/checkin/service/impl/CheckinRecordServiceImpl.java:142-153 | a success exactly when the user exists; the flag is whether the user has a row dated today |
| Service.CheckinService.GetUserCheckinsByPage | src/main/java/com/checkin/service/impl/CheckinRecordServiceImpl.java:228-248 | the paging input corrected; the page is PageOf the user's rows newest first at the corrected number and size: at most 100 rows, newest first, with the user's row count as total |
| Service.CheckinService.GetMonthlyCheckinStats | src/main/java/com/checkin/service/impl/CheckinRecordServiceImpl.java:344-384 | the user check, then the month's figures; a month LocalDate cannot build answers the exception handler's error |
| Service.CheckinService.GetUncheckedUsers | src/main/java/com/checkin/service/impl/CheckinRecordServiceImpl.java:391-411 | "无用户数据" with no users; at the last representable date, the exception handler's error; otherwise the users with no record that day, in table order, passwords removed |

## Left out

- The HTTP controllers, JWT and security filters, the user service and the Spring configuration classes are not part of this model.
- Concurrency is left out. In particular, two check-ins that race past the "already checked in" test are not modelled: the store has no uniqueness guard, and every operation runs alone.
- Redis is left out beyond its values: the two-hour TTL, expiry, and Redis errors are not modelled. The cache is indexed by user id rather than by key string; `Streak.StreakKeyInjective` shows that the two are interchangeable.
- Geofence.ValidateCheckinLocation: the out-of-range message leaves out the four bounds that `String.format` writes into it, because floating-point formatting is not modelled. Coordinates are `real`, so NaN is not covered.
- Stats.MonthlyStatsOf: the rate is an integer permille rather than the formatted `%.1f%%` string, and double rounding error is not modelled.
- Stats.OverallStatsOf: the rate is an integer in hundredths rather than a double.
- Timestamps have whole-second precision. A sub-second `LocalDateTime.now()` is not modelled, and neither is the gap between 23:59:59 and midnight that the closed month queries leave.
- Store.SortAsc and Store.SortDesc: the database's order between rows with equal timestamps is unspecified; the model fixes one order.
- Calendar.Now: the source reads the clock separately for the "today" checks (`LocalDate.now()` at lines 286 and 494) and for the stored timestamps (`LocalDateTime.now()` at lines 94 and 319), and again at line 441 in getCheckinStats after the streak's read at line 192; the model collapses all reads of one request into one instant. Two ensures depend on that: Service.CheckinService.CreateCheckin's "today is then checked in" and Service.CheckinService.ReissueCheckin's "this month's backfill count rises by one". A request that straddles midnight, or the end of a month, would stamp the next day or raise the next month's count in the source.
- The clock is a parameter. Its year lies strictly inside the range that `LocalDate` represents, so `plusDays(1)` on today never throws.
- A null reissue date is not modelled: the date is always present. In the source, `isAfter` on a null date throws after the user check.
- A record id supplied by the client in `createCheckin` is dropped by the model, which always assigns the next id; the service would insert the client's id as given, or fail on a key collision. Client-chosen ids and the insert failure are not modelled.
- The SQL of `selectCheckedUserIds` is not part of the source. Service.CheckedUserIds models it as the owners of the rows inside the half-open day, like `hasCheckedInDate`.
- Service.CheckinService.GetCheckinStats: the `(Integer)` cast of the cached object is modelled as reading an int; a value of another type in Redis is not modelled.
- Logging is left out.
