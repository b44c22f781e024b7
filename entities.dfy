/**
 * The entities the attendance engine reads and writes, with the fields the
 * service actually uses, and the payloads its responses carry.
 */
module Entities {
  import opened Wrappers
  import opened Calendar

  /** A row of the user table; this core reads its id and blanks its password. */
  datatype User = User(id: int, username: string, password: Option<string>, role: Option<int>, createTime: Option<Instant>)

  /** Status codes written by the service. */
  const StatusNormal: int := 1
  const StatusReissue: int := 2

  /** A stored check-in record.  isReissue is 0 or 1, as the table column is. */
  datatype CheckinRecord = CheckinRecord(
    id: int,
    userId: int,
    checkinTime: Instant,
    location: Option<string>,
    latitude: Option<real>,
    longitude: Option<real>,
    status: int,
    isReissue: int,
    reissueReason: Option<string>,
    reissueTime: Option<Instant>)

  /**
   * The record a client submits to createCheckin.  The service overwrites the check-in
   * time, the status and the reissue flag; the remaining fields it stores as given.
   */
  datatype CheckinRequest = CheckinRequest(
    userId: Option<int>,
    location: Option<string>,
    latitude: Option<real>,
    longitude: Option<real>,
    reissueReason: Option<string>,
    reissueTime: Option<Instant>)

  /** The configured geofence and backfill rules. */
  datatype Config = Config(
    minLatitude: real,
    maxLatitude: real,
    minLongitude: real,
    maxLongitude: real,
    maxReissueDays: int,
    maxReissueCount: int)

  /** Defaults used when the backfill rules are not configured. */
  const DefaultMaxReissueDays: int := 3
  const DefaultMaxReissueCount: int := 1

  /** getMonthlyCheckinStats' map; the rate is in tenths of a percent (the "%.1f%%" figure). */
  datatype MonthlyStats = MonthlyStats(
    year: int,
    month: int,
    totalDays: int,
    checkinDays: int,
    checkinRatePermille: int,
    checkinDates: set<int>,
    records: seq<CheckinRecord>)

  /** getCheckinStats' map; the rate is in hundredths (Math.round(rate * 100) / 100.0). */
  datatype CheckinStats = CheckinStats(
    totalDays: int,
    continuousDays: int,
    userId: int,
    monthlyDays: int,
    monthlyRateHundredths: int,
    currentMonth: int)

  /** One page of a user's records, newest first. */
  datatype PageResult = PageResult(current: int, size: int, total: int, records: seq<CheckinRecord>)

  /** Everything a response's data field can hold. */
  datatype Payload =
    | Count(n: int)
    | Flag(b: bool)
    | Text(s: string)
    | Record(record: CheckinRecord)
    | Records(records: seq<CheckinRecord>)
    | Users(users: seq<User>)
    | Page(page: PageResult)
    | Monthly(monthly: MonthlyStats)
    | Overall(stats: CheckinStats)
}
