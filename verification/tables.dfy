/** The rows of the dashboard's SQLite tables, as immutable records. Auto-increment ids and
    `created_at` stamps are not modelled: no query reads them. */
module Tables {

  /** A row of `usage_sessions`. Timestamps are SQLite TEXT such as "2025-06-01 14:30:00". */
  datatype UsageSession = UsageSession(
    childId: int,
    deviceType: string,
    deviceName: string,
    startTime: string,
    endTime: string,
    durationMinutes: int)

  /** A row of `app_usage`; `usageDate` is a calendar day "YYYY-MM-DD". */
  datatype AppUsage = AppUsage(
    childId: int,
    appName: string,
    category: string,
    durationMinutes: int,
    usageDate: string)

  /** A row of `tv_sessions`. */
  datatype TvSession = TvSession(
    service: string,
    contentTitle: string,
    contentType: string,
    durationMinutes: int,
    startTime: string,
    viewingDate: string)

  /** Sum of the minutes of some TV rows. */
  function SumMinutes(rows: seq<TvSession>): int
  {
    if |rows| == 0 then 0 else rows[0].durationMinutes + SumMinutes(rows[1..])
  }

  /** SQLite's `DATE(start_time)` on a well-formed "YYYY-MM-DD HH:MM:SS" timestamp: its
      first ten characters. */
  function DateOf(timestamp: string): (day: string)
    ensures |day| <= 10 && |day| <= |timestamp| && day == timestamp[..|day|]
    ensures |timestamp| >= 10 ==> |day| == 10
  {
    if |timestamp| >= 10 then timestamp[..10] else timestamp
  }
}
