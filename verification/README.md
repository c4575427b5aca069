# Screen-time dashboard: a verified model of its core

The screen-time dashboard is built from three programs:

- An Express/SQLite server (`src/server.js`) that answers summary, weekly-trend, per-app and TV
  queries and imports TV viewing sessions.
- A streaming monitor (`network_monitor.py`) that infers Netflix, Prime Video and Disney+
  sessions from netstat output, reverse DNS and the DNS cache. It posts each finished session
  seen by at least five checks to the import endpoint. The program calls that count "minutes",
  but it adds one per check, whatever the interval between checks.
- A television monitor (`tv_network_monitor.py`) that pings one television, inspects its
  connections, classifies its response time and runs a detection-streak loop. It posts its
  finished sessions of five minutes or more too.

This Dafny project models the sequential logic of all three:

- **Tables and queries.** Tables are immutable sequences of row records. Every SQL query is a
  pure function of the table snapshot.
- **The TV import.** The import is one state transition of `tv_sessions`. Its `parseInt`,
  defaulting and replace-by-date rules are written out.
- **The monitors.** Each monitor becomes a set of pure filters plus a step function over its
  session state. Its subprocess, socket and HTTP I/O become parameters.

The clocks are parameters too:

- `today`: the UTC date the server takes from `toISOString`.
- `since`: the text of `datetime('now', '-7 days')`. It is compared with `start_time` as text.
- `now`: integer seconds for the Python monitors.

Modules:

- `Common`: `Option` and an order-keeping filter.
- `Text`: Python `in`, `strip()`, `split()` and `lower()`, plus SQLite's byte-wise TEXT order.
- `Decimal`: digit strings and the decimal rendering of numbers.
- `Grouping`: `GROUP BY` with `SUM`/`COUNT`, and the two `ORDER BY` sorts.
- `Tables`: the three tables.
- `Queries`: the read endpoints.
- `TvImport`: `POST /api/tv/import`.
- `StreamingMonitor`: `network_monitor.py`.
- `TvMonitor`: `tv_network_monitor.py`.

Several properties connect the programs:

- **Monitor posts are imported intact.** A session a monitor posts is inserted with exactly the
  duration it reports: whole minutes for the TV monitor, a count of checks for the streaming
  monitor (`TvImport.MonitorRecordAccepted`, `StreamingMonitor.LogCompletedSession`,
  `TvMonitor.LoggedIsImported`).
- **Import and summary agree.** After an import for today, the TV summary reports the import's
  own totals (`TvImport.ImportThenDaily`).
- **Each post replaces the day.** A post carries no `date`, so it is an import for today. That
  import replaces all of today's TV rows: the later of two sessions logged on one day erases the
  earlier one (`StreamingMonitor.LaterPostReplaces`).

## Model

| member | source | states |
|---|---|---|
| Tables.DateOf | src/server.js:64 | `DATE(start_time)` of a well-formed timestamp is its ten-character date prefix |
| Queries.Project | src/server.js:63-64 | the WHERE clause keeps at most the table's rows; it yields nothing iff no row qualifies, and every qualifying row's key is grouped |
| Queries.ProjectIsFilter | src/server.js:63-64 | the pairs are exactly the kept rows, in table order, each as (its group key, its minutes) |
| Queries.ProjectAppend | src/server.js:63-64 | filtering a concatenated table is filtering each part, in order |
| Queries.DailyUsage | src/server.js:59-65 | today's count is at most the table size and is 0 iff no row of the child starts today, in which case the minutes are 0 too; the minutes are the sum over the qualifying rows |
| Queries.DailyUsageAppend | src/server.js:59-65 | today's minutes and count are additive over a split of the table |
| Queries.RoundHalfUp | src/server.js:105 | `Math.round(s/n)` is the integer r with s/n - 1/2 < r <= s/n + 1/2 (halves round up) |
| Queries.WeeklyAverage | src/server.js:73-80 | the average is 0 when the window has no session; otherwise it is the rounded window total divided by the number of distinct session days, so empty days do not count |
| Queries.WeeklySeries | src/server.js:129-136 | one entry per distinct session day of the window, strictly ascending by date, each carrying that day's sum over at least one session; no zero-filled days; the entries add up to the window total |
| Queries.AverageOfSeries | src/server.js:73-80 | the summary's weekly average is the rounded mean of the weekly endpoint's entries |
| Queries.SingleDayAverage | src/server.js:73-80 | when all window sessions fall on one day, the average equals that day's total |
| Queries.TopGroup | src/server.js:89-95 | `ORDER BY total DESC LIMIT 1` yields nothing iff no row qualifies; otherwise it yields a group of the data with its true sum and count, and no other key has a larger sum |
| Queries.TopGroupStrictMax | src/server.js:89-95 | a key whose sum strictly exceeds every other key's is the one chosen |
| Queries.NameOrNone | src/server.js:106 | a missing row and an empty name both give "None"; otherwise the name is returned |
| Queries.Breakdown | src/server.js:162-170 | `GROUP BY ... ORDER BY total DESC`: distinct keys, exactly the keys of the data, non-increasing totals, and each row's true sum and count (at least one) |
| Queries.MostUsedApp | src/server.js:89-95 | no app iff the child used no app that day; otherwise the chosen app was used that day and carries its true sum and count, and no app used that day has more minutes |
| Queries.MostUsedAppOrderIndependent | src/server.js:89-95 | with a strict maximum, the chosen app is that app regardless of the order the rows were inserted in |
| Queries.AppBreakdown | src/server.js:162-170 | one row per (app, category) used that day, every used pair present (ties included), totals non-increasing and equal to the pair's sum |
| Queries.ChildSummaryOf | src/server.js:103-108 | the summary carries today's sum and count, the weekly average and the most-used name; it reports 0, 0 and "None" when nothing matches |
| Queries.TvDaily | src/server.js:280-286 | the TV count is 0 iff no row has that viewing date, and the minutes are 0 then; otherwise the minutes are the sum over that date's rows |
| Queries.TvDailyCounts | src/server.js:280-286 | the count is the number of rows with that viewing date and the minutes are the sum of their durations |
| Queries.MostUsedService | src/server.js:291-297 | no service iff there are no rows that day; otherwise the chosen service was watched that day and carries its true sum and count, and no service watched that day has more minutes |
| Queries.TvSummaryOf | src/server.js:303-308 | the weekly average is always 0; an empty day gives `TvSummary(0, 0, "None", 0)` |
| Queries.ServiceBreakdown | src/server.js:329-337 | one row per service watched that day, with its true minutes and session count, totals non-increasing |
| Grouping.GroupBy | src/server.js:76-79 | grouping yields distinct keys, exactly the keys present, each key's sum and count, and preserves the grand total |
| Grouping.SortDesc | src/server.js:170 | the descending sort keeps the same groups and the same keys, and orders totals non-increasingly |
| Grouping.SortAsc | src/server.js:136 | `ORDER BY date` keeps the same groups and orders their keys strictly ascending in SQLite's text order |
| Text.LessTransitive | src/server.js:136 | the text order of dates is transitive (as are irreflexivity, totality and asymmetry in the neighbouring lemmas) |
| Text.Contains | network_monitor.py:30 | Python's `in` is true iff the pattern occurs at some position |
| Text.SplitFieldsAreWords | network_monitor.py:31 | every field of `str.split()` is non-empty and free of white space |
| Text.SplitOfBlank | network_monitor.py:31 | a line of white space only has no fields |
| Text.SplitOfField | network_monitor.py:31 | fields are maximal: a word between white space (or the end of the line) is exactly the next field |
| Text.SplitJoinWords | network_monitor.py:31 | `split()` recovers the words of a line built by joining them with single spaces |
| Text.SplitKeepsText | network_monitor.py:31 | the fields of `split()` concatenate to the line with its white space removed |
| Text.Strip | tv_network_monitor.py:38 | `strip()` yields a slice of the line that neither starts nor ends with white space, and everything before and after that slice is white space |
| Text.StripOfPadded | tv_network_monitor.py:38 | `strip()` of a stripped text padded with any white space on either side gives back that text |
| Text.StripKeepsWord | tv_network_monitor.py:37-38 | a word without white space that occurs in a line still occurs after stripping |
| Text.Lower | network_monitor.py:62 | `lower()` lowers the ASCII letters, keeps every other character, and keeps the length |
| Decimal.ValueOfDecimal | network_monitor.py:133 | the decimal text of a posted integer reads back as that integer |
| Decimal.DigitRun | tv_network_monitor.py:117 | `\d+` consumes the longest prefix of ASCII digits |
| TvImport.ParseIntOfDecimal | src/server.js:233 | `parseInt` of white space, a decimal number and a non-digit tail is that number |
| TvImport.ParseIntOfNegative | src/server.js:233 | with a leading minus sign, `parseInt` gives the negated number |
| TvImport.ParseIntOfPlus | src/server.js:233 | with a leading plus sign, `parseInt` gives the number |
| TvImport.ParseIntNaN | src/server.js:233 | after white space, text that starts neither with a digit nor with a sign and a digit is NaN |
| TvImport.Minutes | src/server.js:233 | `parseInt(x) \|\| 0`: a missing duration or a NaN is 0 minutes; otherwise the result is exactly the number `parseInt` read |
| TvImport.MinutesOfDecimal | src/server.js:233 | a duration sent as a JSON integer `n` is read back as `n` minutes |
| TvImport.MinutesOf45 | src/server.js:233 | "45" is read as 45 minutes |
| TvImport.MinutesOfMinus5 | src/server.js:233 | "-5" is read as -5, so its record is not accepted |
| TvImport.MinutesOfAbc | src/server.js:233 | "abc" is NaN, which `\|\| 0` turns into 0 |
| TvImport.OrDefault | src/server.js:236-240 | `value || fallback` keeps a non-empty value and falls back for a missing or empty one |
| TvImport.ImportDate | src/server.js:203 | `date \|\| today`: a non-empty date is used as given; a missing or empty one becomes today |
| TvImport.ToRow | src/server.js:235-242 | an inserted row has the import date and the parsed minutes; each non-empty field is kept, and a missing or empty service, title, type or start time becomes "Unknown", "Unknown Content", "Unknown" or the date plus " 12:00:00" |
| TvImport.Accepted | src/server.js:232-247 | the inserted rows are at most the records, all dated on the import date, and all positive |
| TvImport.AcceptedAppend | src/server.js:232 | acceptance is decided record by record, in input order |
| TvImport.AcceptedSingle | src/server.js:233-234 | a record is inserted iff its parsed minutes are positive |
| TvImport.AcceptedNone | src/server.js:233-234 | a batch without a positive duration inserts nothing |
| TvImport.SumMinutesAtLeastCount | src/server.js:243-244 | the reported minutes are at least the reported session count |
| TvImport.Import | src/server.js:190-270 | a missing or non-array body gives a 400 and leaves the table untouched; otherwise the import date's rows become exactly the accepted records in order, other dates are untouched, and the summary reports their sum, their count (at most the input size) and the date |
| TvImport.ImportBatch | src/server.js:221-259 | the delete and the record-by-record insert loop with running totals compute exactly the import transition |
| TvImport.ImportTwice | src/server.js:221 | importing twice for one date leaves only the second batch on that date |
| TvImport.ImportIdempotent | src/server.js:221-247 | re-sending the same batch changes nothing further |
| TvImport.ImportOfInvalidBatchClears | src/server.js:221-234 | a batch with no positive duration still clears its date and reports 0 and 0 |
| TvImport.ImportThenDaily | src/server.js:256-259 | after an import for today, the TV daily totals equal the import's reported minutes and sessions |
| TvImport.MonitorRecordAccepted | src/server.js:233-242 | a monitor's single record with a positive duration is inserted with exactly that duration |
| StreamingMonitor.AnyIn | network_monitor.py:62 | `any(d in text for d in patterns)` is true iff some pattern occurs in the text |
| StreamingMonitor.ServicesIn | network_monitor.py:61-63 | a service is detected iff one of its patterns occurs in the text |
| StreamingMonitor.ServicesInNames | network_monitor.py:14-18 | only the three watched services can be detected |
| StreamingMonitor.DomainServices | network_monitor.py:58-63 | a failed or empty lookup detects nothing; otherwise a service is detected iff one of its patterns occurs in the lower-cased host name |
| StreamingMonitor.DnsServices | network_monitor.py:72-86 | a service is detected iff one of its domains occurs in the lower-cased DNS cache listing; a failed command detects nothing |
| StreamingMonitor.NetworkConnections | network_monitor.py:29-34 | the addresses are, in order, the third whitespace field of each established line on port 80 or 443 with at least five fields; each is a non-empty word |
| StreamingMonitor.NetstatLineThirdField | network_monitor.py:29-34 | on a Linux-layout line (protocol, Recv-Q, Send-Q, local, foreign, ESTABLISHED) to port 443, the address recorded is the Send-Q column |
| StreamingMonitor.NetworkConnectionsAppend | network_monitor.py:29-34 | the addresses of concatenated output are those of each part, in order |
| StreamingMonitor.NetworkConnectionsSkip | network_monitor.py:30 | a line without ESTABLISHED contributes nothing |
| StreamingMonitor.HostPart | network_monitor.py:57 | `split(':')[0]` is the longest colon-free prefix |
| StreamingMonitor.HostPartIdempotent | network_monitor.py:45 | splitting off the port a second time changes nothing |
| StreamingMonitor.ConnectionServices | network_monitor.py:56-63 | a service is detected iff the host name of some connection matches it |
| StreamingMonitor.AllDetected | network_monitor.py:168-170 | a check's detections are exactly the union of the network and DNS detections |
| StreamingMonitor.AllDetectedNames | network_monitor.py:168-170 | a check detects only the three watched services |
| StreamingMonitor.UpdateActiveSessions | network_monitor.py:88-116 | detected services are kept with `last_seen = now` and are never ended; a tracked service gains 1 and keeps its start; a new one starts at (now, now, 1); an undetected session is ended iff idle over 30 minutes and is otherwise unchanged; the ended and remaining sessions partition the old and detected services; no remaining session is idle |
| StreamingMonitor.UpdateKeepsWellFormed | network_monitor.py:93-116 | with a clock that does not run backwards, every session stays started no later than last seen, with duration at least 1 |
| StreamingMonitor.Run | network_monitor.py:164-178 | after a run of checks, no tracked session is idle at the last check's time, and every service detected by the last check is tracked with that time |
| StreamingMonitor.RunWhileDetected | network_monitor.py:94-96 | k consecutive detections of a tracked service add k to its duration and keep its start |
| StreamingMonitor.RunFromFirstDetection | network_monitor.py:97-102 | a service first detected at t and then in every check for k checks has start t and duration k |
| StreamingMonitor.LogCompletedSession | network_monitor.py:118-136 | nothing is posted for fewer than 5; otherwise one record is posted with the service, its start stamp, title "<service> Viewing Session" and type "Streaming", which the import inserts with exactly the session's duration |
| StreamingMonitor.Posts | network_monitor.py:110-112 | each ended session is logged once: it is posted iff its duration is at least 5 |
| StreamingMonitor.MonitorStep | network_monitor.py:164-178 | after a check, every detected service is active and seen now; a service is posted iff it was tracked, went undetected, was idle over 30 minutes and lasted at least 5 checks, with the record `log_completed_session` builds |
| StreamingMonitor.StopPosts | network_monitor.py:192-194 | on stop, exactly the remaining sessions of duration at least 5 are posted, with their durations |
| StreamingMonitor.LaterPostReplaces | network_monitor.py:128-144 | a post carries no date, so two posts on one day leave only the later session's row for that day |
| TvMonitor.TvConnections | tv_network_monitor.py:36-38 | the connections are, in order, the stripped lines that name the television on an established connection |
| TvMonitor.TvConnectionsAppend | tv_network_monitor.py:36-38 | the connections of concatenated output are those of each part, in order |
| TvMonitor.TvConnectionsKeepMatch | tv_network_monitor.py:37-38 | every stripped connection still contains the television's address and ESTABLISHED |
| TvMonitor.HasTvConnections | tv_network_monitor.py:49-58 | activity is reported iff some line names the television on an established connection |
| TvMonitor.AdvancedTvDetection | tv_network_monitor.py:71-86 | "TV Streaming" is detected iff the ping succeeds and there is a connection; nothing else is |
| TvMonitor.Classify | tv_network_monitor.py:123-128 | under 10 ms is high, 10 to 49 is medium, 50 and more is low |
| TvMonitor.ClassifyMonotone | tv_network_monitor.py:123-128 | a faster answer never classifies as less active |
| TvMonitor.ResponseTime | tv_network_monitor.py:117-119 | the response time is absent iff no position of the output matches `time=(\d+)ms`; otherwise it is the value at the leftmost match |
| TvMonitor.TimeMatchFrom | tv_network_monitor.py:117 | `re.search(r'time=(\d+)ms')` finds nothing iff no position matches; otherwise it captures the value at the leftmost match |
| TvMonitor.ResponseTimeOf | tv_network_monitor.py:117-119 | "time=<n>ms" after text without "time=" yields n |
| TvMonitor.SnmpTvCheck | tv_network_monitor.py:112-133 | a failed ping, a missing "Reply from" or a missing response time give unknown; otherwise the time is classified |
| TvMonitor.ComprehensiveTvCheck | tv_network_monitor.py:144-175 | empty when offline; "TV Streaming" is in the result iff the first ping succeeds and the connection check reports it; "Smart TV Streaming" is in it iff that activity is non-empty or the level is high |
| TvMonitor.DetectsIff | tv_network_monitor.py:171-173 | a check detects streaming iff the television answers and either answers again with a connection open or answers within 10 ms |
| TvMonitor.SessionMinutes | tv_network_monitor.py:234-238 | a session is logged iff it lasted at least 300 seconds, with its whole minutes (at least 5) |
| TvMonitor.Step | tv_network_monitor.py:220-243 | a detection adds 1 to the streak and sets the start only if unset; a miss after a streak resets to (0, none) and may log; a miss at rest changes nothing; only a miss ending a streak logs, with the session's whole minutes |
| TvMonitor.StepKeepsConsistent | tv_network_monitor.py:215-241 | every step preserves: the streak is positive iff a start is recorded |
| TvMonitor.StepLogsEndedSession | tv_network_monitor.py:231-238 | in a consistent state, a miss logs iff it ends a streak of at least 300 seconds |
| TvMonitor.Stop | tv_network_monitor.py:250-253 | stopping logs the running session iff it lasted at least five minutes |
| TvMonitor.Run | tv_network_monitor.py:215-241 | after a run of checks the streak is positive iff the last check detected streaming, and from a consistent state a run ending in a miss is back at rest |
| TvMonitor.RunKeepsConsistent | tv_network_monitor.py:215-241 | every run of checks keeps the streak/start invariant |
| TvMonitor.RunWhileDetected | tv_network_monitor.py:222-226 | k consecutive detections add k to the streak and keep a recorded start |
| TvMonitor.SessionFromRest | tv_network_monitor.py:222-238 | from rest, k detections give streak k with the start at the first check, and the next miss logs the minutes since that start if they reach five |
| TvMonitor.LogTvSession | tv_network_monitor.py:177-188 | the posted record has service "Family TV", title "Smart TV Viewing Session", type "TV Streaming" and the stamp as start time, reads back as exactly the session's minutes, and is accepted iff those are positive |
| TvMonitor.LoggedIsImported | tv_network_monitor.py:180-188 | a logged "Family TV" session is inserted by the import with exactly its minutes, at least 5 |

## Left out

- HTTP plumbing is not modelled: Express routing, request parsing, JSON responses, the health and children routes, and console output. Database errors answered with a 500 are not modelled either.
- SQLite mechanics are not modelled: prepared statements, asynchronous callbacks, `CREATE TABLE`, the seed and administration scripts, ids and `created_at`.
- The delete and the inserts of the import are not atomic in the server. The model treats them as one transition, so no reader can observe the intermediate state.
- The child id arrives as URL text and is compared with an INTEGER column. The model takes it as an integer.
- `DATE(start_time)` is modelled as the first ten characters. That is correct for the well-formed "YYYY-MM-DD HH:MM:SS" timestamps the programs write. Malformed timestamps, which SQLite turns into NULL, are not modelled.
- NULL columns, and the SQL type coercions they involve, are not modelled. Durations are integers.
- The server derives `today` from `toISOString`, which gives the UTC date, not the process-local date. The model takes `today` as a parameter either way.
- Queries.TopGroup: among several groups with the same maximal sum, which one SQLite returns first is not specified. The contract promises only "some maximal group".
- Queries.Breakdown: the relative order of groups with equal totals is likewise left open.
- TvImport.ParseInt: JavaScript's `parseInt` returns a double. A digit run above 2^53 is rounded, and a run of more than 309 digits gives Infinity, which is positive and so is inserted. The model reads every digit run exactly, as an unbounded integer.
- Queries.WeeklyAverage: SQLite's `AVG` returns a REAL, and `Math.round` rounds that double. The model rounds the exact quotient, `(2s + n) / (2n)` for total s over n days. The two agree while the totals stay below 2^53 and the day count is small.
- TvImport.Import: the server sums `totalMinutes` in doubles. The model sums exact integers, so the two differ only once the rounding above sets in. The same holds for TvImport.ImportBatch.
- TvImport.ParseInt: hexadecimal input is not modelled. JavaScript reads "0x10" as 16, "-0x10" as -16 and "+0x10" as 16; the model stops at the `x` and reads all three as 0, so a record with a positive hexadecimal duration is skipped where the server inserts it (TvImport.ParseIntOfDecimal, ParseIntOfNegative and ParseIntOfPlus with n = 0 state that reading). Nor is `parseInt`'s string coercion of non-string JSON values (objects, booleans). A JSON number is represented by its decimal text.
- A `null` element inside `viewingData` is not modelled. It makes the handler throw after the delete, which answers 500.
- Decimal.DigitRun: Python's `\d` in `re.search(r'time=(\d+)ms', ...)` also matches the other Unicode decimal digits (Arabic-Indic, Devanagari, fullwidth and so on), and `int()` reads them. The model accepts only the ASCII digits '0' to '9', so a ping output with other digits after `time=` is read as no match.
- TvMonitor.TimeMatchFrom: the same ASCII-only restriction applies to the regular-expression search, and so to TvMonitor.ResponseTime and TvMonitor.SnmpTvCheck.
- Text.Lower: Python `lower()` is modelled for ASCII letters only, character by character, so the length is kept. Python also maps other letters, and some of them to two characters ("İ" becomes "i" followed by a combining dot). The domain patterns matched against lowered text are all ASCII.
- `strip()` and `split()` are not cut down: they use exactly the characters `str.isspace()` accepts.
- The subprocess calls (netstat, ping, ipconfig, arp, netsh), `gethostbyaddr` and the HTTP posts are not modelled. Their outputs, or their failure as `None`, are parameters.
- The splitting of command output into lines is not modelled. The line list is the parameter.
- `datetime.now()` is not modelled: time is integer seconds. Thirty minutes of inactivity is an elapsed time over 1800 seconds, and a five-minute TV session is one of at least 300 seconds.
- The order in which dictionary iteration logs several ended sessions is not modelled. Ended sessions are a map from service.
- The router check of the TV monitor (`arp -a`) is not modelled: it only prints.
- The TV monitor's own `streaming_domains` and `session_timeout` are not modelled: its loop never reads them.
- StreamingMonitor.LogCompletedSession: the posted `duration_minutes` is the number of checks that saw the session, not elapsed minutes. At the 30-second interval `main` uses, a session seen by five checks spans about two minutes and is posted, with about twice its real minutes. The model keeps this as written: a duration is a check count and the cut-off is 5 checks. Elapsed time is used only for the 30-minute idle rule.
- The sleeps, the `KeyboardInterrupt` handling and `main` are not modelled. The stop path is the function `Stop` (TV monitor) and `StopPosts` (streaming monitor).
- The streaming monitor reads `parts[2]` of a netstat line as the remote address. On the Linux layout (`Proto Recv-Q Send-Q Local Foreign State`) that field is the Send-Q count. On the Windows layout a line has only four fields, so the length check rejects it. The model keeps `parts[2]` and the five-field check as written; StreamingMonitor.NetstatLineThirdField states what that yields on a Linux line.
