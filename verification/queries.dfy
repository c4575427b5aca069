/** The read endpoints of the dashboard server: each SQL query is a pure function of a table
    snapshot and of the request's parameters. The clock reads of the server become parameters:
    `today` (the UTC date the server computes) and `since` (the text of
    `datetime('now', '-7 days')`). */
module Queries {
  import opened Common
  import opened Tables
  import opened Grouping
  import Text

  /** `SUM(duration_minutes)` (0 when no row matches, after `|| 0`) and `COUNT(*)`. */
  datatype DayTotals = DayTotals(totalMinutes: int, sessionCount: nat)

  /** Response of `GET /api/child/:id/summary`. */
  datatype ChildSummary = ChildSummary(
    todayMinutes: int,
    weeklyAvgMinutes: int,
    mostUsedApp: string,
    sessionCount: nat)

  /** Response of `GET /api/tv/summary`. */
  datatype TvSummary = TvSummary(
    todayMinutes: int,
    weeklyAvgMinutes: int,
    mostUsedService: string,
    sessionCount: nat)

  // ---------------------------------------------------------------------------
  // WHERE + column selection
  // ---------------------------------------------------------------------------

  /** `ps` pairs each of the rows `kept`, in order, with its group key and its minutes. */
  ghost predicate ProjectedFrom<R, K>(ps: seq<(K, int)>, kept: seq<R>, key: R -> K, minutes: R -> int)
  {
    |ps| == |kept| && forall i :: 0 <= i < |ps| ==> ps[i] == (key(kept[i]), minutes(kept[i]))
  }

  /** The (group key, minutes) pairs of the rows a WHERE clause keeps, in table order. */
  function Project<R, K>(rows: seq<R>, keep: R -> bool, key: R -> K, minutes: R -> int): (ps: seq<(K, int)>)
    ensures |ps| <= |rows|
    ensures |ps| == 0 <==> forall i :: 0 <= i < |rows| ==> !keep(rows[i])
    ensures forall i :: 0 <= i < |rows| && keep(rows[i]) ==> key(rows[i]) in Keys(ps)
  {
    if |rows| == 0 then []
    else
      var rest := Project(rows[1..], keep, key, minutes);
      var head := if keep(rows[0]) then [(key(rows[0]), minutes(rows[0]))] else [];
      KeySumAppend(head, rest, key(rows[0]));
      assert forall i :: 1 <= i < |rows| ==> rows[i] == rows[1..][i - 1];
      head + rest
  }

  /** The projection is the WHERE clause followed by the column selection: one pair per kept
      row, in table order. */
  lemma {:induction false} ProjectIsFilter<R, K>(rows: seq<R>, keep: R -> bool, key: R -> K, minutes: R -> int)
    ensures ProjectedFrom(Project(rows, keep, key, minutes), Filter(rows, keep), key, minutes)
  {
    if |rows| > 0 {
      var rest := Project(rows[1..], keep, key, minutes);
      ProjectIsFilter(rows[1..], keep, key, minutes);
      ProjectStep(rows, keep, key, minutes, rest, Project(rows, keep, key, minutes));
    }
  }

  /** One more row keeps the pairs those of the rows that pass the WHERE clause. */
  lemma ProjectStep<R, K>(rows: seq<R>, keep: R -> bool, key: R -> K, minutes: R -> int,
                          rest: seq<(K, int)>, ps: seq<(K, int)>)
    requires |rows| > 0
    requires ProjectedFrom(rest, Filter(rows[1..], keep), key, minutes)
    requires ps == (if keep(rows[0]) then [(key(rows[0]), minutes(rows[0]))] else []) + rest
    ensures ProjectedFrom(ps, Filter(rows, keep), key, minutes)
  {
    var kept := Filter(rows[1..], keep);
    if keep(rows[0]) {
      assert Filter(rows, keep) == [rows[0]] + kept;
      forall i | 1 <= i < |ps|
        ensures ps[i] == (key(([rows[0]] + kept)[i]), minutes(([rows[0]] + kept)[i]))
      {
        assert ps[i] == rest[i - 1] && ([rows[0]] + kept)[i] == kept[i - 1];
      }
    } else {
      assert Filter(rows, keep) == kept;
      assert ps == rest;
    }
  }

  lemma {:induction false} ProjectAppend<R, K>(a: seq<R>, b: seq<R>, keep: R -> bool, key: R -> K, minutes: R -> int)
    ensures Project(a + b, keep, key, minutes) == Project(a, keep, key, minutes) + Project(b, keep, key, minutes)
  {
    if |a| == 0 {
      assert a + b == b;
    } else {
      assert (a + b)[1..] == a[1..] + b;
      ProjectAppend(a[1..], b, keep, key, minutes);
    }
  }

  // ---------------------------------------------------------------------------
  // usage_sessions: today's total, the trailing week
  // ---------------------------------------------------------------------------

  /** `child_id = ? AND DATE(start_time) = ?` */
  predicate StartedOn(s: UsageSession, child: int, day: string)
  {
    s.childId == child && DateOf(s.startTime) == day
  }

  /** `child_id = ? AND start_time >= datetime('now', '-7 days')`, a TEXT comparison. */
  predicate InWindow(s: UsageSession, child: int, since: string)
  {
    s.childId == child && !Text.Less(s.startTime, since)
  }

  function TodayFilter(child: int, day: string): UsageSession -> bool
  {
    s => StartedOn(s, child, day)
  }

  function WindowFilter(child: int, since: string): UsageSession -> bool
  {
    s => InWindow(s, child, since)
  }

  function SessionDay(s: UsageSession): string
  {
    DateOf(s.startTime)
  }

  function SessionMinutes(s: UsageSession): int
  {
    s.durationMinutes
  }

  function TodayPairs(rows: seq<UsageSession>, child: int, day: string): seq<(string, int)>
  {
    Project(rows, TodayFilter(child, day), SessionDay, SessionMinutes)
  }

  /** The trailing-week rows of a child, keyed by the day they started. */
  function WindowPairs(rows: seq<UsageSession>, child: int, since: string): seq<(string, int)>
  {
    Project(rows, WindowFilter(child, since), SessionDay, SessionMinutes)
  }

  /** Today's minutes and session count of a child. No matching row gives zero of both. */
  function DailyUsage(rows: seq<UsageSession>, child: int, day: string): (r: DayTotals)
    ensures r.sessionCount <= |rows|
    ensures r.sessionCount == 0 <==> forall i :: 0 <= i < |rows| ==> !StartedOn(rows[i], child, day)
    ensures r.sessionCount == 0 ==> r.totalMinutes == 0
    ensures r.totalMinutes == Total(TodayPairs(rows, child, day))
  {
    var ps := TodayPairs(rows, child, day);
    DayTotals(Total(ps), |ps|)
  }

  /** Splitting the table splits the daily totals: rows of other children or other days
      change nothing, and insertion order does not matter. */
  lemma DailyUsageAppend(a: seq<UsageSession>, b: seq<UsageSession>, child: int, day: string)
    ensures DailyUsage(a + b, child, day).totalMinutes
         == DailyUsage(a, child, day).totalMinutes + DailyUsage(b, child, day).totalMinutes
    ensures DailyUsage(a + b, child, day).sessionCount
         == DailyUsage(a, child, day).sessionCount + DailyUsage(b, child, day).sessionCount
  {
    ProjectAppend(a, b, TodayFilter(child, day), SessionDay, SessionMinutes);
    KeySumAppend(TodayPairs(a, child, day), TodayPairs(b, child, day), day);
  }

  /** JavaScript's `Math.round(s / n)`, that is `floor(s / n + 1/2)`, on integers. */
  function RoundHalfUp(s: int, n: int): (r: int)
    requires n > 0
    ensures 2 * n * r - n <= 2 * s < 2 * n * r + n
  {
    var q := (2 * s + n) / (2 * n);
    assert 2 * s + n == 2 * n * q + (2 * s + n) % (2 * n);
    q
  }

  /** `Math.round(AVG(daily_total))` over the days of the trailing week that have at least one
      session: the mean of the per-day sums, whose numerator is every minute in the window and
      whose denominator is the number of distinct session days; 0 when there is none. */
  function WeeklyAverage(rows: seq<UsageSession>, child: int, since: string): (avg: int)
    ensures var ps := WindowPairs(rows, child, since);
      |Keys(ps)| == 0 ==> avg == 0
    ensures var ps := WindowPairs(rows, child, since); var n := |Keys(ps)|;
      n > 0 ==> 2 * n * avg - n <= 2 * Total(ps) < 2 * n * avg + n
  {
    var ps := WindowPairs(rows, child, since);
    var gs := GroupBy(ps);
    GroupBySize(ps);
    if |gs| == 0 then 0 else RoundHalfUp(SumTotals(gs), |gs|)
  }

  /** `GET /api/child/:id/weekly`: one entry per distinct session day of the trailing week, days
      strictly ascending, each with that day's total; days without sessions are absent. */
  function WeeklySeries(rows: seq<UsageSession>, child: int, since: string): (r: seq<Group<string>>)
    ensures StrictlyAscending(r)
    ensures GroupKeys(r) == Keys(WindowPairs(rows, child, since))
    ensures |r| == |Keys(WindowPairs(rows, child, since))|
    ensures forall i :: 0 <= i < |r| ==>
      r[i].total == KeySum(WindowPairs(rows, child, since), r[i].key) && r[i].count >= 1
    ensures SumTotals(r) == Total(WindowPairs(rows, child, since))
  {
    var ps := WindowPairs(rows, child, since);
    var gs := GroupBy(ps);
    GroupBySize(ps);
    var r := SortAsc(gs);
    PermutedAll(ps, r);
    r
  }

  /** The summary's weekly average is the rounded mean of the weekly endpoint's day totals. */
  lemma AverageOfSeries(rows: seq<UsageSession>, child: int, since: string)
    requires |WeeklySeries(rows, child, since)| > 0
    ensures var series := WeeklySeries(rows, child, since); var n := |series|;
      var avg := WeeklyAverage(rows, child, since);
      2 * n * avg - n <= 2 * SumTotals(series) < 2 * n * avg + n
  {
  }

  /** A week whose sessions all fall on one day averages to that day's total (a single
      90-minute session averages to 90). */
  lemma SingleDayAverage(rows: seq<UsageSession>, child: int, since: string)
    requires |Keys(WindowPairs(rows, child, since))| == 1
    ensures WeeklyAverage(rows, child, since) == Total(WindowPairs(rows, child, since))
  {
  }

  // ---------------------------------------------------------------------------
  // Most used / breakdowns (GROUP BY ... ORDER BY total DESC [LIMIT 1])
  // ---------------------------------------------------------------------------

  /** `ORDER BY total DESC LIMIT 1`: a group with a maximal sum, or nothing when no row
      matched. Which of several tied groups comes first is left open. */
  function TopGroup(ps: seq<(string, int)>): (r: Option<Group<string>>)
    ensures r.None? <==> |ps| == 0
    ensures r.Some? ==>
      r.value.key in Keys(ps) && r.value.total == KeySum(ps, r.value.key) && r.value.count == KeyCount(ps, r.value.key)
    ensures r.Some? ==> forall k :: k in Keys(ps) ==> KeySum(ps, k) <= r.value.total
  {
    var gs := GroupBy(ps);
    var s := SortDesc(gs);
    GroupBySize(ps);
    PermutedAll(ps, s);
    if |s| == 0 then None
    else
      assert ps[0].0 in Keys(ps);
      forall k | k in Keys(ps)
        ensures KeySum(ps, k) <= s[0].total
      {
        FirstIsMaximal(ps, s, k);
      }
      Some(s[0])
  }

  /** When one key has a strictly larger sum than every other, it is the one chosen. */
  lemma TopGroupStrictMax(ps: seq<(string, int)>, a: string)
    requires a in Keys(ps)
    requires forall k :: k in Keys(ps) && k != a ==> KeySum(ps, k) < KeySum(ps, a)
    ensures TopGroup(ps) == Some(Group(a, KeySum(ps, a), KeyCount(ps, a)))
  {
  }

  /** `appData?.app_name || 'None'`: an absent row and an empty name both read as "None". */
  function NameOrNone(top: Option<Group<string>>): (name: string)
    ensures top.Some? && top.value.key != "" ==> name == top.value.key
    ensures top.None? || top.value.key == "" ==> name == "None"
  {
    if top.Some? && top.value.key != "" then top.value.key else "None"
  }

  /** `GROUP BY key ORDER BY total DESC`: one row per distinct key with its sum and count,
      largest total first. */
  function Breakdown<K(==,!new)>(ps: seq<(K, int)>): (r: seq<Group<K>>)
    ensures NonIncreasing(r) && DistinctKeys(r)
    ensures GroupKeys(r) == Keys(ps) && |r| == |Keys(ps)|
    ensures forall i :: 0 <= i < |r| ==>
      r[i].total == KeySum(ps, r[i].key) && r[i].count == KeyCount(ps, r[i].key) >= 1
  {
    var r := SortDesc(GroupBy(ps));
    GroupBySize(ps);
    PermutedAll(ps, r);
    r
  }

  // ---------------------------------------------------------------------------
  // app_usage
  // ---------------------------------------------------------------------------

  /** `child_id = ? AND usage_date = ?` */
  predicate UsedOn(a: AppUsage, child: int, day: string)
  {
    a.childId == child && a.usageDate == day
  }

  function AppFilter(child: int, day: string): AppUsage -> bool
  {
    a => UsedOn(a, child, day)
  }

  function AppName(a: AppUsage): string
  {
    a.appName
  }

  function AppAndCategory(a: AppUsage): (string, string)
  {
    (a.appName, a.category)
  }

  function AppMinutes(a: AppUsage): int
  {
    a.durationMinutes
  }

  /** A child's app rows of one day, keyed by app name. */
  function AppPairs(apps: seq<AppUsage>, child: int, day: string): seq<(string, int)>
  {
    Project(apps, AppFilter(child, day), AppName, AppMinutes)
  }

  /** A child's app rows of one day, keyed by (app name, category). */
  function AppCategoryPairs(apps: seq<AppUsage>, child: int, day: string): seq<((string, string), int)>
  {
    Project(apps, AppFilter(child, day), AppAndCategory, AppMinutes)
  }

  /** The app with the most minutes for a child on a day. */
  function MostUsedApp(apps: seq<AppUsage>, child: int, day: string): (r: Option<Group<string>>)
    ensures r.None? <==> forall i :: 0 <= i < |apps| ==> !UsedOn(apps[i], child, day)
    ensures r.Some? ==> r.value.key in Keys(AppPairs(apps, child, day))
    ensures r.Some? ==> r.value.total == KeySum(AppPairs(apps, child, day), r.value.key)
    ensures r.Some? ==> r.value.count == KeyCount(AppPairs(apps, child, day), r.value.key)
    ensures r.Some? ==> forall i :: 0 <= i < |apps| && UsedOn(apps[i], child, day) ==>
      KeySum(AppPairs(apps, child, day), apps[i].appName) <= r.value.total
  {
    TopGroup(AppPairs(apps, child, day))
  }

  /** With a strict maximum the chosen app does not depend on the order rows were inserted. */
  lemma MostUsedAppOrderIndependent(a: seq<AppUsage>, b: seq<AppUsage>, child: int, day: string, top: string)
    requires top in Keys(AppPairs(a + b, child, day))
    requires forall k :: k in Keys(AppPairs(a + b, child, day)) && k != top ==>
      KeySum(AppPairs(a + b, child, day), k) < KeySum(AppPairs(a + b, child, day), top)
    ensures MostUsedApp(a + b, child, day) == MostUsedApp(b + a, child, day)
    ensures MostUsedApp(a + b, child, day).value.key == top
  {
    ProjectAppend(a, b, AppFilter(child, day), AppName, AppMinutes);
    ProjectAppend(b, a, AppFilter(child, day), AppName, AppMinutes);
    var pa, pb := AppPairs(a, child, day), AppPairs(b, child, day);
    assert AppPairs(a + b, child, day) == pa + pb;
    assert AppPairs(b + a, child, day) == pb + pa;
    forall key: string
      ensures KeySum(pa + pb, key) == KeySum(pb + pa, key)
      ensures KeyCount(pa + pb, key) == KeyCount(pb + pa, key)
      ensures key in Keys(pa + pb) <==> key in Keys(pb + pa)
    {
      KeySumAppend(pa, pb, key);
      KeySumAppend(pb, pa, key);
    }
    TopGroupStrictMax(pa + pb, top);
    TopGroupStrictMax(pb + pa, top);
  }

  /** `GET /api/child/:id/apps`: one row per (app, category) used that day, largest first. */
  function AppBreakdown(apps: seq<AppUsage>, child: int, day: string): (r: seq<Group<(string, string)>>)
    ensures NonIncreasing(r) && DistinctKeys(r)
    ensures GroupKeys(r) == Keys(AppCategoryPairs(apps, child, day))
    ensures forall i :: 0 <= i < |apps| && UsedOn(apps[i], child, day) ==>
      (apps[i].appName, apps[i].category) in GroupKeys(r)
    ensures forall i :: 0 <= i < |r| ==> r[i].total == KeySum(AppCategoryPairs(apps, child, day), r[i].key)
  {
    Breakdown(AppCategoryPairs(apps, child, day))
  }

  /** `GET /api/child/:id/summary`: the defaults of the handler hold whenever a query finds
      nothing. */
  function ChildSummaryOf(usage: seq<UsageSession>, apps: seq<AppUsage>, child: int, today: string, since: string)
    : (r: ChildSummary)
    ensures r.todayMinutes == DailyUsage(usage, child, today).totalMinutes
    ensures r.sessionCount == DailyUsage(usage, child, today).sessionCount
    ensures r.weeklyAvgMinutes == WeeklyAverage(usage, child, since)
    ensures r.mostUsedApp == NameOrNone(MostUsedApp(apps, child, today))
    ensures (forall i :: 0 <= i < |usage| ==> !StartedOn(usage[i], child, today)) ==>
      r.todayMinutes == 0 && r.sessionCount == 0
    ensures (forall i :: 0 <= i < |usage| ==> !InWindow(usage[i], child, since)) ==> r.weeklyAvgMinutes == 0
    ensures (forall i :: 0 <= i < |apps| ==> !UsedOn(apps[i], child, today)) ==> r.mostUsedApp == "None"
  {
    var today_ := DailyUsage(usage, child, today);
    ChildSummary(
      today_.totalMinutes,
      WeeklyAverage(usage, child, since),
      NameOrNone(MostUsedApp(apps, child, today)),
      today_.sessionCount)
  }

  // ---------------------------------------------------------------------------
  // tv_sessions
  // ---------------------------------------------------------------------------

  function ViewedOn(day: string): TvSession -> bool
  {
    (t: TvSession) => t.viewingDate == day
  }

  function TvService(t: TvSession): string
  {
    t.service
  }

  function TvMinutes(t: TvSession): int
  {
    t.durationMinutes
  }

  /** The TV rows of one viewing date, keyed by service. */
  function TvPairs(tv: seq<TvSession>, day: string): seq<(string, int)>
  {
    Project(tv, ViewedOn(day), TvService, TvMinutes)
  }

  /** Minutes and session count of the TV rows of one viewing date. */
  function TvDaily(tv: seq<TvSession>, day: string): (r: DayTotals)
    ensures r.sessionCount <= |tv|
    ensures r.sessionCount == 0 <==> forall i :: 0 <= i < |tv| ==> tv[i].viewingDate != day
    ensures r.sessionCount == 0 ==> r.totalMinutes == 0
    ensures r.totalMinutes == Total(TvPairs(tv, day))
  {
    var ps := TvPairs(tv, day);
    DayTotals(Total(ps), |ps|)
  }

  /** The session count is the number of rows of that viewing date, and the minutes are their
      sum. */
  lemma TvDailyCounts(tv: seq<TvSession>, day: string)
    ensures TvDaily(tv, day).sessionCount == |Filter(tv, ViewedOn(day))|
    ensures TvDaily(tv, day).totalMinutes == SumMinutes(Filter(tv, ViewedOn(day)))
  {
    ProjectIsFilter(tv, ViewedOn(day), TvService, TvMinutes);
    TotalOfProjected(TvPairs(tv, day), Filter(tv, ViewedOn(day)));
  }

  lemma {:induction false} TotalOfProjected(ps: seq<(string, int)>, rows: seq<TvSession>)
    requires ProjectedFrom(ps, rows, TvService, TvMinutes)
    ensures Total(ps) == SumMinutes(rows)
  {
    if |ps| > 0 {
      assert ProjectedFrom(ps[1..], rows[1..], TvService, TvMinutes) by {
        forall i | 0 <= i < |ps| - 1
          ensures ps[1..][i] == (TvService(rows[1..][i]), TvMinutes(rows[1..][i]))
        {
          assert ps[1..][i] == ps[i + 1] && rows[1..][i] == rows[i + 1];
        }
      }
      TotalOfProjected(ps[1..], rows[1..]);
    }
  }

  /** The service with the most minutes on a viewing date. */
  function MostUsedService(tv: seq<TvSession>, day: string): (r: Option<Group<string>>)
    ensures r.None? <==> forall i :: 0 <= i < |tv| ==> tv[i].viewingDate != day
    ensures r.Some? ==> r.value.key in Keys(TvPairs(tv, day))
    ensures r.Some? ==> r.value.total == KeySum(TvPairs(tv, day), r.value.key)
    ensures r.Some? ==> r.value.count == KeyCount(TvPairs(tv, day), r.value.key)
    ensures r.Some? ==> forall i :: 0 <= i < |tv| && tv[i].viewingDate == day ==>
      KeySum(TvPairs(tv, day), tv[i].service) <= r.value.total
  {
    TopGroup(TvPairs(tv, day))
  }

  /** `GET /api/tv/summary`: the weekly average is always reported as 0. */
  function TvSummaryOf(tv: seq<TvSession>, today: string): (r: TvSummary)
    ensures r.weeklyAvgMinutes == 0
    ensures r.todayMinutes == TvDaily(tv, today).totalMinutes
    ensures r.sessionCount == TvDaily(tv, today).sessionCount
    ensures r.mostUsedService == NameOrNone(MostUsedService(tv, today))
    ensures (forall i :: 0 <= i < |tv| ==> tv[i].viewingDate != today) ==> r == TvSummary(0, 0, "None", 0)
  {
    var d := TvDaily(tv, today);
    TvSummary(d.totalMinutes, 0, NameOrNone(MostUsedService(tv, today)), d.sessionCount)
  }

  /** `GET /api/tv/services`: one row per service watched that day with its minutes and
      session count, largest first. */
  function ServiceBreakdown(tv: seq<TvSession>, day: string): (r: seq<Group<string>>)
    ensures NonIncreasing(r) && DistinctKeys(r)
    ensures forall i :: 0 <= i < |tv| && tv[i].viewingDate == day ==> tv[i].service in GroupKeys(r)
    ensures GroupKeys(r) == Keys(TvPairs(tv, day))
    ensures forall i :: 0 <= i < |r| ==>
      r[i].total == KeySum(TvPairs(tv, day), r[i].key) && r[i].count == KeyCount(TvPairs(tv, day), r[i].key) >= 1
  {
    Breakdown(TvPairs(tv, day))
  }
}
