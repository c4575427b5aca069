/** The television monitor of `tv_network_monitor.py`: its netstat line filter, the ping
    response-time classifier, the decision rule of one check, and the detection-streak state
    machine of the monitoring loop. Command outputs are parameters; time is integer seconds. */
module TvMonitor {
  import opened Common
  import opened Text
  import opened Decimal
  import TvImport

  // ---------------------------------------------------------------------------
  // Connections of the television
  // ---------------------------------------------------------------------------

  /** A netstat line naming the television's address on an established connection. */
  function TvLine(tvIp: string): string -> bool
  {
    (line: string) => Contains(line, tvIp) && Contains(line, "ESTABLISHED")
  }

  /** `r` holds, in order, each of the lines `kept` stripped. */
  ghost predicate StrippedLines(r: seq<string>, kept: seq<string>)
  {
    |r| == |kept| && forall i :: 0 <= i < |r| ==> r[i] == Strip(kept[i])
  }

  /** `get_tv_connections`: every line naming the television on an established connection,
      stripped, in order. */
  function TvConnections(lines: seq<string>, tvIp: string): (r: seq<string>)
    ensures |r| <= |lines|
    ensures StrippedLines(r, Filter(lines, TvLine(tvIp)))
    ensures forall i :: 0 <= i < |r| ==> IsStripped(r[i])
  {
    if |lines| == 0 then []
    else
      var rest := TvConnections(lines[1..], tvIp);
      var r := if TvLine(tvIp)(lines[0]) then [Strip(lines[0])] + rest else rest;
      StrippedStep(lines, TvLine(tvIp), rest, r);
      r
  }

  /** One more line keeps the result the stripped lines that pass `p`, in order. */
  lemma StrippedStep(lines: seq<string>, p: string -> bool, rest: seq<string>, r: seq<string>)
    requires |lines| > 0
    requires StrippedLines(rest, Filter(lines[1..], p))
    requires forall i :: 0 <= i < |rest| ==> IsStripped(rest[i])
    requires r == if p(lines[0]) then [Strip(lines[0])] + rest else rest
    ensures StrippedLines(r, Filter(lines, p))
    ensures forall i :: 0 <= i < |r| ==> IsStripped(r[i])
  {
    if p(lines[0]) {
      assert Filter(lines, p) == [lines[0]] + Filter(lines[1..], p);
      StrippedCons(lines[0], Filter(lines[1..], p), rest);
    } else {
      assert Filter(lines, p) == Filter(lines[1..], p);
    }
  }

  lemma StrippedCons(line: string, kept: seq<string>, r: seq<string>)
    requires StrippedLines(r, kept)
    requires forall i :: 0 <= i < |r| ==> IsStripped(r[i])
    ensures StrippedLines([Strip(line)] + r, [line] + kept)
    ensures forall i :: 0 <= i < |r| + 1 ==> IsStripped(([Strip(line)] + r)[i])
  {
    var r', kept' := [Strip(line)] + r, [line] + kept;
    forall i | 0 <= i < |r'|
      ensures r'[i] == Strip(kept'[i]) && IsStripped(r'[i])
    {
      if i > 0 {
        assert r'[i] == r[i - 1] && kept'[i] == kept[i - 1];
      }
    }
  }

  lemma StrippedLinesAppend(r1: seq<string>, kept1: seq<string>, r2: seq<string>, kept2: seq<string>)
    requires StrippedLines(r1, kept1) && StrippedLines(r2, kept2)
    ensures StrippedLines(r1 + r2, kept1 + kept2)
  {
    forall i | |r1| <= i < |r1| + |r2|
      ensures (r1 + r2)[i] == Strip((kept1 + kept2)[i])
    {
      assert (r1 + r2)[i] == r2[i - |r1|] && (kept1 + kept2)[i] == kept2[i - |r1|];
    }
  }

  lemma StrippedLinesUnique(r1: seq<string>, r2: seq<string>, kept: seq<string>)
    requires StrippedLines(r1, kept) && StrippedLines(r2, kept)
    ensures r1 == r2
  {
  }

  /** The connections of two batches of lines are those of each batch, in order. */
  lemma TvConnectionsAppend(a: seq<string>, b: seq<string>, tvIp: string)
    ensures TvConnections(a + b, tvIp) == TvConnections(a, tvIp) + TvConnections(b, tvIp)
  {
    var p := TvLine(tvIp);
    FilterAppend(a, b, p);
    StrippedLinesAppend(TvConnections(a, tvIp), Filter(a, p), TvConnections(b, tvIp), Filter(b, p));
    StrippedLinesUnique(TvConnections(a + b, tvIp), TvConnections(a, tvIp) + TvConnections(b, tvIp), Filter(a + b, p));
  }

  /** Stripping keeps what was matched: each connection still names the television (when its
      address is a non-empty word) and the ESTABLISHED state. */
  lemma TvConnectionsKeepMatch(lines: seq<string>, tvIp: string)
    requires |tvIp| > 0 && NoSpace(tvIp)
    ensures forall i :: 0 <= i < |TvConnections(lines, tvIp)| ==>
      Contains(TvConnections(lines, tvIp)[i], tvIp) && Contains(TvConnections(lines, tvIp)[i], "ESTABLISHED")
  {
    var r := TvConnections(lines, tvIp);
    var kept := Filter(lines, TvLine(tvIp));
    forall i | 0 <= i < |r|
      ensures Contains(r[i], tvIp) && Contains(r[i], "ESTABLISHED")
    {
      assert TvLine(tvIp)(kept[i]);
      StripKeepsWord(kept[i], tvIp);
      StripKeepsEstablished(kept[i]);
    }
  }

  lemma StripKeepsEstablished(line: string)
    requires Contains(line, "ESTABLISHED")
    ensures Contains(Strip(line), "ESTABLISHED")
  {
    StripKeepsWord(line, "ESTABLISHED");
  }

  /** `monitor_tv_bandwidth`: whether any such connection exists. */
  function HasTvConnections(lines: seq<string>, tvIp: string): (r: bool)
    ensures r <==> exists i :: 0 <= i < |lines| && Contains(lines[i], tvIp) && Contains(lines[i], "ESTABLISHED")
  {
    TvConnectionsNonEmpty(lines, tvIp);
    |TvConnections(lines, tvIp)| > 0
  }

  lemma {:induction false} TvConnectionsNonEmpty(lines: seq<string>, tvIp: string)
    ensures |TvConnections(lines, tvIp)| > 0 <==>
      exists i :: 0 <= i < |lines| && Contains(lines[i], tvIp) && Contains(lines[i], "ESTABLISHED")
  {
    if |lines| > 0 {
      TvConnectionsNonEmpty(lines[1..], tvIp);
      assert forall i :: 0 < i < |lines| ==> lines[i] == lines[1..][i - 1];
    }
  }

  /** `advanced_tv_detection`: nothing while the television does not answer the ping, and
      "TV Streaming" when it does and has a connection. */
  function AdvancedTvDetection(online: bool, lines: seq<string>, tvIp: string): (r: set<string>)
    ensures r <= {"TV Streaming"}
    ensures "TV Streaming" in r <==> online && HasTvConnections(lines, tvIp)
  {
    if online && HasTvConnections(lines, tvIp) then {"TV Streaming"} else {}
  }

  // ---------------------------------------------------------------------------
  // Response time
  // ---------------------------------------------------------------------------

  datatype ActivityLevel = HighActivity | MediumActivity | LowActivity | UnknownActivity

  /** The bands of `snmp_tv_check`: under 10 ms is high, under 50 ms medium, the rest low. */
  function Classify(ms: nat): (level: ActivityLevel)
    ensures level != UnknownActivity
    ensures level == HighActivity <==> ms < 10
    ensures level == MediumActivity <==> 10 <= ms < 50
    ensures level == LowActivity <==> 50 <= ms
  {
    if ms < 10 then HighActivity else if ms < 50 then MediumActivity else LowActivity
  }

  /** How busy a level says the television is: more for a faster answer. */
  function Rank(level: ActivityLevel): nat
  {
    match level
    case HighActivity => 3
    case MediumActivity => 2
    case LowActivity => 1
    case UnknownActivity => 0
  }

  /** A faster answer never classifies as less active. */
  lemma ClassifyMonotone(fast: nat, slow: nat)
    requires fast <= slow
    ensures Rank(Classify(fast)) >= Rank(Classify(slow))
  {
  }

  /** The regular expression `time=(\d+)ms` matches at `i`: "time=", one or more digits
      (all of them, since the next character must be 'm'), then "ms". */
  predicate TimeMatchAt(s: string, i: int)
  {
    0 <= i && i + 5 <= |s| && s[i..i + 5] == "time="
    && var n := DigitRun(s[i + 5..]);
    n > 0 && i + 5 + n + 2 <= |s| && s[i + 5 + n..i + 5 + n + 2] == "ms"
  }

  /** The number captured by a match at `i`. */
  function MatchedValue(s: string, i: int): nat
    requires TimeMatchAt(s, i)
  {
    Value(s[i + 5..][..DigitRun(s[i + 5..])])
  }

  /** No match starts at a position from `i` up to, not including, `j`. */
  predicate NoMatchBetween(s: string, i: int, j: int)
  {
    forall k :: i <= k < j ==> !TimeMatchAt(s, k)
  }

  /** `re.search` from position `i` on: the value captured by the leftmost match. */
  function TimeMatchFrom(s: string, i: nat): (r: Option<nat>)
    ensures r.None? <==> forall j :: i <= j ==> !TimeMatchAt(s, j)
    ensures r.Some? ==>
      exists j :: i <= j && TimeMatchAt(s, j) && r.value == MatchedValue(s, j) && NoMatchBetween(s, i, j)
    decreases |s| - i
  {
    if i >= |s| then None
    else if TimeMatchAt(s, i) then Some(MatchedValue(s, i))
    else TimeMatchFrom(s, i + 1)
  }

  /** The response time of a ping output, if it holds `time=<digits>ms`. */
  function ResponseTime(s: string): (r: Option<nat>)
    ensures r.None? <==> forall j :: 0 <= j ==> !TimeMatchAt(s, j)
    ensures r.Some? ==> exists j :: 0 <= j && TimeMatchAt(s, j) && r.value == MatchedValue(s, j) && NoMatchBetween(s, 0, j)
  {
    TimeMatchFrom(s, 0)
  }

  /** A ping line reporting `time=<n>ms` after text without a match yields `n`. */
  lemma ResponseTimeOf(prefix: string, n: nat, suffix: string)
    requires !Contains(prefix, "time=")
    ensures ResponseTime(prefix + "time=" + ToDecimal(n) + "ms" + suffix) == Some(n)
  {
    var s := prefix + "time=" + ToDecimal(n) + "ms" + suffix;
    MatchAfter(prefix, n, suffix);
    forall k | 0 <= k < |prefix|
      ensures !TimeMatchAt(s, k)
    {
      NoMatchInPrefix(prefix, s, k);
    }
    FirstMatch(s, |prefix|);
  }

  /** `time=<n>ms` right after `prefix` is a match capturing `n`. */
  lemma MatchAfter(prefix: string, n: nat, suffix: string)
    ensures var s := prefix + "time=" + ToDecimal(n) + "ms" + suffix;
      && |prefix| < |s| && s[|prefix|] == 't' && s[..|prefix|] == prefix
      && TimeMatchAt(s, |prefix|) && MatchedValue(s, |prefix|) == n
  {
    var d := ToDecimal(n);
    var s := prefix + "time=" + d + "ms" + suffix;
    var i := |prefix|;
    assert s[i..i + 5] == "time=";
    assert s[i + 5..] == d + ("ms" + suffix);
    DigitRunOfDecimal(n, "ms" + suffix);
    ValueOfDecimal(n);
    assert s[i + 5 + |d|..i + 5 + |d| + 2] == "ms";
  }

  /** The search returns the leftmost match. */
  lemma FirstMatch(s: string, i: nat)
    requires TimeMatchAt(s, i) && NoMatchBetween(s, 0, i)
    ensures ResponseTime(s) == Some(MatchedValue(s, i))
  {
    var r := TimeMatchFrom(s, 0);
    var j :| 0 <= j && TimeMatchAt(s, j) && r.value == MatchedValue(s, j) && NoMatchBetween(s, 0, j);
    assert !(j < i) && !(i < j);
  }

  /** A match cannot start inside a prefix that does not contain "time=": either it lies in
      the prefix, or "time=" would have to restart at a later letter, which none does. */
  lemma NoMatchInPrefix(prefix: string, s: string, k: int)
    requires !Contains(prefix, "time=")
    requires |prefix| < |s| && s[|prefix|] == 't' && s[..|prefix|] == prefix
    requires 0 <= k < |prefix|
    ensures !TimeMatchAt(s, k)
  {
    if k + 5 <= |s| && s[k..k + 5] == "time=" {
      if k + 5 <= |prefix| {
        assert prefix[k..k + 5] == s[k..k + 5];
        assert OccursAt("time=", prefix, k);
      } else {
        NoRestart(s[k..k + 5], |prefix| - k);
      }
    }
  }

  /** No letter of "time=" after the first is a 't'. */
  lemma NoRestart(w: string, j: int)
    requires w == "time=" && 0 < j < 5
    ensures w[j] != 't'
  {
  }

  /** `snmp_tv_check`: `None` stands for a ping that failed or timed out. Without "Reply from"
      or without a response time the level is unknown; otherwise the time is classified. */
  function SnmpTvCheck(pingOutput: Option<string>): (level: ActivityLevel)
    ensures pingOutput.None? ==> level == UnknownActivity
    ensures pingOutput.Some? && !Contains(pingOutput.value, "Reply from") ==> level == UnknownActivity
    ensures pingOutput.Some? && Contains(pingOutput.value, "Reply from") ==>
      level == match ResponseTime(pingOutput.value) { case None => UnknownActivity case Some(ms) => Classify(ms) }
  {
    match pingOutput
    case None => UnknownActivity
    case Some(out) =>
      if !Contains(out, "Reply from") then UnknownActivity
      else match ResponseTime(out) { case None => UnknownActivity case Some(ms) => Classify(ms) }
  }

  // ---------------------------------------------------------------------------
  // One check
  // ---------------------------------------------------------------------------

  /** The inputs of one `comprehensive_tv_check`: its own ping, the second ping made inside
      `advanced_tv_detection`, the netstat lines, and the output of the timed ping. */
  datatype Probe = Probe(online: bool, onlineAgain: bool, lines: seq<string>, pingOutput: Option<string>)

  /** `comprehensive_tv_check`: empty while the first ping fails; otherwise the services of
      `advanced_tv_detection`, plus "Smart TV Streaming" when those are non-empty or the
      response time is in the high band. */
  function ComprehensiveTvCheck(p: Probe, tvIp: string): (r: set<string>)
    ensures !p.online ==> r == {}
    ensures p.online ==> AdvancedTvDetection(p.onlineAgain, p.lines, tvIp) <= r
    ensures r <= {"TV Streaming", "Smart TV Streaming"}
    ensures "TV Streaming" in r <==> p.online && "TV Streaming" in AdvancedTvDetection(p.onlineAgain, p.lines, tvIp)
    ensures "Smart TV Streaming" in r <==>
      p.online && (|AdvancedTvDetection(p.onlineAgain, p.lines, tvIp)| > 0 || SnmpTvCheck(p.pingOutput) == HighActivity)
  {
    if !p.online then {}
    else
      var activity := AdvancedTvDetection(p.onlineAgain, p.lines, tvIp);
      if |activity| > 0 || SnmpTvCheck(p.pingOutput) == HighActivity then activity + {"Smart TV Streaming"}
      else activity
  }

  /** A check detects streaming iff the television answers and either answers again with a
      connection open or answers its timed ping within 10 ms. */
  lemma DetectsIff(p: Probe, tvIp: string)
    ensures |ComprehensiveTvCheck(p, tvIp)| > 0 <==>
      p.online && ((p.onlineAgain && HasTvConnections(p.lines, tvIp)) || SnmpTvCheck(p.pingOutput) == HighActivity)
  {
    var r := ComprehensiveTvCheck(p, tvIp);
    if |r| > 0 {
      var x :| x in r;
    }
    if p.online && p.onlineAgain && HasTvConnections(p.lines, tvIp) {
      assert "TV Streaming" in r;
    }
  }

  // ---------------------------------------------------------------------------
  // The monitoring loop
  // ---------------------------------------------------------------------------

  /** The loop's variables: the number of consecutive detecting checks and when the current
      session started. */
  datatype StreakState = StreakState(streak: nat, sessionStart: Option<int>)

  const Initial := StreakState(0, None)

  /** Sessions shorter than five minutes are not logged. */
  const MinLoggedSeconds: int := 5 * 60

  /** The whole minutes logged for a session from `start` ending at `now`, if it lasted five
      minutes or more (`int(seconds / 60)` of a non-negative duration). */
  function SessionMinutes(start: int, now: int): (r: Option<nat>)
    ensures r.Some? <==> now - start >= MinLoggedSeconds
    ensures r.Some? ==> r.value >= 5 && r.value * 60 <= now - start < r.value * 60 + 60
  {
    if now - start >= MinLoggedSeconds then Some((now - start) / 60) else None
  }

  /** The new state, and the minutes logged for "Family TV" if a session ended long enough. */
  datatype StepResult = StepResult(state: StreakState, logged: Option<nat>)

  /** One pass of the loop of `monitor_tv_streaming`. */
  function Step(s: StreakState, detected: bool, now: int): (r: StepResult)
    ensures detected ==> r.state.streak == s.streak + 1 && r.logged.None?
    ensures detected && s.sessionStart.Some? ==> r.state.sessionStart == s.sessionStart
    ensures detected && s.sessionStart.None? ==> r.state.sessionStart == Some(now)
    ensures !detected && s.streak > 0 ==> r.state == Initial
    ensures !detected && s.streak == 0 ==> r.state == s && r.logged.None?
    ensures r.logged.Some? ==>
      !detected && s.streak > 0 && s.sessionStart.Some? && r.logged == SessionMinutes(s.sessionStart.value, now)
  {
    if detected then
      StepResult(StreakState(s.streak + 1, if s.sessionStart.None? then Some(now) else s.sessionStart), None)
    else if s.streak > 0 then
      StepResult(Initial, if s.sessionStart.Some? then SessionMinutes(s.sessionStart.value, now) else None)
    else StepResult(s, None)
  }

  /** A streak is running exactly when a session start is recorded. */
  predicate Consistent(s: StreakState)
  {
    s.streak > 0 <==> s.sessionStart.Some?
  }

  lemma StepKeepsConsistent(s: StreakState, detected: bool, now: int)
    requires Consistent(s)
    ensures Consistent(Step(s, detected, now).state)
  {
  }

  /** In a consistent state, a check without detection logs exactly when a session of five
      minutes or more ends. */
  lemma StepLogsEndedSession(s: StreakState, now: int)
    requires Consistent(s)
    ensures Step(s, false, now).logged.Some? <==> s.streak > 0 && now - s.sessionStart.value >= MinLoggedSeconds
  {
  }

  /** Stopping the monitor logs the running session if it lasted five minutes or more. */
  function Stop(s: StreakState, now: int): (logged: Option<nat>)
    ensures s.sessionStart.None? ==> logged.None?
    ensures s.sessionStart.Some? ==> logged == SessionMinutes(s.sessionStart.value, now)
  {
    if s.sessionStart.Some? then SessionMinutes(s.sessionStart.value, now) else None
  }

  /** Checks in a row: each element is whether streaming was detected, and the time. */
  function Run(s: StreakState, checks: seq<(bool, int)>): (r: StreakState)
    ensures |checks| > 0 ==> (r.streak > 0 <==> checks[|checks| - 1].0)
    ensures |checks| > 0 && !checks[|checks| - 1].0 && Consistent(s) ==> r == Initial
    decreases |checks|
  {
    if |checks| == 0 then s else Run(Step(s, checks[0].0, checks[0].1).state, checks[1..])
  }

  /** Every run keeps the state consistent. */
  lemma {:induction false} RunKeepsConsistent(s: StreakState, checks: seq<(bool, int)>)
    requires Consistent(s)
    ensures Consistent(Run(s, checks))
    decreases |checks|
  {
    if |checks| > 0 {
      StepKeepsConsistent(s, checks[0].0, checks[0].1);
      RunKeepsConsistent(Step(s, checks[0].0, checks[0].1).state, checks[1..]);
    }
  }

  /** A run of detecting checks adds its length to the streak and keeps a recorded start. */
  lemma {:induction false} RunWhileDetected(s: StreakState, checks: seq<(bool, int)>)
    requires s.sessionStart.Some?
    requires forall i :: 0 <= i < |checks| ==> checks[i].0
    ensures Run(s, checks) == StreakState(s.streak + |checks|, s.sessionStart)
    decreases |checks|
  {
    if |checks| > 0 {
      RunWhileDetected(Step(s, checks[0].0, checks[0].1).state, checks[1..]);
    }
  }

  /** From rest, k detecting checks give a streak of k whose session started at the first;
      the next check without detection logs the session's whole minutes if they reach five. */
  lemma SessionFromRest(checks: seq<(bool, int)>, endTime: int)
    requires |checks| > 0
    requires forall i :: 0 <= i < |checks| ==> checks[i].0
    ensures Run(Initial, checks) == StreakState(|checks|, Some(checks[0].1))
    ensures Step(Run(Initial, checks), false, endTime).logged == SessionMinutes(checks[0].1, endTime)
  {
    RunWhileDetected(Step(Initial, true, checks[0].1).state, checks[1..]);
  }

  /** The record posted for a logged session; `stamp` is the time of logging rendered as
      "%Y-%m-%d %H:%M:%S". */
  function LogTvSession(minutes: nat, stamp: string): (rec: TvImport.ViewingRecord)
    ensures TvImport.Minutes(rec.durationMinutes) == minutes
    ensures TvImport.IsAccepted(rec) <==> minutes > 0
    ensures rec.service == Some("Family TV") && rec.startTime == Some(stamp)
    ensures rec.title == Some("Smart TV Viewing Session") && rec.kind == Some("TV Streaming")
  {
    TvImport.MinutesOfDecimal(minutes);
    TvImport.MonitorRecord("Family TV", "Smart TV Viewing Session", "TV Streaming", minutes, stamp)
  }

  /** Whatever a step logs is inserted by the import endpoint with exactly those minutes. */
  lemma LoggedIsImported(s: StreakState, detected: bool, now: int, stamp: string, date: string)
    requires Step(s, detected, now).logged.Some?
    ensures var m := Step(s, detected, now).logged.value;
      var row := TvImport.ToRow(LogTvSession(m, stamp), date);
      TvImport.Accepted([LogTvSession(m, stamp)], date) == [row]
      && row.durationMinutes == m >= 5 && row.service == "Family TV"
  {
    var m := Step(s, detected, now).logged.value;
    TvImport.MonitorRecordAccepted("Family TV", "Smart TV Viewing Session", "TV Streaming", m, stamp, date);
  }
}
