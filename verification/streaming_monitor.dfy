/** The streaming-session tracker of `network_monitor.py`: which services a snapshot of the
    network shows, and the per-service session table the monitor keeps between checks. The
    outputs of netstat, ipconfig and reverse DNS are parameters; time is integer seconds. */
module StreamingMonitor {
  import opened Common
  import opened Text
  import Tables
  import Decimal
  import TvImport

  // ---------------------------------------------------------------------------
  // Services and their domain patterns
  // ---------------------------------------------------------------------------

  /** The three watched services with their domain patterns, in declaration order. */
  const StreamingDomains: seq<(string, seq<string>)> := [
    ("Netflix", ["netflix.com", "nflxvideo.net", "nflxext.com", "nflxso.net"]),
    ("Prime Video", ["primevideo.com", "amazon.com", "amazonaws.com"]),
    ("Disney+", ["disneyplus.com", "disney-plus.net", "bamgrid.com"])
  ]

  const ServiceNames: set<string> := {"Netflix", "Prime Video", "Disney+"}

  /** Python's `any(d in text for d in patterns)`. */
  function AnyIn(patterns: seq<string>, text: string): (r: bool)
    ensures r <==> exists i :: 0 <= i < |patterns| && Contains(text, patterns[i])
  {
    if |patterns| == 0 then false
    else Contains(text, patterns[0]) || AnyIn(patterns[1..], text)
  }

  /** The services of `table` one of whose patterns occurs in `text`. */
  function ServicesIn(table: seq<(string, seq<string>)>, text: string): (r: set<string>)
    ensures forall svc :: svc in r <==>
      exists i :: 0 <= i < |table| && table[i].0 == svc && AnyIn(table[i].1, text)
  {
    if |table| == 0 then {}
    else
      var rest := ServicesIn(table[1..], text);
      assert forall i :: 0 < i < |table| ==> table[i] == table[1..][i - 1];
      if AnyIn(table[0].1, text) then {table[0].0} + rest else rest
  }

  /** `svc` is a watched service one of whose patterns occurs in `text`. */
  predicate Matches(svc: string, text: string)
  {
    exists i :: 0 <= i < |StreamingDomains| && StreamingDomains[i].0 == svc && AnyIn(StreamingDomains[i].1, text)
  }

  /** Every service found is one of the three watched services. */
  lemma ServicesInNames(text: string)
    ensures ServicesIn(StreamingDomains, text) <= ServiceNames
  {
  }

  /** The loop of `detect_streaming_activity` for one resolved host name: nothing when the
      lookup failed or gave an empty name, otherwise the services matching the lower-cased
      name. */
  function DomainServices(domain: Option<string>): (r: set<string>)
    ensures domain.None? || domain.value == "" ==> r == {}
    ensures domain.Some? && domain.value != "" ==>
      forall svc :: svc in r <==> Matches(svc, Lower(domain.value))
  {
    if domain.None? || domain.value == "" then {} else ServicesIn(StreamingDomains, Lower(domain.value))
  }

  /** `get_dns_queries`: the services one of whose domains occurs in the lower-cased DNS cache
      listing; `None` (the command failed) detects nothing. */
  function DnsServices(cache: Option<string>): (r: set<string>)
    ensures cache.None? ==> r == {}
    ensures r <= ServiceNames
    ensures cache.Some? ==> forall svc :: svc in r <==> Matches(svc, Lower(cache.value))
  {
    if cache.None? then {} else ServicesIn(StreamingDomains, Lower(cache.value))
  }

  // ---------------------------------------------------------------------------
  // netstat lines
  // ---------------------------------------------------------------------------

  /** A netstat line the monitor looks at: an established connection on port 80 or 443 with
      at least five fields. */
  predicate IsWebConnection(line: string)
  {
    Contains(line, "ESTABLISHED") && (Contains(line, ":80") || Contains(line, ":443"))
    && |Split(line)| >= 5
  }

  /** `r` holds, in order, the third whitespace field of each of the lines `kept`. */
  ghost predicate ThirdFields(r: seq<string>, kept: seq<string>)
  {
    |r| == |kept| && forall i :: 0 <= i < |r| ==> |Split(kept[i])| > 2 && r[i] == Split(kept[i])[2]
  }

  /** `get_network_connections`: the third whitespace field of every such line, in order. */
  function NetworkConnections(lines: seq<string>): (r: seq<string>)
    ensures |r| <= |lines|
    ensures ThirdFields(r, Filter(lines, IsWebConnection))
    ensures forall i :: 0 <= i < |r| ==> IsWord(r[i])
  {
    if |lines| == 0 then []
    else
      var rest := NetworkConnections(lines[1..]);
      var r := if IsWebConnection(lines[0]) then [Split(lines[0])[2]] + rest else rest;
      ThirdFieldsStep(lines, IsWebConnection, rest, r);
      r
  }

  /** One more line keeps the result the third fields of the lines that pass `p`, in order. */
  lemma ThirdFieldsStep(lines: seq<string>, p: string -> bool, rest: seq<string>, r: seq<string>)
    requires |lines| > 0
    requires p(lines[0]) ==> |Split(lines[0])| > 2
    requires ThirdFields(rest, Filter(lines[1..], p))
    requires forall i :: 0 <= i < |rest| ==> IsWord(rest[i])
    requires r == if p(lines[0]) then [Split(lines[0])[2]] + rest else rest
    ensures ThirdFields(r, Filter(lines, p))
    ensures forall i :: 0 <= i < |r| ==> IsWord(r[i])
  {
    if p(lines[0]) {
      assert Filter(lines, p) == [lines[0]] + Filter(lines[1..], p);
      ThirdFieldsCons(lines[0], Filter(lines[1..], p), rest);
      SplitFieldsAreWords(lines[0]);
      WordsCons(Split(lines[0])[2], rest);
    } else {
      assert Filter(lines, p) == Filter(lines[1..], p);
    }
  }

  lemma ThirdFieldsCons(line: string, kept: seq<string>, r: seq<string>)
    requires |Split(line)| > 2
    requires ThirdFields(r, kept)
    ensures ThirdFields([Split(line)[2]] + r, [line] + kept)
  {
    var r', kept' := [Split(line)[2]] + r, [line] + kept;
    forall i | 0 <= i < |r'|
      ensures |Split(kept'[i])| > 2 && r'[i] == Split(kept'[i])[2]
    {
      if i > 0 {
        assert r'[i] == r[i - 1] && kept'[i] == kept[i - 1];
      } else {
        assert r'[0] == Split(line)[2] && kept'[0] == line;
      }
    }
  }

  lemma ThirdFieldsAppend(r1: seq<string>, kept1: seq<string>, r2: seq<string>, kept2: seq<string>)
    requires ThirdFields(r1, kept1) && ThirdFields(r2, kept2)
    ensures ThirdFields(r1 + r2, kept1 + kept2)
  {
    forall i | |r1| <= i < |r1| + |r2|
      ensures |Split((kept1 + kept2)[i])| > 2 && (r1 + r2)[i] == Split((kept1 + kept2)[i])[2]
    {
      assert (r1 + r2)[i] == r2[i - |r1|] && (kept1 + kept2)[i] == kept2[i - |r1|];
    }
  }

  lemma ThirdFieldsUnique(r1: seq<string>, r2: seq<string>, kept: seq<string>)
    requires ThirdFields(r1, kept) && ThirdFields(r2, kept)
    ensures r1 == r2
  {
  }

  /** The connections of two batches of lines are those of each batch, in order. */
  lemma NetworkConnectionsAppend(a: seq<string>, b: seq<string>)
    ensures NetworkConnections(a + b) == NetworkConnections(a) + NetworkConnections(b)
  {
    FilterAppend(a, b, IsWebConnection);
    ThirdFieldsAppend(NetworkConnections(a), Filter(a, IsWebConnection),
      NetworkConnections(b), Filter(b, IsWebConnection));
    ThirdFieldsUnique(NetworkConnections(a + b), NetworkConnections(a) + NetworkConnections(b),
      Filter(a + b, IsWebConnection));
  }

  /** On a `netstat -n` line of the Linux layout (protocol, Recv-Q, Send-Q, local address,
      foreign address, state) for an established connection to port 443, the line passes the
      filter and the field recorded as the remote address is the Send-Q column. */
  lemma NetstatLineThirdField(fields: seq<string>)
    requires |fields| == 6 && forall i :: 0 <= i < 6 ==> IsWord(fields[i])
    requires Contains(fields[4], ":443") && fields[5] == "ESTABLISHED"
    ensures IsWebConnection(JoinWords(fields))
    ensures NetworkConnections([JoinWords(fields)]) == [fields[2]]
  {
    var line := JoinWords(fields);
    SplitJoinWords(fields);
    ContainsWordOfJoin(fields, 4, ":443");
    ContainsItself(fields[5]);
    ContainsWordOfJoin(fields, 5, "ESTABLISHED");
    assert [line][1..] == [];
  }

  /** A line that is not an established connection contributes nothing. */
  lemma NetworkConnectionsSkip(line: string)
    requires !Contains(line, "ESTABLISHED")
    ensures NetworkConnections([line]) == []
  {
  }

  /** `address.split(':')[0]`: the text before the first colon. */
  function HostPart(address: string): (host: string)
    ensures |host| <= |address| && host == address[..|host|]
    ensures forall i :: 0 <= i < |host| ==> host[i] != ':'
    ensures |host| == |address| || address[|host|] == ':'
  {
    if |address| == 0 || address[0] == ':' then ""
    else
      var h := HostPart(address[1..]);
      assert [address[0]] + h == address[..1 + |h|];
      [address[0]] + h
  }

  /** Splitting off the port a second time (as `resolve_ip_to_domain` does) changes nothing. */
  lemma HostPartIdempotent(address: string)
    ensures HostPart(HostPart(address)) == HostPart(address)
  {
    var h := HostPart(address);
    HostPartOfColonFree(h);
  }

  lemma {:induction false} HostPartOfColonFree(s: string)
    requires forall i :: 0 <= i < |s| ==> s[i] != ':'
    ensures HostPart(s) == s
  {
    if |s| > 0 {
      HostPartOfColonFree(s[1..]);
      assert s == [s[0]] + s[1..];
    }
  }

  /** Connection `i` resolves to a host name matching `svc`. */
  predicate DetectedAt(conns: seq<string>, resolve: string -> Option<string>, i: int, svc: string)
  {
    0 <= i < |conns| && svc in DomainServices(resolve(HostPart(conns[i])))
  }

  /** `detect_streaming_activity`: the union, over the connections, of the services matching
      the host name `resolve` gives for the connection's address. */
  function ConnectionServices(conns: seq<string>, resolve: string -> Option<string>): (r: set<string>)
    ensures forall svc :: svc in r <==> exists i :: DetectedAt(conns, resolve, i, svc)
  {
    if |conns| == 0 then {}
    else
      var first := DomainServices(resolve(HostPart(conns[0])));
      var rest := ConnectionServices(conns[1..], resolve);
      ConnectionServicesCons(conns, resolve, first, rest);
      first + rest
  }

  lemma ConnectionServicesCons(conns: seq<string>, resolve: string -> Option<string>, first: set<string>, rest: set<string>)
    requires |conns| > 0 && first == DomainServices(resolve(HostPart(conns[0])))
    requires forall svc :: svc in rest <==> exists i :: DetectedAt(conns[1..], resolve, i, svc)
    ensures forall svc :: svc in first + rest <==> exists i :: DetectedAt(conns, resolve, i, svc)
  {
    forall svc
      ensures svc in first + rest <==> exists i :: DetectedAt(conns, resolve, i, svc)
    {
      if svc in rest {
        var i :| DetectedAt(conns[1..], resolve, i, svc);
        assert DetectedAt(conns, resolve, i + 1, svc);
      }
      if svc in first {
        assert DetectedAt(conns, resolve, 0, svc);
      }
      if i :| DetectedAt(conns, resolve, i, svc) {
        if i > 0 {
          assert DetectedAt(conns[1..], resolve, i - 1, svc);
        }
      }
    }
  }

  function NetworkServices(lines: seq<string>, resolve: string -> Option<string>): set<string>
  {
    ConnectionServices(NetworkConnections(lines), resolve)
  }

  /** `all_detected` of one check of `monitor_streaming`: network and DNS detections together. */
  function AllDetected(lines: seq<string>, resolve: string -> Option<string>, cache: Option<string>): (r: set<string>)
    ensures DnsServices(cache) <= r
    ensures NetworkServices(lines, resolve) <= r
    ensures forall svc :: svc in r ==> svc in DnsServices(cache) || svc in NetworkServices(lines, resolve)
  {
    NetworkServices(lines, resolve) + DnsServices(cache)
  }

  /** Whatever the snapshot, only the three watched services are ever detected. */
  lemma AllDetectedNames(lines: seq<string>, resolve: string -> Option<string>, cache: Option<string>)
    ensures AllDetected(lines, resolve, cache) <= ServiceNames
  {
    ConnectionServicesNames(NetworkConnections(lines), resolve);
  }

  lemma {:induction false} ConnectionServicesNames(conns: seq<string>, resolve: string -> Option<string>)
    ensures ConnectionServices(conns, resolve) <= ServiceNames
  {
    if |conns| > 0 {
      ConnectionServicesNames(conns[1..], resolve);
      var d := resolve(HostPart(conns[0]));
      if d.Some? && d.value != "" {
        ServicesInNames(Lower(d.value));
      }
    }
  }

  // ---------------------------------------------------------------------------
  // The session table
  // ---------------------------------------------------------------------------

  /** One tracked session: first and last check that saw it, and the number of checks that
      saw it (the "minutes" of the source, one per check). */
  datatype Session = Session(start: int, lastSeen: int, duration: nat)

  type Sessions = map<string, Session>

  /** Thirty minutes of inactivity, in seconds. */
  const SessionTimeout: int := 30 * 60

  /** Sessions shorter than this are not logged. */
  const MinLoggedDuration: nat := 5

  /** `time_since_last_seen > session_timeout`, with the minutes compared as seconds. */
  predicate IsIdle(session: Session, now: int)
  {
    now - session.lastSeen > SessionTimeout
  }

  /** The table after one check, and the sessions it ended (each logged once, then removed). */
  datatype Update = Update(active: Sessions, ended: Sessions)

  /** The entry of a detected service: bumped if tracked, opened otherwise. */
  function Seen(active: Sessions, service: string, now: int): Session
  {
    if service in active then active[service].(lastSeen := now, duration := active[service].duration + 1)
    else Session(now, now, 1)
  }

  /** `update_active_sessions`: detected services are bumped or opened; then every session
      idle past the timeout is ended and dropped. */
  function UpdateActiveSessions(active: Sessions, detected: set<string>, now: int): (u: Update)
    ensures u.active.Keys !! u.ended.Keys
    ensures u.active.Keys + u.ended.Keys == active.Keys + detected
    ensures forall svc :: svc in detected ==> svc in u.active && u.active[svc].lastSeen == now
    ensures forall svc :: svc in detected && svc in active ==>
      u.active[svc].start == active[svc].start && u.active[svc].duration == active[svc].duration + 1
    ensures forall svc :: svc in detected && svc !in active ==> u.active[svc] == Session(now, now, 1)
    ensures forall svc :: svc in active && svc !in detected ==>
      (svc in u.ended <==> IsIdle(active[svc], now))
      && (svc in u.ended ==> u.ended[svc] == active[svc])
      && (svc in u.active ==> u.active[svc] == active[svc])
    ensures forall svc :: svc in u.active ==> !IsIdle(u.active[svc], now)
  {
    var touched := map svc | svc in active.Keys + detected ::
      if svc in detected then Seen(active, svc, now) else active[svc];
    Update(
      map svc | svc in touched && !IsIdle(touched[svc], now) :: touched[svc],
      map svc | svc in touched && IsIdle(touched[svc], now) :: touched[svc])
  }

  /** A table is well formed when every session was last seen no earlier than it started and
      was seen at least once. */
  predicate WellFormed(active: Sessions)
  {
    forall svc :: svc in active ==> active[svc].start <= active[svc].lastSeen && active[svc].duration >= 1
  }

  /** No session was seen after `now`: the clock does not run backwards. */
  predicate SeenBy(active: Sessions, now: int)
  {
    forall svc :: svc in active ==> active[svc].lastSeen <= now
  }

  /** A check at a time no earlier than the last one keeps the table well formed and seen by
      that time. */
  lemma UpdateKeepsWellFormed(active: Sessions, detected: set<string>, now: int)
    requires WellFormed(active) && SeenBy(active, now)
    ensures var u := UpdateActiveSessions(active, detected, now);
      WellFormed(u.active) && SeenBy(u.active, now) && WellFormed(u.ended)
  {
  }

  /** Checks in a row: each element is the set of services detected and the time. */
  function Run(active: Sessions, checks: seq<(set<string>, int)>): (r: Sessions)
    ensures |checks| > 0 ==> forall svc :: svc in r ==> !IsIdle(r[svc], checks[|checks| - 1].1)
    ensures |checks| > 0 ==> forall svc :: svc in checks[|checks| - 1].0 ==>
      svc in r && r[svc].lastSeen == checks[|checks| - 1].1
    decreases |checks|
  {
    if |checks| == 0 then active
    else Run(UpdateActiveSessions(active, checks[0].0, checks[0].1).active, checks[1..])
  }

  /** A service detected by every check of a run keeps its start and gains one per check. */
  lemma {:induction false} RunWhileDetected(active: Sessions, checks: seq<(set<string>, int)>, svc: string)
    requires svc in active
    requires forall i :: 0 <= i < |checks| ==> svc in checks[i].0
    ensures svc in Run(active, checks)
    ensures Run(active, checks)[svc].start == active[svc].start
    ensures Run(active, checks)[svc].duration == active[svc].duration + |checks|
    decreases |checks|
  {
    if |checks| > 0 {
      var next := UpdateActiveSessions(active, checks[0].0, checks[0].1).active;
      RunWhileDetected(next, checks[1..], svc);
    }
  }

  /** A service first seen at the start of a run of k detections has a session that started
      then and has duration k. */
  lemma RunFromFirstDetection(active: Sessions, checks: seq<(set<string>, int)>, svc: string)
    requires svc !in active && |checks| > 0
    requires forall i :: 0 <= i < |checks| ==> svc in checks[i].0
    ensures svc in Run(active, checks)
    ensures Run(active, checks)[svc].start == checks[0].1
    ensures Run(active, checks)[svc].duration == |checks|
  {
    var next := UpdateActiveSessions(active, checks[0].0, checks[0].1).active;
    RunWhileDetected(next, checks[1..], svc);
  }

  // ---------------------------------------------------------------------------
  // Logging
  // ---------------------------------------------------------------------------

  /** `log_completed_session`: nothing for a session of fewer than five checks, otherwise the
      single record posted to the import endpoint. `stamp` renders a time as
      "%Y-%m-%d %H:%M:%S". */
  function LogCompletedSession(service: string, session: Session, stamp: int -> string): (r: Option<TvImport.ViewingRecord>)
    ensures r.None? <==> session.duration < MinLoggedDuration
    ensures r.Some? ==> r.value.service == Some(service) && r.value.startTime == Some(stamp(session.start))
    ensures r.Some? ==> forall date ::
      && TvImport.Accepted([r.value], date) == [TvImport.ToRow(r.value, date)]
      && TvImport.ToRow(r.value, date).durationMinutes == session.duration
      && TvImport.ToRow(r.value, date).contentTitle == service + " Viewing Session"
      && TvImport.ToRow(r.value, date).contentType == "Streaming"
  {
    if session.duration < MinLoggedDuration then None
    else
      var rec := TvImport.MonitorRecord(service, service + " Viewing Session", "Streaming", session.duration, stamp(session.start));
      forall date ensures TvImport.Accepted([rec], date) == [TvImport.ToRow(rec, date)]
        && TvImport.ToRow(rec, date).durationMinutes == session.duration
      {
        TvImport.MonitorRecordAccepted(service, service + " Viewing Session", "Streaming", session.duration, stamp(session.start), date);
      }
      Some(rec)
  }

  /** The records posted for a set of ended sessions, by service: one for each session that is
      long enough, none for the others. */
  function Posts(ended: Sessions, stamp: int -> string): (posts: map<string, TvImport.ViewingRecord>)
    ensures posts.Keys <= ended.Keys
    ensures forall svc :: svc in ended ==> (svc in posts <==> ended[svc].duration >= MinLoggedDuration)
    ensures forall svc :: svc in posts ==> Some(posts[svc]) == LogCompletedSession(svc, ended[svc], stamp)
  {
    map svc | svc in ended && LogCompletedSession(svc, ended[svc], stamp).Some? ::
      LogCompletedSession(svc, ended[svc], stamp).value
  }

  /** One check of `monitor_streaming`: detect, update, and post the sessions that ended. */
  function MonitorStep(active: Sessions, lines: seq<string>, resolve: string -> Option<string>,
                       cache: Option<string>, now: int, stamp: int -> string): (r: (Sessions, map<string, TvImport.ViewingRecord>))
    ensures r.0.Keys <= active.Keys + ServiceNames
    ensures forall svc :: svc in AllDetected(lines, resolve, cache) ==> svc in r.0 && r.0[svc].lastSeen == now
    ensures r.1.Keys !! r.0.Keys
    ensures r.1.Keys <= active.Keys
    ensures forall svc :: svc in r.1 <==>
      && svc in active && svc !in AllDetected(lines, resolve, cache)
      && IsIdle(active[svc], now) && active[svc].duration >= MinLoggedDuration
    ensures forall svc :: svc in r.1 ==> Some(r.1[svc]) == LogCompletedSession(svc, active[svc], stamp)
  {
    var detected := AllDetected(lines, resolve, cache);
    AllDetectedNames(lines, resolve, cache);
    var u := UpdateActiveSessions(active, detected, now);
    (u.active, Posts(u.ended, stamp))
  }

  /** Stopping the monitor posts every remaining session that is long enough. */
  function StopPosts(active: Sessions, stamp: int -> string): (posts: map<string, TvImport.ViewingRecord>)
    ensures forall svc :: svc in posts <==> svc in active && active[svc].duration >= MinLoggedDuration
    ensures forall svc :: svc in posts ==> posts[svc].durationMinutes == Some(Decimal.ToDecimal(active[svc].duration))
  {
    Posts(active, stamp)
  }

  /** Each post is an import of today's date, which replaces that date's rows: after two
      sessions are logged on the same day only the later one remains for that day. */
  lemma LaterPostReplaces(table: seq<Tables.TvSession>, first: TvImport.ViewingRecord,
                          second: TvImport.ViewingRecord, today: string)
    requires TvImport.IsAccepted(second)
    ensures var req1 := TvImport.ImportRequest(TvImport.Sessions([first]), None);
      var req2 := TvImport.ImportRequest(TvImport.Sessions([second]), None);
      var after := TvImport.Import(TvImport.Import(table, req1, today).table, req2, today).table;
      Filter(after, TvImport.OnDate(today)) == [TvImport.ToRow(second, today)]
  {
    TvImport.AcceptedSingle(second, today);
  }
}
