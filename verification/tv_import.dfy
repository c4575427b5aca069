/** `POST /api/tv/import`: validates the body, deletes the `tv_sessions` rows of the import date
    and inserts one row per record whose duration parses to a positive integer. The delete and
    the inserts are modelled as one state transition of the table. */
module TvImport {
  import opened Common
  import opened Tables
  import opened Decimal
  import Grouping
  import Queries

  /** One element of `viewingData`. A field is `None` when the JSON object lacks it or holds
      null; durations are the text JavaScript's `parseInt` sees (a JSON number `45` is read
      as "45"). */
  datatype ViewingRecord = ViewingRecord(
    service: Option<string>,
    title: Option<string>,
    kind: Option<string>,
    durationMinutes: Option<string>,
    startTime: Option<string>)

  /** The `viewingData` member of the body: absent, present but not an array, or an array. */
  datatype ViewingData = Missing | NotAnArray | Sessions(records: seq<ViewingRecord>)

  datatype ImportRequest = ImportRequest(viewingData: ViewingData, date: Option<string>)

  datatype ImportSummary = ImportSummary(totalMinutes: int, sessionsProcessed: nat, date: string)

  /** HTTP 400 with an error message, or HTTP 200 with the import summary. */
  datatype ImportResponse = BadRequest(error: string) | Imported(summary: ImportSummary)

  /** The table after the request, and the response sent. */
  datatype ImportResult = ImportResult(table: seq<TvSession>, response: ImportResponse)

  const InvalidFormat := "Invalid data format. Expected array of viewing sessions."

  // ---------------------------------------------------------------------------
  // JavaScript parseInt
  // ---------------------------------------------------------------------------

  /** The white space and line terminators `parseInt` skips before the number. */
  predicate IsJsSpace(c: char)
  {
    var n := c as int;
    n == 9 || n == 10 || n == 11 || n == 12 || n == 13 || n == 32 || n == 0xA0 || n == 0x1680
    || (0x2000 <= n <= 0x200A) || n == 0x2028 || n == 0x2029 || n == 0x202F || n == 0x205F
    || n == 0x3000 || n == 0xFEFF
  }

  /** `parseInt(s)` with no radix, for decimal input, as one left-to-right scan: leading
      white space, an optional sign, then the longest run of decimal digits; `None` stands for
      NaN (no digit there). */
  function ParseInt(s: string): Option<int>
  {
    if |s| == 0 then None
    else if IsJsSpace(s[0]) then ParseInt(s[1..])
    else if s[0] == '-' then Negated(Digits(s[1..], None))
    else if s[0] == '+' then Digits(s[1..], None)
    else Digits(s, None)
  }

  function Negated(v: Option<int>): Option<int>
  {
    match v
    case None => None
    case Some(x) => Some(-x)
  }

  /** The number read so far (`acc`, `None` before the first digit), extended by the longest
      digit prefix of `s`. */
  function Digits(s: string, acc: Option<int>): Option<int>
  {
    if |s| > 0 && IsDigit(s[0]) then Digits(s[1..], Some(acc.GetOr(0) * 10 + DigitValue(s[0]))) else acc
  }

  /** The number read so far, `acc`, extended digit by digit with `d`. */
  function Accumulate(acc: int, d: string): int
    requires AllDigits(d)
    decreases |d|
  {
    if |d| == 0 then acc else Accumulate(acc * 10 + DigitValue(d[0]), d[1..])
  }

  /** One more digit at the end shifts the number left by one place. */
  lemma {:induction false} AccumulateSnoc(acc: int, d: string, c: char)
    requires AllDigits(d) && IsDigit(c)
    ensures AllDigits(d + [c])
    ensures Accumulate(acc, d + [c]) == Accumulate(acc, d) * 10 + DigitValue(c)
    decreases |d|
  {
    var dc := d + [c];
    if |d| > 0 {
      assert dc[0] == d[0] && dc[1..] == d[1..] + [c];
      AccumulateSnoc(acc * 10 + DigitValue(d[0]), d[1..], c);
    } else {
      assert dc == [c] && dc[1..] == [];
    }
  }

  /** Reading a digit string from the left gives its value. */
  lemma {:induction false} ValueIsAccumulated(d: string)
    requires AllDigits(d)
    ensures Value(d) == Accumulate(0, d)
  {
    if |d| > 0 {
      var init := d[..|d| - 1];
      ValueIsAccumulated(init);
      AccumulateSnoc(0, init, d[|d| - 1]);
      assert init + [d[|d| - 1]] == d;
    }
  }

  /** Scanning a digit run up to a non-digit accumulates the run's digits. */
  lemma {:induction false} DigitsOfRun(d: string, rest: string, acc: int)
    requires AllDigits(d)
    requires |rest| == 0 || !IsDigit(rest[0])
    ensures Digits(d + rest, Some(acc)) == Some(Accumulate(acc, d))
  {
    if |d| == 0 {
      assert d + rest == rest;
    } else {
      assert (d + rest)[0] == d[0] && (d + rest)[1..] == d[1..] + rest;
      DigitsOfRun(d[1..], rest, acc * 10 + DigitValue(d[0]));
    }
  }

  /** A non-empty digit run followed by a non-digit is read as the run's value. */
  lemma DigitsOfDigits(d: string, rest: string)
    requires |d| > 0 && AllDigits(d)
    requires |rest| == 0 || !IsDigit(rest[0])
    ensures Digits(d + rest, None) == Some(Value(d))
  {
    var first := DigitValue(d[0]);
    DigitsFirst(d, rest);
    DigitsOfRun(d[1..], rest, first);
    assert Accumulate(0, d) == Accumulate(first, d[1..]);
    ValueIsAccumulated(d);
  }

  /** The first digit starts the number. */
  lemma DigitsFirst(d: string, rest: string)
    requires |d| > 0 && AllDigits(d)
    ensures Digits(d + rest, None) == Digits(d[1..] + rest, Some(DigitValue(d[0])))
  {
    assert (d + rest)[0] == d[0] && (d + rest)[1..] == d[1..] + rest;
  }

  /** Leading white space does not change what `parseInt` reads. */
  lemma {:induction false} ParseIntAfterSpace(ws: string, t: string)
    requires forall i :: 0 <= i < |ws| ==> IsJsSpace(ws[i])
    ensures ParseInt(ws + t) == ParseInt(t)
  {
    if |ws| == 0 {
      assert ws + t == t;
    } else {
      assert (ws + t)[0] == ws[0] && (ws + t)[1..] == ws[1..] + t;
      ParseIntAfterSpace(ws[1..], t);
    }
  }

  /** A string starting with a digit run is read as the run's value. */
  lemma ParseIntOfRun(d: string, rest: string)
    requires |d| > 0 && AllDigits(d)
    requires |rest| == 0 || !IsDigit(rest[0])
    ensures ParseInt(d + rest) == Some(Value(d))
  {
    DigitIsNotSign(d[0]);
    assert (d + rest)[0] == d[0];
    DigitsOfDigits(d, rest);
  }

  /** `parseInt` reads back any decimal rendering after white space, ignoring whatever
      non-digit text follows it. */
  lemma ParseIntOfDecimal(ws: string, n: nat, rest: string)
    requires forall i :: 0 <= i < |ws| ==> IsJsSpace(ws[i])
    requires |rest| == 0 || !IsDigit(rest[0])
    ensures ParseInt(ws + ToDecimal(n) + rest) == Some(n)
  {
    var d := ToDecimal(n);
    assert ws + d + rest == ws + (d + rest);
    ParseIntAfterSpace(ws, d + rest);
    ParseIntOfRun(d, rest);
    ValueOfDecimal(n);
  }

  /** With a minus sign, `parseInt` reads back the negated number. */
  lemma ParseIntOfNegative(ws: string, n: nat, rest: string)
    requires forall i :: 0 <= i < |ws| ==> IsJsSpace(ws[i])
    requires |rest| == 0 || !IsDigit(rest[0])
    ensures ParseInt(ws + "-" + ToDecimal(n) + rest) == Some(-(n as int))
  {
    var d := ToDecimal(n);
    var u := d + rest;
    assert ws + "-" + d + rest == ws + ("-" + u);
    ParseIntAfterSpace(ws, "-" + u);
    DigitsOfDigits(d, rest);
    ValueOfDecimal(n);
    ParseIntOfMinus(u, n);
  }

  /** After a minus sign, `parseInt` reads the digits that follow and negates them. */
  lemma ParseIntOfMinus(u: string, n: int)
    requires Digits(u, None) == Some(n)
    ensures ParseInt("-" + u) == Some(-n)
  {
    var t := "-" + u;
    assert t[0] == '-' && t[1..] == u;
  }

  /** With a plus sign, `parseInt` reads back the number unchanged. */
  lemma ParseIntOfPlus(ws: string, n: nat, rest: string)
    requires forall i :: 0 <= i < |ws| ==> IsJsSpace(ws[i])
    requires |rest| == 0 || !IsDigit(rest[0])
    ensures ParseInt(ws + "+" + ToDecimal(n) + rest) == Some(n)
  {
    var d := ToDecimal(n);
    var u := d + rest;
    assert ws + "+" + d + rest == ws + ("+" + u);
    ParseIntAfterSpace(ws, "+" + u);
    DigitsOfDigits(d, rest);
    ValueOfDecimal(n);
    ParseIntOfPlusSign(u, n);
  }

  /** After a plus sign, `parseInt` reads the digits that follow. */
  lemma ParseIntOfPlusSign(u: string, n: int)
    requires Digits(u, None) == Some(n)
    ensures ParseInt("+" + u) == Some(n)
  {
    var t := "+" + u;
    assert t[0] == '+' && t[1..] == u;
  }

  /** Text where `parseInt` finds a number: a digit, or a sign followed by a digit. */
  predicate StartsNumber(t: string)
  {
    |t| > 0 && (IsDigit(t[0]) || ((t[0] == '-' || t[0] == '+') && |t| > 1 && IsDigit(t[1])))
  }

  /** Everything else is NaN: after white space, text that does not start a number is not read
      as one. */
  lemma ParseIntNaN(ws: string, t: string)
    requires forall i :: 0 <= i < |ws| ==> IsJsSpace(ws[i])
    requires |t| == 0 || !IsJsSpace(t[0])
    requires !StartsNumber(t)
    ensures ParseInt(ws + t) == None
  {
    ParseIntAfterSpace(ws, t);
    if |t| > 0 && (t[0] == '-' || t[0] == '+') {
      assert Digits(t[1..], None) == None;
    }
  }

  /** `parseInt(x) || 0`: NaN (and a missing field) count as 0 minutes. */
  function Minutes(duration: Option<string>): (r: int)
    ensures duration.None? ==> r == 0
    ensures r != 0 ==> duration.Some? && ParseInt(duration.value) == Some(r)
    ensures duration.Some? && ParseInt(duration.value).Some? ==> r == ParseInt(duration.value).value
    ensures duration.Some? && ParseInt(duration.value).None? ==> r == 0
  {
    match duration
    case None => 0
    case Some(s) => ParseInt(s).GetOr(0)
  }

  /** "45" is read as 45 minutes. */
  lemma MinutesOf45()
    ensures Minutes(Some("45")) == 45
  {
    MinutesOfDecimal(45);
    assert ToDecimal(45) == "45";
  }

  /** "-5" is read as -5, which is not positive, so its record is skipped. */
  lemma MinutesOfMinus5()
    ensures Minutes(Some("-5")) == -5
  {
    ParseIntOfNegative("", 5, "");
    assert "" + "-" + ToDecimal(5) + "" == "-5";
  }

  /** "abc" is NaN, which `|| 0` turns into 0. */
  lemma MinutesOfAbc()
    ensures Minutes(Some("abc")) == 0
  {
    assert Digits("abc", None) == None;
  }

  // ---------------------------------------------------------------------------
  // Record validation and defaults
  // ---------------------------------------------------------------------------

  /** JavaScript's `value || fallback` on a string field: missing and empty both fall back. */
  function OrDefault(value: Option<string>, fallback: string): (r: string)
    ensures value.Some? && value.value != "" ==> r == value.value
    ensures value.None? || value.value == "" ==> r == fallback
  {
    if value.Some? && value.value != "" then value.value else fallback
  }

  /** `date || today`. */
  function ImportDate(date: Option<string>, today: string): (r: string)
    ensures date.Some? && date.value != "" ==> r == date.value
    ensures date.None? || date.value == "" ==> r == today
  {
    OrDefault(date, today)
  }

  /** A record is inserted iff its duration parses to a positive integer. */
  predicate IsAccepted(rec: ViewingRecord)
  {
    Minutes(rec.durationMinutes) > 0
  }

  /** The row inserted for an accepted record. */
  function ToRow(rec: ViewingRecord, date: string): (row: TvSession)
    ensures row.viewingDate == date
    ensures row.durationMinutes == Minutes(rec.durationMinutes)
    ensures row.service != "" && row.contentTitle != "" && row.contentType != ""
    ensures rec.service.Some? && rec.service.value != "" ==> row.service == rec.service.value
    ensures rec.service.None? || rec.service.value == "" ==> row.service == "Unknown"
    ensures rec.title.Some? && rec.title.value != "" ==> row.contentTitle == rec.title.value
    ensures rec.title.None? || rec.title.value == "" ==> row.contentTitle == "Unknown Content"
    ensures rec.kind.Some? && rec.kind.value != "" ==> row.contentType == rec.kind.value
    ensures rec.kind.None? || rec.kind.value == "" ==> row.contentType == "Unknown"
    ensures rec.startTime.Some? && rec.startTime.value != "" ==> row.startTime == rec.startTime.value
    ensures rec.startTime.None? || rec.startTime.value == "" ==> row.startTime == date + " 12:00:00"
  {
    TvSession(
      OrDefault(rec.service, "Unknown"),
      OrDefault(rec.title, "Unknown Content"),
      OrDefault(rec.kind, "Unknown"),
      Minutes(rec.durationMinutes),
      OrDefault(rec.startTime, date + " 12:00:00"),
      date)
  }

  /** The rows inserted for a batch: one per accepted record, in input order. */
  function Accepted(records: seq<ViewingRecord>, date: string): (rows: seq<TvSession>)
    ensures |rows| <= |records|
    ensures forall i :: 0 <= i < |rows| ==> rows[i].viewingDate == date && rows[i].durationMinutes > 0
  {
    if |records| == 0 then []
    else (if IsAccepted(records[0]) then [ToRow(records[0], date)] else []) + Accepted(records[1..], date)
  }

  /** Acceptance is decided record by record: a batch is accepted piecewise. */
  lemma {:induction false} AcceptedAppend(a: seq<ViewingRecord>, b: seq<ViewingRecord>, date: string)
    ensures Accepted(a + b, date) == Accepted(a, date) + Accepted(b, date)
  {
    if |a| == 0 {
      assert a + b == b;
    } else {
      assert (a + b)[1..] == a[1..] + b;
      AcceptedAppend(a[1..], b, date);
    }
  }

  /** A single record is inserted, with its parsed minutes, exactly when those minutes are positive. */
  lemma AcceptedSingle(rec: ViewingRecord, date: string)
    ensures Accepted([rec], date) == if Minutes(rec.durationMinutes) > 0 then [ToRow(rec, date)] else []
  {
    assert [rec][1..] == [];
  }

  /** A batch in which no duration is positive inserts nothing. */
  lemma {:induction false} AcceptedNone(records: seq<ViewingRecord>, date: string)
    requires forall i :: 0 <= i < |records| ==> Minutes(records[i].durationMinutes) <= 0
    ensures Accepted(records, date) == []
  {
    if |records| > 0 {
      AcceptedNone(records[1..], date);
    }
  }

  lemma {:induction false} SumMinutesAppend(a: seq<TvSession>, b: seq<TvSession>)
    ensures SumMinutes(a + b) == SumMinutes(a) + SumMinutes(b)
  {
    if |a| == 0 {
      assert a + b == b;
    } else {
      assert (a + b)[1..] == a[1..] + b;
      SumMinutesAppend(a[1..], b);
    }
  }

  /** Inserted rows each carry at least one minute. */
  lemma {:induction false} SumMinutesAtLeastCount(rows: seq<TvSession>)
    requires forall i :: 0 <= i < |rows| ==> rows[i].durationMinutes > 0
    ensures SumMinutes(rows) >= |rows|
  {
    if |rows| > 0 {
      SumMinutesAtLeastCount(rows[1..]);
    }
  }

  // ---------------------------------------------------------------------------
  // The import transition
  // ---------------------------------------------------------------------------

  function OnDate(date: string): TvSession -> bool
  {
    (t: TvSession) => t.viewingDate == date
  }

  function OtherDate(date: string): TvSession -> bool
  {
    (t: TvSession) => t.viewingDate != date
  }

  /** The handler: a body whose `viewingData` is not an array is refused with 400 and the table
      is untouched; otherwise the import date's rows become exactly the accepted records, in
      input order, every other date's rows stay as they were, and the summary reports the
      inserted minutes and row count. */
  function Import(table: seq<TvSession>, req: ImportRequest, today: string): (r: ImportResult)
    ensures !req.viewingData.Sessions? ==> r.table == table && r.response == BadRequest(InvalidFormat)
    ensures req.viewingData.Sessions? ==>
      var date := ImportDate(req.date, today);
      var rows := Accepted(req.viewingData.records, date);
      && Filter(r.table, OnDate(date)) == rows
      && Filter(r.table, OtherDate(date)) == Filter(table, OtherDate(date))
      && r.response.Imported?
      && r.response.summary.date == date
      && r.response.summary.totalMinutes == SumMinutes(rows)
      && r.response.summary.sessionsProcessed == |rows| <= |req.viewingData.records|
      && r.response.summary.totalMinutes >= r.response.summary.sessionsProcessed
  {
    match req.viewingData
    case Sessions(records) =>
      var date := ImportDate(req.date, today);
      var kept := Filter(table, OtherDate(date));
      var rows := Accepted(records, date);
      ImportTableShape(table, rows, date);
      SumMinutesAtLeastCount(rows);
      ImportResult(kept + rows, Imported(ImportSummary(SumMinutes(rows), |rows|, date)))
    case _ =>
      ImportResult(table, BadRequest(InvalidFormat))
  }

  /** Deleting one date and appending rows of that date separates cleanly again. */
  lemma ImportTableShape(table: seq<TvSession>, rows: seq<TvSession>, date: string)
    requires forall i :: 0 <= i < |rows| ==> rows[i].viewingDate == date
    ensures Filter(Filter(table, OtherDate(date)) + rows, OnDate(date)) == rows
    ensures Filter(Filter(table, OtherDate(date)) + rows, OtherDate(date)) == Filter(table, OtherDate(date))
  {
    var kept := Filter(table, OtherDate(date));
    FilterAppend(kept, rows, OnDate(date));
    FilterAppend(kept, rows, OtherDate(date));
    FilterDropsAll(kept, OnDate(date));
    FilterKeepsAll(rows, OnDate(date));
    FilterKeepsAll(kept, OtherDate(date));
    FilterDropsAll(rows, OtherDate(date));
    assert kept + [] == kept;
    assert [] + rows == rows;
  }

  /** One more record of the batch adds its row, if any, to the inserted rows and their sum. */
  lemma AcceptedStep(records: seq<ViewingRecord>, i: nat, date: string)
    requires i < |records|
    ensures var before := Accepted(records[..i], date);
      var row := ToRow(records[i], date);
      if IsAccepted(records[i]) then
        Accepted(records[..i + 1], date) == before + [row]
        && SumMinutes(before + [row]) == SumMinutes(before) + row.durationMinutes
      else Accepted(records[..i + 1], date) == before
  {
    AcceptedPrefix(records, i, date);
    SumMinutesPush(Accepted(records[..i], date), ToRow(records[i], date));
  }

  /** The rows of one more record are the rows so far plus that record's row, if any. */
  lemma AcceptedPrefix(records: seq<ViewingRecord>, i: nat, date: string)
    requires i < |records|
    ensures Accepted(records[..i + 1], date)
      == Accepted(records[..i], date) + Accepted([records[i]], date)
  {
    AcceptedAppend(records[..i], [records[i]], date);
    assert records[..i + 1] == records[..i] + [records[i]];
  }

  /** One more row adds its minutes to the sum. */
  lemma SumMinutesPush(rows: seq<TvSession>, row: TvSession)
    ensures SumMinutes(rows + [row]) == SumMinutes(rows) + row.durationMinutes
  {
    SumMinutesAppend(rows, [row]);
    assert SumMinutes([row]) == row.durationMinutes;
  }

  /** The handler's running state: the table, `totalMinutes` and `sessionsProcessed`. */
  datatype Progress = Progress(table: seq<TvSession>, totalMinutes: int, sessionsProcessed: nat)

  /** The running state once the first `i` records are processed. */
  function After(kept: seq<TvSession>, records: seq<ViewingRecord>, i: nat, date: string): Progress
    requires i <= |records|
  {
    var rows := Accepted(records[..i], date);
    Progress(kept + rows, SumMinutes(rows), |rows|)
  }

  /** Processing record `i` adds its row, its minutes and one to the count when it is
      accepted, and changes nothing otherwise. */
  lemma AfterStep(kept: seq<TvSession>, records: seq<ViewingRecord>, i: nat, date: string)
    requires i < |records|
    ensures var p := After(kept, records, i, date);
      After(kept, records, i + 1, date)
      == if IsAccepted(records[i])
         then Progress(p.table + [ToRow(records[i], date)], p.totalMinutes + Minutes(records[i].durationMinutes), p.sessionsProcessed + 1)
         else p
  {
    var before := Accepted(records[..i], date);
    var row := ToRow(records[i], date);
    AcceptedStep(records, i, date);
    assert kept + before + [row] == kept + (before + [row]);
  }

  /** One iteration of the forEach loop: insert the record and count it if its minutes are
      positive. */
  method InsertRecord(p: Progress, rec: ViewingRecord, date: string) returns (q: Progress)
    ensures q == if IsAccepted(rec)
                 then Progress(p.table + [ToRow(rec, date)], p.totalMinutes + Minutes(rec.durationMinutes), p.sessionsProcessed + 1)
                 else p
  {
    var minutes := Minutes(rec.durationMinutes);
    if minutes > 0 {
      q := Progress(p.table + [ToRow(rec, date)], p.totalMinutes + minutes, p.sessionsProcessed + 1);
    } else {
      q := p;
    }
  }

  /** The forEach loop of the handler: delete, then insert and count record by record. */
  method ImportBatch(table: seq<TvSession>, req: ImportRequest, today: string)
    returns (newTable: seq<TvSession>, response: ImportResponse)
    ensures ImportResult(newTable, response) == Import(table, req, today)
  {
    if !req.viewingData.Sessions? {
      return table, BadRequest(InvalidFormat);
    }
    var records := req.viewingData.records;
    var date := ImportDate(req.date, today);
    var kept := Filter(table, OtherDate(date));
    var progress := Progress(kept, 0, 0);
    assert records[..0] == [];
    var i := 0;
    while i < |records|
      invariant 0 <= i <= |records|
      invariant progress == After(kept, records, i, date)
    {
      progress := InsertRecord(progress, records[i], date);
      AfterStep(kept, records, i, date);
      i := i + 1;
    }
    assert records[..i] == records;
    newTable := progress.table;
    response := Imported(ImportSummary(progress.totalMinutes, progress.sessionsProcessed, date));
    ImportOfSessions(table, req, today);
  }

  /** The import of an array, spelled out. */
  lemma ImportOfSessions(table: seq<TvSession>, req: ImportRequest, today: string)
    requires req.viewingData.Sessions?
    ensures var date := ImportDate(req.date, today);
      var rows := Accepted(req.viewingData.records, date);
      Import(table, req, today)
      == ImportResult(Filter(table, OtherDate(date)) + rows, Imported(ImportSummary(SumMinutes(rows), |rows|, date)))
  {
  }

  // ---------------------------------------------------------------------------
  // Properties across requests
  // ---------------------------------------------------------------------------

  /** Importing twice for the same date leaves only the second batch on that date. */
  lemma ImportTwice(table: seq<TvSession>, first: ImportRequest, second: ImportRequest, today: string)
    requires first.viewingData.Sessions? && second.viewingData.Sessions?
    requires ImportDate(first.date, today) == ImportDate(second.date, today)
    ensures var date := ImportDate(second.date, today);
      var after := Import(Import(table, first, today).table, second, today).table;
      Filter(after, OnDate(date)) == Accepted(second.viewingData.records, date)
      && Filter(after, OtherDate(date)) == Filter(table, OtherDate(date))
  {
  }

  /** Re-sending the same batch changes nothing further. */
  lemma ImportIdempotent(table: seq<TvSession>, req: ImportRequest, today: string)
    requires req.viewingData.Sessions?
    ensures var once := Import(table, req, today);
      Import(once.table, req, today) == once
  {
    var date := ImportDate(req.date, today);
    var rows := Accepted(req.viewingData.records, date);
    ImportTableShape(table, rows, date);
  }

  /** A batch with no positive duration still clears its date. */
  lemma ImportOfInvalidBatchClears(table: seq<TvSession>, req: ImportRequest, today: string)
    requires req.viewingData.Sessions?
    requires forall i :: 0 <= i < |req.viewingData.records| ==>
      Minutes(req.viewingData.records[i].durationMinutes) <= 0
    ensures var date := ImportDate(req.date, today); var r := Import(table, req, today);
      Filter(r.table, OnDate(date)) == []
      && r.response == Imported(ImportSummary(0, 0, date))
  {
    AcceptedNone(req.viewingData.records, ImportDate(req.date, today));
  }

  /** After an import for today, the TV summary reports exactly the imported minutes and
      session count. */
  lemma ImportThenDaily(table: seq<TvSession>, req: ImportRequest, today: string)
    requires req.viewingData.Sessions?
    ensures var r := Import(table, req, today); var date := ImportDate(req.date, today);
      Queries.TvDaily(r.table, date)
      == Queries.DayTotals(r.response.summary.totalMinutes, r.response.summary.sessionsProcessed)
  {
    var date := ImportDate(req.date, today);
    var rows := Accepted(req.viewingData.records, date);
    var kept := Filter(table, OtherDate(date));
    var r := Import(table, req, today);
    assert r.table == kept + rows;
    assert r.response.summary == ImportSummary(SumMinutes(rows), |rows|, date);
    Queries.ProjectAppend(kept, rows, Queries.ViewedOn(date), Queries.TvService, Queries.TvMinutes);
    ProjectOfNone(kept, date);
    ProjectOfDay(rows, date);
    assert Queries.TvPairs(r.table, date) == Queries.TvPairs(rows, date);
  }

  lemma {:induction false} ProjectOfNone(rows: seq<TvSession>, date: string)
    requires forall i :: 0 <= i < |rows| ==> rows[i].viewingDate != date
    ensures Queries.TvPairs(rows, date) == []
  {
    if |rows| > 0 {
      ProjectOfNone(rows[1..], date);
    }
  }

  lemma {:induction false} ProjectOfDay(rows: seq<TvSession>, date: string)
    requires forall i :: 0 <= i < |rows| ==> rows[i].viewingDate == date
    ensures |Queries.TvPairs(rows, date)| == |rows|
    ensures Grouping.Total(Queries.TvPairs(rows, date)) == SumMinutes(rows)
  {
    if |rows| > 0 {
      ProjectOfDay(rows[1..], date);
    }
  }

  // ---------------------------------------------------------------------------
  // Records as the monitors send them
  // ---------------------------------------------------------------------------

  /** The single-record body the Python monitors post: every field present, the duration a
      JSON integer. */
  function MonitorRecord(service: string, title: string, kind: string, minutes: nat, start: string): ViewingRecord
  {
    ViewingRecord(Some(service), Some(title), Some(kind), Some(ToDecimal(minutes)), Some(start))
  }

  /** A monitor's record with a positive duration is inserted with exactly that many minutes. */
  lemma MonitorRecordAccepted(service: string, title: string, kind: string, minutes: nat, start: string, date: string)
    requires minutes > 0
    ensures var rec := MonitorRecord(service, title, kind, minutes, start);
      Accepted([rec], date) == [ToRow(rec, date)] && ToRow(rec, date).durationMinutes == minutes
  {
    MinutesOfDecimal(minutes);
    AcceptedSingle(MonitorRecord(service, title, kind, minutes, start), date);
  }

  /** A duration sent as a JSON integer is read back as that integer. */
  lemma MinutesOfDecimal(n: nat)
    ensures Minutes(Some(ToDecimal(n))) == n
  {
    ParseIntOfDigits(ToDecimal(n));
    ValueOfDecimal(n);
  }

  /** A non-empty digit string is read as its value. */
  lemma ParseIntOfDigits(d: string)
    requires |d| > 0 && AllDigits(d)
    ensures ParseInt(d) == Some(Value(d))
  {
    ParseIntOfRun(d, "");
    assert d + "" == d;
  }

  lemma DigitIsNotSign(c: char)
    requires IsDigit(c)
    ensures !IsJsSpace(c) && c != '-' && c != '+'
  {
  }
}
