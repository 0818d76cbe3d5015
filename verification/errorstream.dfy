/**
 The three entry points of the `ErrorStreamLogger` log route
 (errorstream/ErrorStreamLogger.php): `processLogs` for Yii log entries,
 `reportException` for exceptions and `handleError` for PHP errors. Each turns its
 input into zero or more reports; the HTTP send is a sink, so the outcome of a call
 is what the PHP function returns together with the requests it issued, in order.
 */
module ErrorStream {
  import opened Wrappers
  import opened Strings
  import opened Php
  import opened Lines
  import opened Severity
  import opened Reports

  /** One Yii log entry `[message, level, ...]`; only the first two slots are read. */
  datatype LogEntry = LogEntry(text: string, level: string)

  /** What `reportException` reads from an exception: `getMessage()`, `getFile()`,
      `getLine()`, `getTraceAsString()` and the optional `statusCode` property. */
  datatype ExceptionInfo = ExceptionInfo(
    message: string,
    file: string,
    line: int,
    traceAsString: string,
    statusCode: PhpValue)

  /** The argument of `handleError`: either not an object at all, or a Yii error
      event whose `message`, `file` and `code` properties may be unset. */
  datatype ErrorEvent =
    | NotAnObject
    | ErrorObject(message: Option<string>, file: Option<string>, code: Option<int>)

  /** The surroundings of a call: the `YII_DEBUG` constant (`None` when it is not
      defined), the route's configuration, and the form-encoder `http_build_query`
      applies to each key and value. */
  datatype Env = Env(yiiDebug: Option<PhpValue>, config: Config, encode: string -> string)

  /** What a PHP entry point returns: an explicit `false`, or falling off the end (`null`). */
  datatype Returned = ReturnedFalse | ReturnedNull

  /** The return value and the requests sent during one call. */
  datatype Outcome = Outcome(returned: Returned, sent: seq<Request>)

  /** `defined('YII_DEBUG') && YII_DEBUG === true`: only the boolean `true` counts. */
  predicate DebugMode(env: Env)
  {
    env.yiiDebug == Some(PBool(true))
  }

  /** `isset($ex->statusCode) && $ex->statusCode == '404'`. */
  predicate IsNotFound(ex: ExceptionInfo)
  {
    IsSet(ex.statusCode) && LooseEqualsText404(ex.statusCode)
  }

  /** `$message . ':' . $line`, the group key of an exception report. */
  function ExceptionGroup(message: string, line: int): string
  {
    message + ":" + IntToString(line)
  }

  /** Splits a group key at its last ':' into the message and the line number. */
  function SplitGroup(group: string): Option<(string, int)>
  {
    match LastIndexOf(group, ':')
    case None => None
    case Some(k) =>
      match ParseInt(group[k + 1..])
      case None => None
      case Some(line) => Some((group[..k], line))
  }

  /** The group key of an exception keeps both of its parts: the message and the line
      can be read back, even when the message itself contains ':'. */
  lemma {:induction false} ExceptionGroupRoundTrip(message: string, line: int)
    ensures SplitGroup(ExceptionGroup(message, line)) == Some((message, line))
  {
    var digits := IntToString(line);
    var g := ExceptionGroup(message, line);
    IntToStringCharacters(line);
    IntToStringRoundTrip(line);
    assert g == message + [':'] + digits;
    LastIndexAfterPrefix(message, ':', digits);
    assert g[|message| + 1..] == digits;
    assert g[..|message|] == message;
  }

  /** Two exceptions share a group key exactly when they share message and line. */
  lemma {:induction false} ExceptionGroupInjective(m1: string, l1: int, m2: string, l2: int)
    ensures ExceptionGroup(m1, l1) == ExceptionGroup(m2, l2) <==> m1 == m2 && l1 == l2
  {
    ExceptionGroupRoundTrip(m1, l1);
    ExceptionGroupRoundTrip(m2, l2);
  }

  /** The report built for one log entry (lines 90-99): no `stack_trace` key. */
  function LogReport(entry: LogEntry): (r: Report)
    ensures r.message == JoinLines(entry.text)
    ensures r.errorGroup == r.message && '\n' !in r.message
    ensures r.lineNumber == PInt(0) && r.fileName == "N/A" && r.stackTrace == None
    ensures r.severity == GetSeverity(entry.level)
  {
    var message := JoinLines(entry.text);
    Report(message, PInt(0), "N/A", message, None, GetSeverity(entry.level))
  }

  /** `req` is the request `processLogs` sends for `entry`: to the configured URL,
      with the entry's single-line text as both group key and message, line 0,
      file `N/A`, no `stack_trace`, and the severity of the entry's level. */
  predicate IsLogRequest(env: Env, entry: LogEntry, req: Request)
  {
    && req.url == RequestUrl(env.config, env.encode)
    && req.body.message == JoinLines(entry.text)
    && req.body.errorGroup == JoinLines(entry.text)
    && req.body.lineNumber == PInt(0)
    && req.body.fileName == "N/A"
    && req.body.stackTrace == None
    && req.body.severity == GetSeverity(entry.level)
  }

  /** The request built from a log entry's report is that entry's log request. */
  lemma {:induction false} LogRequestOf(env: Env, entry: LogEntry)
    ensures IsLogRequest(env, entry, MakeRequest(env.config, env.encode, LogReport(entry)))
  {
  }

  /** `processLogs`: nothing in debug mode; otherwise one request per entry, in order. */
  method ProcessLogs(env: Env, logs: seq<LogEntry>) returns (o: Outcome)
    ensures DebugMode(env) ==> o.returned == ReturnedFalse && o.sent == []
    ensures !DebugMode(env) ==> o.returned == ReturnedNull && |o.sent| == |logs|
    ensures !DebugMode(env) ==> forall i :: 0 <= i < |logs| ==> IsLogRequest(env, logs[i], o.sent[i])
    ensures WellFormed(env, o)
  {
    if DebugMode(env) {
      return Outcome(ReturnedFalse, []);
    }
    var sent: seq<Request> := [];
    var n := 0;
    while n < |logs|
      invariant 0 <= n <= |logs|
      invariant |sent| == n
      invariant forall i :: 0 <= i < n ==> IsLogRequest(env, logs[i], sent[i])
    {
      var req := MakeRequest(env.config, env.encode, LogReport(logs[n]));
      LogRequestOf(env, logs[n]);
      var extended := sent + [req];
      assert extended[n] == req;
      assert forall i :: 0 <= i < n ==> extended[i] == sent[i];
      sent := extended;
      n := n + 1;
    }
    return Outcome(ReturnedNull, sent);
  }

  /** The report built for an exception (lines 137-146). */
  function ExceptionReport(ex: ExceptionInfo): (r: Report)
    ensures r.errorGroup == ExceptionGroup(ex.message, ex.line)
    ensures SplitGroup(r.errorGroup) == Some((ex.message, ex.line))
    ensures r.lineNumber == PInt(ex.line) && r.fileName == ex.file && r.message == ex.message
    ensures r.stackTrace == Some(PStr(JoinLines(ex.traceAsString)))
    ensures r.severity == Error
  {
    ExceptionGroupRoundTrip(ex.message, ex.line);
    Report(
      ExceptionGroup(ex.message, ex.line),
      PInt(ex.line),
      ex.file,
      ex.message,
      Some(PStr(JoinLines(ex.traceAsString))),
      3)
  }

  /** `reportException`: nothing in debug mode or for a 404; otherwise exactly one
      request, whose group key is `message:line`, whose trace is single-line and
      whose severity is the top one. */
  function ReportException(env: Env, ex: ExceptionInfo): (o: Outcome)
    ensures DebugMode(env) || IsNotFound(ex) ==> o == Outcome(ReturnedFalse, [])
    ensures !DebugMode(env) && !IsNotFound(ex) ==>
              && o.returned == ReturnedNull
              && |o.sent| == 1
              && o.sent[0].url == RequestUrl(env.config, env.encode)
              && o.sent[0].body.errorGroup == ExceptionGroup(ex.message, ex.line)
              && o.sent[0].body.lineNumber == PInt(ex.line)
              && o.sent[0].body.fileName == ex.file
              && o.sent[0].body.message == ex.message
              && o.sent[0].body.stackTrace == Some(PStr(JoinLines(ex.traceAsString)))
              && o.sent[0].body.severity == Error
  {
    if DebugMode(env) then Outcome(ReturnedFalse, [])
    else if IsNotFound(ex) then Outcome(ReturnedFalse, [])
    else Outcome(ReturnedNull, [MakeRequest(env.config, env.encode, ExceptionReport(ex))])
  }

  /** The event carries everything `handleError` insists on. */
  predicate IsCompleteEvent(ev: ErrorEvent)
  {
    ev.ErrorObject? && ev.message.Some? && ev.file.Some? && ev.code.Some?
  }

  /** `handleError`: `false` and no request for a non-object or an event missing
      `message`, `file` or `code`; otherwise one report at the top severity. The
      report repeats the message as its group key, carries the file path in
      `line_number` as well as `file_name`, and the error code as `stack_trace`.
      `sendReport` is taken to issue the same request as `makeRequest`. There is no
      debug-mode check on this path. */
  function HandleError(env: Env, ev: ErrorEvent): (o: Outcome)
    ensures !IsCompleteEvent(ev) <==> o == Outcome(ReturnedFalse, [])
    ensures IsCompleteEvent(ev) ==>
              && o.returned == ReturnedNull
              && |o.sent| == 1
              && o.sent[0].url == RequestUrl(env.config, env.encode)
              && o.sent[0].body.errorGroup == ev.message.value
              && o.sent[0].body.message == ev.message.value
              && o.sent[0].body.lineNumber == PStr(ev.file.value)
              && o.sent[0].body.fileName == ev.file.value
              && o.sent[0].body.stackTrace == Some(PInt(ev.code.value))
              && o.sent[0].body.severity == Error
  {
    match ev
    case NotAnObject => Outcome(ReturnedFalse, [])
    case ErrorObject(message, file, code) =>
      if message.None? then Outcome(ReturnedFalse, [])
      else if file.None? then Outcome(ReturnedFalse, [])
      else if code.None? then Outcome(ReturnedFalse, [])
      else
        var report := Report(message.value, PStr(file.value), file.value, message.value, Some(PInt(code.value)), 3);
        Outcome(ReturnedNull, [MakeRequest(env.config, env.encode, report)])
  }

  /** Every request of an outcome carries a report at one of the three severities,
      sent to the configured endpoint. */
  predicate WellFormed(env: Env, o: Outcome)
  {
    forall i :: 0 <= i < |o.sent| ==>
      IsSeverity(o.sent[i].body.severity) && o.sent[i].url == RequestUrl(env.config, env.encode)
  }

  /** An exception yields at most one request, at the top severity and to the
      configured endpoint. */
  lemma {:induction false} ReportExceptionWellFormed(env: Env, ex: ExceptionInfo)
    ensures WellFormed(env, ReportException(env, ex))
    ensures |ReportException(env, ex).sent| <= 1
    ensures forall r :: r in ReportException(env, ex).sent ==> r.body.severity == Error
  {
  }

  /** An error event yields at most one request, at the top severity and to the
      configured endpoint. */
  lemma {:induction false} HandleErrorWellFormed(env: Env, ev: ErrorEvent)
    ensures WellFormed(env, HandleError(env, ev))
    ensures |HandleError(env, ev).sent| <= 1
    ensures forall r :: r in HandleError(env, ev).sent ==> r.body.severity == Error
  {
  }

  /** An exception whose trace has two single-line frames gets the group key
      `message:line` and the frames joined by `<br>` (for example "Division by zero"
      at line 42 with frames "frame1" and "frame2" gives "Division by zero:42" and
      "frame1<br>frame2"). */
  lemma {:induction false} ExceptionTwoFrames(message: string, file: string, line: int, frame1: string, frame2: string)
    requires '\n' !in frame1 && '\n' !in frame2
    ensures ExceptionReport(ExceptionInfo(message, file, line, frame1 + "\n" + frame2, PNull))
         == Report(ExceptionGroup(message, line), PInt(line), file, message, Some(PStr(frame1 + "<br>" + frame2)), 3)
  {
    JoinLinesAroundNewline(frame1, frame2);
  }

  /** The example above: "Division by zero" at line 42 groups as "Division by zero:42". */
  lemma {:induction false} DivisionByZeroGroup()
    ensures ExceptionGroup("Division by zero", 42) == "Division by zero:42"
  {
    FortyTwoText();
  }

  /** A two-line log text becomes one line joined by `<br>`, with line 0, file `N/A`
      and no `stack_trace` (for example the warning "Warm cache\nmiss" gives
      "Warm cache<br>miss" at severity 2). */
  lemma {:induction false} LogTwoLines(first: string, second: string, level: string)
    requires '\n' !in first && '\n' !in second
    ensures LogReport(LogEntry(first + "\n" + second, level))
         == Report(first + "<br>" + second, PInt(0), "N/A", first + "<br>" + second, None, GetSeverity(level))
  {
    JoinLinesAroundNewline(first, second);
  }

  /** The debug flag does not affect `handleError`. */
  lemma {:induction false} HandleErrorIgnoresDebug(env: Env, ev: ErrorEvent, debug: Option<PhpValue>)
    ensures HandleError(env.(yiiDebug := debug), ev) == HandleError(env, ev)
  {
  }

  /** Unlike the two other paths, `handleError` passes a multi-line message through
      as it is: the report keeps the newline that the `<br>` normalisation would
      have removed. */
  lemma {:induction false} HandleErrorKeepsNewlines(env: Env, message: string, file: string, code: int)
    requires '\n' in message
    ensures HandleError(env, ErrorObject(Some(message), Some(file), Some(code))).sent[0].body.message == message
    ensures '\n' in HandleError(env, ErrorObject(Some(message), Some(file), Some(code))).sent[0].body.message
    ensures HandleError(env, ErrorObject(Some(message), Some(file), Some(code))).sent[0].body.message != JoinLines(message)
  {
  }

  /** A `YII_DEBUG` defined as the integer 1, or as the string "true", is not debug
      mode: the comparison is strict. */
  lemma {:induction false} DebugNeedsBooleanTrue(env: Env)
    requires env.yiiDebug == Some(PInt(1)) || env.yiiDebug == Some(PStr("true"))
    ensures !DebugMode(env)
    ensures ReportException(env, ExceptionInfo("m", "f", 1, "", PNull)).sent != []
  {
  }

  /** Outside debug mode, among the status codes the model distinguishes, an exception
      is suppressed exactly when its `statusCode` is the integer 404, the string "404",
      or the boolean `true` (which compares loosely equal to any non-empty, non-"0"
      string); an unset code never suppresses. Numeric strings such as "0404", which
      PHP also compares equal to '404', are not distinguished. */
  lemma {:induction false} NotFoundCases(env: Env, ex: ExceptionInfo)
    requires !DebugMode(env)
    ensures ReportException(env, ex).sent == []
        <==> ex.statusCode == PBool(true) || ex.statusCode == PInt(404) || ex.statusCode == PStr("404")
  {
  }

  /** The example of `LogTwoLines`: the warning "Warm cache\nmiss" becomes "Warm cache<br>miss"
      at severity 2. */
  lemma {:induction false} WarmCacheMiss()
    ensures LogReport(LogEntry("Warm cache\nmiss", "warning"))
         == Report("Warm cache<br>miss", PInt(0), "N/A", "Warm cache<br>miss", None, 2)
  {
    assert "Warm cache" + "\n" + "miss" == "Warm cache\nmiss";
    assert "Warm cache" + "<br>" + "miss" == "Warm cache<br>miss";
    LogTwoLines("Warm cache", "miss", "warning");
  }
}
