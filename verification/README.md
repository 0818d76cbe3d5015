# ErrorStreamLogger, modelled in Dafny

`ErrorStreamLogger` is a Yii 1 log route that forwards application errors to the
ErrorStream.com service. This project models its event-to-report pipeline:

- **Severity classification** (`getSeverity`): a Yii level tag becomes the ordinal
  1 (trace, info), 2 (profile, warning) or 3 (error and anything unrecognised).
- **Newline normalisation**: `explode("\n", …)` then `implode('<br>', …)` turns a
  multi-line text into one line.
- **Report construction and suppression** in the three entry points:
  `processLogs` (one report per Yii log entry), `reportException` (one report per
  exception, none for a 404) and `handleError` (one report per complete PHP error
  event, none for a malformed one).
- **The debug-mode gate** (`YII_DEBUG === true`) in front of `processLogs` and
  `reportException`.
- **The request URL**: the configured endpoint, `?`, then `api_token` and
  `project_token` as form-encoded query pairs.

The HTTP send is a sink. Each entry point returns an `Outcome`: what the PHP
method returns (`false` or falling off the end, i.e. `null`) and the sequence of
requests it issued, each a URL plus a report. "No report is produced" is "the
sequence is empty". The `YII_DEBUG` constant, the route's configuration and the
form-encoder used by `http_build_query` are fields of an explicit `Env` value.

The code is modelled as written, including its quirks:

- `handleError` puts the event's `file` into `line_number` and its `code` into
  `stack_trace`, and it has no debug-mode check.
- `handleError` calls `sendReport`, which the class does not define. The model treats
  that call as issuing the same request that `makeRequest` issues (see "Left out").
- Log reports carry no `stack_trace` key.
- `handleError` does not normalise newlines, so its reports can be multi-line.
- `processLogs` sends every entry it receives. It does not drop "not found" texts.
- `handleError` insists on `code` and never reads the event's `line`.
- Within the route's own code, `YII_DEBUG` is the only switch, and `handleError` does
  not consult it. The base class's `enabled`, `levels`, `categories`/`except` and
  `filter` settings decide which log entries reach `processLogs`; they belong to the
  Yii wiring that is left out.
- `YII_DEBUG` counts only when it is the boolean `true`. The `statusCode` comparison is PHP's
  loose `==`, so a boolean `true` status code also suppresses the report.

Modules: `Wrappers` (Option), `Strings` (explode/implode/replace), `Php` (values,
`isset`, loose `== '404'`, integer-to-string), `Lines` (the `<br>` normalisation),
`Severity`, `Reports` (report record, configuration, request URL) and `ErrorStream`
(the three entry points).

## Model

| member | source | states |
|---|---|---|
| Severity.GetSeverity | errorstream/ErrorStreamLogger.php:110-118 | the severity is 1 exactly for `trace`/`info`, 2 exactly for `profile`/`warning`, 3 for every other tag, including `error` and unknown tags; it is always one of the three levels |
| Severity.GetSeverityIsTable | errorstream/ErrorStreamLogger.php:110-118 | the source's chain of overwriting `if`s (last match wins, default 3) agrees with a plain lookup table on every tag |
| Strings.Split | errorstream/ErrorStreamLogger.php:90 | `explode` on one character yields one more piece than there are separators, and no piece contains the separator |
| Strings.SplitImplodeIsReplace | errorstream/ErrorStreamLogger.php:137-138 | exploding on a character and imploding with a string is the same as replacing each occurrence of that character with the string |
| Strings.SplitImplodeRoundTrip | errorstream/ErrorStreamLogger.php:90-91 | imploding the pieces with the same separator gives back the original text, so `explode` loses nothing |
| Strings.ImplodeSplitRoundTrip | errorstream/ErrorStreamLogger.php:157 | splitting a join of separator-free pieces gives back exactly those pieces; this is what lets the query string be read back |
| Lines.JoinLines | errorstream/ErrorStreamLogger.php:90-91 | the normalised text has no newline, equals the input when the input had none, is the input with each newline replaced by `<br>`, and is 3 characters longer per newline |
| Lines.JoinLinesAroundNewline | errorstream/ErrorStreamLogger.php:137-138 | two texts joined by a newline normalise to their normal forms joined by `<br>` |
| Lines.JoinLinesIdempotent | errorstream/ErrorStreamLogger.php:90-91 | normalising an already normalised text changes nothing |
| Lines.JoinLinesConflatesMarker | errorstream/ErrorStreamLogger.php:90-91 | the normalisation is not injective: `"a\nb"` and `"a<br>b"` give the same report text |
| Php.IntToStringRoundTrip | errorstream/ErrorStreamLogger.php:141 | the decimal text that `.` produces for any integer line number reads back as that integer |
| Php.IntToStringInjective | errorstream/ErrorStreamLogger.php:141 | different line numbers give different texts |
| ErrorStream.ExceptionGroupRoundTrip | errorstream/ErrorStreamLogger.php:141 | the group key `message:line` can be split at its last `:` to recover the message and the line, even when the message contains `:` |
| ErrorStream.ExceptionGroupInjective | errorstream/ErrorStreamLogger.php:141 | two exceptions share a group key if and only if they share both message and line |
| ErrorStream.LogReport | errorstream/ErrorStreamLogger.php:90-99 | a log report's message is the entry's text with every newline replaced by `<br>`, so it has no newline; the group key equals the message; line 0, file `N/A`, no `stack_trace`, severity from the entry's level |
| ErrorStream.ProcessLogs | errorstream/ErrorStreamLogger.php:80-103 | in debug mode it returns false and sends nothing; otherwise it sends exactly one request per log entry, in input order. Each request goes to the configured URL and carries the entry's single-line text as group and message, line 0, file `N/A`, no trace and the entry's severity, which is always one of the three levels |
| ErrorStream.ExceptionReport | errorstream/ErrorStreamLogger.php:137-146 | the group key is exactly `message:line` and splits back into the exception's message and line; the line, file and message are copied; the trace is the normalised trace text; severity is 3 |
| ErrorStream.ReportException | errorstream/ErrorStreamLogger.php:125-148 | debug mode or a set status code loosely equal to `'404'` returns false and sends nothing; otherwise exactly one request with group `message:line`, the exception's line, file and message, the single-line trace and severity 3 |
| ErrorStream.HandleError | errorstream/ErrorStreamLogger.php:45-73 | returns false and sends nothing if and only if the event is not an object or lacks `message`, `file` or `code`; otherwise one request whose group and message are the event's message, whose `line_number` and `file_name` are the file, whose `stack_trace` is the code, at severity 3 |
| ErrorStream.ReportExceptionWellFormed | errorstream/ErrorStreamLogger.php:140-147 | an exception causes at most one request, always at severity 3 and to the configured URL |
| ErrorStream.HandleErrorWellFormed | errorstream/ErrorStreamLogger.php:62-71 | an error event causes at most one request, always at severity 3 and to the configured URL |
| ErrorStream.HandleErrorIgnoresDebug | errorstream/ErrorStreamLogger.php:45-73 | the outcome of `handleError` does not depend on `YII_DEBUG` |
| ErrorStream.HandleErrorKeepsNewlines | errorstream/ErrorStreamLogger.php:62-67 | for every error message that contains a newline, the report carries the message unchanged, newline included, so it differs from the `<br>`-normalised form the other two paths send |
| ErrorStream.DebugNeedsBooleanTrue | errorstream/ErrorStreamLogger.php:128-130 | `YII_DEBUG` defined as the integer 1 or the string "true" is not debug mode, and an exception is then reported |
| ErrorStream.NotFoundCases | errorstream/ErrorStreamLogger.php:133-135 | outside debug mode, among the status codes the model distinguishes, an exception sends nothing if and only if its status code is the integer 404, the string "404" or the boolean `true` |
| ErrorStream.ExceptionTwoFrames | errorstream/ErrorStreamLogger.php:137-146 | an exception whose trace is two single-line frames gets group `message:line` and the trace `frame1<br>frame2` at severity 3 |
| ErrorStream.DivisionByZeroGroup | errorstream/ErrorStreamLogger.php:141 | the exception "Division by zero" at line 42 groups as "Division by zero:42" |
| ErrorStream.LogTwoLines | errorstream/ErrorStreamLogger.php:90-99 | a two-line log text is sent as its lines joined by `<br>`, as both group and message, with line 0, file `N/A`, no trace and the level's severity |
| ErrorStream.WarmCacheMiss | errorstream/ErrorStreamLogger.php:90-99 | the warning "Warm cache\nmiss" is reported as "Warm cache<br>miss" at severity 2, with line 0, file `N/A` and no trace |
| Reports.MakeRequest | errorstream/ErrorStreamLogger.php:154-157 | a request carries the report unchanged, and its URL is the configured endpoint, `?` and the query built from `api_token` and `project_token` |
| Reports.RequestUrlRoundTrip | errorstream/ErrorStreamLogger.php:156-157 | if the encoder never emits `?`, `&` or `=` and the pair separator is the default `&`, the request URL reads back as the configured endpoint plus exactly two query pairs, `api_token` first and `project_token` second, each with its encoded value |
| Reports.DefaultRequestUrl | errorstream/ErrorStreamLogger.php:20-22 | with the default configuration, requests go to `http://www.errorstream.com/api/1.0/errors/create` with empty `api_token` and `project_token` |

## Left out

- The curl calls (errorstream/ErrorStreamLogger.php:158-171) are network I/O. That covers the POST, the disabled certificate check and the 10-second connect and total timeouts. Requests are appended to the outcome's sequence instead.
- `json_encode` and the `Content-Length` header are left out. They come from a foreign serialiser (RFC 8259 JSON), and the length depends on its exact output. The report is kept as a record.
- The percent-encoding inside `http_build_query` is foreign library code (application/x-www-form-urlencoded). It is the `encode` parameter. Only the `key=value&key=value` structure is modelled, and the URL round trip assumes that the encoder never emits `?`, `&` or `=`. The pair separator is php.ini's `arg_separator.output`, because the call passes no separator; it is taken at its default `&`.
- Yii wiring is framework plumbing, so it is left out. This covers `init`, `handleException` (which only forwards `$event->exception` to `reportException`), the `CLogRoute` base class and its `enabled`, `levels`, `categories`, `except` and `filter` settings, which decide whether and which log entries reach `processLogs`. `YII_DEBUG` is a field of `Env`.
- `getTraceAsString`, `getLine`, `getFile` and `getMessage` are taken as given values on `ExceptionInfo`.
- A Yii log entry's category and timestamp slots are not read by the route and are not modelled. The same goes for the error event's `line` property.
- Reports.RequestUrlRoundTrip: the read-back assumes `arg_separator.output` has its default `&`. Under another setting, such as `&amp;`, the second key would read back as `amp;project_token`. Reports.BuildQuery and Reports.RequestUrl always join with `&`.
- ErrorStream.HandleError: the real route sends nothing for a complete event. `sendReport` is not defined, so Yii's `CComponent::__call` (the route extends `CLogRoute`, a `CComponent`) throws a `CException` at run time. The model instead issues the request that `makeRequest` would issue and returns `null`.
- Php.LooseEqualsText404: compares a string status code by its text only. PHP would also treat other numeric strings as equal to `'404'`, such as "0404", " 404" or "404.0". Floating-point status codes are not modelled.
- ErrorStream.ReportException: inherits that gap. An exception whose status code is such a numeric string is reported by the model, where PHP suppresses it.
- ErrorStream.NotFoundCases: inherits that gap. Its if-and-only-if holds only for the status codes the model distinguishes, not for numeric strings such as "0404".
- Log texts and levels are taken to be strings. PHP would also accept other values in those array slots.
