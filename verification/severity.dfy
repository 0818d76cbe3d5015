/**
 Translation of a Yii log level tag to the ErrorStream severity ordinal
 (errorstream/ErrorStreamLogger.php lines 110-118).
 */
module Severity {

  const Info := 1
  const Warning := 2
  const Error := 3

  /** The severity levels a report may carry. */
  predicate IsSeverity(n: int)
  {
    n == Info || n == Warning || n == Error
  }

  /** `getSeverity`: starts at 3 and runs five independent `if`s in order, each of
      which overwrites the result when the tag matches; the last match wins. */
  function GetSeverity(level: string): (r: int)
    ensures IsSeverity(r)
    ensures r == Info <==> level == "trace" || level == "info"
    ensures r == Warning <==> level == "profile" || level == "warning"
    ensures r == Error <==> level != "trace" && level != "info" && level != "profile" && level != "warning"
  {
    var s0 := 3;
    var s1 := if level == "trace" then 1 else s0;
    var s2 := if level == "info" then 1 else s1;
    var s3 := if level == "profile" then 2 else s2;
    var s4 := if level == "warning" then 2 else s3;
    var s5 := if level == "error" then 3 else s4;
    s5
  }

  /** The level table as a lookup: one row per Yii level, unknown tags at the top
      severity. */
  function SeverityTable(level: string): int
  {
    match level
    case "trace" => Info
    case "info" => Info
    case "profile" => Warning
    case "warning" => Warning
    case "error" => Error
    case _ => Error
  }

  /** The chain of assignments computes the lookup table. */
  lemma {:induction false} GetSeverityIsTable(level: string)
    ensures GetSeverity(level) == SeverityTable(level)
  {
  }
}
