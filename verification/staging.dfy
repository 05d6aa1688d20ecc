/**
 * What one value does to a record's staging state, and the state of a record
 * part way through its values: the staged fields, the warnings written so
 * far, and the exception that ended the record, if any.
 */
module Staging {
  import opened Wrappers
  import opened Logging

  datatype Step<S> =
    | Stored(stage: S)               // the value set a staged field
    | Unrecognised(warning: LogEntry)  // the value's name is not known; one warning
    | Rejected(failure: Failure)     // the value threw; the record is abandoned

  datatype Scan<S> = Scan(stage: S, warnings: seq<LogEntry>, failure: Option<Failure>)

  function Advance<S>(prior: Scan<S>, step: Step<S>): (next: Scan<S>)
    requires prior.failure.None?
    ensures next.failure.None? <==> !step.Rejected?
    ensures |next.warnings| == |prior.warnings| + (if step.Unrecognised? then 1 else 0)
  {
    match step
    case Stored(s) => prior.(stage := s)
    case Unrecognised(w) => prior.(warnings := prior.warnings + [w])
    case Rejected(f) => prior.(failure := Some(f))
  }
}
