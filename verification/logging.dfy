/**
 * Log messages, one tag per message the engine writes, and the logger that
 * collects them in the order they are written.
 */
module Logging {

  /** Why a record could not be decoded: the exception that escaped into the record's catch. */
  datatype Failure =
    | FormatError       // a Parse call met text that is not a number
    | OverflowError     // a Parse call met a number outside the target integer type
    | TimeOutOfRange    // a seconds or FILETIME value outside the representable instants
    | MoreThanOneMatch  // SingleOrDefault found two programs with the same ProgramID
    | MissingValue      // `.Value` read from a null last-write time
    | NullReference     // a linked program that the second lookup did not find

  const ContactEmail := "saericzimmerman@gmail.com"

  datatype LogEntry =
    | InUseRerouting(hive: string)                // information: the hive is locked, raw copy used
    | DirtyNoLogsAbort                            // warning before the abort
    | DirtyNoLogsContinue                         // warning: dirty, no logs, replay skipped on request
    | DirtyLogsIgnored                            // warning: dirty, logs present, replay skipped on request
    | MissingFileOrProgramsKey                    // error: `Root\File` or `Root\Programs` absent
    | GettingProgramsData                         // debug
    | GettingFilesData                            // debug
    | UnknownProgramValue(keyPath: string, valueName: string)
    | UnknownFileValue(keyPath: string, code: int)
    | ProgramEntryError(keyPath: string, failure: Failure)
    | FileEntryError(keyPath: string, failure: Failure)
    | SendTo(email: string)
    | KeyData(keyPath: string)

  /** The three error lines written when a record is dropped. */
  function ErrorLines(error: LogEntry, keyPath: string): (lines: seq<LogEntry>)
    requires error.ProgramEntryError? || error.FileEntryError?
    ensures |lines| == 3 && lines[0] == error && lines[1] == SendTo(ContactEmail) && lines[2] == KeyData(keyPath)
  {
    [error, SendTo(ContactEmail), KeyData(keyPath)]
  }

  /** The process-wide logger: every message is appended, none is removed. */
  class Logger {
    var entries: seq<LogEntry>

    constructor ()
      ensures entries == []
    {
      entries := [];
    }

    method Write(messages: seq<LogEntry>)
      modifies this
      ensures entries == old(entries) + messages
    {
      entries := entries + messages;
    }
  }
}
